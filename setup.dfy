/**
  The binding loop of the device constructor, as a function of the binding
  table and the client's answers. For each binding in order: reuse the handle
  if its path is already in the interface map, otherwise ask the client and
  insert the handle on success; a binding whose path cannot be resolved is
  invalid and registers nothing; any other binding registers the callback its
  type calls for and stays valid exactly when that registration succeeds.
*/
module Setup {
  import opened Wrappers
  import opened InputTypes
  import opened BindingTable

  /** How a binding got its interface handle. */
  datatype Resolution =
    | Reused(handle: Handle)     // the path was already in the map
    | Resolved(handle: Handle)   // the client resolved the path for this binding
    | Failed                     // the client could not resolve the path

  /**
    The state the loop builds: the path-to-handle map, the resolution and the
    validity of each binding processed so far, and the calls made to the client.
  */
  datatype SetupState = SetupState(
    interfaces: map<Path, Handle>,
    resolutions: seq<Resolution>,
    valid: seq<bool>,
    calls: seq<ClientCall>)

  /** One iteration of the loop, for binding number |s.valid|. */
  function SetupOne(client: Client, s: SetupState, kind: ButtonType, path: Path): (s': SetupState)
    requires |s.resolutions| == |s.valid|
    ensures |s'.resolutions| == |s'.valid| == |s.valid| + 1
    ensures s'.resolutions[..|s.valid|] == s.resolutions && s'.valid[..|s.valid|] == s.valid
    ensures |s.calls| <= |s'.calls| && s'.calls[..|s.calls|] == s.calls
    ensures forall p :: p in s.interfaces ==> p in s'.interfaces && s'.interfaces[p] == s.interfaces[p]
  {
    var i := |s.valid|;
    var answer := client.getInterface(s.calls, path);
    var resolution :=
      if path in s.interfaces then Reused(s.interfaces[path])
      else if answer.Some? then Resolved(answer.value)
      else Failed;
    var calls := if path in s.interfaces then s.calls else s.calls + [GetInterface(path, answer)];
    var interfaces := if resolution.Resolved? then s.interfaces[path := resolution.handle] else s.interfaces;
    if resolution.Failed? then
      SetupState(interfaces, s.resolutions + [Failed], s.valid + [false], calls)
    else
      var callback := CallbackFor(kind);
      var ok := client.register(calls, resolution.handle, callback, i);
      SetupState(interfaces, s.resolutions + [resolution], s.valid + [ok],
                 calls + [Register(resolution.handle, callback, i, ok)])
  }

  /** The whole loop over `decls`, starting from an empty map and no calls. */
  function SetupAll(client: Client, decls: seq<Decl>): (s: SetupState)
    ensures |s.resolutions| == |s.valid| == |decls|
  {
    if decls == [] then SetupState(map[], [], [], [])
    else
      var n := |decls| - 1;
      SetupOne(client, SetupAll(client, decls[..n]), decls[n].kind, decls[n].path)
  }

  /** The last binding's step leaves the earlier resolutions, flags and calls as they were. */
  lemma SetupLast(client: Client, decls: seq<Decl>)
    requires decls != []
    ensures var n := |decls| - 1;
      var s0, s := SetupAll(client, decls[..n]), SetupAll(client, decls);
      && s == SetupOne(client, s0, decls[n].kind, decls[n].path)
      && (forall i :: 0 <= i < n ==>
            decls[..n][i] == decls[i] && s.resolutions[i] == s0.resolutions[i] && s.valid[i] == s0.valid[i])
      && (forall k :: 0 <= k < |s0.calls| ==> s.calls[k] == s0.calls[k])
      && (decls[n].path in s0.interfaces ==>
            s.resolutions[n] == Reused(s0.interfaces[decls[n].path]) && s.interfaces == s0.interfaces)
      && (s.resolutions[n].Resolved? ==>
            decls[n].path !in s0.interfaces && s.interfaces == s0.interfaces[decls[n].path := s.resolutions[n].handle])
      && (s.resolutions[n].Failed? ==>
            decls[n].path !in s0.interfaces && s.interfaces == s0.interfaces && !s.valid[n])
  {
    var n := |decls| - 1;
    var s0, s := SetupAll(client, decls[..n]), SetupAll(client, decls);
    assert s.resolutions[..n] == s0.resolutions && s.valid[..n] == s0.valid;
    assert s.calls[..|s0.calls|] == s0.calls;
    forall i | 0 <= i < n
      ensures s.resolutions[i] == s0.resolutions[i] && s.valid[i] == s0.valid[i]
    {
      assert s.resolutions[..n][i] == s.resolutions[i] && s.valid[..n][i] == s.valid[i];
    }
    forall k | 0 <= k < |s0.calls|
      ensures s.calls[k] == s0.calls[k]
    {
      assert s.calls[..|s0.calls|][k] == s.calls[k];
    }
  }

  /** Every path in the map was resolved by some binding, and maps to the handle that binding got. */
  lemma {:induction false} SetupKeysResolved(client: Client, decls: seq<Decl>)
    ensures var s := SetupAll(client, decls);
      forall p :: p in s.interfaces ==>
        exists i :: 0 <= i < |decls| && decls[i].path == p && s.resolutions[i] == Resolved(s.interfaces[p])
  {
    if decls != [] {
      var n := |decls| - 1;
      SetupKeysResolved(client, decls[..n]);
      SetupLast(client, decls);
      var s0, s := SetupAll(client, decls[..n]), SetupAll(client, decls);
      forall p | p in s.interfaces
        ensures exists i :: 0 <= i < |decls| && decls[i].path == p && s.resolutions[i] == Resolved(s.interfaces[p])
      {
        if p in s0.interfaces && s.interfaces[p] == s0.interfaces[p] {
          var i :| 0 <= i < n && decls[..n][i].path == p && s0.resolutions[i] == Resolved(s0.interfaces[p]);
          assert decls[i].path == p && s.resolutions[i] == Resolved(s.interfaces[p]);
        } else {
          assert decls[n].path == p && s.resolutions[n] == Resolved(s.interfaces[p]);
        }
      }
    }
  }

  /** Every binding that did not fail holds the map's handle for its path. */
  lemma {:induction false} SetupHandlesInMap(client: Client, decls: seq<Decl>)
    ensures var s := SetupAll(client, decls);
      forall i :: 0 <= i < |decls| && !s.resolutions[i].Failed? ==>
        decls[i].path in s.interfaces && s.interfaces[decls[i].path] == s.resolutions[i].handle
  {
    if decls != [] {
      var n := |decls| - 1;
      SetupHandlesInMap(client, decls[..n]);
      SetupLast(client, decls);
      var s0, s := SetupAll(client, decls[..n]), SetupAll(client, decls);
      forall i | 0 <= i < |decls| && !s.resolutions[i].Failed?
        ensures decls[i].path in s.interfaces && s.interfaces[decls[i].path] == s.resolutions[i].handle
      {
        if i < n {
          assert decls[..n][i].path in s0.interfaces;
        }
      }
    }
  }

  /** Every successful GetInterface call put its handle in the map, under its path. */
  lemma {:induction false} SetupCallsInMap(client: Client, decls: seq<Decl>)
    ensures var s := SetupAll(client, decls);
      forall k :: 0 <= k < |s.calls| && s.calls[k].GetInterface? && s.calls[k].result.Some? ==>
        s.calls[k].path in s.interfaces && s.interfaces[s.calls[k].path] == s.calls[k].result.value
  {
    if decls != [] {
      var n := |decls| - 1;
      SetupCallsInMap(client, decls[..n]);
      SetupLast(client, decls);
      var s0, s := SetupAll(client, decls[..n]), SetupAll(client, decls);
      forall k | 0 <= k < |s.calls| && s.calls[k].GetInterface? && s.calls[k].result.Some?
        ensures s.calls[k].path in s.interfaces && s.interfaces[s.calls[k].path] == s.calls[k].result.value
      {
        if k < |s0.calls| {
          assert s.calls[k] == s0.calls[k];
          assert s0.calls[k].path in s0.interfaces;
        }
      }
    }
  }

  /**
    Reuse: a binding reuses a handle exactly when an earlier binding with the
    same path resolved it. So a path whose earlier attempts all failed is
    asked for again by the next binding that names it.
  */
  lemma {:induction false} SetupReuse(client: Client, decls: seq<Decl>)
    ensures var s := SetupAll(client, decls);
      forall j :: 0 <= j < |decls| ==>
        (s.resolutions[j].Reused? <==>
           exists i :: 0 <= i < j && decls[i].path == decls[j].path && s.resolutions[i].Resolved?)
  {
    if decls != [] {
      var n := |decls| - 1;
      SetupReuse(client, decls[..n]);
      SetupLast(client, decls);
      SetupReuseLast(client, decls);
      var s0, s := SetupAll(client, decls[..n]), SetupAll(client, decls);
      forall j | 0 <= j < n
        ensures s.resolutions[j].Reused? <==>
          exists i :: 0 <= i < j && decls[i].path == decls[j].path && s.resolutions[i].Resolved?
      {
        assert s0.resolutions[j].Reused? <==>
          exists i :: 0 <= i < j && decls[..n][i].path == decls[..n][j].path && s0.resolutions[i].Resolved?;
      }
    }
  }

  /** The reuse property for the last binding, from the map the earlier ones built. */
  lemma SetupReuseLast(client: Client, decls: seq<Decl>)
    requires decls != []
    ensures var s, n := SetupAll(client, decls), |decls| - 1;
      s.resolutions[n].Reused? <==>
        exists i :: 0 <= i < n && decls[i].path == decls[n].path && s.resolutions[i].Resolved?
  {
    var n := |decls| - 1;
    SetupLast(client, decls);
    var s0, s := SetupAll(client, decls[..n]), SetupAll(client, decls);
    var path := decls[n].path;
    if path in s0.interfaces {
      SetupKeysResolved(client, decls[..n]);
      var i :| 0 <= i < n && decls[..n][i].path == path && s0.resolutions[i] == Resolved(s0.interfaces[path]);
      assert decls[i].path == path && s.resolutions[i].Resolved?;
    } else {
      SetupHandlesInMap(client, decls[..n]);
      forall i | 0 <= i < n && decls[i].path == path
        ensures !s.resolutions[i].Resolved?
      {
        assert decls[..n][i].path == path;
      }
    }
  }

  /**
    A path, once resolved, is never resolved again: every later binding that
    names it reuses the very handle the first one got.
  */
  lemma SetupReuseSameHandle(client: Client, decls: seq<Decl>)
    ensures var s := SetupAll(client, decls);
      forall i, j :: 0 <= i < j < |decls| && decls[i].path == decls[j].path && s.resolutions[i].Resolved? ==>
        s.resolutions[j] == Reused(s.resolutions[i].handle)
  {
    SetupReuse(client, decls);
    SetupHandlesInMap(client, decls);
  }

  /** A binding whose path could not be resolved is invalid. */
  lemma {:induction false} SetupFailedInvalid(client: Client, decls: seq<Decl>)
    ensures var s := SetupAll(client, decls);
      forall i :: 0 <= i < |decls| && s.resolutions[i].Failed? ==> !s.valid[i]
  {
    if decls != [] {
      SetupFailedInvalid(client, decls[..|decls| - 1]);
      SetupLast(client, decls);
    }
  }

  /**
    Every registration belongs to a binding that did not fail to resolve,
    passes that binding's handle and the callback its type calls for, and
    succeeded exactly when the binding is valid.
  */
  lemma {:induction false} SetupRegistrationsMatch(client: Client, decls: seq<Decl>)
    ensures var s := SetupAll(client, decls);
      && (forall k :: 0 <= k < |s.calls| && s.calls[k].Register? ==>
            && s.calls[k].binding < |decls|
            && !s.resolutions[s.calls[k].binding].Failed?
            && s.calls[k].handle == s.resolutions[s.calls[k].binding].handle
            && s.calls[k].callback == CallbackFor(decls[s.calls[k].binding].kind)
            && s.calls[k].ok == s.valid[s.calls[k].binding])
  {
    if decls != [] {
      var n := |decls| - 1;
      SetupRegistrationsMatch(client, decls[..n]);
      SetupLast(client, decls);
      var s0, s := SetupAll(client, decls[..n]), SetupAll(client, decls);
      forall k | 0 <= k < |s.calls| && s.calls[k].Register?
        ensures && s.calls[k].binding < |decls|
                && !s.resolutions[s.calls[k].binding].Failed?
                && s.calls[k].handle == s.resolutions[s.calls[k].binding].handle
                && s.calls[k].callback == CallbackFor(decls[s.calls[k].binding].kind)
                && s.calls[k].ok == s.valid[s.calls[k].binding]
      {
        if k < |s0.calls| {
          assert s.calls[k] == s0.calls[k];
          assert decls[..n][s0.calls[k].binding] == decls[s0.calls[k].binding];
        }
      }
    }
  }

  /** Registrations come in table order, so there is at most one per binding. */
  lemma {:induction false} SetupRegistrationOrder(client: Client, decls: seq<Decl>)
    ensures var s := SetupAll(client, decls);
      forall k1, k2 :: 0 <= k1 < k2 < |s.calls| && s.calls[k1].Register? && s.calls[k2].Register? ==>
        s.calls[k1].binding < s.calls[k2].binding
  {
    if decls != [] {
      var n := |decls| - 1;
      SetupRegistrationOrder(client, decls[..n]);
      SetupRegistrationsMatch(client, decls[..n]);
      SetupLast(client, decls);
      var s0, s := SetupAll(client, decls[..n]), SetupAll(client, decls);
      forall k1, k2 | 0 <= k1 < k2 < |s.calls| && s.calls[k1].Register? && s.calls[k2].Register?
        ensures s.calls[k1].binding < s.calls[k2].binding
      {
        if k2 < |s0.calls| {
          assert s.calls[k1] == s0.calls[k1] && s.calls[k2] == s0.calls[k2];
        } else if k1 < |s0.calls| {
          assert s.calls[k1] == s0.calls[k1];
        }
      }
    }
  }

  /** Every binding that did not fail to resolve registered the callback its type calls for. */
  lemma {:induction false} SetupRegistered(client: Client, decls: seq<Decl>)
    ensures var s := SetupAll(client, decls);
      forall i :: 0 <= i < |decls| && !s.resolutions[i].Failed? ==>
        exists k :: 0 <= k < |s.calls| &&
          s.calls[k] == Register(s.resolutions[i].handle, CallbackFor(decls[i].kind), i, s.valid[i])
  {
    if decls != [] {
      var n := |decls| - 1;
      SetupRegistered(client, decls[..n]);
      SetupLast(client, decls);
      var s0, s := SetupAll(client, decls[..n]), SetupAll(client, decls);
      forall i | 0 <= i < |decls| && !s.resolutions[i].Failed?
        ensures exists k :: 0 <= k < |s.calls| &&
                  s.calls[k] == Register(s.resolutions[i].handle, CallbackFor(decls[i].kind), i, s.valid[i])
      {
        if i == n {
          assert s.calls[|s.calls| - 1] == Register(s.resolutions[i].handle, CallbackFor(decls[i].kind), i, s.valid[i]);
        } else {
          var k :| 0 <= k < |s0.calls| &&
            s0.calls[k] == Register(s0.resolutions[i].handle, CallbackFor(decls[..n][i].kind), i, s0.valid[i]);
          assert s.calls[k] == s0.calls[k];
        }
      }
    }
  }

  /**
    Every binding that did not reuse a handle asked the client for its path,
    and the answer recorded for it is the one the client gave.
  */
  lemma {:induction false} SetupAsked(client: Client, decls: seq<Decl>)
    ensures var s := SetupAll(client, decls);
      forall i :: 0 <= i < |decls| && !s.resolutions[i].Reused? ==>
        exists k :: 0 <= k < |s.calls| &&
          s.calls[k] == GetInterface(decls[i].path, if s.resolutions[i].Failed? then None else Some(s.resolutions[i].handle))
  {
    if decls != [] {
      var n := |decls| - 1;
      SetupAsked(client, decls[..n]);
      SetupLast(client, decls);
      var s0, s := SetupAll(client, decls[..n]), SetupAll(client, decls);
      forall i | 0 <= i < |decls| && !s.resolutions[i].Reused?
        ensures exists k :: 0 <= k < |s.calls| &&
                  s.calls[k] == GetInterface(decls[i].path, if s.resolutions[i].Failed? then None else Some(s.resolutions[i].handle))
      {
        var call := GetInterface(decls[i].path, if s.resolutions[i].Failed? then None else Some(s.resolutions[i].handle));
        if i == n {
          assert s.calls[|s0.calls|] == call;
        } else {
          assert decls[..n][i] == decls[i];
          var k :| 0 <= k < |s0.calls| && s0.calls[k] == call;
          assert s.calls[k] == call;
        }
      }
    }
  }

  /**
    No path is resolved twice: after a successful GetInterface for a path, the
    loop never asks the client for that path again.
  */
  lemma {:induction false} SetupResolvesOnce(client: Client, decls: seq<Decl>)
    ensures var s := SetupAll(client, decls);
      forall k1, k2 ::
        (0 <= k1 < k2 < |s.calls| && s.calls[k1].GetInterface? && s.calls[k1].result.Some? && s.calls[k2].GetInterface?)
        ==> s.calls[k2].path != s.calls[k1].path
  {
    if decls != [] {
      var n := |decls| - 1;
      SetupResolvesOnce(client, decls[..n]);
      SetupCallsInMap(client, decls[..n]);
      SetupLast(client, decls);
    }
  }
}
