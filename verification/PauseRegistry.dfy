/**
  A node's copy of the pause rows: a snapshot that is rebuilt and swapped on every change. The
  dispatch step of the protocol decides with the scopes of such a snapshot.
 */
module PauseRegistry {
  import opened Types
  import P = Protocol

  datatype Pause = Pause(scope: Scope, reason: string, pausedAt: Time)

  datatype Snapshot = Snapshot(global: Option<Pause>, consumers: map<ConsumerId, Pause>)

  /** The pauses of a list by scope, the last one of a scope winning. */
  function ByScope(pauses: seq<Pause>): map<Scope, Pause> {
    if pauses == [] then map[] else
    var last := pauses[|pauses| - 1];
    ByScope(pauses[..|pauses| - 1])[last.scope := last]
  }

  /** The snapshot says exactly this about every scope. */
  ghost predicate Shows(snapshot: Snapshot, pauses: map<Scope, Pause>) {
    && (snapshot.global.Some? <==> Global in pauses) && (Global in pauses ==> snapshot.global == Some(pauses[Global]))
    && forall c :: (c in snapshot.consumers <==> Consumer(c) in pauses) && (c in snapshot.consumers ==> snapshot.consumers[c] == pauses[Consumer(c)])
  }

  method NewPauseSnapshot(pauses: seq<Pause>) returns (snapshot: Snapshot)
    ensures Shows(snapshot, ByScope(pauses))
  {
    snapshot := Snapshot(None, map[]);
    for i := 0 to |pauses|
      invariant Shows(snapshot, ByScope(pauses[..i]))
    {
      var pause := pauses[i];
      assert pauses[..i + 1][..i] == pauses[..i];
      if pause.scope.Global? {
        snapshot := snapshot.(global := Some(pause));
      } else {
        snapshot := snapshot.(consumers := snapshot.consumers[pause.scope.consumer := pause]);
      }
    }
    assert pauses[..|pauses|] == pauses;
  }

  lemma ByScopeGrows(pauses: seq<Pause>, pause: Pause)
    ensures ByScope(pauses + [pause]) == ByScope(pauses)[pause.scope := pause]
  {
    assert (pauses + [pause])[..|pauses|] == pauses;
  }

  lemma {:induction false} ByScopeFiles(pauses: seq<Pause>, scope: Scope)
    ensures scope in ByScope(pauses) ==> ByScope(pauses)[scope].scope == scope
    ensures scope in ByScope(pauses) <==> exists i :: 0 <= i < |pauses| && pauses[i].scope == scope
  {
    if pauses != [] {
      var n := |pauses| - 1;
      assert pauses == pauses[..n] + [pauses[n]];
      ByScopeFiles(pauses[..n], scope);
    }
  }

  /** The list with the given pause in place of those of the same scope. */
  function Replaced(pauses: seq<Pause>, pause: Pause): seq<Pause> {
    seq(|pauses|, i requires 0 <= i < |pauses| => if pauses[i].scope == pause.scope then pause else pauses[i])
  }

  lemma {:induction false} ReplacedByScope(pauses: seq<Pause>, pause: Pause)
    ensures ByScope(Replaced(pauses, pause)) ==
            if pause.scope in ByScope(pauses) then ByScope(pauses)[pause.scope := pause] else ByScope(pauses)
  {
    if pauses != [] {
      var n := |pauses| - 1;
      ReplacedByScope(pauses[..n], pause);
      assert Replaced(pauses, pause)[..n] == Replaced(pauses[..n], pause);
    }
  }

  function Without(pauses: seq<Pause>, scope: Scope): seq<Pause> {
    if pauses == [] then [] else
    var n := |pauses| - 1;
    Without(pauses[..n], scope) + if pauses[n].scope != scope then [pauses[n]] else []
  }

  lemma DropOther(m: map<Scope, Pause>, pause: Pause, scope: Scope)
    requires pause.scope != scope
    ensures m[pause.scope := pause] - {scope} == (m - {scope})[pause.scope := pause]
  {
  }

  lemma DropSame(m: map<Scope, Pause>, pause: Pause)
    ensures m[pause.scope := pause] - {pause.scope} == m - {pause.scope}
  {
  }

  lemma {:induction false} WithoutByScope(pauses: seq<Pause>, scope: Scope)
    ensures ByScope(Without(pauses, scope)) == ByScope(pauses) - {scope}
  {
    if pauses == [] {
      assert Without(pauses, scope) == [];
    } else {
      var init, last := pauses[..|pauses| - 1], pauses[|pauses| - 1];
      WithoutByScope(init, scope);
      if last.scope != scope {
        ByScopeGrows(Without(init, scope), last);
        DropOther(ByScope(init), last, scope);
      } else {
        assert Without(pauses, scope) == Without(init, scope);
        DropSame(ByScope(init), last);
      }
    }
  }

  /** Every known pause, in some order. */
  method All(snapshot: Snapshot, ghost known: map<Scope, Pause>) returns (pauses: seq<Pause>)
    requires Shows(snapshot, known) && forall scope | scope in known :: known[scope].scope == scope
    ensures ByScope(pauses) == known
  {
    pauses := if snapshot.global.Some? then [snapshot.global.value] else [];
    ByScopeGrows([], if snapshot.global.Some? then snapshot.global.value else Pause(Global, "", 0));
    var left := snapshot.consumers.Keys;
    while left != {}
      invariant left <= snapshot.consumers.Keys
      invariant forall scope :: scope in ByScope(pauses) <==> scope in known && (scope.Consumer? ==> scope.consumer !in left)
      invariant forall scope | scope in ByScope(pauses) :: ByScope(pauses)[scope] == known[scope]
      decreases |left|
    {
      var c :| c in left;
      ByScopeGrows(pauses, snapshot.consumers[c]);
      pauses := pauses + [snapshot.consumers[c]];
      left := left - {c};
    }
  }

  class Registry {
    var state: Snapshot
    ghost var known: map<Scope, Pause>

    /** The snapshot shows the known pauses, each filed under its own scope. */
    ghost predicate Valid()
      reads this
    {
      Shows(state, known) && forall scope | scope in known :: known[scope].scope == scope
    }

    constructor ()
      ensures Valid() && known == map[]
    {
      state, known := Snapshot(None, map[]), map[];
    }

    method Publish(pauses: seq<Pause>)
      modifies this
      ensures Valid() && known == ByScope(pauses)
    {
      state := NewPauseSnapshot(pauses);
      known := ByScope(pauses);
      forall scope | scope in known ensures known[scope].scope == scope {
        ByScopeFiles(pauses, scope);
      }
    }

    method Apply(pause: Pause)
      requires Valid()
      modifies this
      ensures Valid() && known == old(known)[pause.scope := pause]
    {
      var pauses := All(state, known);
      ghost var before := pauses;
      var replaced := false;
      for i := 0 to |pauses|
        invariant |pauses| == |before| && forall j | i <= j < |pauses| :: pauses[j] == before[j]
        invariant forall j | 0 <= j < i :: pauses[j] == if before[j].scope == pause.scope then pause else before[j]
        invariant replaced <==> exists j :: 0 <= j < i && before[j].scope == pause.scope
      {
        if pauses[i].scope == pause.scope {
          pauses := pauses[i := pause];
          replaced := true;
        }
      }
      assert pauses == Replaced(before, pause);
      ReplacedByScope(before, pause);
      ByScopeFiles(before, pause.scope);
      ByScopeGrows(pauses, pause);
      if !replaced { pauses := pauses + [pause]; }
      Publish(pauses);
    }

    method Remove(scope: Scope)
      requires Valid()
      modifies this
      ensures Valid() && known == old(known) - {scope}
    {
      var pauses := All(state, known);
      var remaining := [];
      for i := 0 to |pauses|
        invariant remaining == Without(pauses[..i], scope)
      {
        assert pauses[..i + 1][..i] == pauses[..i];
        if pauses[i].scope != scope { remaining := remaining + [pauses[i]]; }
      }
      assert pauses[..|pauses|] == pauses;
      WithoutByScope(pauses, scope);
      Publish(remaining);
    }

    /** `rows` is what the database returned, or nothing when the read failed: then the snapshot is kept. */
    method Refresh(rows: Option<seq<Pause>>) returns (ok: bool)
      requires Valid()
      modifies this
      ensures Valid() && ok == rows.Some? && known == if ok then ByScope(rows.value) else old(known)
    {
      if rows.None? { return false; }
      Publish(rows.value);
      return true;
    }

    /** The test of the dispatch step, with the scopes of the known pauses as its snapshot. */
    method IsEffectivelyPaused(c: ConsumerId) returns (paused: bool)
      requires Valid()
      ensures paused == P.Covered(known.Keys, c)
    {
      if state.global.Some? { return true; }
      return c in state.consumers;
    }
  }
}
