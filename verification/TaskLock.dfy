// The task lock: acquire (with re-entry and stealing) and release over one row.
module TaskLock {
  import opened Domain

  datatype Lock = Lock(owner: string, lockedAt: int)
  datatype Taken = Acquired | Reentrant | HeldLive | HeldStale | Stolen

  /** `owner.rsplit(":", 1)[0]`: the host and process part. */
  function Head(owner: string): string {
    if ':' !in owner then owner
    else if owner[|owner| - 1] == ':' then owner[..|owner| - 1]
    else Head(owner[..|owner| - 1])
  }

  predicate SameProcess(a: string, b: string) {
    Head(a) == Head(b)
  }

  /** Owners are written `host:pid:uuid`; the tail never matters to the comparison. */
  lemma {:induction false} HeadOfOwner(process: string, tail: string)
    requires ':' !in tail
    ensures Head(process + ":" + tail) == process
  {
    var owner := process + ":" + tail;
    assert owner[|process|] == ':';
    if tail == "" {
      assert owner[..|owner| - 1] == process;
    } else {
      assert owner[|owner| - 1] == tail[|tail| - 1];
      assert owner[..|owner| - 1] == process + ":" + tail[..|tail| - 1];
      HeadOfOwner(process, tail[..|tail| - 1]);
    }
  }

  function Acquire(row: Option<Lock>, owner: string, now: int, threshold: int, steal: bool): (Option<Lock>, Taken) {
    match row
    case None => (Some(Lock(owner, now)), Acquired)
    case Some(lock) =>
      if SameProcess(lock.owner, owner) then (row, Reentrant)
      else if steal then (Some(Lock(owner, now)), Stolen)
      else (row, if now - lock.lockedAt >= threshold then HeldStale else HeldLive)
  }

  function Release(row: Option<Lock>, owner: string): Option<Lock> {
    if row.Some? && row.value.owner == owner then None else row
  }

  /** The five answers, and the row each leaves: free, the same process again, taken over by force, old enough to be
      taken over, or live. */
  lemma {:induction false} AcquireExactly(row: Option<Lock>, owner: string, now: int, threshold: int, steal: bool)
    ensures
      var (after, taken) := Acquire(row, owner, now, threshold, steal);
      var own := row.Some? && Head(row.value.owner) == Head(owner);
      var since := if row.Some? then row.value.lockedAt else now;
      && (taken == Acquired <==> row == None)
      && (taken == Reentrant <==> own)
      && (taken == Stolen <==> row.Some? && !own && steal)
      && (taken == HeldStale <==> row.Some? && !own && !steal && since + threshold <= now)
      && (taken == HeldLive <==> row.Some? && !own && !steal && now < since + threshold)
      && after == (if taken in {Acquired, Stolen} then Some(Lock(owner, now)) else row)
  {
  }

  class LockTable {
    var row: Option<Lock>

    constructor ()
      ensures row == None
    {
      row := None;
    }

    /** `acquire_task_lock` */
    method AcquireTaskLock(owner: string, now: int, threshold: int, steal: bool) returns (taken: Taken)
      modifies this
      ensures (row, taken) == Acquire(old(row), owner, now, threshold, steal)
    {
      if row.None? {
        row := Some(Lock(owner, now));
        return Acquired;
      }
      if SameProcess(row.value.owner, owner) { return Reentrant; }
      var stale := now - row.value.lockedAt >= threshold;
      if !stale && !steal { return HeldLive; }
      if stale && !steal { return HeldStale; }
      row := Some(Lock(owner, now));
      return Stolen;
    }

    /** `release_task_lock` */
    method ReleaseTaskLock(owner: string)
      modifies this
      ensures row == Release(old(row), owner)
    {
      if row.None? { return; }
      if row.value.owner == owner { row := None; }
    }
  }

  // ---- who holds the lock -------------------------------------------------------------------------

  /** The row, and the owners that were told they may go on and have neither released nor lost
      the lock to a thief since. */
  datatype State = State(row: Option<Lock>, claims: set<string>)

  datatype Call =
    | AcquireCall(owner: string, now: int, threshold: int, steal: bool)
    | ReleaseCall(owner: string)

  function Next(s: State, c: Call): State {
    match c
    case AcquireCall(owner, now, threshold, steal) =>
      var (row, taken) := Acquire(s.row, owner, now, threshold, steal);
      State(row, match taken
                 case Acquired => s.claims + {owner}
                 case Reentrant => s.claims + {owner}
                 case Stolen => {owner}
                 case _ => s.claims)
    case ReleaseCall(owner) => State(Release(s.row, owner), s.claims - {owner})
  }

  function After(s: State, calls: seq<Call>): State
    decreases |calls|
  {
    if calls == [] then s else After(Next(s, calls[0]), calls[1..])
  }

  /** No two processes hold the lock at once. */
  ghost predicate Exclusive(s: State) {
    forall a, b :: a in s.claims && b in s.claims ==> SameProcess(a, b)
  }

  /** Every claim is guarded by a row of its own process. */
  ghost predicate Guarded(s: State) {
    forall a :: a in s.claims ==> s.row.Some? && SameProcess(s.row.value.owner, a)
  }

  /** The recorded owner lets go while a re-entrant claim of its process is still out. */
  predicate Abandons(s: State, c: Call) {
    c.ReleaseCall? && s.row.Some? && s.row.value.owner == c.owner && s.claims - {c.owner} != {}
  }

  ghost predicate NeverAbandons(s: State, calls: seq<Call>)
    decreases |calls|
  {
    calls != [] ==> !Abandons(s, calls[0]) && NeverAbandons(Next(s, calls[0]), calls[1..])
  }

  lemma GuardedIsExclusive(s: State)
    requires Guarded(s)
    ensures Exclusive(s)
  {
  }

  /** The exact condition for one call: claims stay guarded unless the call abandons one. */
  lemma GuardedIff(s: State, c: Call)
    requires Guarded(s)
    ensures Guarded(Next(s, c)) <==> !Abandons(s, c)
  {
    if Abandons(s, c) {
      var a :| a in s.claims - {c.owner};
      assert a in Next(s, c).claims;
    }
  }

  /** Over any run in which no re-entrant claim is abandoned, two processes never both hold it. */
  lemma {:induction false} RunsAreExclusive(s: State, calls: seq<Call>)
    requires Guarded(s) && NeverAbandons(s, calls)
    ensures Guarded(After(s, calls)) && Exclusive(After(s, calls))
    decreases |calls|
  {
    if calls != [] {
      GuardedIff(s, calls[0]);
      RunsAreExclusive(Next(s, calls[0]), calls[1..]);
    } else {
      GuardedIsExclusive(s);
    }
  }

  /** An abandoned claim really is unprotected: the very next process to ask gets the lock too. */
  lemma AbandonedClaimLosesExclusion(s: State, c: Call, other: string, now: int)
    requires Guarded(s) && Abandons(s, c) && !SameProcess(s.row.value.owner, other)
    ensures !Exclusive(Next(Next(s, c), AcquireCall(other, now, 0, false)))
  {
    var a :| a in s.claims - {c.owner};
    var t := Next(Next(s, c), AcquireCall(other, now, 0, false));
    assert a in t.claims && other in t.claims && SameProcess(s.row.value.owner, a);
  }

  /** The run that does it, for any owners: one process enters twice (`a`, then `b`) and leaves
      once, and another (`c`) walks in. */
  lemma ReentryBreaksExclusion(a: string, b: string, c: string)
    requires a != b && SameProcess(a, b) && !SameProcess(a, c)
    ensures var calls := [AcquireCall(a, 0, 60, false), AcquireCall(b, 1, 60, false), ReleaseCall(a),
                          AcquireCall(c, 2, 0, false)];
            !Exclusive(After(State(None, {}), calls))
  {
    hide Head;
    var (c0, c1, c2, c3) := (AcquireCall(a, 0, 60, false), AcquireCall(b, 1, 60, false), ReleaseCall(a),
                             AcquireCall(c, 2, 0, false));
    var s2 := State(Some(Lock(a, 0)), {a, b});
    assert Next(Next(State(None, {}), c0), c1) == s2;
    assert Guarded(s2) && b in s2.claims - {a};
    AbandonedClaimLosesExclusion(s2, c2, c, 2);
    FourCalls(State(None, {}), c0, c1, c2, c3);
  }

  lemma {:induction false} FourCalls(s: State, c0: Call, c1: Call, c2: Call, c3: Call)
    ensures After(s, [c0, c1, c2, c3]) == Next(Next(Next(Next(s, c0), c1), c2), c3)
  {
    hide Next;
    assert [c0, c1, c2, c3][1..] == [c1, c2, c3] && [c1, c2, c3][1..] == [c2, c3];
    assert [c2, c3][1..] == [c3] && [c3][1..] == [];
    var t := Next(Next(s, c0), c1);
    assert After(t, [c2, c3]) == After(Next(t, c2), [c3]) == Next(Next(t, c2), c3);
    assert After(s, [c0, c1, c2, c3]) == After(Next(s, c0), [c1, c2, c3]);
  }

  // ---- the recorded owner --------------------------------------------------------------------------

  /** The ways a recorded owner can go: by its own release, or by a steal of another process. */
  predicate Displaces(s: State, c: Call, owner: string) {
    match c
    case ReleaseCall(o) => o == owner
    case AcquireCall(o, _, _, steal) => steal && !SameProcess(owner, o)
  }

  /** Once recorded, an owner stays so through anything but its own release or a steal by another
      process; in particular the release of an owner it displaced never frees its lock. */
  lemma {:induction false} OwnerStays(s: State, calls: seq<Call>, owner: string)
    requires s.row.Some? && s.row.value.owner == owner
    requires forall i :: 0 <= i < |calls| ==> !Displaces(s, calls[i], owner)
    ensures After(s, calls).row == s.row
    decreases |calls|
  {
    if calls != [] {
      assert !Displaces(s, calls[0], owner);
      var rest := calls[1..];
      forall i | 0 <= i < |rest| ensures !Displaces(Next(s, calls[0]), rest[i], owner) {
        assert rest[i] == calls[i + 1];
        assert !Displaces(s, calls[i + 1], owner);
      }
      OwnerStays(Next(s, calls[0]), rest, owner);
    }
  }

  /** A steal takes every earlier claim, and the thief's lock outlives all their releases. */
  lemma ThiefKeepsLock(s: State, thief: string, now: int, releases: seq<string>)
    requires s.row.Some? && !SameProcess(s.row.value.owner, thief)
    requires forall i :: 0 <= i < |releases| ==> releases[i] != thief
    ensures var t := Next(s, AcquireCall(thief, now, 0, true));
            && t.claims == {thief}
            && After(t, seq(|releases|, i requires 0 <= i < |releases| => ReleaseCall(releases[i]))).row == Some(Lock(thief, now))
  {
    OwnerStays(Next(s, AcquireCall(thief, now, 0, true)),
               seq(|releases|, i requires 0 <= i < |releases| => ReleaseCall(releases[i])), thief);
  }
}
