/**
 * The exact time of a report: what a query pass does to the whole table, and in which decrement pass the group of a
 * timer is reported while no further query asks for it.
 */
module IgmpExact {
  import opened Wrappers
  import opened IgmpTimer
  import opened IgmpRuns

  /** An entry of the queried group expires no later than the query asks for. */
  function Lowered(e: Entry, g: Word32, time: Word32): Entry {
    if e.fActive && e.groupAddr == g && time < e.time then Entry(time, g, true) else e
  }

  predicate Serves(t: Table, g: Word32) { exists j :: 0 <= j < 16 && t[j].fActive && t[j].groupAddr == g }

  predicate IsFirstFree(t: Table, i: nat) { i < 16 && !t[i].fActive && forall j :: 0 <= j < i ==> t[j].fActive }

  /**
   * A query answered: the timer of its group lowered, or else one started in the first free entry, or else nothing
   * done because the table is full.
   */
  ghost predicate Answered(before: Table, g: Word32, time: Word32, after: Table) {
    if Serves(before, g) then forall j :: 0 <= j < 16 ==> after[j] == Lowered(before[j], g, time)
    else
      || (exists i: nat :: IsFirstFree(before, i) && after == before[i := Entry(time, g, true)])
      || (after == before && forall j :: 0 <= j < 16 ==> before[j].fActive)
  }

  /** A query pass under way that began with the table `before`. */
  ghost predicate Checking(s: State, before: Table, q: Query) {
    && s.phase == CheckTimers && InPass(s) && s.currQuery == q
    && (forall j :: 0 <= j < 16 ==>
          s.table[j] == if j < s.nCount then Lowered(before[j], q.groupAddr, q.maxRespTime) else before[j])
    && (s.fExisting <==> exists j :: 0 <= j < s.nCount && before[j].fActive && before[j].groupAddr == q.groupAddr)
  }

  ghost predicate Inserting(s: State, before: Table, q: Query) {
    && s.phase == InsertEntry && InPass(s) && s.currQuery == q && s.table == before
    && !Serves(before, q.groupAddr) && forall j :: 0 <= j < s.nCount ==> before[j].fActive
  }

  lemma CheckingStep(s: State, x: Input, before: Table, q: Query)
    requires Checking(s, before, q)
    ensures var r := Next(s, x);
            Checking(r, before, q) || Inserting(r, before, q) ||
            (r.phase == Idle && Answered(before, q.groupAddr, q.maxRespTime, r.table))
  {
    hide RespTime, Inserting;
    var n, r, g := s.nCount, Next(s, x), q.groupAddr;
    assert r.table[n] == Lowered(before[n], g, q.maxRespTime);
    assert r.fExisting <==> exists j :: 0 <= j < n + 1 && before[j].fActive && before[j].groupAddr == g by {
      if before[n].fActive && before[n].groupAddr == g { assert 0 <= n < n + 1; }
    }
    if r.phase == InsertEntry {
      NothingServed(s, r, before, q);
    }
  }

  /** A pass that found nothing changed nothing. */
  lemma NothingServed(s: State, r: State, before: Table, q: Query)
    requires r.phase == InsertEntry && r.nCount == 0 && r.currQuery == q && !Serves(before, q.groupAddr)
    requires forall j :: 0 <= j < 16 ==> r.table[j] == Lowered(before[j], q.groupAddr, q.maxRespTime)
    ensures Inserting(r, before, q)
  {
    assert forall j :: 0 <= j < 16 ==> r.table[j] == before[j];
    assert r.table == before;
  }

  lemma InsertingStep(s: State, x: Input, before: Table, q: Query)
    requires Inserting(s, before, q)
    ensures var r := Next(s, x);
            Inserting(r, before, q) || (r.phase == Idle && Answered(before, q.groupAddr, q.maxRespTime, r.table))
  {
    hide RespTime, Serves;
    if !before[s.nCount].fActive {
      assert IsFirstFree(before, s.nCount);
    }
  }

  lemma AcceptChecks(s: State, x: Input)
    requires InPass(s) && Accepts(s, x)
    ensures Checking(Next(s, x), s.table, Asked(s, x))
  {
    hide RespTime;
  }

  lemma {:induction false} PassUnderWay(s: State, xs: seq<Input>, a: nat, k: nat)
    requires InPass(s) && a < k <= |xs| && Accepts(At(s, xs, a), xs[a])
    requires forall j :: a < j < k ==> InQuery(At(s, xs, j))
    ensures var before, q, r := At(s, xs, a).table, Asked(At(s, xs, a), xs[a]), At(s, xs, k);
            Checking(r, before, q) || Inserting(r, before, q) ||
            (r.phase == Idle && Answered(before, q.groupAddr, q.maxRespTime, r.table))
    decreases k
  {
    hide Next, RespTime, Checking, Inserting, Answered;
    var before, q := At(s, xs, a).table, Asked(At(s, xs, a), xs[a]);
    assert At(s, xs, k) == Next(At(s, xs, k - 1), xs[k - 1]);
    if k == a + 1 {
      AcceptChecks(At(s, xs, a), xs[a]);
    } else {
      PassUnderWay(s, xs, a, k - 1);
      assert InQuery(At(s, xs, k - 1));
      if Checking(At(s, xs, k - 1), before, q) {
        CheckingStep(At(s, xs, k - 1), xs[k - 1], before, q);
      } else {
        InsertingStep(At(s, xs, k - 1), xs[k - 1], before, q);
      }
    }
  }

  lemma BusyPass(s: State, before: Table, q: Query)
    requires Checking(s, before, q) || Inserting(s, before, q)
    ensures s.phase != Idle
  {
  }

  /** A query of version 1 or 2 carries its response time as it is. */
  lemma PlainRespTime(code: Word32)
    ensures RespTime(false, code) == code
  {
  }

  /** The version in force at call n: the last change read by an idle call, or the one in force at the start. */
  function Version3(s: State, xs: seq<Input>, n: nat): bool
    requires InPass(s) && n <= |xs|
  {
    if n == 0 then s.v3Query
    else if At(s, xs, n - 1).phase == Idle && xs[n - 1].isV3.Some? then xs[n - 1].isV3.value
    else Version3(s, xs, n - 1)
  }

  lemma {:induction false} VersionIsRegister(s: State, xs: seq<Input>, n: nat)
    requires InPass(s) && n <= |xs|
    ensures At(s, xs, n).v3Query == Version3(s, xs, n)
    decreases n
  {
    hide Next;
    if n > 0 {
      VersionIsRegister(s, xs, n - 1);
      VersionStep(At(s, xs, n - 1), xs[n - 1]);
    }
  }

  lemma VersionStep(s: State, x: Input)
    requires InPass(s)
    ensures Next(s, x).v3Query == if s.phase == Idle && x.isV3.Some? then x.isV3.value else s.v3Query
  {
    hide RespTime;
  }

  /** What a whole query pass does to the table, entry for entry. */
  lemma QueryPassEffect(s: State, xs: seq<Input>, a: nat, m: nat)
    requires InPass(s) && a < m <= |xs| && QueryPass(s, xs, a, m)
    ensures var q := xs[a].query.value;
            Answered(At(s, xs, a).table, q.groupAddr,
                     if Version3(s, xs, a) then RespTime(true, q.maxRespTime) else q.maxRespTime, At(s, xs, m).table)
  {
    hide Next, Checking, Inserting, Answered, RespTime;
    PassUnderWay(s, xs, a, m);
    VersionIsRegister(s, xs, a);
    PlainRespTime(xs[a].query.value.maxRespTime);
    var before, q, r := At(s, xs, a).table, Asked(At(s, xs, a), xs[a]), At(s, xs, m);
    if Checking(r, before, q) || Inserting(r, before, q) {
      BusyPass(r, before, q);
      assert false;
    }
  }

  // ---------------------------------------------------------------- while no further query asks for the group

  /** No call from m up to and excluding n accepts a query for the group. */
  predicate NotAsked(s: State, xs: seq<Input>, m: nat, n: nat, g: Word32)
    requires InPass(s) && n <= |xs|
  {
    forall k :: m <= k < n && Accepts(At(s, xs, k), xs[k]) ==> xs[k].query.value.groupAddr != g
  }

  /** A query under way is for another group. */
  predicate Elsewhere(s: State, g: Word32) { InQuery(s) ==> s.currQuery.groupAddr != g }

  /** Entry i runs down for the group and has `left` passes to go; no other entry serves it. */
  predicate RunsDown(t: Table, i: Slot, g: Word32, left: Word32) {
    t[i] == Entry(left, g, true) && forall j :: 0 <= j < 16 && j != i ==> !Matches(t[j], g)
  }

  /** The timer after `visits` visits: still running, or reported and gone. */
  predicate After(t: Table, i: Slot, g: Word32, time: Word32, visits: nat) {
    if visits <= time then RunsDown(t, i, g, time - visits) else NoneMatches(t, g, 16)
  }

  lemma ElsewhereStep(s: State, x: Input, g: Word32)
    requires InPass(s) && Elsewhere(s, g) && (Accepts(s, x) ==> x.query.value.groupAddr != g)
    ensures Elsewhere(Next(s, x), g)
  {
    hide RespTime;
  }

  lemma RunStep(s: State, x: Input, i: Slot, g: Word32, time: Word32, visits: nat)
    requires InPass(s) && Elsewhere(s, g) && After(s.table, i, g, time, visits)
    ensures After(Next(s, x).table, i, g, time, visits + if Visits(s, i) then 1 else 0)
    ensures Reported(s) == Some(g) <==> Visits(s, i) && visits == time
  {
    hide RespTime;
  }

  lemma {:induction false} RunsExactly(s: State, xs: seq<Input>, m: nat, n: nat, i: Slot, g: Word32, time: Word32)
    requires InPass(s) && m <= n <= |xs| && NotAsked(s, xs, m, n, g)
    requires At(s, xs, m).phase == Idle && RunsDown(At(s, xs, m).table, i, g, time)
    ensures Elsewhere(At(s, xs, n), g) && After(At(s, xs, n).table, i, g, time, VisitCount(s, xs, m, n, i))
    decreases n
  {
    hide Next, After, Elsewhere, Visits;
    if n == m {
      NotYetVisited(At(s, xs, m), i, g, time);
    } else {
      RunsExactly(s, xs, m, n - 1, i, g, time);
      ElsewhereStep(At(s, xs, n - 1), xs[n - 1], g);
      RunStep(At(s, xs, n - 1), xs[n - 1], i, g, time, VisitCount(s, xs, m, n - 1, i));
    }
  }

  lemma NotYetVisited(s: State, i: Slot, g: Word32, time: Word32)
    requires s.phase == Idle && RunsDown(s.table, i, g, time)
    ensures Elsewhere(s, g) && After(s.table, i, g, time, 0)
  {
  }

  /** Its group is reported when entry i is visited after exactly `time` whole passes, and at no other call. */
  lemma ReportsAtPass(s: State, xs: seq<Input>, m: nat, n: nat, i: Slot, g: Word32, time: Word32, k: nat)
    requires InPass(s) && m <= k < n <= |xs| && NotAsked(s, xs, m, n, g)
    requires At(s, xs, m).phase == Idle && RunsDown(At(s, xs, m).table, i, g, time)
    ensures Reported(At(s, xs, k)) == Some(g) <==> Visits(At(s, xs, k), i) && PassCount(s, xs, m, k) == time
  {
    hide At, After, RunsDown, Elsewhere, VisitCount, Reported;
    RunsExactly(s, xs, m, k, i, g, time);
    RunStep(At(s, xs, k), xs[k], i, g, time, VisitCount(s, xs, m, k, i));
    PassesVisit(s, xs, m, k, i);
  }

  /** The entry that an answered query leaves for its group, and its time. */
  lemma AnsweredTimer(before: Table, g: Word32, time: Word32, after: Table) returns (i: Slot)
    requires Answered(before, g, time, after) && Distinct(before) && Room(before, g)
    ensures RunsDown(after, i, g, after[i].time)
    ensures before[i].fActive ==> before[i].groupAddr == g
    ensures before[i].fActive ==> after[i].time == if before[i].time < time then before[i].time else time
    ensures !before[i].fActive ==> after[i].time == time && !Serves(before, g)
  {
    if Serves(before, g) {
      i :| 0 <= i < 16 && before[i].fActive && before[i].groupAddr == g;
    } else {
      i :| IsFirstFree(before, i) && after == before[i := Entry(time, g, true)];
    }
  }

  /**
   * The exact response time.  After a query that found room, and until another query asks for its group, the group is
   * reported in one decrement pass and no other: pass time + 1, where `time` is what the query asks for if it starts
   * a timer, and the least of that and the time left if it matches one.
   */
  lemma ReportedExactly(s: State, xs: seq<Input>, a: nat, m: nat, n: nat) returns (i: Slot, time: Word32)
    requires Sound(s) && InPass(s) && a < m <= n <= |xs| && QueryPass(s, xs, a, m)
    requires Room(At(s, xs, a).table, xs[a].query.value.groupAddr)
    requires NotAsked(s, xs, m, n, xs[a].query.value.groupAddr)
    ensures var asked := if Version3(s, xs, a) then RespTime(true, xs[a].query.value.maxRespTime)
                         else xs[a].query.value.maxRespTime;
            var entry := At(s, xs, a).table[i];
            time == if entry.fActive && entry.time < asked then entry.time else asked
    ensures At(s, xs, a).table[i].fActive <==> Serves(At(s, xs, a).table, xs[a].query.value.groupAddr)
    ensures At(s, xs, a).table[i].fActive ==> At(s, xs, a).table[i].groupAddr == xs[a].query.value.groupAddr
    ensures forall k :: m <= k < n ==>
              (Reported(At(s, xs, k)) == Some(xs[a].query.value.groupAddr) <==>
               Visits(At(s, xs, k), i) && PassCount(s, xs, m, k) == time)
    ensures PassCount(s, xs, m, n) > time ==> ReportedBetween(s, xs, m, n, xs[a].query.value.groupAddr)
  {
    hide Sound, RespTime, VisitCount, Answered, At, Reported, Room, NotAsked, Visits, RunsDown, Serves;
    var g := xs[a].query.value.groupAddr;
    QueryPassEffect(s, xs, a, m);
    DistinctAt(s, xs, a);
    i := AnsweredTimer(At(s, xs, a).table, g, if Version3(s, xs, a) then RespTime(true, xs[a].query.value.maxRespTime)
                       else xs[a].query.value.maxRespTime, At(s, xs, m).table);
    time := At(s, xs, m).table[i].time;
    forall k | m <= k < n
      ensures Reported(At(s, xs, k)) == Some(g) <==> Visits(At(s, xs, k), i) && PassCount(s, xs, m, k) == time
    {
      ReportsAtPass(s, xs, m, n, i, g, time, k);
    }
    ServedSlot(At(s, xs, a).table, i, g);
    RunningEntry(At(s, xs, m).table, i, g, time);
    if PassCount(s, xs, m, n) > time {
      ReportDue(s, xs, m, n, i);
    }
  }

  lemma ServedSlot(t: Table, i: Slot, g: Word32)
    ensures t[i].fActive && t[i].groupAddr == g ==> Serves(t, g)
  {
  }

  lemma RunningEntry(t: Table, i: Slot, g: Word32, left: Word32)
    requires RunsDown(t, i, g, left)
    ensures t[i].fActive && t[i].groupAddr == g
  {
  }

  lemma DistinctAt(s: State, xs: seq<Input>, a: nat)
    requires Sound(s) && InPass(s) && a <= |xs|
    ensures Distinct(At(s, xs, a).table)
  {
    AlwaysSound(s, xs, a);
  }
}
