/**
 * The IGMP timer over whole runs: every activation of an entry reports exactly once, and a query that matches a
 * group or finds a free entry is reported within its response time.
 */
module IgmpRuns {
  import opened Wrappers
  import opened IgmpTimer

  type Slot = i: nat | i < MAX_IGMP_TIMERS

  /** The state before call n of a run. */
  function At(s: State, xs: seq<Input>, n: nat): (r: State)
    requires InPass(s) && n <= |xs|
    ensures InPass(r)
  {
    if n == 0 then s else Next(At(s, xs, n - 1), xs[n - 1])
  }

  lemma {:induction false} AlwaysSound(s: State, xs: seq<Input>, n: nat)
    requires Sound(s) && n <= |xs|
    ensures Sound(At(s, xs, n))
    decreases n
  {
    hide Sound, Next;
    assert InPass(s) by { SoundInPass(s); }
    if n > 0 {
      AlwaysSound(s, xs, n - 1);
      SoundStep(At(s, xs, n - 1), xs[n - 1]);
    }
  }

  /** From reset on, whatever arrives: no two running timers are ever for one group. */
  lemma RunsAreSound(s: State, xs: seq<Input>, n: nat)
    requires Initial(s) && n <= |xs|
    ensures InPass(s) && Sound(At(s, xs, n)) && Distinct(At(s, xs, n).table)
  {
    InitialSound(s);
    SoundInPass(s);
    AlwaysSound(s, xs, n);
  }

  /** The call runs down entry i. */
  predicate Visits(s: State, i: Slot) { s.phase == DecrementTimers && s.nCount == i }

  /** The call reports entry i. */
  predicate Reports(s: State, i: Slot)
    requires InPass(s)
  {
    Visits(s, i) && Reported(s).Some?
  }

  /** The call starts a timer in entry i. */
  predicate Activates(s: State, i: Slot) { s.phase == InsertEntry && s.nCount == i && !s.table[i].fActive }

  function VisitCount(s: State, xs: seq<Input>, a: nat, n: nat, i: Slot): nat
    requires InPass(s) && a <= n <= |xs|
    decreases n
  {
    if n == a then 0 else VisitCount(s, xs, a, n - 1, i) + if Visits(At(s, xs, n - 1), i) then 1 else 0
  }

  /** Decrement passes completed by the calls from a up to and excluding n. */
  function PassCount(s: State, xs: seq<Input>, a: nat, n: nat): nat
    requires InPass(s) && a <= n <= |xs|
  {
    VisitCount(s, xs, a, n, MAX_IGMP_TIMERS - 1)
  }

  function ReportCount(s: State, xs: seq<Input>, n: nat, i: Slot): nat
    requires InPass(s) && n <= |xs|
  {
    if n == 0 then 0 else ReportCount(s, xs, n - 1, i) + if Reports(At(s, xs, n - 1), i) then 1 else 0
  }

  function ActivationCount(s: State, xs: seq<Input>, n: nat, i: Slot): nat
    requires InPass(s) && n <= |xs|
  {
    if n == 0 then 0 else ActivationCount(s, xs, n - 1, i) + if Activates(At(s, xs, n - 1), i) then 1 else 0
  }

  function ActiveCount(s: State, i: Slot): nat { if s.table[i].fActive then 1 else 0 }

  lemma SlotStep(s: State, x: Input, i: Slot)
    requires InPass(s)
    ensures ActiveCount(Next(s, x), i) + (if Reports(s, i) then 1 else 0)
            == ActiveCount(s, i) + if Activates(s, i) then 1 else 0
  {
  }

  /** In every run each activation of an entry is reported exactly once, except for one that is still active. */
  lemma {:induction false} ActivationsReportOnce(s: State, xs: seq<Input>, n: nat, i: Slot)
    requires InPass(s) && n <= |xs|
    ensures ReportCount(s, xs, n, i) + ActiveCount(At(s, xs, n), i) == ActivationCount(s, xs, n, i) + ActiveCount(s, i)
    decreases n
  {
    hide ActiveCount, Next, Reports, Activates;
    if n > 0 {
      ActivationsReportOnce(s, xs, n - 1, i);
      SlotStep(At(s, xs, n - 1), xs[n - 1], i);
    }
  }

  // ---------------------------------------------------------------- in time

  /** Some call from a up to and excluding n reports the group. */
  ghost predicate ReportedBetween(s: State, xs: seq<Input>, a: nat, n: nat, g: Word32)
    requires InPass(s) && n <= |xs|
  {
    exists m :: a <= m < n && Reported(At(s, xs, m)) == Some(g)
  }

  /** One call either reports entry i or leaves it for its group, with a visit paid for in time. */
  lemma WaitStep(s: State, x: Input, i: Slot)
    requires InPass(s) && s.table[i].fActive
    ensures Reported(s) == Some(s.table[i].groupAddr) ||
            (Matches(Next(s, x).table[i], s.table[i].groupAddr)
             && Next(s, x).table[i].time + (if Visits(s, i) then 1 else 0) <= s.table[i].time)
  {
  }

  lemma {:induction false} Waits(s: State, xs: seq<Input>, a: nat, n: nat, i: Slot)
    requires InPass(s) && a <= n <= |xs| && At(s, xs, a).table[i].fActive
    ensures var e := At(s, xs, a).table[i];
            ReportedBetween(s, xs, a, n, e.groupAddr) ||
            (Matches(At(s, xs, n).table[i], e.groupAddr)
             && At(s, xs, n).table[i].time + VisitCount(s, xs, a, n, i) <= e.time)
    decreases n
  {
    hide Next, Reported, Visits;
    if a < n {
      Waits(s, xs, a, n - 1, i);
      var e := At(s, xs, a).table[i];
      if ReportedBetween(s, xs, a, n - 1, e.groupAddr) {
        var m :| a <= m < n - 1 && Reported(At(s, xs, m)) == Some(e.groupAddr);
      } else {
        WaitStep(At(s, xs, n - 1), xs[n - 1], i);
      }
    }
  }

  lemma PassStep(s: State, x: Input, i: Slot)
    requires InPass(s)
    ensures Reached(Next(s, x), i) + (if Visits(s, MAX_IGMP_TIMERS - 1) then 1 else 0)
            == Reached(s, i) + if Visits(s, i) then 1 else 0
  {
  }

  /** 1 when the decrement pass under way has already visited entry i. */
  function Reached(s: State, i: Slot): nat { if s.phase == DecrementTimers && s.nCount > i then 1 else 0 }

  /** Every completed decrement pass visits every entry once. */
  lemma {:induction false} PassesVisit(s: State, xs: seq<Input>, a: nat, n: nat, i: Slot)
    requires InPass(s) && a <= n <= |xs|
    ensures VisitCount(s, xs, a, n, i) + Reached(At(s, xs, a), i) == PassCount(s, xs, a, n) + Reached(At(s, xs, n), i)
    decreases n
  {
    hide Next, Visits, Reached;
    if a < n {
      PassesVisit(s, xs, a, n - 1, i);
      PassStep(At(s, xs, n - 1), xs[n - 1], i);
    }
  }

  /** An active entry is reported by decrement pass number time + 1 at the latest. */
  lemma ReportDue(s: State, xs: seq<Input>, a: nat, n: nat, i: Slot)
    requires InPass(s) && a <= n <= |xs| && At(s, xs, a).phase != DecrementTimers && At(s, xs, a).table[i].fActive
    requires PassCount(s, xs, a, n) > At(s, xs, a).table[i].time
    ensures ReportedBetween(s, xs, a, n, At(s, xs, a).table[i].groupAddr)
  {
    hide At, Reported, VisitCount;
    Waits(s, xs, a, n, i);
    PassesVisit(s, xs, a, n, i);
  }

  // ---------------------------------------------------------------- queries

  /** The group has a timer already, or there is an entry for it. */
  predicate Room(t: Table, g: Word32) {
    exists i :: 0 <= i < MAX_IGMP_TIMERS && (!t[i].fActive || t[i].groupAddr == g)
  }

  predicate InQuery(s: State) { s.phase == CheckTimers || s.phase == InsertEntry }

  lemma RoomStep(s: State, x: Input)
    requires InPass(s) && InQuery(s) && Room(s.table, s.currQuery.groupAddr)
    ensures Room(Next(s, x).table, s.currQuery.groupAddr) && Next(s, x).currQuery == s.currQuery
  {
    var g, t := s.currQuery.groupAddr, Next(s, x).table;
    var i :| 0 <= i < MAX_IGMP_TIMERS && (!s.table[i].fActive || s.table[i].groupAddr == g);
    assert !t[i].fActive || t[i].groupAddr == g;
  }

  /** The call accepts a query. */
  predicate Accepts(s: State, x: Input) { s.phase == Idle && x.isV3.None? && x.query.Some? }

  /** The query pass that starts at call a ends with call m. */
  predicate QueryPass(s: State, xs: seq<Input>, a: nat, m: nat)
    requires InPass(s) && a < m <= |xs|
  {
    && Accepts(At(s, xs, a), xs[a])
    && (forall k :: a < k < m ==> InQuery(At(s, xs, k)))
    && At(s, xs, m).phase == Idle
  }

  function Asked(s: State, x: Input): Query
    requires Accepts(s, x)
  {
    Query(RespTime(s.v3Query, x.query.value.maxRespTime), x.query.value.groupAddr)
  }

  lemma {:induction false} QueryUnderWay(s: State, xs: seq<Input>, a: nat, m: nat, k: nat)
    requires InPass(s) && a < k <= m <= |xs| && Accepts(At(s, xs, a), xs[a])
    requires forall j :: a < j < m ==> InQuery(At(s, xs, j))
    requires Room(At(s, xs, a).table, Asked(At(s, xs, a), xs[a]).groupAddr)
    ensures At(s, xs, k).currQuery == Asked(At(s, xs, a), xs[a])
    ensures Room(At(s, xs, k).table, Asked(At(s, xs, a), xs[a]).groupAddr)
    decreases k
  {
    hide Room, RespTime, Next;
    assert At(s, xs, k) == Next(At(s, xs, k - 1), xs[k - 1]);
    if k > a + 1 {
      QueryUnderWay(s, xs, a, m, k - 1);
      RoomStep(At(s, xs, k - 1), xs[k - 1]);
    } else {
      AcceptStep(At(s, xs, a), xs[a]);
    }
  }

  /** When the query pass is over, its group has a timer that expires within the response time. */
  lemma QueryStartsTimer(s: State, xs: seq<Input>, a: nat, m: nat) returns (i: Slot)
    requires Sound(s) && InPass(s) && a < m <= |xs| && QueryPass(s, xs, a, m)
    requires Room(At(s, xs, a).table, xs[a].query.value.groupAddr)
    ensures Matches(At(s, xs, m).table[i], xs[a].query.value.groupAddr)
    ensures At(s, xs, m).table[i].time <= RespTime(At(s, xs, a).v3Query, xs[a].query.value.maxRespTime)
  {
    hide Sound, RespTime, Next, Room, Settled, InQuery;
    var q := Asked(At(s, xs, a), xs[a]);
    AcceptedNext(s, xs, a);
    QueryUnderWay(s, xs, a, m, m);
    AlwaysSound(s, xs, m - 1);
    assert a < m - 1 && InQuery(At(s, xs, m - 1));
    QueryUnderWay(s, xs, a, m, m - 1);
    SettledTimer(At(s, xs, m - 1), xs[m - 1], q);
    i := MatchIn(At(s, xs, m).table, q);
  }

  lemma AcceptedNext(s: State, xs: seq<Input>, a: nat)
    requires InPass(s) && a < |xs| && Accepts(At(s, xs, a), xs[a])
    ensures At(s, xs, a + 1).phase == CheckTimers
  {
    assert At(s, xs, a + 1) == Next(At(s, xs, a), xs[a]);
  }

  lemma SettledTimer(s: State, x: Input, q: Query)
    requires Sound(s) && InPass(s) && InQuery(s) && s.currQuery == q && Next(s, x).phase == Idle
    ensures Settled(Next(s, x).table, q)
  {
    hide Sound, Next, Settled;
    PassSettles(s, x);
  }

  lemma MatchIn(t: Table, q: Query) returns (i: Slot)
    requires Settled(t, q) && Room(t, q.groupAddr)
    ensures Matches(t[i], q.groupAddr) && t[i].time <= q.maxRespTime
  {
    i :| 0 <= i < MAX_IGMP_TIMERS && Matches(t[i], q.groupAddr) && t[i].time <= q.maxRespTime;
  }

  /**
   * A query that matches an entry or finds a free one leads to a report for its group by decrement pass number
   * maxRespTime + 1 after it, whatever else arrives in between.
   */
  lemma ReportedInTime(s: State, xs: seq<Input>, a: nat, m: nat, n: nat)
    requires Sound(s) && InPass(s) && a < m <= n <= |xs| && QueryPass(s, xs, a, m)
    requires Room(At(s, xs, a).table, xs[a].query.value.groupAddr)
    requires PassCount(s, xs, m, n) > RespTime(At(s, xs, a).v3Query, xs[a].query.value.maxRespTime)
    ensures ReportedBetween(s, xs, m, n, xs[a].query.value.groupAddr)
  {
    hide Sound, RespTime, VisitCount, Next;
    var i := QueryStartsTimer(s, xs, a, m);
    ReportDue(s, xs, m, n, i);
  }

  /** A full table without the group leaves the query unanswered and the table as it was. */
  lemma {:induction false} FullTableIgnores(s: State, xs: seq<Input>, a: nat, m: nat)
    requires InPass(s) && a < m <= |xs| && Accepts(At(s, xs, a), xs[a])
    requires forall j :: a < j < m ==> InQuery(At(s, xs, j))
    requires !Room(At(s, xs, a).table, xs[a].query.value.groupAddr)
    ensures At(s, xs, m).table == At(s, xs, a).table && At(s, xs, m).currQuery == Asked(At(s, xs, a), xs[a])
    decreases m
  {
    hide RespTime, Next, Room;
    assert At(s, xs, m) == Next(At(s, xs, m - 1), xs[m - 1]);
    if m > a + 1 {
      FullTableIgnores(s, xs, a, m - 1);
      FullStep(At(s, xs, m - 1), xs[m - 1]);
    } else {
      AcceptStep(At(s, xs, a), xs[a]);
    }
  }

  lemma FullStep(s: State, x: Input)
    requires InPass(s) && InQuery(s) && !Room(s.table, s.currQuery.groupAddr)
    ensures Next(s, x).table == s.table && Next(s, x).currQuery == s.currQuery
  {
    hide RespTime;
  }

  lemma AcceptStep(s: State, x: Input)
    requires InPass(s) && Accepts(s, x)
    ensures Next(s, x).table == s.table && Next(s, x).currQuery == Asked(s, x)
  {
    hide RespTime;
  }

  /** Calls a query pass still needs. */
  function Remaining(s: State): int {
    match s.phase
    case CheckTimers => 2 * MAX_IGMP_TIMERS - s.nCount
    case InsertEntry => MAX_IGMP_TIMERS - s.nCount
    case _ => 0
  }

  lemma {:induction false} StillInQuery(s: State, xs: seq<Input>, a: nat, n: nat)
    requires InPass(s) && a < n <= |xs| && Accepts(At(s, xs, a), xs[a])
    requires forall k :: a < k <= n ==> At(s, xs, k).phase != Idle
    ensures forall k :: a < k <= n ==> InQuery(At(s, xs, k))
    ensures Remaining(At(s, xs, n)) == 2 * MAX_IGMP_TIMERS - (n - a - 1)
    decreases n
  {
    hide Next, InQuery, Remaining, Accepts;
    if n > a + 1 {
      StillInQuery(s, xs, a, n - 1);
      assert At(s, xs, n) == Next(At(s, xs, n - 1), xs[n - 1]) && At(s, xs, n).phase != Idle;
      QueryGoesOn(At(s, xs, n - 1), xs[n - 1]);
    } else {
      assert At(s, xs, n) == Next(At(s, xs, a), xs[a]);
      QueryStarts(At(s, xs, a), xs[a]);
    }
  }

  lemma QueryStarts(s: State, x: Input)
    requires InPass(s) && Accepts(s, x)
    ensures InQuery(Next(s, x)) && Remaining(Next(s, x)) == 2 * MAX_IGMP_TIMERS
  {
    hide RespTime;
  }

  lemma QueryGoesOn(s: State, x: Input)
    requires InPass(s) && InQuery(s) && Next(s, x).phase != Idle
    ensures InQuery(Next(s, x)) && Remaining(Next(s, x)) == Remaining(s) - 1
  {
    hide RespTime;
  }

  /** A query pass is over after at most 33 calls. */
  lemma {:induction false} QueryPassEnds(s: State, xs: seq<Input>, a: nat, n: nat)
    requires InPass(s) && a < n <= |xs| && Accepts(At(s, xs, a), xs[a]) && n == a + 33
    ensures exists m :: a < m <= n && QueryPass(s, xs, a, m)
  {
    hide Next, RespTime;
    var m := a + 1;
    while m < n && At(s, xs, m).phase != Idle
      invariant a < m <= n && forall k :: a < k < m ==> At(s, xs, k).phase != Idle
    {
      m := m + 1;
    }
    if At(s, xs, m).phase == Idle {
      if m > a + 1 {
        StillInQuery(s, xs, a, m - 1);
      }
      assert QueryPass(s, xs, a, m);
    } else {
      StillInQuery(s, xs, a, n);
    }
  }
}
