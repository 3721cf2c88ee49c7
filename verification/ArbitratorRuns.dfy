/**
 * Sequence numbers over whole runs of the arbitrator, from any state and for any arrivals, register settings and
 * interleaving of the two ports.
 */
module ArbitratorRuns {
  import opened Wrappers
  import opened Arbitration

  /** No sequence reset through the control register at the calls after i, up to and including j. */
  predicate NoReset(ts: seq<Call>, i: nat, j: nat)
    requires j < |ts|
  {
    forall m :: i < m <= j ==> !ts[m].reset
  }

  /** No packet of split k restarts the sequence at the calls after i, up to and including j. */
  predicate NoRestart(s: State, ts: seq<Call>, k: SplitId, i: nat, j: nat)
    requires j < |ts|
  {
    forall m :: i < m <= j && ForwardsOn(s, ts, m, k) ==> Number(s, ts, m) != 0
  }

  /** The expected sequence number of split k has not wrapped at the calls from i up to and excluding j. */
  predicate NoWrap(s: State, ts: seq<Call>, k: SplitId, i: nat, j: nat)
    requires j < |ts|
  {
    forall m :: i <= m < j && ForwardsOn(s, ts, m, k) ==> Number(s, ts, m) < WRAP - 1
  }

  /** What one call does to the expected number of a split. */
  lemma ExpectedStep(s: State, ts: seq<Call>, n: nat, k: SplitId)
    requires n < |ts|
    ensures At(s, ts, n + 1).expected[k] ==
            if ForwardsOn(s, ts, n, k) then Inc(Number(s, ts, n))
            else if ts[n].reset then 0 else At(s, ts, n).expected[k]
  {
  }

  /** A packet that is forwarded without restarting the sequence is not below the expected number. */
  lemma ForwardedIsDue(s: State, ts: seq<Call>, n: nat, k: SplitId)
    requires n < |ts| && ForwardsOn(s, ts, n, k) && Number(s, ts, n) != 0 && !ts[n].reset
    ensures Number(s, ts, n) >= At(s, ts, n).expected[k]
    ensures Decision(s, ts, n) != Some(Gap) ==> Number(s, ts, n) == At(s, ts, n).expected[k]
  {
  }

  lemma {:induction false} ExpectedAbove(s: State, ts: seq<Call>, k: SplitId, i: nat, j: nat)
    requires i < j < |ts| && ForwardsOn(s, ts, i, k)
    requires NoReset(ts, i, j) && NoRestart(s, ts, k, i, j) && NoWrap(s, ts, k, i, j)
    ensures At(s, ts, j).expected[k] > Number(s, ts, i)
    decreases j
  {
    hide ForwardsOn, Number, At;
    ExpectedStep(s, ts, j - 1, k);
    if j - 1 > i {
      ExpectedAbove(s, ts, k, i, j - 1);
      if ForwardsOn(s, ts, j - 1, k) {
        ForwardedIsDue(s, ts, j - 1, k);
      }
    }
  }

  /** Between resets and below the wrap, forwarded sequence numbers of a split strictly increase. */
  lemma Increasing(s: State, ts: seq<Call>, k: SplitId, i: nat, j: nat)
    requires i < j < |ts| && ForwardsOn(s, ts, i, k) && ForwardsOn(s, ts, j, k)
    requires NoReset(ts, i, j) && NoRestart(s, ts, k, i, j) && NoWrap(s, ts, k, i, j)
    ensures Number(s, ts, i) < Number(s, ts, j)
  {
    hide ForwardsOn, Number, At;
    ExpectedAbove(s, ts, k, i, j);
    ForwardedIsDue(s, ts, j, k);
  }

  /** How many packets of split k the calls from i up to and excluding j forwarded. */
  function Count(s: State, ts: seq<Call>, k: SplitId, i: nat, j: nat): nat
    requires i <= j <= |ts|
    decreases j
  {
    if i == j then 0 else Count(s, ts, k, i, j - 1) + if ForwardsOn(s, ts, j - 1, k) then 1 else 0
  }

  /** No packet of split k is counted as a gap at the calls after i, up to and including j. */
  predicate NoGap(s: State, ts: seq<Call>, k: SplitId, i: nat, j: nat)
    requires j < |ts|
  {
    forall m :: i < m <= j && ForwardsOn(s, ts, m, k) ==> Decision(s, ts, m) != Some(Gap)
  }

  lemma {:induction false} ExpectedCounts(s: State, ts: seq<Call>, k: SplitId, i: nat, j: nat)
    requires i < j < |ts| && ForwardsOn(s, ts, i, k)
    requires NoReset(ts, i, j) && NoRestart(s, ts, k, i, j) && NoWrap(s, ts, k, i, j) && NoGap(s, ts, k, i, j)
    ensures At(s, ts, j).expected[k] == Number(s, ts, i) + Count(s, ts, k, i, j)
    decreases j
  {
    hide ForwardsOn, Number, At, Decision;
    ExpectedStep(s, ts, j - 1, k);
    if j - 1 > i {
      ExpectedCounts(s, ts, k, i, j - 1);
      if ForwardsOn(s, ts, j - 1, k) {
        ForwardedIsDue(s, ts, j - 1, k);
      }
    } else {
      assert Count(s, ts, k, i, i) == 0;
    }
  }

  /** In an epoch without gaps the forwarded numbers of a split are consecutive: after a restart, 0, 1, 2, ... */
  lemma Consecutive(s: State, ts: seq<Call>, k: SplitId, i: nat, j: nat)
    requires i < j < |ts| && ForwardsOn(s, ts, i, k) && ForwardsOn(s, ts, j, k)
    requires NoReset(ts, i, j) && NoRestart(s, ts, k, i, j) && NoWrap(s, ts, k, i, j) && NoGap(s, ts, k, i, j)
    ensures Number(s, ts, j) == Number(s, ts, i) + Count(s, ts, k, i, j)
    ensures Number(s, ts, i) == 0 ==> Number(s, ts, j) == Count(s, ts, k, i, j)
  {
    hide ForwardsOn, Number, At, Decision, Count;
    ExpectedCounts(s, ts, k, i, j);
    ForwardedIsDue(s, ts, j, k);
  }

  /** How many of the first n calls forwarded a packet across a gap, on any split. */
  function Gaps(s: State, ts: seq<Call>, n: nat): nat
    requires n <= |ts|
  {
    if n == 0 then 0 else Gaps(s, ts, n - 1) + if Decision(s, ts, n - 1) == Some(Gap) then 1 else 0
  }

  /** The missed counter counts exactly the gaps: while it stands still, no split skips a number. */
  lemma {:induction false} MissedCountsGaps(s: State, ts: seq<Call>, n: nat)
    requires n <= |ts| && Initial(s)
    ensures At(s, ts, n).totalMissed == Gaps(s, ts, n) % WRAP
    decreases n
  {
    hide Next, Decision;
    if n > 0 {
      MissedCountsGaps(s, ts, n - 1);
      MissedStep(s, ts, n - 1);
    }
  }

  lemma MissedStep(s: State, ts: seq<Call>, n: nat)
    requires n < |ts|
    ensures At(s, ts, n + 1).totalMissed ==
            if Decision(s, ts, n) == Some(Gap) then Inc(At(s, ts, n).totalMissed) else At(s, ts, n).totalMissed
  {
  }

  // ---------------------------------------------------------------- the reset timer

  /** One call runs the timer down by one unless it forwards a sequence restart. */
  lemma TimerStep(s: State, ts: seq<Call>, n: nat)
    requires n < |ts|
    ensures At(s, ts, n + 1).timer ==
            if Decision(s, ts, n) == Some(Restart) then ts[n].interval
            else if At(s, ts, n).timer != 0 then At(s, ts, n).timer - 1 else 0
    ensures Decision(s, ts, n) == Some(Restart) || Decision(s, ts, n) == Some(Gap) ==> At(s, ts, n).timer <= 1
  {
  }

  /** A restart or a gap at call j has let the timer of any earlier call run out. */
  lemma {:induction false} TimerRunsOut(s: State, ts: seq<Call>, i: nat, j: nat)
    requires i <= j < |ts| && (Decision(s, ts, j) == Some(Restart) || Decision(s, ts, j) == Some(Gap))
    ensures At(s, ts, i).timer <= j - i + 1
    decreases j - i
  {
    hide Decision, At;
    TimerStep(s, ts, i);
    if i < j {
      TimerRunsOut(s, ts, i + 1, j);
    }
  }

  /**
   * Two forwarded zeros, on whatever splits and ports, are at least the interval loaded by the first apart; so is
   * a packet forwarded across a gap after a forwarded zero.
   */
  lemma RestartSpacing(s: State, ts: seq<Call>, i: nat, j: nat)
    requires i < j < |ts| && Decision(s, ts, i) == Some(Restart)
    requires Decision(s, ts, j) == Some(Restart) || Decision(s, ts, j) == Some(Gap)
    ensures j - i >= ts[i].interval
  {
    hide Decision, At;
    TimerStep(s, ts, i);
    TimerRunsOut(s, ts, i + 1, j);
  }

  /** A forwarded zero is exactly a restart. */
  lemma ZeroIsRestart(s: State, ts: seq<Call>, n: nat, k: SplitId)
    requires n < |ts| && ForwardsOn(s, ts, n, k)
    ensures Number(s, ts, n) == 0 <==> Decision(s, ts, n) == Some(Restart)
  {
  }

  // ---------------------------------------------------------------- dropped packets

  /** The last of the first n calls that forwarded a packet of split k since the last sequence reset, or -1. */
  function LastOn(s: State, ts: seq<Call>, n: nat, k: SplitId): (m: int)
    requires n <= |ts|
    ensures -1 <= m < n
    ensures m >= 0 ==> ForwardsOn(s, ts, m, k) && forall x :: m < x < n ==> !ForwardsOn(s, ts, x, k) && !ts[x].reset
  {
    if n == 0 then -1
    else if ForwardsOn(s, ts, n - 1, k) then n - 1
    else if ts[n - 1].reset then -1
    else LastOn(s, ts, n - 1, k)
  }

  /** The last of the first n calls that forwarded a sequence restart, or -1. */
  function LastRestart(s: State, ts: seq<Call>, n: nat): (m: int)
    requires n <= |ts|
    ensures -1 <= m < n
    ensures m >= 0 ==> Decision(s, ts, m) == Some(Restart)
  {
    if n == 0 then -1
    else if Decision(s, ts, n - 1) == Some(Restart) then n - 1
    else LastRestart(s, ts, n - 1)
  }

  lemma {:induction false} ExpectedIsLast(s: State, ts: seq<Call>, n: nat, k: SplitId)
    requires n <= |ts| && Initial(s)
    ensures var m := LastOn(s, ts, n, k);
            At(s, ts, n).expected[k] == if m >= 0 then Inc(Number(s, ts, m)) else 0
    decreases n
  {
    hide ForwardsOn, Number, Next;
    if n > 0 {
      ExpectedIsLast(s, ts, n - 1, k);
      ExpectedStep(s, ts, n - 1, k);
    }
  }

  lemma {:induction false} TimerIsLast(s: State, ts: seq<Call>, n: nat)
    requires n <= |ts| && Initial(s)
    ensures var i := LastRestart(s, ts, n);
            At(s, ts, n).timer == if i >= 0 && n - 1 - i < ts[i].interval then ts[i].interval - (n - 1 - i) else 0
    decreases n
  {
    hide Decision, Next;
    if n > 0 {
      TimerIsLast(s, ts, n - 1);
      TimerStep(s, ts, n - 1);
    }
  }

  /** The number split k is waiting for at call j: one more than the last forwarded since the last reset, or zero. */
  function Due(s: State, ts: seq<Call>, j: nat, k: SplitId): Word32
    requires j < |ts|
  {
    var m := LastOn(s, ts, j, k);
    if m >= 0 && !ts[j].reset then Inc(Number(s, ts, m)) else 0
  }

  /** Call j comes before the interval loaded by the last forwarded restart, on any split, is over. */
  predicate TimerRuns(s: State, ts: seq<Call>, j: nat)
    requires j < |ts|
  {
    var i := LastRestart(s, ts, j);
    i >= 0 && j - i < ts[i].interval
  }

  /** The verdict at call j in terms of the history: what is due, and whether the restart timer runs. */
  lemma VerdictByHistory(s: State, ts: seq<Call>, j: nat)
    requires j < |ts| && Initial(s) && Decision(s, ts, j).Some?
    ensures var due := Due(s, ts, j, At(s, ts, j).splitId);
            (TimerRuns(s, ts, j) <==> Refresh(At(s, ts, j), ts[j]).timer != 0)
            && Decision(s, ts, j).value == Judge(Number(s, ts, j), due, Refresh(At(s, ts, j), ts[j]).timer)
  {
    hide Next, LastOn, LastRestart;
    ExpectedIsLast(s, ts, j, At(s, ts, j).splitId);
    TimerIsLast(s, ts, j);
  }

  /**
   * Nothing else is lost: a packet is dropped if and only if its number is below the one due, or the restart timer
   * runs and the packet would restart the sequence or skip numbers.
   */
  lemma DroppedIff(s: State, ts: seq<Call>, j: nat)
    requires j < |ts| && Initial(s) && Decision(s, ts, j).Some?
    ensures var number, due := Number(s, ts, j), Due(s, ts, j, At(s, ts, j).splitId);
            && (Decision(s, ts, j) == Some(Duplicate) <==> 0 < number < due)
            && (!Forwards(Decision(s, ts, j).value) <==>
                0 < number < due || (TimerRuns(s, ts, j) && (number == 0 || number > due)))
  {
    hide Decision, Due, TimerRuns, Number, At;
    VerdictByHistory(s, ts, j);
  }

  /** A duplicate is one: a number at least as high was forwarded on its split, and the sequence not reset since. */
  lemma DuplicateWasForwarded(s: State, ts: seq<Call>, j: nat) returns (m: nat)
    requires j < |ts| && Initial(s) && Decision(s, ts, j) == Some(Duplicate)
    ensures m < j && ForwardsOn(s, ts, m, At(s, ts, j).splitId) && NoReset(ts, m, j)
    ensures Number(s, ts, m) >= Number(s, ts, j)
  {
    hide Decision, TimerRuns, Number, ForwardsOn;
    DroppedIff(s, ts, j);
    m := LastOn(s, ts, j, At(s, ts, j).splitId);
  }

  // ---------------------------------------------------------------- round robin

  /** Call n starts a packet of port p. */
  predicate Serves(s: State, ts: seq<Call>, n: nat, p: Port)
    requires n < |ts|
  {
    At(s, ts, n).phase.Fetch? && Chosen(Refresh(At(s, ts, n), ts[n]), ts[n]) == Some(p)
  }

  lemma FetchMoves(s: State, t: Call)
    ensures s.phase.Fetch? && Chosen(Refresh(s, t), t).Some? ==>
              Next(s, t).activePort == Chosen(Refresh(s, t), t).value
    ensures !s.phase.Fetch? || Chosen(Refresh(s, t), t).None? ==> Next(s, t).activePort == s.activePort
  {
  }

  lemma ActivePortStep(s: State, ts: seq<Call>, n: nat, p: Port)
    requires n < |ts|
    ensures Serves(s, ts, n, p) ==> At(s, ts, n + 1).activePort == p
    ensures !Serves(s, ts, n, 0) && !Serves(s, ts, n, 1) ==> At(s, ts, n + 1).activePort == At(s, ts, n).activePort
  {
    hide Next, Chosen, Refresh;
    FetchMoves(At(s, ts, n), ts[n]);
    var c := Chosen(Refresh(At(s, ts, n), ts[n]), ts[n]);
    assert c.Some? ==> c.value == 0 || c.value == 1;
  }

  lemma {:induction false} StaysOnPort(s: State, ts: seq<Call>, i: nat, j: nat, p: Port)
    requires i < j <= |ts| && Serves(s, ts, i, p)
    requires forall m, q :: i < m < j ==> !Serves(s, ts, m, q)
    ensures At(s, ts, j).activePort == p
    decreases j
  {
    hide Serves, At;
    ActivePortStep(s, ts, j - 1, p);
    if i + 1 < j {
      StaysOnPort(s, ts, i, j - 1, p);
      assert !Serves(s, ts, j - 1, 0) && !Serves(s, ts, j - 1, 1);
    }
  }

  /** A port that served last is chosen again only when the other has nothing waiting. */
  lemma OtherWasEmpty(s: State, ts: seq<Call>, n: nat, p: Port)
    requires n < |ts| && Serves(s, ts, n, p) && At(s, ts, n).activePort == p
    ensures ts[n].words[1 - p].None?
  {
  }

  /** A port is served twice in a row only when the other port had nothing waiting. */
  lemma RoundRobin(s: State, ts: seq<Call>, i: nat, j: nat, p: Port)
    requires i < j < |ts| && Serves(s, ts, i, p) && Serves(s, ts, j, p)
    requires forall m, q :: i < m < j ==> !Serves(s, ts, m, q)
    ensures ts[j].words[1 - p].None?
  {
    hide Serves, At;
    StaysOnPort(s, ts, i, j, p);
    OtherWasEmpty(s, ts, j, p);
  }
}
