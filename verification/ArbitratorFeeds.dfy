/**
 * The arbitrator against its feeds: every decision is on the split identifier read with the packet and on the number
 * in the packet's first word, and the history that decides is that of the packets themselves.
 */
module ArbitratorFeeds {
  import opened Wrappers
  import opened AxiStream
  import opened Arbitration
  import opened ArbitratorRuns
  import opened ArbitratorPackets

  /** The split identifier of each packet of each port. */
  type SplitIds = ids: seq<seq<SplitId>> | |ids| == 2 witness [[], []]

  /** The sequence number of a packet: the first four octets of its first word, the lowest first. */
  function NumberIn(q: seq<Word>): nat
    requires q != []
  {
    var d := q[0].data;
    d[0] as nat + 0x100 * d[1] as nat + 0x10000 * d[2] as nat + 0x1000000 * d[3] as nat
  }

  /** The call begins a packet of port p. */
  predicate Begins(s: State, t: Call, p: Port) { s.phase.Fetch? && TakenOn(s, t, p) != [] }

  /** Packets of port p begun by the first n calls, so also the identifiers read from its split stream. */
  function Begun(s: State, ts: seq<Call>, n: nat, p: Port): nat
    requires n <= |ts|
  {
    if n == 0 then 0 else Begun(s, ts, n - 1, p) + if Begins(At(s, ts, n - 1), ts[n - 1], p) then 1 else 0
  }

  /** Every call that begins a packet finds the packet's identifier at the head of its split stream. */
  predicate Labelled(s: State, ts: seq<Call>, n: nat, ids: SplitIds)
    requires n <= |ts|
  {
    forall m, p: Port :: 0 <= m < n && Begins(At(s, ts, m), ts[m], p) ==>
      Begun(s, ts, m, p) < |ids[p]| && ts[m].splits[p] == ids[p][Begun(s, ts, m, p)]
  }

  /** A run over given packets and split identifiers, from reset. */
  ghost predicate FedRun(s: State, ts: seq<Call>, n: nat, ps: Feeds, ids: SplitIds)
    requires n <= |ts|
  {
    Initial(s) && AllFramed(ps) && FedBy(s, ts, n, ps) && Labelled(s, ts, n, ids)
  }

  /** Packet k of port p is the one in hand. */
  predicate Holds(s: State, ts: seq<Call>, n: nat, p: Port, k: nat)
    requires n <= |ts|
  {
    !At(s, ts, n).phase.Fetch? && At(s, ts, n).activePort == p && Finished(Order(s, ts, n), p) == k
  }

  /** The registers of the packet in hand. */
  ghost predicate Registered(s: State, ts: seq<Call>, n: nat, ps: Feeds, ids: SplitIds)
    requires n <= |ts|
  {
    forall p: Port, k: nat :: Holds(s, ts, n, p, k) ==>
      && k < |ps[p]| && ps[p][k] != [] && k < |ids[p]|
      && At(s, ts, n).splitId == ids[p][k] && At(s, ts, n).seqNumReceived == NumberIn(ps[p][k])
  }

  /** The begun packets of a port are the finished ones and the one in hand. */
  predicate Numbered(s: State, ts: seq<Call>, n: nat, p: Port)
    requires n <= |ts|
  {
    Begun(s, ts, n, p) == Finished(Order(s, ts, n), p) +
      if !At(s, ts, n).phase.Fetch? && At(s, ts, n).activePort == p then 1 else 0
  }

  lemma {:induction false} EarlierFed(s: State, ts: seq<Call>, m: nat, n: nat, ps: Feeds, ids: SplitIds)
    requires m <= n <= |ts| && FedRun(s, ts, n, ps, ids)
    ensures FedRun(s, ts, m, ps, ids)
    decreases n
  {
    hide FedBy, AllFramed;
    if m < n {
      FedEarlier(s, ts, n, ps);
      EarlierFed(s, ts, m, n - 1, ps, ids);
    }
  }

  /** A call that begins a packet takes the word, its number and the identifier into the registers. */
  lemma BeginTakes(s: State, t: Call, p: Port)
    requires s.phase.Fetch? && Begins(s, t, p)
    ensures !Begins(s, t, 1 - p) && !Ends(s, t)
    ensures Next(s, t).phase.Decode? && Next(s, t).activePort == p && Next(s, t).splitId == t.splits[p]
    ensures t.words[p].Some? && Next(s, t).seqNumReceived == NumberIn([t.words[p].value])
    ensures TakenOn(s, t, 0) + TakenOn(s, t, 1) == [t.words[p].value]
  {
  }

  /** Any other call keeps them. */
  lemma OthersKeep(s: State, t: Call)
    requires OnActivePort(s) && !Begins(s, t, 0) && !Begins(s, t, 1)
    ensures Next(s, t).splitId == s.splitId && Next(s, t).seqNumReceived == s.seqNumReceived
    ensures Next(s, t).activePort == s.activePort
    ensures Next(s, t).phase.Fetch? <==> s.phase.Fetch? || Ends(s, t)
    ensures Ends(s, t) ==> Busy(s) && s.phase.port == s.activePort
  {
  }

  lemma OrderGrows(order: seq<Service>, svc: Service, p: Port)
    ensures Finished(order + [svc], p) == Finished(order, p) + if svc.port == p then 1 else 0
  {
    hide Served;
    ServedAppend(order, svc, p, true);
    ServedAppend(order, svc, p, false);
  }

  /** The service order grows when a call ends a packet. */
  lemma OrderStep(s: State, ts: seq<Call>, n: nat)
    requires n < |ts|
    ensures var before := At(s, ts, n);
            Order(s, ts, n + 1) == if Ends(before, ts[n])
                                   then Order(s, ts, n) + [Service(before.phase.port, before.phase.Forward?)]
                                   else Order(s, ts, n)
  {
    assert Order(s, ts, n) + [] == Order(s, ts, n);
  }

  /** One call keeps the count of begun packets. */
  lemma NumberedStep(s: State, ts: seq<Call>, n: nat, p: Port)
    requires n < |ts| && Numbered(s, ts, n, p) && OnActivePort(At(s, ts, n))
    ensures Numbered(s, ts, n + 1, p)
  {
    hide Next, TakenOn, Finished, Begins, Ends;
    var before, t := At(s, ts, n), ts[n];
    assert At(s, ts, n + 1) == Next(before, t);
    OrderStep(s, ts, n);
    if q: Port :| Begins(before, t, q) {
      BeginsInFetch(before, t, q);
      BeginTakes(before, t, q);
      assert p == q || p == 1 - q;
    } else {
      OthersKeep(before, t);
      if Ends(before, t) {
        OrderGrows(Order(s, ts, n), Service(before.phase.port, before.phase.Forward?), p);
      }
    }
  }

  lemma BeginsInFetch(s: State, t: Call, p: Port)
    requires Begins(s, t, p)
    ensures s.phase.Fetch?
  {
  }

  lemma {:induction false} AlwaysNumbered(s: State, ts: seq<Call>, n: nat, p: Port)
    requires n <= |ts| && Initial(s)
    ensures Numbered(s, ts, n, p)
    decreases n
  {
    hide OnActivePort;
    if n > 0 {
      hide Numbered;
      AlwaysNumbered(s, ts, n - 1, p);
      PortIsActive(s, ts, n - 1);
      NumberedStep(s, ts, n - 1, p);
    }
  }

  /** The word that begins a packet is the first of the port's next packet. */
  lemma BeginsNext(s: State, ts: seq<Call>, n: nat, ps: Feeds, ids: SplitIds, q: Port)
    requires n < |ts| && FedRun(s, ts, n + 1, ps, ids) && Begins(At(s, ts, n), ts[n], q)
    ensures Holds(s, ts, n + 1, q, Begun(s, ts, n, q)) && ts[n].words[q].Some?
    ensures var k := Begun(s, ts, n, q);
            k < |ps[q]| && ps[q][k] != [] && ps[q][k][0] == ts[n].words[q].value
  {
    hide Next, TakenOn, Finished, Begins, FedBy, AllFramed, Whole, Ends;
    var before, t := At(s, ts, n), ts[n];
    OrderStep(s, ts, n);
    BeginsInFetch(before, t, q);
    BeginTakes(before, t, q);
    FetchedAll(s, ts, n, q);
    EarlierFed(s, ts, n, n + 1, ps, ids);
    NeverInterleaved(s, ts, n, ps);
    NeverInterleaved(s, ts, n + 1, ps);
    EmptyHand(s, ts, n, ps);
    FirstInHand(s, ts, n + 1, ps);
    HandAfter(s, ts, n);
  }

  lemma HandAfter(s: State, ts: seq<Call>, n: nat)
    requires n < |ts| && InHand(s, ts, n) == [] && !Ends(At(s, ts, n), ts[n])
    ensures InHand(s, ts, n + 1) == TakenOn(At(s, ts, n), ts[n], 0) + TakenOn(At(s, ts, n), ts[n], 1)
  {
    hide Ends, TakenOn;
  }

  /** A packet is begun: the registers take its identifier and the number in its first word. */
  lemma BeginRegisters(s: State, ts: seq<Call>, n: nat, ps: Feeds, ids: SplitIds, q: Port)
    requires n < |ts| && FedRun(s, ts, n + 1, ps, ids) && Begins(At(s, ts, n), ts[n], q)
    ensures Registered(s, ts, n + 1, ps, ids)
  {
    BeginsNext(s, ts, n, ps, ids, q);
    BeginsInFetch(At(s, ts, n), ts[n], q);
    BeginTakes(At(s, ts, n), ts[n], q);
    hide Next, TakenOn, Finished, Begins, FedBy, AllFramed, Order;
  }

  lemma FetchedAll(s: State, ts: seq<Call>, n: nat, p: Port)
    requires n <= |ts| && Initial(s) && At(s, ts, n).phase.Fetch?
    ensures Begun(s, ts, n, p) == Finished(Order(s, ts, n), p)
  {
    hide Begun, Finished;
    AlwaysNumbered(s, ts, n, p);
  }

  lemma EmptyHand(s: State, ts: seq<Call>, n: nat, ps: Feeds)
    requires n <= |ts| && WholeAt(s, ts, n, ps) && At(s, ts, n).phase.Fetch?
    ensures InHand(s, ts, n) == []
  {
    hide At, InHand, Order, Input, Output, Finished, Flatten, Merged;
  }

  lemma FirstInHand(s: State, ts: seq<Call>, n: nat, ps: Feeds)
    requires n <= |ts| && WholeAt(s, ts, n, ps) && !At(s, ts, n).phase.Fetch?
    ensures var p, hand := At(s, ts, n).activePort, InHand(s, ts, n); var k := Finished(Order(s, ts, n), p);
            k < |ps[p]| && ps[p][k] != [] && hand != [] && ps[p][k][0] == hand[0]
  {
    hide At, InHand, Order, Input, Output, Finished, Flatten, Merged;
  }

  /** Over every run the registers of the packet in hand are those of the packet fed in. */
  lemma {:induction false} AlwaysRegistered(s: State, ts: seq<Call>, n: nat, ps: Feeds, ids: SplitIds)
    requires n <= |ts| && FedRun(s, ts, n, ps, ids)
    ensures Registered(s, ts, n, ps, ids)
    decreases n
  {
    hide Next, TakenOn, Finished, Begins, FedRun, Ends;
    if n == 0 {
      assert At(s, ts, 0).phase.Fetch? by { StartsFetching(s, ts, ps, ids); }
    } else {
      EarlierFed(s, ts, n - 1, n, ps, ids);
      AlwaysRegistered(s, ts, n - 1, ps, ids);
      var before, t := At(s, ts, n - 1), ts[n - 1];
      if q: Port :| Begins(before, t, q) {
        BeginRegisters(s, ts, n - 1, ps, ids, q);
      } else {
        PortIsActive(s, ts, n - 1) by { StartsFetching(s, ts, ps, ids); }
        OthersKeep(before, t);
        assert At(s, ts, n) == Next(before, t);
        if !At(s, ts, n).phase.Fetch? {
          OrderStep(s, ts, n - 1);
          assert forall p: Port, k: nat :: Holds(s, ts, n, p, k) ==> Holds(s, ts, n - 1, p, k);
        }
      }
    }
  }

  lemma StartsFetching(s: State, ts: seq<Call>, ps: Feeds, ids: SplitIds)
    requires exists n :: 0 <= n <= |ts| && FedRun(s, ts, n, ps, ids)
    ensures Initial(s) && s.phase.Fetch?
  {
  }

  // ---------------------------------------------------------------- decisions on packets

  /** Call n decides on packet k of port p. */
  predicate Decides(s: State, ts: seq<Call>, n: nat, p: Port, k: nat)
    requires n < |ts|
  {
    Decision(s, ts, n).Some? && Holds(s, ts, n, p, k)
  }

  /**
   * Whenever packet k of port p is decided, the verdict is on the identifier read with it and on the number in its
   * first word.
   */
  lemma DecidesOnPacket(s: State, ts: seq<Call>, n: nat, ps: Feeds, ids: SplitIds, p: Port, k: nat)
    requires n < |ts| && FedRun(s, ts, n, ps, ids) && Decides(s, ts, n, p, k)
    ensures k < |ps[p]| && ps[p][k] != [] && k < |ids[p]|
    ensures At(s, ts, n).splitId == ids[p][k]
    ensures var d := ps[p][k][0].data;
            Number(s, ts, n) == d[0] as int + 0x100 * d[1] as int + 0x10000 * d[2] as int + 0x1000000 * d[3] as int
  {
    AlwaysRegistered(s, ts, n, ps, ids);
  }

  /** The number of the packet of split k that call n forwards, as fed in. */
  function Forwarded(s: State, ts: seq<Call>, n: nat, ps: Feeds, ids: SplitIds, k: SplitId): Option<nat>
    requires n < |ts|
  {
    var d, p := Decision(s, ts, n), At(s, ts, n).activePort;
    var i := Finished(Order(s, ts, n), p);
    if d.Some? && Forwards(d.value) && i < |ps[p]| && ps[p][i] != [] && i < |ids[p]| && ids[p][i] == k
    then Some(NumberIn(ps[p][i])) else None
  }

  lemma ForwardedIs(s: State, ts: seq<Call>, n: nat, ps: Feeds, ids: SplitIds, k: SplitId)
    requires n < |ts| && FedRun(s, ts, n, ps, ids)
    ensures Forwarded(s, ts, n, ps, ids, k) == if ForwardsOn(s, ts, n, k) then Some(Number(s, ts, n)) else None
  {
    hide FedRun, Finished, At, Forwards;
    if Decision(s, ts, n).Some? {
      var p := At(s, ts, n).activePort;
      DecidesOnPacket(s, ts, n, ps, ids, p, Finished(Order(s, ts, n), p));
    }
  }

  /** The number of the last packet of split k among those the first n calls forwarded since the last reset. */
  function LastForwarded(s: State, ts: seq<Call>, n: nat, ps: Feeds, ids: SplitIds, k: SplitId): Option<nat>
    requires n <= |ts|
  {
    if n == 0 then None
    else if Forwarded(s, ts, n - 1, ps, ids, k).Some? then Forwarded(s, ts, n - 1, ps, ids, k)
    else if ts[n - 1].reset then None
    else LastForwarded(s, ts, n - 1, ps, ids, k)
  }

  lemma {:induction false} LastForwardedIs(s: State, ts: seq<Call>, n: nat, ps: Feeds, ids: SplitIds, k: SplitId)
    requires n <= |ts| && FedRun(s, ts, n, ps, ids)
    ensures var m := LastOn(s, ts, n, k);
            LastForwarded(s, ts, n, ps, ids, k) == if m >= 0 then Some(Number(s, ts, m)) else None
    decreases n
  {
    hide FedRun, Forwarded, ForwardsOn, Number;
    if n > 0 {
      EarlierFed(s, ts, n - 1, n, ps, ids);
      LastForwardedIs(s, ts, n - 1, ps, ids, k);
      ForwardedIs(s, ts, n - 1, ps, ids, k);
    }
  }

  /** The number split k is waiting for at call j: one more than the last forwarded since the last reset, or zero. */
  function DueOf(s: State, ts: seq<Call>, j: nat, ps: Feeds, ids: SplitIds, k: SplitId): nat
    requires j < |ts|
  {
    match LastForwarded(s, ts, j, ps, ids, k)
    case Some(x) => if ts[j].reset then 0 else (x + 1) % 0x1_0000_0000
    case None => 0
  }

  lemma DueOfIs(s: State, ts: seq<Call>, j: nat, ps: Feeds, ids: SplitIds, k: SplitId)
    requires j < |ts| && FedRun(s, ts, j, ps, ids)
    ensures DueOf(s, ts, j, ps, ids, k) == Due(s, ts, j, k)
  {
    hide FedRun, Number, LastOn, LastForwarded, At;
    LastForwardedIs(s, ts, j, ps, ids, k);
  }

  /**
   * The verdict on every packet, from its own identifier and number and those of the packets forwarded before it:
   * what is dropped and why, and what is written.
   */
  lemma PacketVerdict(s: State, ts: seq<Call>, j: nat, ps: Feeds, ids: SplitIds, p: Port, k: nat)
    requires j < |ts| && FedRun(s, ts, j, ps, ids) && Decides(s, ts, j, p, k)
    ensures k < |ps[p]| && ps[p][k] != [] && k < |ids[p]|
    ensures var v, number := Decision(s, ts, j).value, NumberIn(ps[p][k]);
            var due, running := DueOf(s, ts, j, ps, ids, ids[p][k]), TimerRuns(s, ts, j);
            && (v.Restart? <==> number == 0 && !running) && (v.Echo? <==> number == 0 && running)
            && (v.Duplicate? <==> 0 < number < due) && (v.Match? <==> 0 < number == due)
            && (v.Gap? <==> number > due && !running) && (v.Early? <==> number > due && running)
            && Emitted(At(s, ts, j), ts[j]) == if v.Restart? || v.Match? || v.Gap? then [ps[p][k][0]] else []
  {
    hide FedRun, At, Number, Due, TimerRuns, Finished, Order, DueOf;
    DecidesOnPacket(s, ts, j, ps, ids, p, k);
    DueOfIs(s, ts, j, ps, ids, ids[p][k]);
    StartsFetching(s, ts, ps, ids);
    VerdictByHistory(s, ts, j);
    DecidedWord(s, ts, j, ps, ids, p, k);
  }

  /** The word in hand at a decision is the first of its packet. */
  lemma DecidedWord(s: State, ts: seq<Call>, j: nat, ps: Feeds, ids: SplitIds, p: Port, k: nat)
    requires j < |ts| && FedRun(s, ts, j, ps, ids) && Decides(s, ts, j, p, k)
    ensures k < |ps[p]| && ps[p][k] != [] && At(s, ts, j).wordIn == ps[p][k][0]
  {
    hide At, Finished, Order, Flatten, Merged, InHand, Input, Output;
    NeverInterleaved(s, ts, j, ps);
    FirstInHand(s, ts, j, ps);
  }

  /** Between resets and below the wrap, the numbers of the forwarded packets of a split strictly increase. */
  lemma PacketsIncrease(s: State, ts: seq<Call>, i: nat, j: nat, ps: Feeds, ids: SplitIds, k: SplitId)
    requires i < j < |ts| && FedRun(s, ts, j, ps, ids) && NoReset(ts, i, j)
    requires Forwarded(s, ts, i, ps, ids, k).Some? && Forwarded(s, ts, j, ps, ids, k).Some?
    requires forall m :: i < m <= j ==> Forwarded(s, ts, m, ps, ids, k) != Some(0)
    requires forall m :: i <= m < j ==> Forwarded(s, ts, m, ps, ids, k) != Some(0xFFFF_FFFF)
    ensures Forwarded(s, ts, i, ps, ids, k).value < Forwarded(s, ts, j, ps, ids, k).value
  {
    hide FedRun, Forwarded, ForwardsOn, Number;
    forall m | i <= m <= j
      ensures Forwarded(s, ts, m, ps, ids, k) == if ForwardsOn(s, ts, m, k) then Some(Number(s, ts, m)) else None
    {
      EarlierFed(s, ts, m, j, ps, ids);
      ForwardedIs(s, ts, m, ps, ids, k);
    }
    Increasing(s, ts, k, i, j);
  }
}
