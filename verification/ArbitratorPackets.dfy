/**
 * Packets through the arbitrator: the output feed is a merge of whole input packets, and the counters account for
 * every packet and word.
 */
module ArbitratorPackets {
  import opened Wrappers
  import opened OnesComplement
  import opened AxiStream
  import opened Arbitration

  /** A packet of the feeds: `last` on exactly the final word.  The first word carries the sequence number. */
  predicate Framed(q: seq<Word>) {
    |q| >= 1 && forall i :: 0 <= i < |q| ==> (q[i].last <==> i == |q| - 1)
  }

  /** What each port will ever receive, packet by packet. */
  type Feeds = ps: seq<seq<seq<Word>>> | |ps| == 2 witness [[], []]

  predicate AllFramed(ps: Feeds) {
    forall p: Port, i :: 0 <= i < |ps[p]| ==> Framed(ps[p][i])
  }

  /** A finished packet: where it came from and what became of it. */
  datatype Service = Service(port: Port, forwarded: bool)

  function Served(order: seq<Service>, p: Port, forwarded: bool): nat {
    if order == [] then 0
    else Served(order[..|order| - 1], p, forwarded) + if order[|order| - 1] == Service(p, forwarded) then 1 else 0
  }

  function Finished(order: seq<Service>, p: Port): nat { Served(order, p, true) + Served(order, p, false) }

  /** The forwarded packets of a service order, each taken whole from its port in turn. */
  function Merged(order: seq<Service>, ps: Feeds): seq<Word> {
    if order == [] then []
    else
      var before, svc := order[..|order| - 1], order[|order| - 1];
      var k := Finished(before, svc.port);
      Merged(before, ps) + if svc.forwarded && k < |ps[svc.port]| then ps[svc.port][k] else []
  }

  predicate Busy(s: State) { s.phase.Forward? || s.phase.Drop? }

  predicate Ends(s: State, t: Call) { Busy(s) && Next(s, t).phase.Fetch? }

  /** The service order of a run, and the words of the packet in hand. */
  function Order(s: State, ts: seq<Call>, n: nat): seq<Service>
    requires n <= |ts|
  {
    if n == 0 then []
    else
      var before := At(s, ts, n - 1);
      Order(s, ts, n - 1) + if Ends(before, ts[n - 1]) then [Service(before.phase.port, before.phase.Forward?)] else []
  }

  function InHand(s: State, ts: seq<Call>, n: nat): seq<Word>
    requires n <= |ts|
  {
    if n == 0 then []
    else
      var before, t := At(s, ts, n - 1), ts[n - 1];
      if Ends(before, t) then [] else InHand(s, ts, n - 1) + TakenOn(before, t, 0) + TakenOn(before, t, 1)
  }

  // ---------------------------------------------------------------- counters

  /** The counters stand for the service order, the packet in flight and the words written. */
  predicate Accounts(s: State, order: seq<Service>, words: nat) {
    && (forall p: Port :: s.txFeed[p] == Served(order, p, true) % WRAP)
    && (forall p: Port :: s.discarded[p] == Served(order, p, false) % WRAP)
    && (forall p: Port :: s.rxFeed[p] == (Finished(order, p) + if Busy(s) && s.phase.port == p then 1 else 0) % WRAP)
    && s.totalWordSent == words % WRAP
    && s.totalSent == (2 * (Served(order, 0, true) + Served(order, 1, true)) + if s.phase.Forward? then 1 else 0) % WRAP
  }

  lemma ServedAppend(order: seq<Service>, svc: Service, p: Port, forwarded: bool)
    ensures Served(order + [svc], p, forwarded)
            == Served(order, p, forwarded) + if svc == Service(p, forwarded) then 1 else 0
  {
    assert (order + [svc])[..|order|] == order;
  }

  lemma IncModulo(x: Word32, n: nat)
    requires x == n % WRAP
    ensures Inc(x) == (n + 1) % WRAP
  {
  }

  /** The port of a packet in flight is the active port. */
  predicate OnActivePort(s: State) { Busy(s) ==> s.phase.port == s.activePort }

  lemma {:induction false} PortIsActive(s: State, ts: seq<Call>, n: nat)
    requires n <= |ts| && Initial(s)
    ensures OnActivePort(At(s, ts, n))
    decreases n
  {
    if n > 0 {
      PortIsActive(s, ts, n - 1);
    }
  }

  lemma DecodeAccounts(s: State, t: Call, order: seq<Service>, words: nat)
    requires s.phase.Decode? && Accounts(s, order, words)
    ensures Accounts(Next(s, t), order, words + |Emitted(s, t)|)
  {
    hide Served, Judge;
    IncModulo(s.rxFeed[s.activePort], Finished(order, s.activePort));
    IncModulo(s.totalWordSent, words);
    IncModulo(s.totalSent, 2 * (Served(order, 0, true) + Served(order, 1, true)));
  }

  lemma ForwardAccounts(s: State, t: Call, order: seq<Service>, words: nat)
    requires s.phase.Forward? && Accounts(s, order, words)
    ensures !Ends(s, t) ==> Accounts(Next(s, t), order, words + |Emitted(s, t)|)
    ensures Ends(s, t) ==> Accounts(Next(s, t), order + [Service(s.phase.port, true)], words + |Emitted(s, t)|)
  {
    hide Accounts, Next, Emitted;
    if Ends(s, t) {
      ForwardEnds(s, t, order, words);
    } else {
      ForwardGoesOn(s, t, order, words);
    }
  }

  lemma ForwardGoesOn(s: State, t: Call, order: seq<Service>, words: nat)
    requires s.phase.Forward? && Accounts(s, order, words) && !Ends(s, t)
    ensures Accounts(Next(s, t), order, words + |Emitted(s, t)|)
  {
    hide Served;
    IncModulo(s.totalWordSent, words);
  }

  lemma ForwardEnds(s: State, t: Call, order: seq<Service>, words: nat)
    requires s.phase.Forward? && Accounts(s, order, words) && Ends(s, t)
    ensures Accounts(Next(s, t), order + [Service(s.phase.port, true)], words + |Emitted(s, t)|)
  {
    hide Served;
    var p := s.phase.port;
    IncModulo(s.totalWordSent, words);
    forall q: Port, fw: bool {
      ServedAppend(order, Service(p, true), q, fw);
    }
    IncModulo(s.txFeed[p], Served(order, p, true));
    IncModulo(s.totalSent, 2 * (Served(order, 0, true) + Served(order, 1, true)) + 1);
  }

  lemma DropAccounts(s: State, t: Call, order: seq<Service>, words: nat)
    requires s.phase.Drop? && Accounts(s, order, words)
    ensures !Ends(s, t) ==> Accounts(Next(s, t), order, words + |Emitted(s, t)|)
    ensures Ends(s, t) ==> Accounts(Next(s, t), order + [Service(s.phase.port, false)], words + |Emitted(s, t)|)
  {
    hide Served;
    var p := s.phase.port;
    forall q: Port, fw: bool {
      ServedAppend(order, Service(p, false), q, fw);
    }
    IncModulo(s.discarded[p], Served(order, p, false));
  }

  /**
   * In every run, whatever arrives: each port's received count is its forwarded plus its discarded packets plus
   * the one in flight, the word counter is the number of words written, and the total of sent packets counts
   * every forwarded packet twice.
   */
  lemma {:induction false} Conservation(s: State, ts: seq<Call>, n: nat)
    requires n <= |ts| && Initial(s)
    ensures Accounts(At(s, ts, n), Order(s, ts, n), |Output(s, ts, n)|)
    decreases n
  {
    hide Accounts, Next;
    if n == 0 {
      InitialAccounts(s);
    } else {
      Conservation(s, ts, n - 1);
      var before, t, order, words := At(s, ts, n - 1), ts[n - 1], Order(s, ts, n - 1), |Output(s, ts, n - 1)|;
      if before.phase.Fetch? {
        FetchAccounts(before, t, order, words);
      } else if before.phase.Decode? {
        DecodeAccounts(before, t, order, words);
      } else if before.phase.Forward? {
        ForwardAccounts(before, t, order, words);
      } else {
        DropAccounts(before, t, order, words);
      }
      assert Order(s, ts, n) ==
             order + if Ends(before, t) then [Service(before.phase.port, before.phase.Forward?)] else [];
      assert order + [] == order;
    }
  }

  lemma InitialAccounts(s: State)
    requires Initial(s)
    ensures Accounts(s, [], 0)
  {
  }

  lemma FetchAccounts(s: State, t: Call, order: seq<Service>, words: nat)
    requires s.phase.Fetch? && Accounts(s, order, words)
    ensures Accounts(Next(s, t), order, words + |Emitted(s, t)|)
  {
    hide Served;
  }

  // ---------------------------------------------------------------- whole packets

  /**
   * A call that finds the packet in hand already complete must find the port empty: a packet whose only word was
   * read at the fetch is closed one call later, and that call reads the port first.
   */
  predicate Quiet(s: State, t: Call) { Busy(s) && s.wordIn.last ==> t.words[s.phase.port].None? }

  /** The state of a run against the packets fed in. */
  predicate Whole(ps: Feeds, s: State, order: seq<Service>, hand: seq<Word>, ins: seq<seq<Word>>, out: seq<Word>)
    requires |ins| == 2
  {
    && (forall p: Port :: Finished(order, p) <= |ps[p]|)
    && (forall p: Port :: ins[p] == Flatten(ps[p][..Finished(order, p)])
                                    + if !s.phase.Fetch? && s.activePort == p then hand else [])
    && out == Merged(order, ps) + (if s.phase.Forward? then hand else [])
    && OnActivePort(s)
    && (s.phase.Fetch? ==> hand == [])
    && (s.phase.Decode? ==> |hand| == 1)
    && (!s.phase.Fetch? ==> Held(ps, s.activePort, Finished(order, s.activePort), hand) && s.wordIn == hand[|hand| - 1])
  }

  /** The words in hand are the beginning of packet k of the port. */
  predicate Held(ps: Feeds, p: Port, k: nat, hand: seq<Word>) {
    k < |ps[p]| && 0 < |hand| <= |ps[p][k]| && hand == ps[p][k][..|hand|]
  }

  lemma {:induction false} FlattenConcat(a: seq<seq<Word>>, b: seq<seq<Word>>)
    ensures Flatten(a + b) == Flatten(a) + Flatten(b)
    decreases |a|
  {
    if a == [] {
      assert a + b == b;
    } else {
      assert (a + b)[1..] == a[1..] + b;
      FlattenConcat(a[1..], b);
    }
  }

  lemma FlattenCons(q: seq<Word>, qs: seq<seq<Word>>)
    ensures Flatten([q] + qs) == q + Flatten(qs)
  {
    assert ([q] + qs)[1..] == qs;
  }

  /** The stream of a port, cut at packet k. */
  lemma FlattenAt(qs: seq<seq<Word>>, k: nat)
    requires k < |qs|
    ensures Flatten(qs) == Flatten(qs[..k]) + (qs[k] + Flatten(qs[k + 1..]))
    ensures Flatten(qs[..k + 1]) == Flatten(qs[..k]) + qs[k]
  {
    hide Flatten;
    assert qs == qs[..k] + qs[k..] && qs[k..] == [qs[k]] + qs[k + 1..];
    FlattenConcat(qs[..k], qs[k..]);
    FlattenCons(qs[k], qs[k + 1..]);
    assert qs[..k + 1] == qs[..k] + [qs[k]];
    FlattenConcat(qs[..k], [qs[k]]);
    FlattenOne(qs[k]);
  }

  lemma FlattenOne(q: seq<Word>)
    ensures Flatten([q]) == q
  {
    FlattenCons(q, []);
    assert [q] + [] == [q];
  }

  /** The next word read from a port is the next word of the packet in hand. */
  lemma NextWord(qs: seq<seq<Word>>, k: nat, hand: seq<Word>, w: Word)
    requires k <= |qs| && (k < |qs| ==> |hand| < |qs[k]| && hand == qs[k][..|hand|]) && (k == |qs| ==> hand == [])
    requires Flatten(qs[..k]) + hand + [w] <= Flatten(qs)
    ensures k < |qs| && w == qs[k][|hand|] && hand + [w] == qs[k][..|hand| + 1]
  {
    hide Flatten;
    var head := Flatten(qs[..k]);
    assert qs[..|qs|] == qs;
    if k < |qs| {
      FlattenAt(qs, k);
      var whole := head + (qs[k] + Flatten(qs[k + 1..]));
      assert w == (head + hand + [w])[|head| + |hand|] == whole[|head| + |hand|];
    }
  }

  lemma MergedAppend(order: seq<Service>, svc: Service, ps: Feeds)
    ensures Merged(order + [svc], ps) == Merged(order, ps) +
            if svc.forwarded && Finished(order, svc.port) < |ps[svc.port]|
            then ps[svc.port][Finished(order, svc.port)] else []
  {
    assert (order + [svc])[..|order|] == order;
  }

  lemma FetchKeepsWhole(ps: Feeds, s: State, t: Call, order: seq<Service>, ins: seq<seq<Word>>, out: seq<Word>)
    requires |ins| == 2 && s.phase.Fetch? && Whole(ps, s, order, [], ins, out) && AllFramed(ps)
    requires forall p: Port :: ins[p] + TakenOn(s, t, p) <= Flatten(ps[p])
    ensures Whole(ps, Next(s, t), order, TakenOn(s, t, 0) + TakenOn(s, t, 1),
                  [ins[0] + TakenOn(s, t, 0), ins[1] + TakenOn(s, t, 1)], out)
  {
    hide Flatten, Finished, Merged, Next, TakenOn, Chosen;
    FetchReads(s, t);
    var c := Chosen(s, t);
    assert forall p: Port :: ins[p] + [] == ins[p];
    if c.Some? {
      var p, w := c.value, t.words[c.value].value;
      FirstOfPacket(ps, p, Finished(order, p), w);
      assert TakenOn(s, t, 0) + TakenOn(s, t, 1) == [w];
    }
  }

  /** What a call does while it waits for a packet. */
  lemma FetchReads(s: State, t: Call)
    requires s.phase.Fetch?
    ensures var c := Chosen(s, t);
            && (c.Some? ==> t.words[c.value].Some? && TakenOn(s, t, c.value) == [t.words[c.value].value]
                            && TakenOn(s, t, 1 - c.value) == []
                            && Next(s, t).phase.Decode? && Next(s, t).activePort == c.value
                            && Next(s, t).wordIn == t.words[c.value].value)
            && (c.None? ==> TakenOn(s, t, 0) == TakenOn(s, t, 1) == [] && Next(s, t).phase.Fetch?)
  {
  }

  lemma FirstOfPacket(ps: Feeds, p: Port, k: nat, w: Word)
    requires AllFramed(ps) && k <= |ps[p]| && Flatten(ps[p][..k]) + [w] <= Flatten(ps[p])
    ensures Held(ps, p, k, [w])
  {
    hide Flatten;
    assert Flatten(ps[p][..k]) + [] == Flatten(ps[p][..k]);
    if k < |ps[p]| {
      assert Framed(ps[p][k]);
    }
    NextWord(ps[p], k, [], w);
  }

  lemma DecodeKeepsWhole(ps: Feeds, s: State, t: Call, order: seq<Service>, hand: seq<Word>, ins: seq<seq<Word>>,
                         out: seq<Word>)
    requires |ins| == 2 && s.phase.Decode? && Whole(ps, s, order, hand, ins, out)
    ensures Whole(ps, Next(s, t), order, hand, ins, out + Emitted(s, t))
  {
    hide Flatten, Finished, Merged, Judge;
  }

  /** Reading on: the hand grows by the next word of its packet. */
  lemma HandGrows(ps: Feeds, s: State, order: seq<Service>, hand: seq<Word>, ins: seq<seq<Word>>, out: seq<Word>,
                  w: Word)
    requires |ins| == 2 && Busy(s) && Whole(ps, s, order, hand, ins, out) && AllFramed(ps) && !s.wordIn.last
    requires ins[s.activePort] + [w] <= Flatten(ps[s.activePort])
    ensures Held(ps, s.activePort, Finished(order, s.activePort), hand + [w])
  {
    hide Flatten, Finished, Merged;
    var p, k := s.activePort, Finished(order, s.activePort);
    assert Framed(ps[p][k]);
    NextWord(ps[p], k, hand, w);
  }

  /** The packet in hand is complete exactly when its last word has been read. */
  lemma HandComplete(ps: Feeds, p: Port, k: nat, hand: seq<Word>)
    requires AllFramed(ps) && Held(ps, p, k, hand)
    ensures hand[|hand| - 1].last <==> hand == ps[p][k]
  {
    assert Framed(ps[p][k]);
  }

  /** Closing a complete packet. */
  lemma PacketCloses(ps: Feeds, p: Port, order: seq<Service>, forwarded: bool)
    requires Finished(order, p) < |ps[p]|
    ensures Finished(order + [Service(p, forwarded)], p) == Finished(order, p) + 1
    ensures Finished(order + [Service(p, forwarded)], 1 - p) == Finished(order, 1 - p)
    ensures Flatten(ps[p][..Finished(order, p) + 1]) == Flatten(ps[p][..Finished(order, p)]) + ps[p][Finished(order, p)]
    ensures Merged(order + [Service(p, forwarded)], ps)
            == Merged(order, ps) + if forwarded then ps[p][Finished(order, p)] else []
  {
    hide Flatten, Merged, Served;
    ServedAppend(order, Service(p, forwarded), p, true);
    ServedAppend(order, Service(p, forwarded), p, false);
    ServedAppend(order, Service(p, forwarded), 1 - p, true);
    ServedAppend(order, Service(p, forwarded), 1 - p, false);
    FlattenAt(ps[p], Finished(order, p));
    MergedAppend(order, Service(p, forwarded), ps);
  }

  /** What a call does while a packet is in flight. */
  lemma BusyStep(s: State, t: Call)
    requires Busy(s) && OnActivePort(s)
    ensures TakenOn(s, t, 1 - s.activePort) == []
    ensures TakenOn(s, t, s.activePort) == if t.words[s.activePort].Some? then [t.words[s.activePort].value] else []
    ensures Emitted(s, t) == if s.phase.Forward? then TakenOn(s, t, s.activePort) else []
    ensures Next(s, t).activePort == s.activePort
    ensures Next(s, t).wordIn == if t.words[s.activePort].Some? then t.words[s.activePort].value else s.wordIn
    ensures Next(s, t).phase == if Next(s, t).wordIn.last then Fetch else s.phase
  {
  }

  /** The hand after the call: still part of its packet, and complete exactly when the call ends the packet. */
  lemma BusyReads(ps: Feeds, s: State, t: Call, order: seq<Service>, hand: seq<Word>, ins: seq<seq<Word>>,
                  out: seq<Word>)
    requires |ins| == 2 && Busy(s) && Whole(ps, s, order, hand, ins, out) && AllFramed(ps) && Quiet(s, t)
    requires ins[s.activePort] + TakenOn(s, t, s.activePort) <= Flatten(ps[s.activePort])
    ensures var more := TakenOn(s, t, s.activePort);
            && Held(ps, s.activePort, Finished(order, s.activePort), hand + more)
            && Next(s, t).wordIn == (hand + more)[|hand + more| - 1]
            && (Ends(s, t) <==> hand + more == ps[s.activePort][Finished(order, s.activePort)])
            && hand + TakenOn(s, t, 0) + TakenOn(s, t, 1) == hand + more
  {
    hide Flatten, Finished, Merged, Held, Next, TakenOn, Emitted;
    BusyStep(s, t);
    var p, more := s.activePort, TakenOn(s, t, s.activePort);
    HeldInRange(ps, p, Finished(order, p), hand);
    if more == [] {
      assert hand + more == hand;
    } else {
      HandGrows(ps, s, order, hand, ins, out, more[0]);
    }
    HandComplete(ps, p, Finished(order, p), hand + more);
  }

  lemma BusyKeepsWhole(ps: Feeds, s: State, t: Call, order: seq<Service>, hand: seq<Word>, ins: seq<seq<Word>>,
                       out: seq<Word>)
    requires |ins| == 2 && Busy(s) && Whole(ps, s, order, hand, ins, out) && AllFramed(ps) && Quiet(s, t)
    requires forall p: Port :: ins[p] + TakenOn(s, t, p) <= Flatten(ps[p])
    ensures var ins' := [ins[0] + TakenOn(s, t, 0), ins[1] + TakenOn(s, t, 1)];
            var out' := out + Emitted(s, t);
            if Ends(s, t) then Whole(ps, Next(s, t), order + [Service(s.phase.port, s.phase.Forward?)], [], ins', out')
            else Whole(ps, Next(s, t), order, hand + TakenOn(s, t, 0) + TakenOn(s, t, 1), ins', out')
  {
    hide Flatten, Finished, Merged, Held, Next, TakenOn, Emitted, AllFramed, Quiet;
    BusyStep(s, t);
    BusyReads(ps, s, t, order, hand, ins, out);
    var p, more := s.activePort, TakenOn(s, t, s.activePort);
    var k := Finished(order, p);
    HeldInRange(ps, p, k, hand);
    PacketCloses(ps, p, order, s.phase.Forward?);
    assert ins[1 - p] + [] == ins[1 - p];
    assert ins[p] + more == Flatten(ps[p][..k]) + (hand + more);
    assert s.phase.Forward? ==> out + more == Merged(order, ps) + (hand + more);
    assert out + [] == out;
  }

  lemma HeldInRange(ps: Feeds, p: Port, k: nat, hand: seq<Word>)
    requires Held(ps, p, k, hand)
    ensures k < |ps[p]| && |hand| > 0
  {
  }

  /** What the first n calls read is part of what each port is fed, and every call so far was quiet. */
  predicate FedBy(s: State, ts: seq<Call>, n: nat, ps: Feeds)
    requires n <= |ts|
  {
    && (forall p: Port :: Input(s, ts, n, p) <= Flatten(ps[p]))
    && (forall m :: 0 <= m < n ==> Quiet(At(s, ts, m), ts[m]))
  }

  lemma FedEarlier(s: State, ts: seq<Call>, n: nat, ps: Feeds)
    requires 0 < n <= |ts| && FedBy(s, ts, n, ps)
    ensures FedBy(s, ts, n - 1, ps)
  {
    forall p: Port ensures Input(s, ts, n - 1, p) <= Flatten(ps[p]) {
      assert Input(s, ts, n - 1, p) <= Input(s, ts, n, p);
    }
  }

  /**
   * The output is never interleaved: at every point of every run it is the concatenation of the whole packets
   * forwarded so far, in service order, followed by the part already written of the packet in hand; and each port
   * has been read in whole packets up to that one.
   */
  lemma {:induction false} NeverInterleaved(s: State, ts: seq<Call>, n: nat, ps: Feeds)
    requires n <= |ts| && Initial(s) && AllFramed(ps) && FedBy(s, ts, n, ps)
    ensures Whole(ps, At(s, ts, n), Order(s, ts, n), InHand(s, ts, n),
                  [Input(s, ts, n, 0), Input(s, ts, n, 1)], Output(s, ts, n))
    decreases n
  {
    hide Whole, Next, TakenOn, Emitted, AllFramed, Flatten, Quiet;
    if n == 0 {
      InitialWhole(s, ps);
    } else {
      FedEarlier(s, ts, n, ps);
      NeverInterleaved(s, ts, n - 1, ps);
      var before, t, order, hand := At(s, ts, n - 1), ts[n - 1], Order(s, ts, n - 1), InHand(s, ts, n - 1);
      var ins, out := [Input(s, ts, n - 1, 0), Input(s, ts, n - 1, 1)], Output(s, ts, n - 1);
      assert forall p: Port :: ins[p] + TakenOn(before, t, p) == Input(s, ts, n, p);
      if before.phase.Fetch? {
        EmptyHanded(ps, before, order, hand, ins, out);
        FetchKeepsWhole(ps, before, t, order, ins, out);
        FetchEffect(before, t, hand, order, out);
      } else if before.phase.Decode? {
        DecodeKeepsWhole(ps, before, t, order, hand, ins, out);
        DecodeEffect(before, t, hand, order, ins);
      } else {
        BusyKeepsWhole(ps, before, t, order, hand, ins, out);
        assert order + [] == order;
      }
    }
  }

  lemma InitialWhole(s: State, ps: Feeds)
    requires Initial(s)
    ensures Whole(ps, s, [], [], [[], []], [])
  {
    assert forall p: Port :: ps[p][..0] == [];
  }

  lemma EmptyHanded(ps: Feeds, s: State, order: seq<Service>, hand: seq<Word>, ins: seq<seq<Word>>, out: seq<Word>)
    requires |ins| == 2 && s.phase.Fetch? && Whole(ps, s, order, hand, ins, out)
    ensures hand == []
  {
  }

  lemma FetchEffect(s: State, t: Call, hand: seq<Word>, order: seq<Service>, out: seq<Word>)
    requires s.phase.Fetch? && hand == []
    ensures hand + TakenOn(s, t, 0) + TakenOn(s, t, 1) == TakenOn(s, t, 0) + TakenOn(s, t, 1)
    ensures out + Emitted(s, t) == out && order + [] == order
  {
  }

  lemma DecodeEffect(s: State, t: Call, hand: seq<Word>, order: seq<Service>, ins: seq<seq<Word>>)
    requires s.phase.Decode? && |ins| == 2
    ensures hand + TakenOn(s, t, 0) + TakenOn(s, t, 1) == hand && order + [] == order
    ensures [ins[0] + TakenOn(s, t, 0), ins[1] + TakenOn(s, t, 1)] == ins
  {
    assert ins[0] + [] == ins[0] && ins[1] + [] == ins[1];
  }

  // ---------------------------------------------------------------- when every call is quiet

  predicate Long(ps: Feeds) {
    forall p: Port, i :: 0 <= i < |ps[p]| ==> |ps[p][i]| >= 2
  }

  lemma FirstWordNotLast(ps: Feeds, s: State, order: seq<Service>, hand: seq<Word>, ins: seq<seq<Word>>, out: seq<Word>)
    requires |ins| == 2 && s.phase.Decode? && Whole(ps, s, order, hand, ins, out) && AllFramed(ps) && Long(ps)
    ensures !s.wordIn.last
  {
    hide Finished, Flatten, Merged;
    assert Framed(ps[s.activePort][Finished(order, s.activePort)]);
  }

  lemma InputGrows(s: State, ts: seq<Call>, n: nat, ps: Feeds)
    requires 0 < n <= |ts| && forall p: Port :: Input(s, ts, n, p) <= Flatten(ps[p])
    ensures forall p: Port :: Input(s, ts, n - 1, p) <= Flatten(ps[p])
  {
    forall p: Port ensures Input(s, ts, n - 1, p) <= Flatten(ps[p]) {
      assert Input(s, ts, n - 1, p) <= Input(s, ts, n, p);
    }
  }

  /** While a packet is in flight, a call leaves it in flight only on a word that is not its last. */
  lemma StillBusy(s: State, t: Call)
    requires Busy(Next(s, t))
    ensures (Busy(s) && !Next(s, t).wordIn.last) || (s.phase.Decode? && Next(s, t).wordIn == s.wordIn)
  {
  }

  /** Packets of at least two words need no assumption about timing: every call of every run is quiet. */
  lemma {:induction false} LongPacketsAreQuiet(s: State, ts: seq<Call>, n: nat, ps: Feeds)
    requires n <= |ts| && Initial(s) && AllFramed(ps) && Long(ps)
    requires forall p: Port :: Input(s, ts, n, p) <= Flatten(ps[p])
    ensures FedBy(s, ts, n, ps)
    ensures Busy(At(s, ts, n)) ==> !At(s, ts, n).wordIn.last
    decreases n
  {
    hide Next, TakenOn, Flatten, AllFramed, Long, Whole;
    if n > 0 {
      InputGrows(s, ts, n, ps);
      LongPacketsAreQuiet(s, ts, n - 1, ps);
      var before := At(s, ts, n - 1);
      assert Quiet(before, ts[n - 1]);
      if Busy(At(s, ts, n)) {
        StillBusy(before, ts[n - 1]);
        if before.phase.Decode? {
          NeverInterleaved(s, ts, n - 1, ps);
          FirstWordNotLast(ps, before, Order(s, ts, n - 1), InHand(s, ts, n - 1),
                           [Input(s, ts, n - 1, 0), Input(s, ts, n - 1, 1)], Output(s, ts, n - 1));
        }
      }
    }
  }

  /** Packets of at least two words are never interleaved, in any run. */
  lemma LongPacketsNeverInterleaved(s: State, ts: seq<Call>, n: nat, ps: Feeds)
    requires n <= |ts| && Initial(s) && AllFramed(ps) && Long(ps)
    requires forall p: Port :: Input(s, ts, n, p) <= Flatten(ps[p])
    ensures Whole(ps, At(s, ts, n), Order(s, ts, n), InHand(s, ts, n),
                  [Input(s, ts, n, 0), Input(s, ts, n, 1)], Output(s, ts, n))
  {
    LongPacketsAreQuiet(s, ts, n, ps);
    NeverInterleaved(s, ts, n, ps);
  }

  /** Exactly the quiet calls keep packets whole: any other reads into the packet that follows. */
  lemma QuietIffWhole(ps: Feeds, s: State, t: Call, order: seq<Service>, hand: seq<Word>, ins: seq<seq<Word>>,
                      out: seq<Word>)
    requires |ins| == 2 && Busy(s) && Whole(ps, s, order, hand, ins, out) && AllFramed(ps)
    requires forall p: Port :: ins[p] + TakenOn(s, t, p) <= Flatten(ps[p])
    ensures var ins' := [ins[0] + TakenOn(s, t, 0), ins[1] + TakenOn(s, t, 1)];
            var out' := out + Emitted(s, t);
            var order' := order + if Ends(s, t) then [Service(s.phase.port, s.phase.Forward?)] else [];
            var hand' := if Ends(s, t) then [] else hand + TakenOn(s, t, 0) + TakenOn(s, t, 1);
            Whole(ps, Next(s, t), order', hand', ins', out') <==> Quiet(s, t)
  {
    hide Flatten, Finished, Merged, Next, TakenOn, Emitted, AllFramed, Whole;
    assert order + [] == order;
    if Quiet(s, t) {
      BusyKeepsWhole(ps, s, t, order, hand, ins, out);
    } else {
      UnquietBreaks(ps, s, t, order, hand, ins, out);
    }
  }

  lemma UnquietBreaks(ps: Feeds, s: State, t: Call, order: seq<Service>, hand: seq<Word>, ins: seq<seq<Word>>,
                      out: seq<Word>)
    requires |ins| == 2 && Busy(s) && Whole(ps, s, order, hand, ins, out) && AllFramed(ps) && !Quiet(s, t)
    ensures var ins' := [ins[0] + TakenOn(s, t, 0), ins[1] + TakenOn(s, t, 1)];
            if Ends(s, t) then !Whole(ps, Next(s, t), order + [Service(s.phase.port, s.phase.Forward?)], [], ins',
                                      out + Emitted(s, t))
            else !Whole(ps, Next(s, t), order, hand + TakenOn(s, t, 0) + TakenOn(s, t, 1), ins', out + Emitted(s, t))
  {
    hide Flatten, Finished, Merged, Next, TakenOn, Emitted, AllFramed;
    BusyStep(s, t);
    var p, more := s.activePort, TakenOn(s, t, s.activePort);
    HandComplete(ps, p, Finished(order, p), hand);
    PacketCloses(ps, p, order, s.phase.Forward?);
    assert |more| == 1;
    assert hand + TakenOn(s, t, 0) + TakenOn(s, t, 1) == hand + more;
  }

  /** Packets are whole at a point of a run. */
  predicate WholeAt(s: State, ts: seq<Call>, n: nat, ps: Feeds)
    requires n <= |ts|
  {
    Whole(ps, At(s, ts, n), Order(s, ts, n), InHand(s, ts, n), [Input(s, ts, n, 0), Input(s, ts, n, 1)],
          Output(s, ts, n))
  }

  lemma {:induction false} InputEarlier(s: State, ts: seq<Call>, m: nat, n: nat, p: Port)
    requires m <= n <= |ts|
    ensures Input(s, ts, m, p) <= Input(s, ts, n, p)
    decreases n
  {
    hide TakenOn, At;
    if m < n {
      InputEarlier(s, ts, m, n - 1, p);
    }
  }

  /** A call between two points at which packets are whole was quiet. */
  lemma WholeWasQuiet(s: State, ts: seq<Call>, m: nat, ps: Feeds)
    requires m < |ts| && AllFramed(ps) && WholeAt(s, ts, m, ps) && WholeAt(s, ts, m + 1, ps)
    requires forall p: Port :: Input(s, ts, m + 1, p) <= Flatten(ps[p])
    ensures Quiet(At(s, ts, m), ts[m])
  {
    hide Whole, Next, TakenOn, Emitted, AllFramed, Flatten;
    var before, t := At(s, ts, m), ts[m];
    if Busy(before) {
      var order, hand, out := Order(s, ts, m), InHand(s, ts, m), Output(s, ts, m);
      var ins := [Input(s, ts, m, 0), Input(s, ts, m, 1)];
      assert forall p: Port :: ins[p] + TakenOn(before, t, p) == Input(s, ts, m + 1, p);
      assert order + [] == order;
      QuietIffWhole(ps, before, t, order, hand, ins, out);
    }
  }

  /**
   * Over runs: packets are whole at every point up to n if and only if every call before n is quiet, whatever
   * arrives.
   */
  lemma AlwaysWholeIffQuiet(s: State, ts: seq<Call>, n: nat, ps: Feeds)
    requires n <= |ts| && Initial(s) && AllFramed(ps) && forall p: Port :: Input(s, ts, n, p) <= Flatten(ps[p])
    ensures (forall m :: 0 <= m <= n ==> WholeAt(s, ts, m, ps)) <==>
            (forall m :: 0 <= m < n ==> Quiet(At(s, ts, m), ts[m]))
  {
    hide WholeAt, Quiet, AllFramed, Flatten, At, Input;
    forall m: nat, p: Port | m <= n ensures Input(s, ts, m, p) <= Flatten(ps[p]) { InputEarlier(s, ts, m, n, p); }
    if forall m :: 0 <= m < n ==> Quiet(At(s, ts, m), ts[m]) {
      forall m | 0 <= m <= n ensures WholeAt(s, ts, m, ps) {
        NeverInterleaved(s, ts, m, ps);
        WholeNow(s, ts, m, ps);
      }
    }
    if forall m :: 0 <= m <= n ==> WholeAt(s, ts, m, ps) {
      forall m | 0 <= m < n ensures Quiet(At(s, ts, m), ts[m]) {
        assert WholeAt(s, ts, m, ps) && WholeAt(s, ts, m + 1, ps);
        WholeWasQuiet(s, ts, m, ps);
      }
    }
  }

  lemma WholeNow(s: State, ts: seq<Call>, n: nat, ps: Feeds)
    requires n <= |ts|
    requires Whole(ps, At(s, ts, n), Order(s, ts, n), InHand(s, ts, n), [Input(s, ts, n, 0), Input(s, ts, n, 1)],
                   Output(s, ts, n))
    ensures WholeAt(s, ts, n, ps)
  {
  }

  function SmallWord(number: Octet, last: bool): Word {
    Word([number, 0, 0, 0, 0, 0, 0, 0], Full(), last)
  }

  function Offer(w: Word): Call { Tick(false, 0, [Some(w), None], [0, 0]) }

  /**
   * A one-word packet followed at once by a stale duplicate: the duplicate is forwarded with it, its number never
   * examined, and the two count as one.
   */
  lemma OneWordPacketSwallowsNext(s: State)
    requires Initial(s)
    ensures var first, second, third := SmallWord(1, true), SmallWord(1, false), SmallWord(9, true);
            var ts := [Offer(first), Offer(second), Offer(second), Offer(third)];
            && Output(s, ts, 4) == [first, second, third]
            && At(s, ts, 4).phase.Fetch? && At(s, ts, 4).rxFeed == [1, 0]
            && Judge(SequenceNumber(second), At(s, ts, 2).expected[0], At(s, ts, 2).timer) == Duplicate
  {
    var first, second, third := SmallWord(1, true), SmallWord(1, false), SmallWord(9, true);
    var ts := [Offer(first), Offer(second), Offer(second), Offer(third)];
    assert At(s, ts, 1).phase.Decode? && At(s, ts, 1).wordIn == first && At(s, ts, 1).seqNumReceived == 1;
    assert Output(s, ts, 1) == [];
    var s2 := At(s, ts, 2);
    assert s2 == Next(At(s, ts, 1), ts[1]) && s2.phase == Forward(0) && s2.wordIn == first && s2.rxFeed == [1, 0];
    assert Output(s, ts, 2) == [first];
    assert At(s, ts, 3) == Next(s2, ts[2]) && At(s, ts, 3).phase == Forward(0) && At(s, ts, 3).rxFeed == [1, 0];
    assert Output(s, ts, 3) == [first, second];
    assert At(s, ts, 4) == Next(At(s, ts, 3), ts[3]);
  }
}
