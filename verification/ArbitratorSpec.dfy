/**
 * One step of the dual-feed line arbitrator: the state it keeps between calls and the effect of a call, given
 * what the two port streams offer.
 */
module Arbitration {
  import opened Wrappers
  import opened AxiStream

  const WRAP: nat := 0x1_0000_0000
  const NUM_SPLITS: nat := 8

  type Port = p: nat | p < 2
  type SplitId = k: nat | k < NUM_SPLITS
  type Word32 = x: nat | x < WRAP
  type PerPort = c: seq<Word32> | |c| == 2 witness [0, 0]
  type PerSplit = e: seq<Word32> | |e| == NUM_SPLITS witness [0, 0, 0, 0, 0, 0, 0, 0]

  datatype Phase = Fetch | Decode | Forward(port: Port) | Drop(port: Port)

  datatype State = State(
    phase: Phase,
    wordIn: Word,
    timer: Word32,
    activePort: Port,
    splitId: SplitId,
    seqNumReceived: Word32,
    expected: PerSplit,
    totalSent: Word32,
    totalWordSent: Word32,
    totalMissed: Word32,
    rxFeed: PerPort,
    txFeed: PerPort,
    discarded: PerPort
  )

  /**
   * What a call sees: the reset bit and timer interval registers, the word at the head of each port stream if
   * there is one, and the split identifier at the head of each split stream.  The port filter writes a packet's
   * split identifier before its first word.
   */
  datatype Tick = Tick(reset: bool, interval: Word32, words: seq<Option<Word>>, splits: seq<SplitId>)

  type Call = t: Tick | |t.words| == 2 && |t.splits| == 2 witness Tick(false, 0, [None, None], [0, 0])

  const NO_SPLITS: PerSplit := [0, 0, 0, 0, 0, 0, 0, 0]

  function Inc(x: Word32): Word32 {
    var v := x;
    (v + 1) % WRAP
  }

  function Bump(c: PerPort, p: Port): PerPort { c[p := Inc(c[p])] }

  /** The sequence number is the low 32 bits of a packet's first word. */
  function SequenceNumber(w: Word): Word32 {
    w.data[0] as int + 0x100 * w.data[1] as int + 0x10000 * w.data[2] as int + 0x1000000 * w.data[3] as int
  }

  ghost predicate Initial(s: State) {
    && s.phase == Fetch && s.timer == 0 && s.activePort == 1 && s.expected == NO_SPLITS
    && s.totalSent == s.totalWordSent == s.totalMissed == 0
    && s.rxFeed == s.txFeed == s.discarded == [0, 0]
  }

  /** Every call first runs the reset timer down and serves the sequence reset register. */
  function Refresh(s: State, t: Call): State {
    s.(timer := if s.timer != 0 then s.timer - 1 else 0,
       expected := if t.reset then NO_SPLITS else s.expected)
  }

  /** Round robin: the port opposite the last one served goes first. */
  function Chosen(s: State, t: Call): Option<Port> {
    var other: Port := 1 - s.activePort;
    if t.words[other].Some? then Some(other)
    else if t.words[s.activePort].Some? then Some(s.activePort)
    else None
  }

  function FetchStep(s: State, t: Call): State {
    match Chosen(s, t)
    case None => s
    case Some(p) =>
      var w := t.words[p].value;
      s.(phase := Decode, activePort := p, wordIn := w, splitId := t.splits[p], seqNumReceived := SequenceNumber(w))
  }

  /** The arbitration decision on a packet's sequence number. */
  datatype Verdict = Restart | Echo | Duplicate | Match | Gap | Early

  function Judge(seqNum: Word32, expected: Word32, timer: Word32): Verdict {
    if seqNum == 0 then (if timer != 0 then Echo else Restart)
    else if seqNum < expected then Duplicate
    else if seqNum == expected then Match
    else if timer != 0 then Early else Gap
  }

  predicate Forwards(v: Verdict) { v.Restart? || v.Match? || v.Gap? }

  function VerdictOf(s: State): Verdict { Judge(s.seqNumReceived, s.expected[s.splitId], s.timer) }

  function DecodeStep(s: State, t: Call): State {
    var v := VerdictOf(s);
    var received := s.(rxFeed := Bump(s.rxFeed, s.activePort));
    if Forwards(v) then
      received.(phase := Forward(s.activePort),
                expected := s.expected[s.splitId := Inc(s.seqNumReceived)],
                timer := if v.Restart? then t.interval else s.timer,
                totalMissed := if v.Gap? then Inc(s.totalMissed) else s.totalMissed,
                totalSent := Inc(s.totalSent),
                totalWordSent := Inc(s.totalWordSent))
    else
      received.(phase := Drop(s.activePort))
  }

  function ForwardStep(s: State, t: Call, p: Port): State {
    var moved := if t.words[p].Some? then s.(wordIn := t.words[p].value, totalWordSent := Inc(s.totalWordSent)) else s;
    if moved.wordIn.last then
      moved.(phase := Fetch, txFeed := Bump(s.txFeed, p), totalSent := Inc(s.totalSent))
    else
      moved
  }

  function DropStep(s: State, t: Call, p: Port): State {
    var moved := if t.words[p].Some? then s.(wordIn := t.words[p].value) else s;
    if moved.wordIn.last then moved.(phase := Fetch, discarded := Bump(s.discarded, p)) else moved
  }

  /** One call of the arbitrator. */
  function Next(s: State, t: Call): State {
    var r := Refresh(s, t);
    match s.phase
    case Fetch => FetchStep(r, t)
    case Decode => DecodeStep(r, t)
    case Forward(p) => ForwardStep(r, t, p)
    case Drop(p) => DropStep(r, t, p)
  }

  /** The word a call writes to the output feed, if any. */
  function Emitted(s: State, t: Call): seq<Word> {
    match s.phase
    case Fetch => []
    case Decode => if Forwards(VerdictOf(Refresh(s, t))) then [s.wordIn] else []
    case Forward(p) => if t.words[p].Some? then [t.words[p].value] else []
    case Drop(_) => []
  }

  /** The word a call reads from port p, if any. */
  function TakenOn(s: State, t: Call, p: Port): seq<Word> {
    match s.phase
    case Fetch => if Chosen(s, t) == Some(p) then [t.words[p].value] else []
    case Decode => []
    case Forward(q) => if q == p && t.words[p].Some? then [t.words[p].value] else []
    case Drop(q) => if q == p && t.words[p].Some? then [t.words[p].value] else []
  }

  /** What a call reads does not depend on the registers it refreshes first. */
  lemma RefreshInvisible(s: State, t: Call, p: Port)
    ensures TakenOn(Refresh(s, t), t, p) == TakenOn(s, t, p)
  {
  }

  // ---------------------------------------------------------------- runs

  /** The state before call n of a run. */
  function At(s: State, ts: seq<Call>, n: nat): State
    requires n <= |ts|
  {
    if n == 0 then s else Next(At(s, ts, n - 1), ts[n - 1])
  }

  /** Everything the first n calls wrote, and everything they read from port p. */
  function Output(s: State, ts: seq<Call>, n: nat): seq<Word>
    requires n <= |ts|
  {
    if n == 0 then [] else Output(s, ts, n - 1) + Emitted(At(s, ts, n - 1), ts[n - 1])
  }

  function Input(s: State, ts: seq<Call>, n: nat, p: Port): seq<Word>
    requires n <= |ts|
  {
    if n == 0 then [] else Input(s, ts, n - 1, p) + TakenOn(At(s, ts, n - 1), ts[n - 1], p)
  }

  /** The verdict of call n, when it decides on a packet. */
  function Decision(s: State, ts: seq<Call>, n: nat): Option<Verdict>
    requires n < |ts|
  {
    var before := At(s, ts, n);
    if before.phase.Decode? then Some(VerdictOf(Refresh(before, ts[n]))) else None
  }

  /** Call n forwards a packet of split k. */
  predicate ForwardsOn(s: State, ts: seq<Call>, n: nat, k: SplitId)
    requires n < |ts|
  {
    var d := Decision(s, ts, n);
    d.Some? && Forwards(d.value) && At(s, ts, n).splitId == k
  }

  function Number(s: State, ts: seq<Call>, n: nat): Word32
    requires n < |ts|
  {
    At(s, ts, n).seqNumReceived
  }
}
