/**
 * The IGMP report timer: a table of 16 entries that one call visits one entry at a time, either to match a query,
 * to insert it, or to run the timers down.
 */
module IgmpTimer {
  import opened Wrappers
  import opened Bits

  const MAX_IGMP_TIMERS: nat := 16

  type Word32 = x: nat | x < 0x1_0000_0000

  datatype Entry = Entry(time: Word32, groupAddr: Word32, fActive: bool)

  type Table = t: seq<Entry> | |t| == MAX_IGMP_TIMERS witness seq(16, _ => Entry(0, 0, false))

  datatype Query = Query(maxRespTime: Word32, groupAddr: Word32)

  datatype Phase = Idle | CheckTimers | DecrementTimers | InsertEntry

  datatype State = State(phase: Phase, table: Table, currQuery: Query, fExisting: bool, v3Query: bool, nCount: nat)

  /** What a call finds on its streams: a version change, a query, a 100 ms tick. */
  datatype Input = Input(isV3: Option<bool>, query: Option<Query>, tick: bool)

  /** A pass over the table is always at one of its entries. */
  predicate InPass(s: State) { s.phase != Idle ==> s.nCount < MAX_IGMP_TIMERS }

  ghost predicate Initial(s: State) {
    s.phase == Idle && s.v3Query && forall i :: 0 <= i < MAX_IGMP_TIMERS ==> !s.table[i].fActive
  }

  /** The response time of a query: from 128 up the code is a four-bit mantissa and a three-bit exponent. */
  function RespTime(v3: bool, code: Word32): (time: Word32) {
    if v3 && code > 128 then
      SmallPow2(code % 128 / 16);
      SmallProduct(code % 16 + 16, Pow2(code % 128 / 16 + 3));
      (code % 16 + 16) * Pow2(code % 128 / 16 + 3)
    else code
  }

  lemma SmallPow2(exponent: nat)
    requires exponent < 8
    ensures Pow2(exponent + 3) <= 1024
  {
    Pow2Monotone(exponent + 3, 10);
    assert Pow2(5) == 32 && Pow2(10) == 32 * Pow2(5);
  }

  lemma SmallProduct(mantissa: nat, power: nat)
    requires mantissa <= 31 && power <= 1024
    ensures mantissa * power <= 31744
  {
    assert (31 - mantissa) * power >= 0;
    assert mantissa * power + (31 - mantissa) * power == 31 * power;
  }

  /** Section 4.1.1 of RFC 3376, where the floating point form starts at 128 and not above it. */
  function MaxRespTimeOfRfc3376(code: Word32): nat
    requires code < 256
  {
    if code < 128 then code else (code % 16 + 16) * Pow2(code % 128 / 16 + 3)
  }

  /** The off-by-one in the comparison is harmless: code 128 stands for 128 in both forms. */
  lemma RespTimeIsRfc3376(code: Word32)
    requires code < 256
    ensures RespTime(true, code) == MaxRespTimeOfRfc3376(code)
  {
    assert Pow2(3) == 8;
  }

  function CheckEntry(e: Entry, q: Query): Entry {
    if e.fActive && e.groupAddr == q.groupAddr && e.time > q.maxRespTime then e.(time := q.maxRespTime) else e
  }

  function DecrementEntry(e: Entry): Entry {
    if !e.fActive then e else if e.time == 0 then e.(fActive := false) else e.(time := e.time - 1)
  }

  /** One call. */
  function Next(s: State, x: Input): (s': State)
    requires InPass(s)
    ensures InPass(s')
  {
    match s.phase
    case Idle =>
      if x.isV3.Some? then s.(v3Query := x.isV3.value)
      else if x.query.Some? then
        s.(currQuery := x.query.value.(maxRespTime := RespTime(s.v3Query, x.query.value.maxRespTime)),
           fExisting := false, nCount := 0, phase := CheckTimers)
      else if x.tick then s.(nCount := 0, phase := DecrementTimers)
      else s
    case DecrementTimers =>
      s.(table := s.table[s.nCount := DecrementEntry(s.table[s.nCount])],
         nCount := s.nCount + 1,
         phase := if s.nCount + 1 == MAX_IGMP_TIMERS then Idle else DecrementTimers)
    case CheckTimers =>
      var e := s.table[s.nCount];
      var existing := s.fExisting || (e.fActive && e.groupAddr == s.currQuery.groupAddr);
      var last := s.nCount + 1 == MAX_IGMP_TIMERS;
      s.(table := s.table[s.nCount := CheckEntry(e, s.currQuery)],
         fExisting := existing,
         nCount := if last && !existing then 0 else s.nCount + 1,
         phase := if !last then CheckTimers else if existing then Idle else InsertEntry)
    case InsertEntry =>
      var free := !s.table[s.nCount].fActive;
      s.(table := if free then s.table[s.nCount := Entry(s.currQuery.maxRespTime, s.currQuery.groupAddr, true)]
                  else s.table,
         nCount := s.nCount + 1,
         phase := if free || s.nCount + 1 == MAX_IGMP_TIMERS then Idle else InsertEntry)
  }

  /** The group a call reports, if any. */
  function Reported(s: State): Option<Word32>
    requires InPass(s)
  {
    if s.phase == DecrementTimers && s.table[s.nCount].fActive && s.table[s.nCount].time == 0
    then Some(s.table[s.nCount].groupAddr) else None
  }

  // ---------------------------------------------------------------- what every call keeps

  predicate Matches(e: Entry, g: Word32) { e.fActive && e.groupAddr == g }

  predicate NoneMatches(t: Table, g: Word32, n: nat)
    requires n <= MAX_IGMP_TIMERS
  {
    forall i :: 0 <= i < n ==> !Matches(t[i], g)
  }

  /** No two active entries are for one group. */
  predicate Distinct(t: Table) {
    forall i, j :: 0 <= i < j < MAX_IGMP_TIMERS && t[i].fActive && t[j].fActive ==> t[i].groupAddr != t[j].groupAddr
  }

  /** What the passes know about the entries they have visited. */
  predicate Sound(s: State) {
    && InPass(s)
    && Distinct(s.table)
    && (s.phase == CheckTimers ==>
          && (!s.fExisting <==> NoneMatches(s.table, s.currQuery.groupAddr, s.nCount))
          && forall i :: 0 <= i < s.nCount && Matches(s.table[i], s.currQuery.groupAddr) ==>
               s.table[i].time <= s.currQuery.maxRespTime)
    && (s.phase == InsertEntry ==>
          && NoneMatches(s.table, s.currQuery.groupAddr, MAX_IGMP_TIMERS)
          && forall i :: 0 <= i < s.nCount ==> s.table[i].fActive)
  }

  lemma SoundInPass(s: State)
    requires Sound(s)
    ensures InPass(s)
  {
  }

  lemma InitialSound(s: State)
    requires Initial(s)
    ensures Sound(s)
  {
  }

  /** No call ever gives a group a second timer. */
  lemma SoundStep(s: State, x: Input)
    requires Sound(s)
    ensures Sound(Next(s, x))
  {
    hide RespTime;
    var t, t', n := s.table, Next(s, x).table, s.nCount;
    match s.phase {
      case Idle =>
      case DecrementTimers =>
        assert forall i :: 0 <= i < MAX_IGMP_TIMERS && t'[i].fActive ==>
                 t[i].fActive && t'[i].groupAddr == t[i].groupAddr;
      case CheckTimers =>
        var g := s.currQuery.groupAddr;
        assert forall i :: 0 <= i < MAX_IGMP_TIMERS ==>
                 t'[i].fActive == t[i].fActive && t'[i].groupAddr == t[i].groupAddr;
        assert NoneMatches(t', g, n + 1) <==> NoneMatches(t, g, n) && !Matches(t[n], g);
      case InsertEntry =>
        assert forall i :: 0 <= i < MAX_IGMP_TIMERS && i != n ==>
                 t'[i] == t[i] && !Matches(t[i], s.currQuery.groupAddr);
    }
  }

  /** While an entry stays active its group is fixed and its time never rises. */
  lemma TimeNeverRises(s: State, x: Input, i: nat)
    requires InPass(s) && i < MAX_IGMP_TIMERS && s.table[i].fActive && Next(s, x).table[i].fActive
    ensures Next(s, x).table[i].groupAddr == s.table[i].groupAddr && Next(s, x).table[i].time <= s.table[i].time
  {
  }

  /** A query is settled when its group has a timer that expires in time, or every entry serves another group. */
  predicate Settled(t: Table, q: Query) {
    || (exists i :: 0 <= i < MAX_IGMP_TIMERS && Matches(t[i], q.groupAddr) && t[i].time <= q.maxRespTime)
    || (forall i :: 0 <= i < MAX_IGMP_TIMERS ==> t[i].fActive && t[i].groupAddr != q.groupAddr)
  }

  /** A query pass ends only with its query settled. */
  lemma PassSettles(s: State, x: Input)
    requires Sound(s) && (s.phase == CheckTimers || s.phase == InsertEntry) && Next(s, x).phase == Idle
    ensures Settled(Next(s, x).table, s.currQuery)
  {
    var t, g := Next(s, x).table, s.currQuery.groupAddr;
    if s.phase == CheckTimers {
      var i :| 0 <= i <= s.nCount && Matches(s.table[i], g);
      assert Matches(t[i], g) && t[i].time <= s.currQuery.maxRespTime;
    } else if !s.table[s.nCount].fActive {
      assert Matches(t[s.nCount], g);
    }
  }
}
