/**
 * The word shifters of axi_utils.hpp: `lshiftWordByOctet` makes room for `offset` octets in front of every
 * packet of a stream and `rshiftWordByOctet` drops that many.
 */
module WordShift {
  import opened OnesComplement
  import opened AxiStream

  type Offset = o: int | 0 <= o < 8

  function ZeroOctets(n: nat): (z: seq<Octet>)
    ensures |z| == n
  {
    seq(n, _ => 0)
  }

  function All(n: nat, b: bool): (k: seq<bool>)
    ensures |k| == n && forall i :: 0 <= i < n ==> k[i] == b
  {
    seq(n, _ => b)
  }

  // ---------------------------------------------------------------- lshiftWordByOctet

  datatype LeftState = LeftState(firstWord: bool, writeRemainder: bool, prev: Word)

  /** What the next output word takes from the past: the tail of the previous word, or padding at a packet start. */
  function CarryData(o: Offset, s: LeftState): seq<Octet> {
    if s.firstWord then ZeroOctets(o) else s.prev.data[8 - o..]
  }

  function CarryKeep(o: Offset, s: LeftState): seq<bool> {
    if s.firstWord then All(o, true) else s.prev.keep[8 - o..]
  }

  function LeftSend(o: Offset, s: LeftState, curr: Word): Word {
    Word(CarryData(o, s) + curr.data[..8 - o], CarryKeep(o, s) + curr.keep[..8 - o], NoLane(curr.keep[8 - o..]))
  }

  /** One call of the stage: new state, what is left in the input stream, and the words written. */
  function LeftNext(o: Offset, s: LeftState, input: seq<Word>): (LeftState, seq<Word>, seq<Word>) {
    if s.writeRemainder then
      var send := Word(s.prev.data[8 - o..] + ZeroOctets(8 - o), s.prev.keep[8 - o..] + All(8 - o, false), true);
      (s.(writeRemainder := false), input, [send])
    else if input == [] then (s, input, [])
    else if o == 0 then (s, input[1..], [input[0]])
    else
      var curr, send := input[0], LeftSend(o, s, input[0]);
      (LeftState(curr.last, curr.last && !send.last, curr), input[1..], [send])
  }

  /** Calls the stage until its input is consumed and nothing is pending. */
  function LeftRun(o: Offset, s: LeftState, input: seq<Word>): (LeftState, seq<Word>)
    decreases |input|, if s.writeRemainder then 1 else 0
  {
    if !s.writeRemainder && input == [] then (s, [])
    else
      var (s', rest, out) := LeftNext(o, s, input);
      var (s'', more) := LeftRun(o, s', rest);
      (s'', out + more)
  }

  class LeftShifter {
    var firstWord: bool
    var writeRemainder: bool
    var prevWord: Word

    constructor (uninitialised: Word)
      ensures State() == LeftState(true, false, uninitialised)
    {
      firstWord, writeRemainder, prevWord := true, false, uninitialised;
    }

    function State(): LeftState
      reads this
    {
      LeftState(firstWord, writeRemainder, prevWord)
    }

    method Step(offset: Offset, input: seq<Word>) returns (rest: seq<Word>, output: seq<Word>)
      modifies this
      ensures (State(), rest, output) == LeftNext(offset, old(State()), input)
    {
      rest, output := input, [];
      if writeRemainder {
        output := [Word(prevWord.data[8 - offset..] + ZeroOctets(8 - offset),
                        prevWord.keep[8 - offset..] + All(8 - offset, false), true)];
        writeRemainder := false;
      } else if input != [] {
        var currWord := input[0];
        rest := input[1..];
        if offset == 0 {
          output := [currWord];
        } else {
          var last := NoLane(currWord.keep[8 - offset..]);
          if firstWord {
            output := [Word(ZeroOctets(offset) + currWord.data[..8 - offset],
                            All(offset, true) + currWord.keep[..8 - offset], last)];
          } else {
            output := [Word(prevWord.data[8 - offset..] + currWord.data[..8 - offset],
                            prevWord.keep[8 - offset..] + currWord.keep[..8 - offset], last)];
          }
          prevWord := currWord;
          firstWord := false;
          if currWord.last {
            firstWord := true;
            writeRemainder := !last;
          }
        }
      }
    }
  }

  /** The stage's output does not depend on how its input arrives: a run may be cut anywhere. */
  lemma {:induction false} LeftRunSplit(o: Offset, s: LeftState, a: seq<Word>, b: seq<Word>)
    ensures LeftRun(o, s, a + b) ==
            var (s', out) := LeftRun(o, s, a); var (s'', more) := LeftRun(o, s', b); (s'', out + more)
    decreases |a|, if s.writeRemainder then 1 else 0
  {
    if !s.writeRemainder && a == [] {
      assert a + b == b;
      assert [] + LeftRun(o, s, b).1 == LeftRun(o, s, b).1;
    } else {
      var (s', rest, out) := LeftNext(o, s, a);
      assert s.writeRemainder || (a + b)[1..] == a[1..] + b;
      LeftRunSplit(o, s', rest, b);
      var (t, mid) := LeftRun(o, s', rest);
      assert (out + mid) + LeftRun(o, t, b).1 == out + (mid + LeftRun(o, t, b).1);
    }
  }

  ghost predicate LeftIdle(s: LeftState) { s.firstWord && !s.writeRemainder }

  lemma LeftSendFull(o: Offset, s: LeftState, curr: Word)
    requires 0 < o && CarryKeep(o, s) == All(o, true) && KeepLen(curr.keep) > 8 - o
    ensures LeftSend(o, s, curr).keep == Full() && !LeftSend(o, s, curr).last
  {
    assert curr.keep[8 - o..][0];
  }

  lemma LeftSendLast(o: Offset, s: LeftState, curr: Word, k: nat)
    requires 0 < o && CarryKeep(o, s) == All(o, true) && k <= 8 - o && curr.keep == Mask(k)
    ensures LeftSend(o, s, curr).keep == Mask(o + k) && LeftSend(o, s, curr).last
    ensures LeftSend(o, s, curr).data[..o + k] == CarryData(o, s) + curr.data[..k]
  {
  }

  lemma Regroup(h: seq<Octet>, a: seq<Octet>, b: seq<Octet>, t: seq<Octet>)
    ensures (h + a) + (b + t) == h + ((a + b) + t)
  {
  }

  /** Inside a packet one call writes one word and carries the word just read. */
  lemma LeftUnfold(o: Offset, s: LeftState, ws: seq<Word>)
    requires o > 0 && ws != [] && !ws[0].last && !s.writeRemainder
    ensures var s' := LeftState(false, false, ws[0]);
            LeftRun(o, s, ws) == (LeftRun(o, s', ws[1..]).0, [LeftSend(o, s, ws[0])] + LeftRun(o, s', ws[1..]).1)
  {
  }

  /** A full word splits into the part sent at once and the part carried over. */
  lemma FullWordCarries(o: Offset, w: Word)
    requires w.keep == Full()
    ensures w.keep[8 - o..] == All(o, true)
    ensures w.data == w.data[..8 - o] + w.data[8 - o..]
  {
  }

  /** From any point inside a packet, the rest of the packet comes out behind the carried octets. */
  lemma {:induction false} LeftTail(o: Offset, s: LeftState, ws: seq<Word>)
    requires o > 0 && IsPacket(ws) && !s.writeRemainder && CarryKeep(o, s) == All(o, true)
    ensures LeftIdle(LeftRun(o, s, ws).0)
    ensures IsPacket(LeftRun(o, s, ws).1) && Octets(LeftRun(o, s, ws).1) == CarryData(o, s) + Octets(ws)
    decreases |ws|
  {
    if |ws| > 1 {
      LeftTailInner(o, s, ws);
    } else {
      LeftTailLast(o, s, ws[0]);
      assert ws == [ws[0]];
    }
  }

  lemma {:induction false} LeftTailInner(o: Offset, s: LeftState, ws: seq<Word>)
    requires o > 0 && IsPacket(ws) && |ws| > 1 && !s.writeRemainder && CarryKeep(o, s) == All(o, true)
    ensures LeftIdle(LeftRun(o, s, ws).0)
    ensures IsPacket(LeftRun(o, s, ws).1) && Octets(LeftRun(o, s, ws).1) == CarryData(o, s) + Octets(ws)
    decreases |ws|, 0
  {
    var s', send := LeftState(false, false, ws[0]), LeftSend(o, s, ws[0]);
    KeepLenOfMask(8);
    LeftSendFull(o, s, ws[0]);
    LeftUnfold(o, s, ws);
    FullWordCarries(o, ws[0]);
    LeftTail(o, s', ws[1..]);
    PacketCons(send, LeftRun(o, s', ws[1..]).1);
    PacketHead(ws);
    Regroup(CarryData(o, s), ws[0].data[..8 - o], CarryData(o, s'), Octets(ws[1..]));
  }

  lemma LeftTailLast(o: Offset, s: LeftState, w: Word)
    requires o > 0 && IsPacket([w]) && !s.writeRemainder && CarryKeep(o, s) == All(o, true)
    ensures LeftIdle(LeftRun(o, s, [w]).0)
    ensures IsPacket(LeftRun(o, s, [w]).1) && Octets(LeftRun(o, s, [w]).1) == CarryData(o, s) + Octets([w])
  {
    hide Octets, LeftSend;
    var k, send := KeepLen(w.keep), LeftSend(o, s, w);
    LastWord(w, k);
    LeftUnfoldLast(o, s, w);
    if k > 8 - o {
      LeftSendFull(o, s, w);
      var s' := LeftState(true, true, w);
      LeftRemainder(o, s', k);
      PacketCons(send, LeftRun(o, s', []).1);
      LeftSendData(o, s, w);
      assert CarryData(o, s) + w.data[..8 - o] + w.data[8 - o..k] == CarryData(o, s) + w.data[..k];
    } else {
      LeftSendLast(o, s, w, k);
      LastWord(send, o + k);
    }
  }

  lemma LeftSendData(o: Offset, s: LeftState, curr: Word)
    ensures LeftSend(o, s, curr).data == CarryData(o, s) + curr.data[..8 - o]
  {
  }

  lemma LeftUnfoldLast(o: Offset, s: LeftState, w: Word)
    requires o > 0 && w.last && !s.writeRemainder
    ensures var send := LeftSend(o, s, w); var s' := LeftState(true, !send.last, w);
            LeftRun(o, s, [w]) == if send.last then (s', [send])
                                  else (LeftRun(o, s', []).0, [send] + LeftRun(o, s', []).1)
  {
    var send := LeftSend(o, s, w);
    var s' := LeftState(true, !send.last, w);
    assert [w][1..] == [];
    assert LeftNext(o, s, [w]) == (s', [], [send]);
    assert send.last ==> LeftRun(o, s', []) == (s', []);
    assert [send] + [] == [send];
  }

  /** The remainder word holds the octets of the last word that no longer fitted. */
  lemma LeftRemainder(o: Offset, s: LeftState, k: nat)
    requires o > 0 && s.writeRemainder && s.firstWord && 8 - o < k <= 8 && s.prev.keep == Mask(k)
    ensures LeftIdle(LeftRun(o, s, []).0)
    ensures IsPacket(LeftRun(o, s, []).1) && Octets(LeftRun(o, s, []).1) == s.prev.data[8 - o..k]
  {
    var send := LeftNext(o, s, []).2[0];
    assert send.keep == Mask(k - (8 - o));
    LastWord(send, k - (8 - o));
    assert send.data[..k - (8 - o)] == s.prev.data[8 - o..k];
    assert LeftRun(o, s, []).1 == [send] + [];
  }

  /** Shifting one packet left puts `o` zero octets in front of its content. */
  lemma {:induction false} LeftPacket(o: Offset, s: LeftState, ws: seq<Word>)
    requires IsPacket(ws) && LeftIdle(s)
    ensures var (s', out) := LeftRun(o, s, ws);
            LeftIdle(s') && IsPacket(out) && Octets(out) == ZeroOctets(o) + Octets(ws)
  {
    if o == 0 {
      PassThrough(s, ws);
    } else {
      LeftTail(o, s, ws);
    }
  }

  lemma {:induction false} PassThrough(s: LeftState, ws: seq<Word>)
    requires !s.writeRemainder
    ensures LeftRun(0, s, ws) == (s, ws)
    decreases |ws|
  {
    if ws != [] {
      PassThrough(s, ws[1..]);
      assert [ws[0]] + ws[1..] == ws;
    }
  }

  /** What a left shift by `o` may turn a packet into. */
  ghost predicate Prepended(o: Offset, p: seq<Word>, q: seq<Word>) {
    IsPacket(q) && Octets(q) == ZeroOctets(o) + Octets(p)
  }

  /** The leading octets are zero, and the packet's own follow. */
  lemma PrependedOctets(o: Offset, p: seq<Word>, q: seq<Word>)
    requires Prepended(o, p, q)
    ensures |Octets(q)| == o + |Octets(p)| && Octets(q)[o..] == Octets(p)
    ensures forall i :: 0 <= i < o ==> Octets(q)[i] == 0
  {
    hide Octets;
  }

  /** Any traffic comes out packet by packet, each with its `o` leading octets. */
  lemma {:induction false} LeftTraffic(o: Offset, s: LeftState, ps: seq<seq<Word>>) returns (qs: seq<seq<Word>>)
    requires IsTraffic(ps) && LeftIdle(s)
    ensures LeftRun(o, s, Flatten(ps)).1 == Flatten(qs) && LeftIdle(LeftRun(o, s, Flatten(ps)).0)
    ensures |qs| == |ps| && forall i :: 0 <= i < |ps| ==> Prepended(o, ps[i], qs[i])
    decreases |ps|
  {
    if ps == [] {
      qs := [];
    } else {
      var (s', out) := LeftRun(o, s, ps[0]);
      LeftPacket(o, s, ps[0]);
      LeftRunSplit(o, s, ps[0], Flatten(ps[1..]));
      var more := LeftTraffic(o, s', ps[1..]);
      qs := [out] + more;
      assert qs[1..] == more;
    }
  }

  // ---------------------------------------------------------------- rshiftWordByOctet

  datatype RightState = RightState(firstWord: bool, remainder: bool, prev: Word)

  function RightSend(o: Offset, prev: Word, curr: Word): Word {
    Word(prev.data[o..] + curr.data[..o], prev.keep[o..] + curr.keep[..o], NoLane(curr.keep[o..]))
  }

  function RightNext(o: Offset, s: RightState, input: seq<Word>): (RightState, seq<Word>, seq<Word>) {
    if s.remainder then
      var send := Word(s.prev.data[o..] + ZeroOctets(o), s.prev.keep[o..] + All(o, false), true);
      (s.(remainder := false), input, [send])
    else if input == [] then (s, input, [])
    else
      var curr := input[0];
      var out :=
        if s.firstWord then []
        else if o == 0 then [curr]
        else [RightSend(o, s.prev, curr)];
      var sentLast := out != [] && out[0].last;
      (RightState(curr.last && o != 0, curr.last && !sentLast, curr), input[1..], out)
  }

  function RightRun(o: Offset, s: RightState, input: seq<Word>): (RightState, seq<Word>)
    decreases |input|, if s.remainder then 1 else 0
  {
    if !s.remainder && input == [] then (s, [])
    else
      var (s', rest, out) := RightNext(o, s, input);
      var (s'', more) := RightRun(o, s', rest);
      (s'', out + more)
  }

  class RightShifter {
    var firstWord: bool
    var remainder: bool
    var prevWord: Word

    constructor (offset: Offset, uninitialised: Word)
      ensures State() == RightState(offset != 0, false, uninitialised)
    {
      firstWord, remainder, prevWord := offset != 0, false, uninitialised;
    }

    function State(): RightState
      reads this
    {
      RightState(firstWord, remainder, prevWord)
    }

    method Step(offset: Offset, input: seq<Word>) returns (rest: seq<Word>, output: seq<Word>)
      modifies this
      ensures (State(), rest, output) == RightNext(offset, old(State()), input)
    {
      rest, output := input, [];
      if !remainder {
        if input != [] {
          var currWord := input[0];
          rest := input[1..];
          var sentLast := false;
          if !firstWord {
            if offset == 0 {
              output := [currWord];
            } else {
              output := [Word(prevWord.data[offset..] + currWord.data[..offset],
                              prevWord.keep[offset..] + currWord.keep[..offset],
                              NoLane(currWord.keep[offset..]))];
            }
            sentLast := output[0].last;
          }
          prevWord := currWord;
          firstWord := false;
          if currWord.last {
            firstWord := offset != 0;
            if !sentLast {
              remainder := true;
            }
          }
        }
      } else {
        output := [Word(prevWord.data[offset..] + ZeroOctets(offset), prevWord.keep[offset..] + All(offset, false),
                        true)];
        remainder := false;
      }
    }
  }

  lemma {:induction false} RightRunSplit(o: Offset, s: RightState, a: seq<Word>, b: seq<Word>)
    ensures RightRun(o, s, a + b) ==
            var (s', out) := RightRun(o, s, a); var (s'', more) := RightRun(o, s', b); (s'', out + more)
    decreases |a|, if s.remainder then 1 else 0
  {
    if !s.remainder && a == [] {
      assert a + b == b;
      assert [] + RightRun(o, s, b).1 == RightRun(o, s, b).1;
    } else {
      var (s', rest, out) := RightNext(o, s, a);
      assert s.remainder || (a + b)[1..] == a[1..] + b;
      RightRunSplit(o, s', rest, b);
      var (t, mid) := RightRun(o, s', rest);
      assert (out + mid) + RightRun(o, t, b).1 == out + (mid + RightRun(o, t, b).1);
    }
  }

  ghost predicate RightIdle(o: Offset, s: RightState) { s.firstWord == (o != 0) && !s.remainder }

  lemma RightSendFull(o: Offset, prev: Word, curr: Word)
    requires 0 < o && prev.keep == Full() && KeepLen(curr.keep) > o
    ensures RightSend(o, prev, curr).keep == Full() && !RightSend(o, prev, curr).last
  {
    assert curr.keep[o..][0];
  }

  lemma RightSendLast(o: Offset, prev: Word, curr: Word, k: nat)
    requires 0 < o && prev.keep == Full() && k <= o && curr.keep == Mask(k)
    ensures RightSend(o, prev, curr).keep == Mask(8 - o + k) && RightSend(o, prev, curr).last
    ensures RightSend(o, prev, curr).data[..8 - o + k] == prev.data[o..] + curr.data[..k]
  {
  }

  lemma RightUnfold(o: Offset, s: RightState, ws: seq<Word>)
    requires o > 0 && ws != [] && !ws[0].last && !s.remainder
    ensures var s', more := RightState(false, false, ws[0]), RightRun(o, RightState(false, false, ws[0]), ws[1..]);
            RightRun(o, s, ws) == (more.0, if s.firstWord then more.1 else [RightSend(o, s.prev, ws[0])] + more.1)
  {
    var more := RightRun(o, RightState(false, false, ws[0]), ws[1..]).1;
    assert [] + more == more;
  }

  /** After a full previous word, the rest of the packet comes out behind that word's tail. */
  lemma {:induction false} RightTail(o: Offset, s: RightState, ws: seq<Word>)
    requires o > 0 && IsPacket(ws) && !s.remainder && !s.firstWord && s.prev.keep == Full()
    ensures RightIdle(o, RightRun(o, s, ws).0)
    ensures IsPacket(RightRun(o, s, ws).1) && Octets(RightRun(o, s, ws).1) == s.prev.data[o..] + Octets(ws)
    decreases |ws|
  {
    if |ws| > 1 {
      RightTailInner(o, s, ws);
    } else {
      RightTailLast(o, s, ws[0]);
      assert ws == [ws[0]];
    }
  }

  lemma {:induction false} RightTailInner(o: Offset, s: RightState, ws: seq<Word>)
    requires o > 0 && IsPacket(ws) && |ws| > 1 && !s.remainder && !s.firstWord && s.prev.keep == Full()
    ensures RightIdle(o, RightRun(o, s, ws).0)
    ensures IsPacket(RightRun(o, s, ws).1) && Octets(RightRun(o, s, ws).1) == s.prev.data[o..] + Octets(ws)
    decreases |ws|, 0
  {
    var s', send := RightState(false, false, ws[0]), RightSend(o, s.prev, ws[0]);
    KeepLenOfMask(8);
    FullWordCarries(8 - o, ws[0]);
    RightSendFull(o, s.prev, ws[0]);
    RightUnfold(o, s, ws);
    RightTail(o, s', ws[1..]);
    PacketCons(send, RightRun(o, s', ws[1..]).1);
    PacketHead(ws);
    Regroup(s.prev.data[o..], ws[0].data[..o], ws[0].data[o..], Octets(ws[1..]));
  }

  lemma RightTailLast(o: Offset, s: RightState, w: Word)
    requires o > 0 && IsPacket([w]) && !s.remainder && !s.firstWord && s.prev.keep == Full()
    ensures RightIdle(o, RightRun(o, s, [w]).0)
    ensures IsPacket(RightRun(o, s, [w]).1) && Octets(RightRun(o, s, [w]).1) == s.prev.data[o..] + Octets([w])
  {
    hide Octets, RightSend;
    var k, send := KeepLen(w.keep), RightSend(o, s.prev, w);
    LastWord(w, k);
    RightUnfoldLast(o, s, w);
    if k > o {
      RightSendFull(o, s.prev, w);
      var s' := RightState(true, true, w);
      RightRemainder(o, s', k);
      PacketCons(send, RightRun(o, s', []).1);
      assert s.prev.data[o..] + w.data[..o] + w.data[o..k] == s.prev.data[o..] + w.data[..k];
      RightSendData(o, s.prev, w);
    } else {
      RightSendLast(o, s.prev, w, k);
      LastWord(send, 8 - o + k);
    }
  }

  lemma RightSendData(o: Offset, prev: Word, curr: Word)
    ensures RightSend(o, prev, curr).data == prev.data[o..] + curr.data[..o]
  {
  }

  /** The last word of a packet is followed by at most one remainder word. */
  lemma RightUnfoldLast(o: Offset, s: RightState, w: Word)
    requires o > 0 && w.last && !s.remainder && !s.firstWord
    ensures var send := RightSend(o, s.prev, w); var s' := RightState(true, !send.last, w);
            RightRun(o, s, [w]) == if send.last then (s', [send])
                                   else (RightRun(o, s', []).0, [send] + RightRun(o, s', []).1)
  {
    var send := RightSend(o, s.prev, w);
    var s' := RightState(true, !send.last, w);
    assert [w][1..] == [];
    assert RightNext(o, s, [w]) == (s', [], [send]);
    assert send.last ==> RightRun(o, s', []) == (s', []);
    assert [send] + [] == [send];
  }

  lemma RightRemainder(o: Offset, s: RightState, k: nat)
    requires o > 0 && s.remainder && s.firstWord && o < k <= 8 && s.prev.keep == Mask(k)
    ensures RightIdle(o, RightRun(o, s, []).0)
    ensures IsPacket(RightRun(o, s, []).1) && Octets(RightRun(o, s, []).1) == s.prev.data[o..k]
  {
    var send := RightNext(o, s, []).2[0];
    assert send.keep == Mask(k - o);
    LastWord(send, k - o);
    assert send.data[..k - o] == s.prev.data[o..k];
    assert RightRun(o, s, []).1 == [send] + [];
  }

  /** Shifting one packet right drops its first `o` octets. */
  lemma {:induction false} RightPacket(o: Offset, s: RightState, ws: seq<Word>)
    requires IsPacket(ws) && |Octets(ws)| > o && RightIdle(o, s)
    ensures var (s', out) := RightRun(o, s, ws);
            RightIdle(o, s') && IsPacket(out) && Octets(out) == Octets(ws)[o..]
  {
    hide RightRun, Octets, KeepLen;
    if o == 0 {
      RightPassThrough(s, ws);
    } else if |ws| == 1 {
      RightOneWord(o, s, ws);
    } else {
      var s' := RightState(false, false, ws[0]);
      RightUnfold(o, s, ws);
      RightTail(o, s', ws[1..]);
      PacketHead(ws);
    }
  }

  lemma RightOneWord(o: Offset, s: RightState, ws: seq<Word>)
    requires o > 0 && |ws| == 1 && IsPacket(ws) && |Octets(ws)| > o && RightIdle(o, s)
    ensures RightIdle(o, RightRun(o, s, ws).0)
    ensures IsPacket(RightRun(o, s, ws).1) && Octets(RightRun(o, s, ws).1) == Octets(ws)[o..]
  {
    hide Octets, KeepLen;
    var s', k := RightState(true, true, ws[0]), KeepLen(ws[0].keep);
    assert ws == [ws[0]];
    LastWord(ws[0], k);
    RightRemainder(o, s', k);
    assert [] + RightRun(o, s', []).1 == RightRun(o, s', []).1;
  }

  lemma {:induction false} RightPassThrough(s: RightState, ws: seq<Word>)
    requires IsPacket(ws) && RightIdle(0, s)
    ensures RightRun(0, s, ws).1 == ws && RightIdle(0, RightRun(0, s, ws).0)
    decreases |ws|
  {
    var (s', rest, out) := RightNext(0, s, ws);
    if |ws| > 1 {
      RightPassThrough(s', rest);
    }
  }

  /** The last word without octets that a packet of at most `o` octets leaves behind. */
  function BareWord(o: Offset, w: Word): Word { Word(w.data[o..] + ZeroOctets(o), All(8, false), true) }

  /** What a right shift by `o` makes of any packet. */
  ghost predicate Dropped(o: Offset, p: seq<Word>, q: seq<Word>)
    requires p != []
  {
    if |Octets(p)| > o then IsPacket(q) && Octets(q) == Octets(p)[o..] else q == [BareWord(o, p[0])]
  }

  /** A packet that is dropped altogether still ends with a last word. */
  lemma RightShort(o: Offset, s: RightState, ws: seq<Word>)
    requires IsPacket(ws) && |Octets(ws)| <= o && RightIdle(o, s)
    ensures RightIdle(o, RightRun(o, s, ws).0) && RightRun(o, s, ws).1 == [BareWord(o, ws[0])]
  {
    PacketLength(ws);
    var w := ws[0];
    assert ws == [w];
    LastWord(w, KeepLen(w.keep));
    var s', send := RightState(true, true, w), BareWord(o, w);
    assert ws[1..] == [] && RightNext(o, s, ws) == (s', [], []);
    assert w.keep[o..] + All(o, false) == All(8, false);
    var t := s'.(remainder := false);
    assert RightNext(o, s', []) == (t, [], [send]) && RightRun(o, t, []) == (t, []);
    assert RightRun(o, s', []) == (t, [send] + []) && [send] + [] == [send] == [] + [send];
  }

  /** Any traffic comes out packet by packet, each without its first `o` octets. */
  lemma {:induction false} RightTraffic(o: Offset, s: RightState, ps: seq<seq<Word>>) returns (qs: seq<seq<Word>>)
    requires IsTraffic(ps) && RightIdle(o, s)
    ensures RightRun(o, s, Flatten(ps)).1 == Flatten(qs) && RightIdle(o, RightRun(o, s, Flatten(ps)).0)
    ensures |qs| == |ps| && forall i :: 0 <= i < |ps| ==> Dropped(o, ps[i], qs[i])
    decreases |ps|
  {
    hide RightRun, Octets, BareWord;
    if ps == [] {
      RightNothing(o, s);
      qs := [];
    } else {
      var out := RightRun(o, s, ps[0]).1;
      if |Octets(ps[0])| > o {
        RightPacket(o, s, ps[0]);
      } else {
        RightShort(o, s, ps[0]);
      }
      RightRunSplit(o, s, ps[0], Flatten(ps[1..]));
      var more := RightTraffic(o, RightRun(o, s, ps[0]).0, ps[1..]);
      qs := [out] + more;
      assert qs[1..] == more;
    }
  }

  lemma RightNothing(o: Offset, s: RightState)
    requires RightIdle(o, s)
    ensures RightRun(o, s, []) == (s, [])
  {
  }

  /** The two shifters are inverse on every traffic, for every offset. */
  lemma ShiftRoundTrip(o: Offset, left: LeftState, right: RightState, ps: seq<seq<Word>>)
    returns (qs: seq<seq<Word>>)
    requires IsTraffic(ps) && LeftIdle(left) && RightIdle(o, right)
    ensures RightRun(o, right, LeftRun(o, left, Flatten(ps)).1).1 == Flatten(qs)
    ensures IsTraffic(qs) && |qs| == |ps| && forall i :: 0 <= i < |ps| ==> Octets(qs[i]) == Octets(ps[i])
  {
    var ms := LeftTraffic(o, left, ps);
    forall i | 0 <= i < |ps| ensures |Octets(ms[i])| > o {
      assert Prepended(o, ps[i], ms[i]);
      PacketLength(ps[i]);
    }
    assert IsTraffic(ms) by { assert forall i :: 0 <= i < |ps| ==> Prepended(o, ps[i], ms[i]); }
    qs := RightTraffic(o, right, ms);
    forall i | 0 <= i < |ps| ensures IsPacket(qs[i]) && Octets(qs[i]) == Octets(ps[i]) {
      assert Dropped(o, ms[i], qs[i]) && Prepended(o, ps[i], ms[i]);
    }
  }
}
