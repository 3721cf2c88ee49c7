/**
 * 64-bit AXI stream words and the packets they carry.
 *
 * Octet lane i of a word is bits 8i+7..8i of its data and bit i of its keep mask: every range the network
 * stages take of a word is octet aligned.  Lanes whose keep bit is clear hold arbitrary data.
 */
module AxiStream {
  import opened OnesComplement

  type Lanes = d: seq<Octet> | |d| == 8 witness [0, 0, 0, 0, 0, 0, 0, 0]
  type Keep = k: seq<bool> | |k| == 8 witness [false, false, false, false, false, false, false, false]

  datatype Word = Word(data: Lanes, keep: Keep, last: bool)

  /** The keep mask that selects the first n lanes. */
  function Mask(n: nat): (k: Keep)
    requires n <= 8
    ensures forall i :: 0 <= i < 8 ==> k[i] == (i < n)
  {
    seq(8, i => i < n)
  }

  /** Number of leading lanes selected by a keep mask. */
  function KeepLen(k: Keep): (n: nat)
    ensures n <= 8 && (forall i :: 0 <= i < n ==> k[i]) && (n < 8 ==> !k[n])
  {
    if !k[0] then 0 else if !k[1] then 1 else if !k[2] then 2 else if !k[3] then 3
    else if !k[4] then 4 else if !k[5] then 5 else if !k[6] then 6 else if !k[7] then 7 else 8
  }

  lemma KeepLenOfMask(n: nat)
    requires n <= 8
    ensures KeepLen(Mask(n)) == n
  {
  }

  function Full(): Keep { Mask(8) }

  predicate NoLane(k: seq<bool>) { forall i :: 0 <= i < |k| ==> !k[i] }

  /** A packet: full words without `last`, then one word with `last` whose mask selects a non-empty prefix. */
  predicate IsPacket(ws: seq<Word>)
    decreases |ws|
  {
    |ws| > 0 &&
    if |ws| == 1 then
      ws[0].last && KeepLen(ws[0].keep) > 0 && ws[0].keep == Mask(KeepLen(ws[0].keep))
    else
      !ws[0].last && ws[0].keep == Full() && IsPacket(ws[1..])
  }

  /** The octets a word, and a run of words, carry. */
  function Payload(w: Word): seq<Octet> { w.data[..KeepLen(w.keep)] }

  function Octets(ws: seq<Word>): seq<Octet> {
    if ws == [] then [] else Payload(ws[0]) + Octets(ws[1..])
  }

  /** What a right shift can make of a packet: a packet, or one last word with any mask. */
  predicate IsPacketOrBare(ws: seq<Word>) { IsPacket(ws) || (|ws| == 1 && ws[0].last) }

  /** Words without `last`, then one with `last`. */
  predicate EndsOnce(ws: seq<Word>)
    decreases |ws|
  {
    |ws| > 0 && if |ws| == 1 then ws[0].last else !ws[0].last && EndsOnce(ws[1..])
  }

  lemma {:induction false} PacketEnds(ws: seq<Word>)
    requires IsPacketOrBare(ws)
    ensures EndsOnce(ws)
    decreases |ws|
  {
    if |ws| > 1 {
      PacketEnds(ws[1..]);
    }
  }

  predicate IsTraffic(ps: seq<seq<Word>>) { forall i :: 0 <= i < |ps| ==> IsPacket(ps[i]) }

  /** The word stream of back-to-back packets. */
  function Flatten<T>(ps: seq<seq<T>>): seq<T> {
    if ps == [] then [] else ps[0] + Flatten(ps[1..])
  }

  /** Frames a non-empty octet string as one packet, padding the unused lanes with zero. */
  function Frame(b: seq<Octet>): seq<Word>
    requires |b| > 0
    decreases |b|
  {
    if |b| <= 8 then [Word(b + seq(8 - |b|, _ => 0), Mask(|b|), true)]
    else [Word(b[..8], Full(), false)] + Frame(b[8..])
  }

  /** Every non-empty octet string is the content of a packet. */
  lemma {:induction false} FrameIsPacket(b: seq<Octet>)
    requires |b| > 0
    ensures IsPacket(Frame(b)) && Octets(Frame(b)) == b
    decreases |b|
  {
    KeepLenOfMask(if |b| <= 8 then |b| else 8);
    if |b| > 8 {
      FrameIsPacket(b[8..]);
      assert b[..8] + b[8..] == b;
    } else {
      assert Octets(Frame(b)[1..]) == [];
    }
  }

  /** A packet of n words carries between 8n - 7 and 8n octets. */
  lemma {:induction false} PacketLength(ws: seq<Word>)
    requires IsPacket(ws)
    ensures 8 * |ws| - 8 < |Octets(ws)| <= 8 * |ws|
    ensures forall i :: 0 <= i < |ws| - 1 ==> !ws[i].last && ws[i].keep == Full()
    ensures ws[|ws| - 1].last
    decreases |ws|
  {
    KeepLenOfMask(8);
    if |ws| == 1 {
      assert Octets(ws[1..]) == [];
    } else {
      PacketLength(ws[1..]);
      assert forall i :: 1 <= i < |ws| ==> ws[i] == ws[1..][i - 1];
    }
  }

  /** Octet k of a packet sits in lane k % 8 of word k / 8. */
  lemma {:induction false} OctetAt(ws: seq<Word>, k: nat)
    requires IsPacket(ws) && k < |Octets(ws)|
    ensures k / 8 < |ws| && Octets(ws)[k] == ws[k / 8].data[k % 8]
    decreases |ws|
  {
    KeepLenOfMask(8);
    if |ws| == 1 {
      assert Octets(ws[1..]) == [];
    } else if k >= 8 {
      OctetAt(ws[1..], k - 8);
    }
  }

  /** A full word put in front of a packet. */
  lemma PacketCons(w: Word, ws: seq<Word>)
    requires !w.last && w.keep == Full() && IsPacket(ws)
    ensures IsPacket([w] + ws) && Octets([w] + ws) == w.data + Octets(ws)
  {
    KeepLenOfMask(8);
    assert ([w] + ws)[1..] == ws;
  }

  lemma PacketHead(ws: seq<Word>)
    requires IsPacket(ws) && |ws| > 1
    ensures Octets(ws) == ws[0].data + Octets(ws[1..])
  {
    KeepLenOfMask(8);
  }

  /** A last word that selects its first n lanes is a packet of n octets. */
  lemma LastWord(w: Word, n: nat)
    requires 0 < n <= 8 && w.last && w.keep == Mask(n)
    ensures IsPacket([w]) && Octets([w]) == w.data[..n]
  {
    KeepLenOfMask(n);
    assert Octets([w]) == Payload(w) + Octets([w][1..]);
  }

  /** The lanes of a packet's words, kept or not. */
  function AllLanes(ws: seq<Word>): (b: seq<Octet>)
    ensures |b| == 8 * |ws|
  {
    if ws == [] then [] else ws[0].data + AllLanes(ws[1..])
  }

  lemma {:induction false} LanesCarryOctets(ws: seq<Word>)
    requires IsPacket(ws)
    ensures |Octets(ws)| <= 8 * |ws| && Octets(ws) == AllLanes(ws)[..|Octets(ws)|]
    decreases |ws|
  {
    KeepLenOfMask(8);
    PacketLength(ws);
    if |ws| == 1 {
      LastWord(ws[0], KeepLen(ws[0].keep));
      assert ws == [ws[0]];
    } else {
      LanesCarryOctets(ws[1..]);
    }
  }

  /** Where a packet ends does not depend on what follows it. */
  lemma {:induction false} PacketPrefix(p: seq<Word>, q: seq<Word>, a: seq<Word>, b: seq<Word>)
    requires IsPacket(p) && IsPacket(q) && p + a == q + b
    ensures p == q && a == b
    decreases |p|
  {
    hide Mask, KeepLen;
    assert p[0] == (p + a)[0] == q[0];
    if |p| > 1 {
      assert p[1..] + a == (p + a)[1..] == q[1..] + b;
      PacketPrefix(p[1..], q[1..], a, b);
      assert p == [p[0]] + p[1..] && q == [q[0]] + q[1..];
    } else {
      assert a == (p + a)[1..] == (q + b)[1..] == b;
    }
  }

  /** A word stream is the traffic of one list of packets only. */
  lemma {:induction false} FlattenUnique(ps: seq<seq<Word>>, qs: seq<seq<Word>>)
    requires IsTraffic(ps) && IsTraffic(qs) && Flatten(ps) == Flatten(qs)
    ensures ps == qs
    decreases |ps|
  {
    if ps == [] || qs == [] {
      assert ps == qs;
    } else {
      PacketPrefix(ps[0], qs[0], Flatten(ps[1..]), Flatten(qs[1..]));
      FlattenUnique(ps[1..], qs[1..]);
      assert ps == [ps[0]] + ps[1..] && qs == [qs[0]] + qs[1..];
    }
  }
}
