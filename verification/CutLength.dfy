/**
 * `cut_length`: an IP datagram is cut back to its total length, which drops the padding of short Ethernet frames.
 */
module CutLength {
  import opened OnesComplement
  import opened AxiStream
  import opened WordShift

  /** `drop` marks the state that swallows the rest of a cut packet; `wordCount` is a sixteen-bit counter. */
  datatype Cutter = Cutter(drop: bool, wordCount: nat, totalLength: nat)

  /** lenToKeep of a four-bit length, truncated to the eight lanes of a word. */
  function LenToKeep(len: nat): Keep { if 1 <= len <= 8 then Mask(len) else Full() }

  function CutNext(s: Cutter, ws: seq<Word>): (Cutter, seq<Word>, seq<Word>) {
    if ws == [] then (s, ws, [])
    else
      var w := ws[0];
      if s.drop then (s.(drop := !w.last), ws[1..], [])
      else
        var total := if s.wordCount == 0 then Pair(w.data[2], w.data[3]) else s.totalLength;
        var cut := s.wordCount > 0 && (s.wordCount + 1) * 8 >= total;
        var left := (total - s.wordCount * 8) % 16;
        var out := if cut then w.(last := true, keep := LenToKeep(left)) else w;
        (Cutter(cut && !w.last, if out.last then 0 else Low16(s.wordCount + 1), total), ws[1..], [out])
  }

  function CutRun(s: Cutter, ws: seq<Word>): (Cutter, seq<Word>)
    decreases |ws|
  {
    if ws == [] then (s, [])
    else
      var (s', rest, out) := CutNext(s, ws);
      var (s'', more) := CutRun(s', rest);
      (s'', out + more)
  }

  class CutLengthStage {
    var drop: bool
    var wordCount: nat
    var totalLength: nat

    constructor ()
      ensures State() == Cutter(false, 0, 0)
    {
      drop, wordCount, totalLength := false, 0, 0;
    }

    function State(): Cutter
      reads this
    {
      Cutter(drop, wordCount, totalLength)
    }

    method Step(input: seq<Word>) returns (rest: seq<Word>, output: seq<Word>)
      modifies this
      ensures (State(), rest, output) == CutNext(old(State()), input)
    {
      rest, output := input, [];
      if input != [] {
        var currWord := input[0];
        rest := input[1..];
        if !drop {
          match wordCount {
            case 0 =>
              totalLength := Pair(currWord.data[2], currWord.data[3]);
            case _ =>
              if (wordCount + 1) * 8 >= totalLength {
                if !currWord.last {
                  drop := true;
                }
                var leftLength := (totalLength - wordCount * 8) % 16;
                currWord := currWord.(last := true, keep := LenToKeep(leftLength));
              }
          }
          output := [currWord];
          wordCount := Low16(wordCount + 1);
          if currWord.last {
            wordCount := 0;
          }
        } else if currWord.last {
          drop := false;
        }
      }
    }
  }

  ghost predicate CutIdle(s: Cutter) { !s.drop && s.wordCount == 0 }

  lemma CutUnfold(s: Cutter, ws: seq<Word>)
    requires ws != []
    ensures var (s', rest, out) := CutNext(s, ws);
            CutRun(s, ws) == (CutRun(s', ws[1..]).0, out + CutRun(s', ws[1..]).1)
  {
  }

  lemma {:induction false} CutSplit(s: Cutter, a: seq<Word>, b: seq<Word>)
    ensures CutRun(s, a + b) == (CutRun(CutRun(s, a).0, b).0, CutRun(s, a).1 + CutRun(CutRun(s, a).0, b).1)
    decreases |a|
  {
    hide CutNext;
    if a == [] {
      assert a + b == b;
      assert [] + CutRun(s, b).1 == CutRun(s, b).1;
    } else {
      CutSameStep(s, a, b);
      var s', out := CutNext(s, a).0, CutNext(s, a).2;
      CutUnfold(s, a);
      CutUnfold(s, a + b);
      CutSplit(s', a[1..], b);
      assert (out + CutRun(s', a[1..]).1) + CutRun(CutRun(s', a[1..]).0, b).1 ==
             out + (CutRun(s', a[1..]).1 + CutRun(CutRun(s', a[1..]).0, b).1);
    }
  }

  lemma CutSameStep(s: Cutter, a: seq<Word>, b: seq<Word>)
    requires a != []
    ensures (a + b)[1..] == a[1..] + b && CutNext(s, a + b).0 == CutNext(s, a).0
            && CutNext(s, a + b).2 == CutNext(s, a).2
  {
  }

  /** After the cut the rest of the packet is swallowed. */
  lemma {:induction false} CutDrops(s: Cutter, ws: seq<Word>)
    requires IsPacket(ws) && s.drop && s.wordCount == 0
    ensures CutIdle(CutRun(s, ws).0) && CutRun(s, ws).1 == []
    decreases |ws|
  {
    if |ws| > 1 {
      CutDrops(s, ws[1..]);
    }
  }

  /** More than a word of the datagram is left: the word passes. */
  lemma CutPasses(s: Cutter, ws: seq<Word>)
    requires ws != [] && !s.drop && 0 < s.wordCount && (s.wordCount + 1) * 8 < s.totalLength <= 65535
    ensures CutNext(s, ws).2 == [ws[0]]
    ensures CutNext(s, ws).0 == Cutter(false, if ws[0].last then 0 else s.wordCount + 1, s.totalLength)
  {
  }

  /** Cutting inside a packet: `r` more octets belong to the datagram. */
  lemma {:induction false} CutTail(s: Cutter, ws: seq<Word>, r: int)
    requires IsPacket(ws) && !s.drop && 0 < s.wordCount && s.totalLength <= 65535
    requires r == s.totalLength - 8 * s.wordCount && r > 0
    ensures CutIdle(CutRun(s, ws).0)
    ensures 8 * |ws| < r ==> CutRun(s, ws).1 == ws
    ensures r <= 8 * |ws| ==> IsPacket(CutRun(s, ws).1) && Octets(CutRun(s, ws).1) == AllLanes(ws)[..r]
    decreases |ws|
  {
    hide CutNext, KeepLen, Octets;
    CutUnfold(s, ws);
    var w := ws[0];
    if r > 8 {
      CutPasses(s, ws);
    }
    if r <= 8 {
      CutHere(s, ws, r);
    } else if |ws| > 1 {
      var s' := CutNext(s, ws).0;
      CutTail(s', ws[1..], r - 8);
      if r <= 8 * |ws| {
        PacketCons(w, CutRun(s', ws[1..]).1);
        assert w.data + AllLanes(ws[1..])[..r - 8] == AllLanes(ws)[..r];
      } else {
        assert [w] + ws[1..] == ws;
      }
    } else {
      assert [w] + [] == ws;
    }
  }

  /** The word in which the datagram ends. */
  lemma CutWord(s: Cutter, ws: seq<Word>, r: int)
    requires ws != [] && !s.drop && 0 < s.wordCount && 0 < r <= 8 && r == s.totalLength - 8 * s.wordCount
    ensures CutNext(s, ws).2 == [ws[0].(last := true, keep := Mask(r))]
    ensures CutNext(s, ws).0 == Cutter(!ws[0].last, 0, s.totalLength)
  {
    assert r % 16 == r;
  }

  lemma CutHere(s: Cutter, ws: seq<Word>, r: int)
    requires IsPacket(ws) && !s.drop && 0 < s.wordCount && 0 < r <= 8 && r == s.totalLength - 8 * s.wordCount
    ensures CutIdle(CutRun(s, ws).0)
    ensures IsPacket(CutRun(s, ws).1) && Octets(CutRun(s, ws).1) == AllLanes(ws)[..r]
  {
    hide CutNext, Octets, KeepLen;
    var s', out := CutNext(s, ws).0, ws[0].(last := true, keep := Mask(r));
    CutWord(s, ws, r);
    CutUnfold(s, ws);
    if |ws| > 1 {
      CutDrops(s', ws[1..]);
    }
    assert [out] + [] == [out];
    LastWord(out, r);
    assert AllLanes(ws)[..r] == ws[0].data[..r];
  }

  /** The total length field of a datagram; a packet of one word always passes unchanged. */
  function TotalLength(ws: seq<Word>): (total: nat)
    requires ws != []
    ensures total <= 65535
  {
    Pair(ws[0].data[2], ws[0].data[3])
  }

  /** The number of lanes the stage cuts to: a total length of at most 8 is only noticed at the second word. */
  function CutPoint(ws: seq<Word>): nat
    requires ws != []
  {
    if TotalLength(ws) <= 8 then 16 else TotalLength(ws)
  }

  /** Exactly what the stage makes of any packet. */
  ghost predicate CutTo(p: seq<Word>, q: seq<Word>)
    requires p != []
  {
    && (|p| == 1 || 8 * |p| < CutPoint(p) ==> q == p)
    && (|p| > 1 && CutPoint(p) <= 8 * |p| ==> IsPacket(q) && Octets(q) == AllLanes(p)[..CutPoint(p)])
  }

  /** The first word of a packet passes unchanged and announces the total length. */
  lemma CutFirst(s: Cutter, ws: seq<Word>)
    requires ws != [] && CutIdle(s)
    ensures CutNext(s, ws).2 == [ws[0]]
    ensures CutNext(s, ws).0 == Cutter(false, if ws[0].last then 0 else 1, TotalLength(ws))
  {
  }

  lemma CutPacket(s: Cutter, ws: seq<Word>)
    requires IsPacket(ws) && CutIdle(s)
    ensures CutIdle(CutRun(s, ws).0) && IsPacket(CutRun(s, ws).1) && CutTo(ws, CutRun(s, ws).1)
  {
    hide CutNext, TotalLength, Octets, KeepLen;
    var s', total, w := CutNext(s, ws).0, TotalLength(ws), ws[0];
    CutUnfold(s, ws);
    CutFirst(s, ws);
    if |ws| == 1 {
      assert [w] + [] == ws;
    } else {
      var more := CutRun(s', ws[1..]).1;
      if total <= 8 {
        CutShort(s', ws[1..], total);
      } else {
        CutTail(s', ws[1..], total - 8);
      }
      if CutPoint(ws) <= 8 * |ws| {
        PacketCons(w, more);
        assert w.data + AllLanes(ws[1..])[..CutPoint(ws) - 8] == AllLanes(ws)[..CutPoint(ws)];
      } else {
        assert [w] + ws[1..] == ws;
      }
    }
  }

  /** A total length that ended in the first word: the whole second word is kept. */
  lemma CutShort(s: Cutter, ws: seq<Word>, total: nat)
    requires IsPacket(ws) && !s.drop && s.wordCount == 1 && s.totalLength == total <= 8
    ensures CutIdle(CutRun(s, ws).0)
    ensures IsPacket(CutRun(s, ws).1) && Octets(CutRun(s, ws).1) == AllLanes(ws)[..8]
  {
    var s', out := CutNext(s, ws).0, ws[0].(last := true, keep := Full());
    assert (total - 8) % 16 == 0 || (total - 8) % 16 >= 8;
    assert CutNext(s, ws).2 == [out];
    CutUnfold(s, ws);
    if |ws| > 1 {
      CutDrops(s', ws[1..]);
    }
    assert [out] + [] == [out];
    LastWord(out, 8);
    assert AllLanes(ws)[..8] == ws[0].data;
  }

  lemma CutNothing(s: Cutter)
    ensures CutRun(s, []) == (s, [])
  {
  }

  /** Over any traffic every packet is cut on its own. */
  lemma {:induction false} CutTraffic(s: Cutter, ps: seq<seq<Word>>) returns (qs: seq<seq<Word>>)
    requires IsTraffic(ps) && CutIdle(s)
    ensures CutRun(s, Flatten(ps)).1 == Flatten(qs) && CutIdle(CutRun(s, Flatten(ps)).0)
    ensures |qs| == |ps| && forall i :: 0 <= i < |ps| ==> IsPacket(qs[i]) && CutTo(ps[i], qs[i])
    decreases |ps|
  {
    hide CutTo, IsPacket, CutRun;
    if ps == [] {
      CutNothing(s);
      qs := [];
    } else {
      CutPacket(s, ps[0]);
      CutSplit(s, ps[0], Flatten(ps[1..]));
      var more := CutTraffic(CutRun(s, ps[0]).0, ps[1..]);
      qs := [CutRun(s, ps[0]).1] + more;
      assert qs[1..] == more;
      assert forall i :: 1 <= i < |ps| ==> ps[i] == ps[1..][i - 1] && qs[i] == more[i - 1];
    }
  }

  /** The packet is what its total length says: the first `TotalLength` octets, or all of them if it is shorter. */
  ghost predicate Faithful(p: seq<Word>, q: seq<Word>)
    requires p != []
  {
    var b := Octets(p);
    Octets(q) == b[..if TotalLength(p) < |b| then TotalLength(p) else |b|]
  }

  /**
   * When the total length can be trusted: it ends inside the packet's octets, or beyond the packet's last word,
   * and not in the first word of a longer packet.
   */
  predicate Trustworthy(p: seq<Word>)
    requires p != []
  {
    if |p| == 1 then |Octets(p)| <= TotalLength(p)
    else 8 < TotalLength(p) && (TotalLength(p) <= |Octets(p)| || 8 * |p| < TotalLength(p))
  }

  /** The stage is faithful to exactly those packets. */
  lemma CutIsExact(p: seq<Word>, q: seq<Word>)
    requires IsPacket(p) && CutTo(p, q)
    ensures Faithful(p, q) <==> Trustworthy(p)
  {
    var n, total := |Octets(p)|, TotalLength(p);
    LanesCarryOctets(p);
    PacketLength(p);
    assert Octets(p)[..n] == Octets(p);
    if |p| > 1 && CutPoint(p) <= 8 * |p| {
      assert |Octets(q)| == CutPoint(p);
      if total <= n {
        assert AllLanes(p)[..total] == Octets(p)[..total];
      }
    } else {
      assert |Octets(q)| == n;
    }
  }

  /** A datagram of 23 octets that arrives with 22: the stage hands on an octet that was never received. */
  lemma CutCanInvent(s: Cutter, p: seq<Word>)
    requires CutIdle(s)
    requires p == [Word([0x45, 0, 0, 23, 0, 0, 0, 0], Full(), false), Word(ZeroOctets(8), Full(), false),
                   Word(ZeroOctets(8), Mask(6), true)]
    ensures IsPacket(p) && |Octets(p)| == 22 && |Octets(CutRun(s, p).1)| == 23
  {
    KeepLenOfMask(6);
    KeepLenOfMask(8);
    assert p[1..][1..] == [p[2]] && IsPacket(p[1..]) && IsPacket(p[1..][1..]);
    LastWord(p[2], 6);
    assert Octets(p) == p[0].data + (p[1].data + Octets(p[1..][1..]));
    CutPacket(s, p);
  }
}
