/**
 * Four-lane checksum accumulation: the 17-bit partial sums every checksum stage keeps, their folding into one
 * checksum, and the whole-packet stage `two_complement_subchecksums`.
 */
module LaneSums {
  import opened Wrappers
  import opened OnesComplement
  import opened AxiStream

  /** Four 17-bit partial sums. */
  type Sums = s: seq<nat> | |s| == 4 witness [0, 0, 0, 0]

  const NO_SUMS: Sums := [0, 0, 0, 0]

  /** What a word adds to each lane; `None` leaves the lane untouched. */
  type Terms = t: seq<Option<nat>> | |t| == 4 witness [None, None, None, None]

  predicate Folded(s: Sums) { forall i :: 0 <= i < 4 ==> s[i] <= 65535 }

  predicate Sixteen(t: Terms) { forall i :: 0 <= i < 4 && t[i].Some? ==> t[i].value <= 65535 }

  function Value(t: Option<nat>): nat { if t.Some? then t.value else 0 }

  function Total(s: Sums): nat { s[0] + s[1] + s[2] + s[3] }

  function TermTotal(t: Terms): nat { Value(t[0]) + Value(t[1]) + Value(t[2]) + Value(t[3]) }

  function AddTerm(sum: nat, t: Option<nat>): nat { if t.Some? then Accumulate(sum, t.value) else sum }

  function AddTerms(s: Sums, t: Terms): Sums {
    [AddTerm(s[0], t[0]), AddTerm(s[1], t[1]), AddTerm(s[2], t[2]), AddTerm(s[3], t[3])]
  }

  const NO_TERMS: Terms := [None, None, None, None]

  lemma NoTerms(s: Sums)
    ensures AddTerms(s, NO_TERMS) == s
  {
  }

  /** The lane loop of the stages: add a term to each selected 17-bit register and fold its carry. */
  method AddLanes(sums: array<nat>, terms: Terms)
    requires sums.Length == 4
    modifies sums
    ensures sums[..] == AddTerms(old(sums[..]), terms)
  {
    hide AddTerms, Accumulate;
    for i := 0 to 4
      invariant forall k :: 0 <= k < i ==> sums[k] == AddTerm(old(sums[k]), terms[k])
      invariant forall k :: i <= k < 4 ==> sums[k] == old(sums[k])
    {
      if terms[i].Some? {
        sums[i] := Accumulate(sums[i], terms[i].value);
      }
    }
    ghost var was := old(sums[..]);
    EveryLane(was, terms, sums[..]);
  }

  lemma EveryLane(s: Sums, t: Terms, r: Sums)
    requires forall k :: 0 <= k < 4 ==> r[k] == AddTerm(s[k], t[k])
    ensures r == AddTerms(s, t)
  {
  }

  method ClearLanes(sums: array<nat>)
    requires sums.Length == 4
    modifies sums
    ensures sums[..] == NO_SUMS
  {
    for i := 0 to 4
      invariant forall k :: 0 <= k < i ==> sums[k] == 0
    {
      sums[i] := 0;
    }
  }

  lemma AddTermFolds(sum: nat, t: Option<nat>, rest: nat)
    requires sum <= 65535 && (t.Some? ==> t.value <= 65535)
    ensures AddTerm(sum, t) <= 65535
    ensures Fold(AddTerm(sum, t) + rest) == Fold(sum + Value(t) + rest)
  {
    if t.Some? {
      AccumulateIsFold(sum, t.value);
      FoldAdd(sum + t.value, rest);
    }
  }

  /** However the terms are spread over the lanes, the one's complement total is that of their exact sum. */
  lemma AddTermsFolds(s: Sums, t: Terms)
    requires Folded(s) && Sixteen(t)
    ensures Folded(AddTerms(s, t))
    ensures Fold(Total(AddTerms(s, t))) == Fold(Total(s) + TermTotal(t))
  {
    hide Fold, AddTerm, Value;
    var r := AddTerms(s, t);
    AddTermFolds(s[0], t[0], r[1] + r[2] + r[3]);
    AddTermFolds(s[1], t[1], s[0] + Value(t[0]) + r[2] + r[3]);
    AddTermFolds(s[2], t[2], s[0] + Value(t[0]) + s[1] + Value(t[1]) + r[3]);
    AddTermFolds(s[3], t[3], s[0] + Value(t[0]) + s[1] + Value(t[1]) + s[2] + Value(t[2]));
  }

  /** The octets of lane pair i read in network order. */
  function BigEndian(w: Word, i: nat): (v: nat)
    requires i < 4
    ensures v <= 65535
  {
    Pair(w.data[2 * i], w.data[2 * i + 1])
  }

  /** Lane term of a stage that honours the keep mask: a full pair, a lone first octet, or nothing. */
  function KeptTerm(w: Word, i: nat): Option<nat>
    requires i < 4
  {
    if w.keep[2 * i] && w.keep[2 * i + 1] then Some(BigEndian(w, i))
    else if w.keep[2 * i] then Some(Pair(w.data[2 * i], 0))
    else None
  }

  function KeptTerms(w: Word): Terms { [KeptTerm(w, 0), KeptTerm(w, 1), KeptTerm(w, 2), KeptTerm(w, 3)] }

  lemma WordSumPair(b: seq<Octet>)
    requires |b| >= 2
    ensures WordSum(b) == Pair(b[0], b[1]) + WordSum(b[2..])
  {
  }

  /** The first n octets of a word, summed pair by pair. */
  lemma WordSumOfLanes(d: Lanes, n: nat)
    requires n <= 8
    ensures WordSum(d[..n]) ==
            (if n >= 2 then Pair(d[0], d[1]) else if n >= 1 then Pair(d[0], 0) else 0) +
            (if n >= 4 then Pair(d[2], d[3]) else if n >= 3 then Pair(d[2], 0) else 0) +
            (if n >= 6 then Pair(d[4], d[5]) else if n >= 5 then Pair(d[4], 0) else 0) +
            (if n >= 8 then Pair(d[6], d[7]) else if n >= 7 then Pair(d[6], 0) else 0)
  {
    var b := d[..n];
    if n >= 2 {
      WordSumPair(b);
      assert b[2..] == d[2..n];
      if n >= 4 {
        WordSumPair(b[2..]);
        assert b[2..][2..] == d[4..n];
        if n >= 6 {
          WordSumPair(d[4..n]);
          assert d[4..n][2..] == d[6..n];
          if n >= 8 {
            WordSumPair(d[6..n]);
            assert d[6..n][2..] == [];
          }
        }
      }
    }
  }

  /** The kept terms of a word add up to the sum of exactly the octets it carries. */
  lemma KeptTermsSum(w: Word)
    requires w.keep == Mask(KeepLen(w.keep))
    ensures Sixteen(KeptTerms(w)) && TermTotal(KeptTerms(w)) == WordSum(Payload(w))
  {
    WordSumOfLanes(w.data, KeepLen(w.keep));
  }

  /** The folding tree shared by finalize_ipv4_checksum, check_ipv4_checksum and iph_check_ip_checksum. */
  function Finalize(s: Sums): nat {
    var sum0, sum1 := Accumulate(s[0], s[2]), Accumulate(s[1], s[3]);
    Low16(0x1FFFF - Accumulate(sum0, sum1))
  }

  lemma TwoFolds(a: nat, b: nat)
    ensures Fold(Fold(a) + Fold(b)) == Fold(a + b)
  {
    FoldAdd(a, Fold(b));
    FoldAdd(b, a);
  }

  /** The low half of an inverted 17-bit register is the inverse of its low half. */
  lemma InvertLow(x: nat)
    requires x <= 65535
    ensures Low16(0x1FFFF - x) == Invert16(x)
  {
  }

  lemma FinalizeInverts(s: Sums)
    requires Folded(s)
    ensures Fold(Total(s)) <= 65535 && Finalize(s) == Invert16(Fold(Total(s)))
  {
    hide Fold, Accumulate;
    FoldRange(Total(s));
    var sum0, sum1 := Accumulate(s[0], s[2]), Accumulate(s[1], s[3]);
    AccumulateIsFold(s[0], s[2]);
    AccumulateIsFold(s[1], s[3]);
    AccumulateIsFold(sum0, sum1);
    TwoFolds(s[0] + s[2], s[1] + s[3]);
    InvertLow(Accumulate(sum0, sum1));
  }

  // ---------------------------------------------------------------- two_complement_subchecksums

  /** One word of the stage: the new sums and, at the end of a packet, the sums handed on. */
  function SubchecksumNext(s: Sums, w: Word): (Sums, Option<Sums>) {
    var added := AddTerms(s, KeptTerms(w));
    if w.last then (NO_SUMS, Some(added)) else (added, None)
  }

  function SubchecksumRun(s: Sums, ws: seq<Word>): (Sums, seq<Sums>)
    decreases |ws|
  {
    if ws == [] then (s, [])
    else
      var (s', out) := SubchecksumNext(s, ws[0]);
      var (s'', more) := SubchecksumRun(s', ws[1..]);
      (s'', if out.Some? then [out.value] + more else more)
  }

  class SubchecksumStage {
    const sums: array<nat>

    constructor ()
      ensures fresh(sums) && sums.Length == 4 && sums[..] == NO_SUMS
    {
      sums := new nat[4](_ => 0);
    }

    method Step(input: seq<Word>) returns (rest: seq<Word>, output: seq<Word>, subSums: Option<Sums>)
      requires sums.Length == 4
      modifies sums
      ensures input == [] ==> rest == input && output == [] && subSums.None? && sums[..] == old(sums[..])
      ensures input != [] ==> rest == input[1..] && output == [input[0]]
                              && (sums[..], subSums) == SubchecksumNext(old(sums[..]), input[0])
    {
      rest, output, subSums := input, [], None;
      if input != [] {
        var currWord := input[0];
        rest, output := input[1..], [currWord];
        AddLanes(sums, KeptTerms(currWord));
        if currWord.last {
          subSums := Some(sums[..]);
          ClearLanes(sums);
        }
      }
    }
  }

  lemma {:induction false} SubchecksumSplit(s: Sums, a: seq<Word>, b: seq<Word>)
    ensures SubchecksumRun(s, a + b) ==
            var (s', out) := SubchecksumRun(s, a); var (s'', more) := SubchecksumRun(s', b); (s'', out + more)
    decreases |a|
  {
    if a == [] {
      assert a + b == b;
      assert [] + SubchecksumRun(s, b).1 == SubchecksumRun(s, b).1;
    } else {
      var (s', out) := SubchecksumNext(s, a[0]);
      assert (a + b)[1..] == a[1..] + b;
      SubchecksumSplit(s', a[1..], b);
      var (t, mid) := SubchecksumRun(s', a[1..]);
      assert out.Some? ==> [out.value] + (mid + SubchecksumRun(t, b).1) == ([out.value] + mid) + SubchecksumRun(t, b).1;
    }
  }

  lemma SameFold(a: nat, b: nat, c: nat)
    requires Fold(a) == Fold(b)
    ensures Fold(a + c) == Fold(b + c)
  {
    FoldAdd(a, c);
    FoldAdd(b, c);
  }

  lemma WordSumHead(ws: seq<Word>)
    requires IsPacket(ws)
    ensures WordSum(Octets(ws)) == WordSum(Payload(ws[0])) + WordSum(Octets(ws[1..]))
  {
    KeepLenOfMask(8);
    if |ws| == 1 {
      assert Octets(ws) == Payload(ws[0]);
    } else {
      WordSumConcat(Payload(ws[0]), Octets(ws[1..]));
    }
  }

  lemma WordFolds(s: Sums, w: Word, more: nat)
    requires Folded(s) && w.keep == Mask(KeepLen(w.keep))
    ensures Folded(AddTerms(s, KeptTerms(w)))
    ensures Fold(Total(AddTerms(s, KeptTerms(w))) + more) == Fold(Total(s) + (WordSum(Payload(w)) + more))
  {
    KeptTermsSum(w);
    AddTermsFolds(s, KeptTerms(w));
    SameFold(Total(AddTerms(s, KeptTerms(w))), Total(s) + WordSum(Payload(w)), more);
  }

  /** One packet hands on one set of sums, worth the exact sum of its octets, and leaves cleared lanes behind. */
  lemma {:induction false} SubchecksumPacket(s: Sums, ws: seq<Word>)
    requires IsPacket(ws) && Folded(s)
    ensures SubchecksumRun(s, ws).0 == NO_SUMS && |SubchecksumRun(s, ws).1| == 1
    ensures Folded(SubchecksumRun(s, ws).1[0])
    ensures Fold(Total(SubchecksumRun(s, ws).1[0])) == Fold(Total(s) + WordSum(Octets(ws)))
    decreases |ws|
  {
    hide Fold, Total, AddTerms, KeptTerms;
    var added, more := AddTerms(s, KeptTerms(ws[0])), WordSum(Octets(ws[1..]));
    KeepLenOfMask(8);
    WordFolds(s, ws[0], more);
    WordSumHead(ws);
    if |ws| > 1 {
      SubchecksumPacket(added, ws[1..]);
      assert SubchecksumRun(s, ws) == SubchecksumRun(added, ws[1..]);
    } else {
      assert SubchecksumRun(NO_SUMS, ws[1..]) == (NO_SUMS, []);
      assert SubchecksumRun(s, ws).1 == [added];
    }
  }

  /**
   * Over any traffic the stage followed by the folding tree yields, packet by packet, the RFC 1071 checksum of
   * exactly that packet's octets: odd lengths included, and no sum leaks from one packet into the next.
   */
  lemma {:induction false} SubchecksumTraffic(ps: seq<seq<Word>>)
    requires IsTraffic(ps)
    ensures SubchecksumRun(NO_SUMS, Flatten(ps)).0 == NO_SUMS && |SubchecksumRun(NO_SUMS, Flatten(ps)).1| == |ps|
    ensures forall i :: 0 <= i < |ps| ==> IsChecksumOf(SubchecksumRun(NO_SUMS, Flatten(ps)).1[i], ps[i])
    decreases |ps|
  {
    if ps != [] {
      SubchecksumPacket(NO_SUMS, ps[0]);
      SubchecksumSplit(NO_SUMS, ps[0], Flatten(ps[1..]));
      SubchecksumTraffic(ps[1..]);
      FinalizeInverts(SubchecksumRun(NO_SUMS, ps[0]).1[0]);
      ConsAll(SubchecksumRun(NO_SUMS, ps[0]).1, SubchecksumRun(NO_SUMS, Flatten(ps[1..])).1, ps);
    }
  }

  ghost predicate IsChecksumOf(sums: Sums, p: seq<Word>) { Finalize(sums) == Rfc1071Checksum(Octets(p)) }

  lemma ConsAll(first: seq<Sums>, more: seq<Sums>, ps: seq<seq<Word>>)
    requires |first| == 1 && |ps| == 1 + |more| && IsChecksumOf(first[0], ps[0])
    requires forall i :: 0 <= i < |more| ==> IsChecksumOf(more[i], ps[1..][i])
    ensures forall i :: 0 <= i < |ps| ==> IsChecksumOf((first + more)[i], ps[i])
  {
    assert forall i :: 1 <= i < |ps| ==> ps[i] == ps[1..][i - 1] && (first + more)[i] == more[i - 1];
  }
}
