/**
 * What an echo reply is, in octets: the addresses swapped, the type changed, and the ICMP checksum updated
 * incrementally as section 3 of RFC 1624 describes.
 */
module IcmpReply {
  import opened OnesComplement

  const ECHO_REQUEST := 8
  const ECHO_REPLY := 0
  const NEW_TTL := 0x40

  type Octets16 = x: nat | x <= 65535

  /** Bits 15..0 of two neighbouring lanes. */
  function Low(c: Octets16): Octet {
    var v := c;
    v % 256
  }

  function High(c: Octets16): Octet {
    var v := c;
    v / 256
  }

  /** Compute state 0 of check_icmp_checksum on a checksum loaded with bit 16 set. */
  function Complemented(c: Octets16): nat {
    var v := c;
    0x1FFFF - (0x10000 + v)
  }

  /** Compute state 1: subtract the old type with end-around borrow in 17 bits. */
  function Borrowed(x: nat): (r: nat)
    ensures r <= 65535
  {
    var v := x;
    var y := Low17(v + 0x20000 - ECHO_REQUEST);
    Low16(y - y / 0x10000)
  }

  /** The updated checksum, read little-endian like the one it replaces: the old type is added end-around. */
  function NewChecksum(c: Octets16): Octets16 {
    var v := c + ECHO_REQUEST;
    if v <= 65535 then v else v - 65535
  }

  /** The three register states: complement, subtract the old type with end-around borrow, complement. */
  lemma BorrowIsNew(c: Octets16)
    ensures Low16(0x1FFFF - Borrowed(Complemented(c))) == NewChecksum(c) > 0
  {
    var x := 65535 - c;
    assert Complemented(c) == x;
    if x >= 8 {
      assert Low17(x + 0x20000 - 8) == Low17(x - 8) == x - 8;
      assert Borrowed(x) == x - 8;
    } else {
      assert Low17(x + 0x20000 - 8) == 0x20000 + x - 8;
      assert Borrowed(x) == Low16(0x20000 + x - 9) == Low16(0x10000 + x - 9) == 65527 + x;
    }
  }

  /** The IP checksum after the plain sixteen-bit update for the new time to live. */
  function PatchedIpChecksum(c: Octets16, ttl: Octet): Octets16 {
    var v, t := c, ttl;
    0xFFFF - (0xFFFF - v - t + NEW_TTL) % 0x10000
  }

  function PatchTtl(b: seq<Octet>): (r: seq<Octet>)
    requires |b| == 8
    ensures |r| == 8
  {
    var c := PatchedIpChecksum(Pair(b[3], b[2]), b[0]);
    [NEW_TTL, b[1], Low(c), High(c)] + b[4..]
  }

  /** The reply to an option-free request. */
  function Reply(b: seq<Octet>): (r: seq<Octet>)
    requires |b| >= 24
    ensures |r| == |b|
  {
    var c := NewChecksum(Pair(b[23], b[22]));
    b[..8] + PatchTtl(b[8..16])[..4] + b[16..20] + b[12..16] + [ECHO_REPLY, b[21], Low(c), High(c)] + b[24..]
  }

  /** A request the server answers when enabled. */
  predicate IsEchoRequest(b: seq<Octet>)
    requires |b| >= 24
  {
    b[20] == ECHO_REQUEST && b[21] == 0 && HighNibble(b[16]) != 0xE && Verifies(b[20..])
  }

  lemma NewChecksumAdds(c: Octets16)
    ensures NewChecksum(c) == c + ECHO_REQUEST || NewChecksum(c) == c + ECHO_REQUEST - 65535
  {
  }

  lemma WordSumLittleFour(b: seq<Octet>)
    requires |b| >= 4
    ensures WordSumLittle(b) == Pair(b[1], b[0]) + Pair(b[3], b[2]) + WordSumLittle(b[4..])
  {
    assert b[2..][2..] == b[4..];
  }

  lemma ReplyShape(b: seq<Octet>)
    requires |b| >= 24
    ensures var c := NewChecksum(Pair(b[23], b[22]));
            Reply(b)[20..] == [ECHO_REPLY, b[21], Low(c), High(c)] + b[24..]
    ensures Reply(b)[12..16] == b[16..20] && Reply(b)[16..20] == b[12..16]
    ensures Reply(b)[..8] == b[..8] && Reply(b)[8] == 64 && Reply(b)[9] == b[9]
  {
  }

  /**
   * Two messages that differ in type and checksum only, the second with the old type added end-around: their
   * little-endian sums are the same, or one wrap-around of 65535 apart.
   */
  lemma ReplySum(q: seq<Octet>, r: seq<Octet>, c: nat)
    requires |q| >= 4 && |r| >= 4 && r[4..] == q[4..]
    requires q[0] == ECHO_REQUEST && q[1] == r[1] == 0 && r[0] == ECHO_REPLY && c == Pair(r[3], r[2]) > 0
    requires c == Pair(q[3], q[2]) + ECHO_REQUEST || c == Pair(q[3], q[2]) + ECHO_REQUEST - 65535
    ensures WordSumLittle(r) > 0
    ensures WordSumLittle(r) == WordSumLittle(q) || WordSumLittle(r) == WordSumLittle(q) - 65535
  {
    WordSumLittleFour(q);
    WordSumLittleFour(r);
  }

  lemma PairOfOctets(c: Octets16)
    ensures Pair(High(c), Low(c)) == c
  {
  }

  /**
   * A request whose ICMP checksum verifies leaves as an echo reply whose checksum verifies again, with source and
   * destination address swapped and everything behind the ICMP checksum untouched.
   */
  lemma ReplyVerifies(b: seq<Octet>)
    requires |b| >= 24 && IsEchoRequest(b)
    ensures Verifies(Reply(b)[20..])
    ensures Reply(b)[20] == 0 && Reply(b)[21] == 0 && Reply(b)[24..] == b[24..]
    ensures Reply(b)[12..16] == b[16..20] && Reply(b)[16..20] == b[12..16]
    ensures Reply(b)[..8] == b[..8] && Reply(b)[8] == 64 && Reply(b)[9] == b[9]
  {
    hide Reply, NewChecksum, WordSumLittle, Fold, Verifies;
    ReplyShape(b);
    var q, r, c := b[20..], Reply(b), NewChecksum(Pair(b[23], b[22]));
    PairOfOctets(c);
    BorrowIsNew(Pair(b[23], b[22]));
    NewChecksumAdds(Pair(b[23], b[22]));
    assert r[20..][4..] == b[24..] == q[4..];
    ReplySum(q, r[20..], c);
    SameVerdict(q, r[20..]);
    assert r[20] == r[20..][0] && r[21] == r[20..][1] && r[24..] == r[20..][4..];
  }

  lemma SameVerdict(q: seq<Octet>, r: seq<Octet>)
    requires var n, m := WordSumLittle(q), WordSumLittle(r); m > 0 && (m == n || m == n - 65535)
    ensures Verifies(q) ==> Verifies(r)
  {
    hide WordSumLittle;
    ByteOrderIndependence(q);
    ByteOrderIndependence(r);
    FoldRange(WordSumLittle(q));
    FoldRange(WordSumLittle(r));
  }

  // ---------------------------------------------------------------- the IP header of the reply

  lemma WordSumLittleTwenty(b: seq<Octet>)
    requires |b| == 20
    ensures WordSumLittle(b) == Pair(b[1], b[0]) + Pair(b[3], b[2]) + Pair(b[5], b[4]) + Pair(b[7], b[6])
                                + Pair(b[9], b[8]) + Pair(b[11], b[10]) + WordSumLittle(b[12..])
    ensures WordSumLittle(b[12..]) == Pair(b[13], b[12]) + Pair(b[15], b[14]) + Pair(b[17], b[16]) + Pair(b[19], b[18])
  {
    hide Pair, WordSumLittle;
    WordSumLittleFour(b);
    WordSumLittleFour(b[4..]);
    WordSumLittleFour(b[8..]);
    WordSumLittleFour(b[12..]);
    WordSumLittleFour(b[16..]);
    assert b[4..][4..] == b[8..] && b[8..][4..] == b[12..] && b[12..][4..] == b[16..] && b[16..][4..] == [];
    NothingLittle();
  }

  lemma NothingLittle()
    ensures WordSumLittle([]) == 0
  {
  }

  /** The IP header checksum of the reply, and what the new time to live and the update add to the header's sum. */
  lemma PatchedSum(c: Octets16, ttl: Octet)
    ensures var change := PatchedIpChecksum(c, ttl) - c + 64 - ttl;
            change == if c + ttl < 64 then 65536 else if c + ttl > 65599 then -65536 else 0
  {
    var x := 65535 - c - ttl + 64;
    assert x % 0x10000 == if x < 0 then x + 65536 else if x > 65535 then x - 65536 else x;
  }

  lemma ReplyHeaderSum(b: seq<Octet>)
    requires |b| >= 24
    ensures var c := Pair(b[11], b[10]);
            WordSumLittle(Reply(b)[..20]) == WordSumLittle(b[..20]) + PatchedIpChecksum(c, b[8]) - c + 64 - b[8]
  {
    hide Pair, WordSumLittle, NewChecksum, PatchedIpChecksum;
    var h, r := b[..20], Reply(b)[..20];
    var c := PatchedIpChecksum(Pair(b[11], b[10]), b[8]);
    WordSumLittleTwenty(h);
    WordSumLittleTwenty(r);
    PairOfOctets(c);
    assert r[..8] == h[..8] && r[8] == 64 && r[9] == h[9] && r[10] == Low(c) && r[11] == High(c);
    assert r[12..16] == h[16..20] && r[16..20] == h[12..16];
    SameEight(h, r);
    SwappedHalves(h, r);
    TimeToLive(h[9], h[8]);
  }

  lemma SameEight(h: seq<Octet>, r: seq<Octet>)
    requires |h| == |r| == 20 && r[..8] == h[..8]
    ensures forall i :: 0 <= i < 8 ==> r[i] == h[i]
  {
    assert forall i :: 0 <= i < 8 ==> r[..8][i] == h[..8][i];
  }

  lemma SwappedHalves(h: seq<Octet>, r: seq<Octet>)
    requires |h| == |r| == 20 && r[12..16] == h[16..20] && r[16..20] == h[12..16]
    ensures forall i :: 12 <= i < 16 ==> r[i] == h[i + 4]
    ensures forall i :: 16 <= i < 20 ==> r[i] == h[i - 4]
  {
    assert forall i :: 12 <= i < 16 ==> r[i] == r[12..16][i - 12] == h[16..20][i - 12];
    assert forall i :: 16 <= i < 20 ==> r[i] == r[16..20][i - 16] == h[12..16][i - 16];
  }

  lemma TimeToLive(protocol: Octet, ttl: Octet)
    ensures Pair(protocol, 64) == Pair(protocol, ttl) + 64 - ttl
  {
  }

  /**
   * The IP header checksum is updated without end-around carry.  Of a request whose header verifies, the reply's
   * header verifies again if and only if the update neither underflows nor overflows its sixteen bits; the checksum
   * is read with its octets in the order of the wire word.
   */
  lemma ReplyHeaderVerifiesIff(b: seq<Octet>)
    requires |b| >= 24 && Verifies(b[..20])
    ensures Verifies(Reply(b)[..20]) <==> 64 <= 256 * b[11] as int + b[10] as int + b[8] as int <= 65599
  {
    hide Reply, WordSumLittle, Fold, Verifies, PatchedIpChecksum;
    var c := Pair(b[11], b[10]);
    ByteOrderIndependence(b[..20]);
    ByteOrderIndependence(Reply(b)[..20]);
    ReplyHeaderSum(b);
    PatchedSum(c, b[8]);
    FoldRange(WordSumLittle(b[..20]));
    FoldRange(WordSumLittle(Reply(b)[..20]));
    OneWrap(WordSumLittle(b[..20]), WordSumLittle(Reply(b)[..20]));
  }

  lemma OneWrap(n: nat, m: nat)
    requires n % 65535 == 0 && n > 0 && (m == n || m == n + 65536 || m == n - 65536)
    ensures m > 0 && m % 65535 == 0 <==> m == n
  {
  }
}
