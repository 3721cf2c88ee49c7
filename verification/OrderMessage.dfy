/**
 * The egress order message: a fixed FIX text of 256 octets with five fields substituted, and the sum of it that
 * `operationProcessTcp` assembles from the pre-computed template sum and the sums of the fields.
 *
 * A 64-bit word is its eight octets, least significant first; the text reads every word from its most
 * significant octet.
 */
module OrderMessage {
  import opened OnesComplement
  import opened AxiStream
  import LaneSums

  /** An 80-bit encoded field: octet k is bits 8k+7..8k, so the text of the field is the reverse. */
  type Field = f: seq<Octet> | |f| == 10 witness [0, 0, 0, 0, 0, 0, 0, 0, 0, 0]

  datatype Operation = Operation(timestamp: Lanes, orderId: Field, quantity: Field, price: Field)

  function Msb(a: Octet, b: Octet, c: Octet, d: Octet, e: Octet, f: Octet, g: Octet, h: Octet): Lanes {
    [h, g, f, e, d, c, b, a]
  }

  function ByteReverse(w: Lanes): Lanes { [w[7], w[6], w[5], w[4], w[3], w[2], w[1], w[0]] }

  /** The 32 template words, most significant octet first. */
  function TemplateWord(i: nat): Lanes
    requires i < 32
  {
    match i
    case 0 => Msb(0x38, 0x3D, 0x46, 0x49, 0x58, 0x2E, 0x34, 0x2E)
    case 1 => Msb(0x32, 0x5E, 0x39, 0x3D, 0x31, 0x33, 0x35, 0x5E)
    case 2 => Msb(0x33, 0x35, 0x3D, 0x44, 0x5E, 0x33, 0x34, 0x3D)
    case 3 => Msb(0x00, 0x00, 0x00, 0x00, 0x00, 0x00, 0x00, 0x00)
    case 4 => Msb(0x00, 0x00, 0x5E, 0x34, 0x39, 0x3D, 0x41, 0x42)
    case 5 => Msb(0x43, 0x31, 0x32, 0x33, 0x4E, 0x5E, 0x35, 0x30)
    case 6 => Msb(0x3D, 0x58, 0x46, 0x5F, 0x46, 0x49, 0x4E, 0x54)
    case 7 => Msb(0x45, 0x43, 0x48, 0x5E, 0x35, 0x32, 0x3D, 0x32)
    case 8 => Msb(0x30, 0x31, 0x39, 0x30, 0x38, 0x32, 0x38, 0x2D)
    case 9 => Msb(0x00, 0x00, 0x00, 0x00, 0x00, 0x00, 0x00, 0x00)
    case 10 => Msb(0x5E, 0x35, 0x36, 0x3D, 0x43, 0x4D, 0x45, 0x5E)
    case 11 => Msb(0x35, 0x37, 0x3D, 0x47, 0x5E, 0x31, 0x34, 0x32)
    case 12 => Msb(0x3D, 0x49, 0x45, 0x5E, 0x5E, 0x33, 0x35, 0x3D)
    case 13 => Msb(0x44, 0x5E, 0x31, 0x3D, 0x58, 0x4C, 0x4E, 0x58)
    case 14 => Msb(0x31, 0x32, 0x33, 0x34, 0x35, 0x36, 0x37, 0x38)
    case 15 => Msb(0x5E, 0x31, 0x31, 0x3D, 0x00, 0x00, 0x00, 0x00)
    case 16 => Msb(0x00, 0x00, 0x00, 0x00, 0x00, 0x00, 0x5E, 0x33)
    case 17 => Msb(0x38, 0x3D, 0x00, 0x00, 0x00, 0x00, 0x00, 0x00)
    case 18 => Msb(0x00, 0x00, 0x00, 0x00, 0x5E, 0x34, 0x30, 0x3D)
    case 19 => Msb(0x32, 0x5E, 0x34, 0x34, 0x3D, 0x00, 0x00, 0x00)
    case 20 => Msb(0x00, 0x00, 0x00, 0x00, 0x00, 0x00, 0x00, 0x5E)
    case 21 => Msb(0x35, 0x34, 0x3D, 0x31, 0x5E, 0x35, 0x35, 0x3D)
    case 22 => Msb(0x58, 0x4C, 0x4E, 0x58, 0x5E, 0x36, 0x30, 0x3D)
    case 23 => Msb(0x32, 0x30, 0x31, 0x39, 0x30, 0x38, 0x32, 0x38)
    case 24 => Msb(0x2D, 0x31, 0x30, 0x3A, 0x31, 0x31, 0x3A, 0x31)
    case 25 => Msb(0x32, 0x5E, 0x31, 0x30, 0x32, 0x38, 0x3D, 0x4E)
    case 26 => Msb(0x5E, 0x31, 0x30, 0x37, 0x3D, 0x43, 0x45, 0x5A)
    case 27 => Msb(0x39, 0x20, 0x43, 0x39, 0x33, 0x37, 0x35, 0x5E)
    case 28 => Msb(0x32, 0x30, 0x34, 0x3D, 0x30, 0x5E, 0x39, 0x37)
    case 29 => Msb(0x30, 0x32, 0x3D, 0x31, 0x5E, 0x5E, 0x31, 0x30)
    case 30 => Msb(0x3D, 0x43, 0x48, 0x4B, 0x2E, 0x2E, 0x2E, 0x2E)
    case _ => Msb(0x2E, 0x2E, 0x2E, 0x2E, 0x2E, 0x2E, 0x2E, 0x2E)
  }

  const TEMPLATE_SUM: nat := 0x1b65

  /** Word i of the template with the fields of an operation substituted. */
  function MessageWord(op: Operation, i: nat): Lanes
    requires i < 32
  {
    match i
    case 3 => op.orderId[2..]
    case 4 => TemplateWord(4)[..6] + op.orderId[..2]
    case 9 => op.timestamp
    case 15 => op.orderId[6..] + TemplateWord(15)[4..]
    case 16 => TemplateWord(16)[..2] + op.orderId[..6]
    case 17 => op.quantity[4..] + TemplateWord(17)[6..]
    case 18 => TemplateWord(18)[..4] + op.quantity[..4]
    case 19 => op.price[7..] + TemplateWord(19)[3..]
    case 20 => TemplateWord(20)[..1] + op.price[..7]
    case _ => TemplateWord(i)
  }

  function Message(op: Operation): (m: seq<Lanes>)
    ensures |m| == 32 && forall i :: 0 <= i < 32 ==> m[i] == MessageWord(op, i)
  {
    seq(32, i requires 0 <= i < 32 => MessageWord(op, i))
  }

  // ---------------------------------------------------------------- the text

  function Reverse(s: seq<Octet>): (r: seq<Octet>)
    ensures |r| == |s| && forall i :: 0 <= i < |s| ==> r[i] == s[|s| - 1 - i]
  {
    seq(|s|, i requires 0 <= i < |s| => s[|s| - 1 - i])
  }

  function Chars(s: string): (r: seq<Octet>)
    ensures |r| == |s| && forall i :: 0 <= i < |s| ==> r[i] == s[i] as int % 256
  {
    seq(|s|, i requires 0 <= i < |s| => s[i] as int % 256)
  }

  /** The FIX message an operation stands for. */
  function FixText(op: Operation): seq<Octet> {
    Text0(op) + Text1(op) + Text2(op) + Text3()
  }

  function Text0(op: Operation): (t: seq<Octet>)
    ensures |t| == 64
  {
    Chars("8=FIX.4.") + Chars("2^9=135^") + Chars("35=D^34=") + Reverse(op.orderId) +
    Chars("^49=AB") + Chars("C123N^50") + Chars("=XF_FINT") + Chars("ECH^52=2")
  }

  function Text1(op: Operation): (t: seq<Octet>)
    ensures |t| == 64
  {
    Chars("0190828-") + Reverse(op.timestamp) +
    Chars("^56=CME^") + Chars("57=G^142") + Chars("=IE^^35=") + Chars("D^1=XLNX") + Chars("12345678") +
    Chars("^11=") + Reverse(op.orderId)[..4]
  }

  function Text2(op: Operation): (t: seq<Octet>)
    ensures |t| == 64
  {
    Reverse(op.orderId)[4..] +
    Chars("^38=") + Reverse(op.quantity) +
    Chars("^40=") + Chars("2^44=") + Reverse(op.price) +
    Chars("^") + Chars("54=1^55=") + Chars("XLNX^60=") + Chars("20190828")
  }

  function Text3(): (t: seq<Octet>)
    ensures |t| == 64
  {
    Chars("-10:11:1") + Chars("2^1028=N") + Chars("^107=CEZ") + Chars("9 C9375^") +
    Chars("204=0^97") + Chars("02=1^^10") + Chars("=CHK....") + Chars("........")
  }

  /** The octets of the transmitted words in wire order. */
  function Wire(ws: seq<Lanes>): (t: seq<Octet>)
    ensures |t| == 8 * |ws|
  {
    if ws == [] then [] else ByteReverse(ws[0]) + Wire(ws[1..])
  }

  lemma WireHead(ws: seq<Lanes>)
    requires ws != []
    ensures Wire(ws) == ByteReverse(ws[0]) + Wire(ws[1..])
  {
  }

  lemma {:induction false} WireConcat(a: seq<Lanes>, b: seq<Lanes>)
    ensures Wire(a + b) == Wire(a) + Wire(b)
    decreases |a|
  {
    if a == [] {
      assert a + b == b;
    } else {
      assert (a + b)[1..] == a[1..] + b;
      WireConcat(a[1..], b);
    }
  }

  lemma FourWords(ws: seq<Lanes>)
    requires |ws| == 4
    ensures Wire(ws) == ByteReverse(ws[0]) + ByteReverse(ws[1]) + ByteReverse(ws[2]) + ByteReverse(ws[3])
  {
    hide Wire, ByteReverse;
    WireHead(ws);
    WireHead(ws[1..]);
    WireHead(ws[2..]);
    WireHead(ws[3..]);
    assert ws[1..][1..] == ws[2..] && ws[2..][1..] == ws[3..] && Wire(ws[3..][1..]) == [];
  }

  /** The text of eight words is that of its words in order. */
  lemma EightWords(ws: seq<Lanes>, a: seq<Octet>, b: seq<Octet>, c: seq<Octet>, d: seq<Octet>,
                   e: seq<Octet>, f: seq<Octet>, g: seq<Octet>, h: seq<Octet>)
    requires |ws| == 8
    requires ByteReverse(ws[0]) == a && ByteReverse(ws[1]) == b && ByteReverse(ws[2]) == c && ByteReverse(ws[3]) == d
    requires ByteReverse(ws[4]) == e && ByteReverse(ws[5]) == f && ByteReverse(ws[6]) == g && ByteReverse(ws[7]) == h
    ensures Wire(ws) == (a + b + c + d) + (e + f + g + h)
  {
    hide Wire, ByteReverse;
    assert ws == ws[..4] + ws[4..];
    WireConcat(ws[..4], ws[4..]);
    FourWords(ws[..4]);
    FourWords(ws[4..]);
  }

  lemma Pieces3A()
    ensures Chars("-10:11:1") == ByteReverse(TemplateWord(24))
    ensures Chars("2^1028=N") == ByteReverse(TemplateWord(25))
  {
  }

  lemma Pieces3B()
    ensures Chars("^107=CEZ") == ByteReverse(TemplateWord(26))
    ensures Chars("9 C9375^") == ByteReverse(TemplateWord(27))
  {
  }

  lemma Pieces3C()
    ensures Chars("204=0^97") == ByteReverse(TemplateWord(28))
    ensures Chars("02=1^^10") == ByteReverse(TemplateWord(29))
  {
  }

  lemma Pieces3D()
    ensures Chars("=CHK....") == ByteReverse(TemplateWord(30))
    ensures Chars("........") == ByteReverse(TemplateWord(31))
  {
  }

  lemma TextOfPart3(op: Operation)
    ensures Wire(Message(op)[24..]) == Text3()
  {
    hide Chars, TemplateWord, Wire, ByteReverse;
    Pieces3A();
    Pieces3B();
    Pieces3C();
    Pieces3D();
    EightWords(Message(op)[24..], Chars("-10:11:1"), Chars("2^1028=N"), Chars("^107=CEZ"), Chars("9 C9375^"),
               Chars("204=0^97"), Chars("02=1^^10"), Chars("=CHK...."), Chars("........"));
  }

  lemma Pieces0A()
    ensures Chars("8=FIX.4.") == ByteReverse(TemplateWord(0))
    ensures Chars("2^9=135^") == ByteReverse(TemplateWord(1))
    ensures Chars("35=D^34=") == ByteReverse(TemplateWord(2))
  {
  }

  lemma Pieces0B()
    ensures Chars("^49=AB") == ByteReverse(TemplateWord(4))[2..]
    ensures Chars("C123N^50") == ByteReverse(TemplateWord(5))
    ensures Chars("=XF_FINT") == ByteReverse(TemplateWord(6))
    ensures Chars("ECH^52=2") == ByteReverse(TemplateWord(7))
  {
  }

  lemma Word4(op: Operation)
    ensures ByteReverse(MessageWord(op, 3)) == Reverse(op.orderId)[..8]
    ensures ByteReverse(MessageWord(op, 4)) == Reverse(op.orderId)[8..] + ByteReverse(TemplateWord(4))[2..]
  {
    hide TemplateWord;
  }

  lemma TextOfPart0(op: Operation)
    ensures Wire(Message(op)[..8]) == Text0(op)
  {
    hide Chars, TemplateWord, Wire, ByteReverse, Reverse;
    Pieces0A();
    Pieces0B();
    Word4(op);
    var id := Reverse(op.orderId);
    EightWords(Message(op)[..8], Chars("8=FIX.4."), Chars("2^9=135^"), Chars("35=D^34="), id[..8],
               id[8..] + Chars("^49=AB"), Chars("C123N^50"), Chars("=XF_FINT"), Chars("ECH^52=2"));
  }

  lemma Pieces1A()
    ensures Chars("0190828-") == ByteReverse(TemplateWord(8))
    ensures Chars("^56=CME^") == ByteReverse(TemplateWord(10))
    ensures Chars("57=G^142") == ByteReverse(TemplateWord(11))
  {
  }

  lemma Pieces1B()
    ensures Chars("=IE^^35=") == ByteReverse(TemplateWord(12))
    ensures Chars("D^1=XLNX") == ByteReverse(TemplateWord(13))
  {
  }

  lemma Pieces1C()
    ensures Chars("12345678") == ByteReverse(TemplateWord(14))
    ensures Chars("^11=") == ByteReverse(TemplateWord(15))[..4]
  {
  }

  lemma Words1(op: Operation)
    ensures ByteReverse(MessageWord(op, 9)) == Reverse(op.timestamp)
    ensures ByteReverse(MessageWord(op, 15)) == ByteReverse(TemplateWord(15))[..4] + Reverse(op.orderId)[..4]
  {
    hide TemplateWord;
  }

  lemma TextOfPart1(op: Operation)
    ensures Wire(Message(op)[8..16]) == Text1(op)
  {
    hide Chars, TemplateWord, Wire, ByteReverse, Reverse;
    Pieces1A();
    Pieces1B();
    Pieces1C();
    Words1(op);
    EightWords(Message(op)[8..16], Chars("0190828-"), Reverse(op.timestamp), Chars("^56=CME^"), Chars("57=G^142"),
               Chars("=IE^^35="), Chars("D^1=XLNX"), Chars("12345678"), Chars("^11=") + Reverse(op.orderId)[..4]);
  }

  lemma Pieces2A()
    ensures Chars("^38=")[..2] == ByteReverse(TemplateWord(16))[6..]
    ensures Chars("^38=")[2..] == ByteReverse(TemplateWord(17))[..2]
  {
  }

  lemma Pieces2B()
    ensures Chars("^40=") == ByteReverse(TemplateWord(18))[4..]
    ensures Chars("2^44=") == ByteReverse(TemplateWord(19))[..5]
  {
  }

  lemma Pieces2C()
    ensures Chars("^") == ByteReverse(TemplateWord(20))[7..]
    ensures Chars("54=1^55=") == ByteReverse(TemplateWord(21))
  {
  }

  lemma Pieces2D()
    ensures Chars("XLNX^60=") == ByteReverse(TemplateWord(22))
    ensures Chars("20190828") == ByteReverse(TemplateWord(23))
  {
  }

  lemma Words2A(op: Operation)
    ensures ByteReverse(MessageWord(op, 16)) == Reverse(op.orderId)[4..] + ByteReverse(TemplateWord(16))[6..]
    ensures ByteReverse(MessageWord(op, 17)) == ByteReverse(TemplateWord(17))[..2] + Reverse(op.quantity)[..6]
  {
    hide TemplateWord;
  }

  lemma Words2B(op: Operation)
    ensures ByteReverse(MessageWord(op, 18)) == Reverse(op.quantity)[6..] + ByteReverse(TemplateWord(18))[4..]
    ensures ByteReverse(MessageWord(op, 19)) == ByteReverse(TemplateWord(19))[..5] + Reverse(op.price)[..3]
    ensures ByteReverse(MessageWord(op, 20)) == Reverse(op.price)[3..] + ByteReverse(TemplateWord(20))[7..]
  {
    hide TemplateWord;
  }

  /** The fields of the third part cross its words. */
  lemma RegroupText2(id: seq<Octet>, a: seq<Octet>, quantity: seq<Octet>, b: seq<Octet>, c: seq<Octet>,
                     price: seq<Octet>, d: seq<Octet>, e: seq<Octet>, f: seq<Octet>, g: seq<Octet>)
    requires |a| == 4 && |quantity| == |price| == 10
    ensures id + a + quantity + b + c + price + d + e + f + g ==
            ((id + a[..2]) + (a[2..] + quantity[..6]) + (quantity[6..] + b) + (c + price[..3]))
            + ((price[3..] + d) + e + f + g)
  {
    assert a == a[..2] + a[2..] && quantity == quantity[..6] + quantity[6..] && price == price[..3] + price[3..];
  }

  lemma TextOfPart2(op: Operation)
    ensures Wire(Message(op)[16..24]) == Text2(op)
  {
    hide Chars, TemplateWord, Wire, ByteReverse, Reverse;
    Pieces2A();
    Pieces2B();
    Pieces2C();
    Pieces2D();
    Words2A(op);
    Words2B(op);
    var id, quantity, price := Reverse(op.orderId), Reverse(op.quantity), Reverse(op.price);
    EightWords(Message(op)[16..24], id[4..] + Chars("^38=")[..2], Chars("^38=")[2..] + quantity[..6],
               quantity[6..] + Chars("^40="), Chars("2^44=") + price[..3], price[3..] + Chars("^"),
               Chars("54=1^55="), Chars("XLNX^60="), Chars("20190828"));
    RegroupText2(id[4..], Chars("^38="), quantity, Chars("^40="), Chars("2^44="), price, Chars("^"),
                 Chars("54=1^55="), Chars("XLNX^60="), Chars("20190828"));
  }

  lemma {:induction false} FourParts(m: seq<Lanes>)
    requires |m| == 32
    ensures Wire(m) == Wire(m[..8]) + Wire(m[8..16]) + Wire(m[16..24]) + Wire(m[24..])
  {
    hide Wire;
    assert m == m[..8] + m[8..];
    WireConcat(m[..8], m[8..]);
    assert m[8..] == m[8..16] + m[16..];
    WireConcat(m[8..16], m[16..]);
    assert m[16..] == m[16..24] + m[24..];
    WireConcat(m[16..24], m[24..]);
  }

  /** The octets on the wire are the FIX message, whatever the fields. */
  lemma MessageText(op: Operation)
    ensures Wire(Message(op)) == FixText(op) && |FixText(op)| == 256
  {
    hide Wire, Text0, Text1, Text2, Text3, Message;
    TextOfPart0(op);
    TextOfPart1(op);
    TextOfPart2(op);
    TextOfPart3(op);
    FourParts(Message(op));
  }

  lemma Text1Fields(op: Operation)
    ensures Text1(op)[8..16] == Reverse(op.timestamp) && Text1(op)[60..] == Reverse(op.orderId)[..4]
  {
    hide Chars, Reverse;
  }

  lemma Text2Fields(op: Operation)
    ensures Text2(op)[..6] == Reverse(op.orderId)[4..] && Text2(op)[10..20] == Reverse(op.quantity)
    ensures Text2(op)[29..39] == Reverse(op.price)
  {
    hide Chars, Reverse;
  }

  lemma Text0Fields(op: Operation)
    ensures Text0(op)[24..34] == Reverse(op.orderId)
  {
    hide Chars, Reverse;
  }

  /** Where the fields stand in the message: the order identifier twice, the price at an odd offset. */
  lemma FieldPositions(op: Operation)
    ensures |FixText(op)| == 256
    ensures FixText(op)[24..34] == FixText(op)[124..134] == Reverse(op.orderId)
    ensures FixText(op)[72..80] == Reverse(op.timestamp)
    ensures FixText(op)[138..148] == Reverse(op.quantity)
    ensures FixText(op)[157..167] == Reverse(op.price)
  {
    hide Text0, Text1, Text2, Text3, Reverse;
    Text0Fields(op);
    Text1Fields(op);
    Text2Fields(op);
    var t := FixText(op);
    assert t[64..128] == Text1(op) && t[128..192] == Text2(op);
    assert t[24..34] == t[..64][24..34] == Text0(op)[24..34];
    assert t[72..80] == t[64..128][8..16];
    assert t[138..148] == t[128..192][10..20];
    assert t[157..167] == t[128..192][29..39];
    assert t[124..134] == t[64..128][60..] + t[128..192][..6];
  }

  // ---------------------------------------------------------------- the sum

  /** The four half-words of a template word. */
  function FrameSum(w: Lanes): nat { Pair(w[7], w[6]) + Pair(w[5], w[4]) + Pair(w[3], w[2]) + Pair(w[1], w[0]) }

  function FrameTotal(ws: seq<Lanes>): nat {
    if ws == [] then 0 else FrameSum(ws[0]) + FrameTotal(ws[1..])
  }

  /** What a ten-character field at an even offset adds to the sum. */
  function FieldTotal(f: Field): nat {
    Pair(f[1], f[0]) + Pair(f[3], f[2]) + Pair(f[5], f[4]) + Pair(f[7], f[6]) + Pair(f[9], f[8])
  }

  /** The same for the price, which starts in the middle of a half-word. */
  function PriceTotal(f: Field): nat {
    Pair(f[0], 0) + Pair(f[2], f[1]) + Pair(f[4], f[3]) + Pair(f[6], f[5]) + Pair(f[8], f[7]) + Pair(0, f[9])
  }

  lemma {:induction false} WireSum(ws: seq<Lanes>)
    ensures WordSum(Wire(ws)) == FrameTotal(ws)
    decreases |ws|
  {
    hide WordSum;
    if ws == [] {
      LaneSums.WordSumOfLanes(TemplateWord(3), 0);
      assert Wire(ws) == TemplateWord(3)[..0];
    } else {
      var b := ByteReverse(ws[0]);
      LaneSums.WordSumOfLanes(b, 8);
      assert b[..8] == b;
      WordSumConcat(b, Wire(ws[1..]));
      WireSum(ws[1..]);
    }
  }

  lemma {:induction false} FrameTotalConcat(a: seq<Lanes>, b: seq<Lanes>)
    ensures FrameTotal(a + b) == FrameTotal(a) + FrameTotal(b)
    decreases |a|
  {
    if a == [] {
      assert a + b == b;
    } else {
      assert (a + b)[1..] == a[1..] + b;
      FrameTotalConcat(a[1..], b);
    }
  }

  lemma FrameTotalOfFour(ws: seq<Lanes>)
    requires |ws| == 4
    ensures FrameTotal(ws) == FrameSum(ws[0]) + FrameSum(ws[1]) + FrameSum(ws[2]) + FrameSum(ws[3])
  {
    hide FrameSum;
    assert ws[1..][1..] == ws[2..] && ws[2..][1..] == ws[3..];
    assert FrameTotal(ws[3..]) == FrameSum(ws[3]);
    assert FrameTotal(ws[1..]) == FrameSum(ws[1]) + FrameTotal(ws[2..]);
    assert FrameTotal(ws[2..]) == FrameSum(ws[2]) + FrameTotal(ws[3..]);
  }

  lemma FrameTotalOfEight(ws: seq<Lanes>)
    requires |ws| == 8
    ensures FrameTotal(ws) == FrameSum(ws[0]) + FrameSum(ws[1]) + FrameSum(ws[2]) + FrameSum(ws[3])
                              + FrameSum(ws[4]) + FrameSum(ws[5]) + FrameSum(ws[6]) + FrameSum(ws[7])
  {
    hide FrameSum, FrameTotal;
    FrameTotalOfFour(ws[..4]);
    FrameTotalOfFour(ws[4..]);
    assert ws == ws[..4] + ws[4..];
    FrameTotalConcat(ws[..4], ws[4..]);
  }

  lemma StaticSums0()
    ensures FrameSum(TemplateWord(0)) == 68322 && FrameSum(TemplateWord(1)) == 53804
    ensures FrameSum(TemplateWord(2)) == 66281 && FrameSum(TemplateWord(5)) == 63730
    ensures FrameSum(TemplateWord(6)) == 71764 && FrameSum(TemplateWord(7)) == 65541
  {
  }

  lemma FieldSums0(op: Operation)
    ensures FrameSum(MessageWord(op, 3)) + FrameSum(MessageWord(op, 4)) == 55475 + FieldTotal(op.orderId)
  {
    hide Pair;
    assert Pair(0x5E, 0x34) + Pair(0x39, 0x3D) + Pair(0x41, 0x42) == 55475 by { PairValues(); }
  }

  lemma PairValues()
    ensures Pair(0x5E, 0x34) + Pair(0x39, 0x3D) + Pair(0x41, 0x42) == 55475
    ensures Pair(0x5E, 0x31) + Pair(0x31, 0x3D) == 36718 && Pair(0x5E, 0x33) == 24115
    ensures Pair(0x38, 0x3D) == 14397 && Pair(0x5E, 0x34) + Pair(0x30, 0x3D) == 36465
    ensures Pair(0x32, 0x5E) + Pair(0x34, 0x34) == 26258
  {
  }

  lemma SumOfPart0(op: Operation)
    ensures FrameTotal(Message(op)[..8]) == 444917 + FieldTotal(op.orderId)
  {
    hide FrameTotal, FrameSum, TemplateWord, FieldTotal;
    FrameTotalOfEight(Message(op)[..8]);
    StaticSums0();
    FieldSums0(op);
  }

  lemma StaticSums1A()
    ensures FrameSum(TemplateWord(8)) == 55744 && FrameSum(TemplateWord(10)) == 72989
    ensures FrameSum(TemplateWord(11)) == 66785
  {
  }

  lemma StaticSums1B()
    ensures FrameSum(TemplateWord(12)) == 71191 && FrameSum(TemplateWord(13)) == 72767
    ensures FrameSum(TemplateWord(14)) == 53460
  {
  }

  function UpperHalf(f: Field): nat { Pair(f[9], f[8]) + Pair(f[7], f[6]) }

  lemma FieldSums1(op: Operation)
    ensures FrameSum(MessageWord(op, 15)) == 36718 + UpperHalf(op.orderId)
  {
    hide Pair;
    PairValues();
  }

  lemma SumOfPart1(op: Operation)
    ensures FrameTotal(Message(op)[8..16]) == 429654 + FrameSum(op.timestamp) + UpperHalf(op.orderId)
  {
    hide FrameTotal, FrameSum, TemplateWord, UpperHalf;
    FrameTotalOfEight(Message(op)[8..16]);
    StaticSums1A();
    StaticSums1B();
    FieldSums1(op);
  }

  lemma StaticSums2()
    ensures FrameSum(TemplateWord(21)) == 67031 && FrameSum(TemplateWord(22)) == 79127
    ensures FrameSum(TemplateWord(23)) == 50649
  {
  }

  lemma FieldSums2(op: Operation)
    ensures FrameSum(MessageWord(op, 16)) + UpperHalf(op.orderId) == 24115 + FieldTotal(op.orderId)
    ensures FrameSum(MessageWord(op, 17)) + FrameSum(MessageWord(op, 18)) == 50862 + FieldTotal(op.quantity)
  {
    hide Pair;
    PairValues();
  }

  lemma PriceSums(op: Operation)
    ensures FrameSum(MessageWord(op, 19)) + FrameSum(MessageWord(op, 20)) == 41968 + PriceTotal(op.price)
  {
  }

  lemma SumOfPart2(op: Operation)
    ensures FrameTotal(Message(op)[16..24]) + UpperHalf(op.orderId)
            == 313752 + FieldTotal(op.orderId) + FieldTotal(op.quantity) + PriceTotal(op.price)
  {
    hide FrameTotal, FrameSum, TemplateWord, UpperHalf, FieldTotal, PriceTotal;
    FrameTotalOfEight(Message(op)[16..24]);
    StaticSums2();
    FieldSums2(op);
    PriceSums(op);
  }

  lemma StaticSums3A()
    ensures FrameSum(TemplateWord(24)) == 51405 && FrameSum(TemplateWord(25)) == 54036
  {
  }

  lemma StaticSums3B()
    ensures FrameSum(TemplateWord(26)) == 69893 && FrameSum(TemplateWord(27)) == 58606
  {
  }

  lemma StaticSums3C()
    ensures FrameSum(TemplateWord(28)) == 53250 && FrameSum(TemplateWord(29)) == 64753
  {
  }

  lemma StaticSums3D()
    ensures FrameSum(TemplateWord(30)) == 57834 && FrameSum(TemplateWord(31)) == 47288
  {
  }

  lemma SumOfPart3(op: Operation)
    ensures FrameTotal(Message(op)[24..]) == 457065
  {
    hide FrameTotal, FrameSum, TemplateWord;
    FrameTotalOfEight(Message(op)[24..]);
    StaticSums3A();
    StaticSums3B();
    StaticSums3C();
    StaticSums3D();
  }

  /** The exact sum of the constant octets; the pre-computed template sum is its folded form. */
  const CONSTANT_TOTAL: nat := 1645388

  /** The exact sum of the message: the order identifier counts twice, the price straddles half-words. */
  lemma MessageTotal(op: Operation)
    ensures WordSum(FixText(op)) == CONSTANT_TOTAL + FieldTotal(op.orderId) + FrameSum(op.timestamp)
                                    + FieldTotal(op.orderId) + FieldTotal(op.quantity) + PriceTotal(op.price)
  {
    hide FrameTotal, FrameSum, FieldTotal, PriceTotal, UpperHalf, Message, FixText, Wire, WordSum;
    var m := Message(op);
    MessageText(op);
    WireSum(m);
    assert m == m[..8] + m[8..];
    FrameTotalConcat(m[..8], m[8..]);
    assert m[8..] == m[8..16] + m[16..];
    FrameTotalConcat(m[8..16], m[16..]);
    assert m[16..] == m[16..24] + m[24..];
    FrameTotalConcat(m[16..24], m[24..]);
    SumOfPart0(op);
    SumOfPart1(op);
    SumOfPart2(op);
    SumOfPart3(op);
  }

  // ---------------------------------------------------------------- assembling the sum

  /** 24-bit addition followed by `(s + (s >> 16)) & 0xFFFF`. */
  function AddFold(sum: nat, term: nat): nat {
    var a, b := sum, term;
    var s := (a + b) % 0x1000000;
    Low16(s + s / 0x10000)
  }

  lemma AddFoldAccumulates(sum: nat, term: nat)
    requires sum <= 65535 && term <= 65535
    ensures AddFold(sum, term) == Accumulate(sum, term)
  {
    assert (sum + term) % 0x1000000 == sum + term == Low17(sum + term);
  }

  /** If the operands represent exact sums a and b, the result represents a + b. */
  lemma AddFoldAdds(sum: nat, a: nat, term: nat, b: nat)
    requires sum == Fold(a) && term == Fold(b)
    ensures AddFold(sum, term) == Fold(a + b) <= 65535
  {
    hide Fold, AddFold, Accumulate;
    FoldRange(a);
    FoldRange(b);
    AddFoldAccumulates(sum, term);
    AccumulateIsFold(sum, term);
    LaneSums.TwoFolds(a, b);
  }

  lemma PairIsFolded(high: Octet, low: Octet)
    ensures Fold(Pair(high, low)) == Pair(high, low)
  {
    hide Fold;
    FoldRange(Pair(high, low));
  }

  lemma AddPair(sum: nat, a: nat, high: Octet, low: Octet)
    requires sum == Fold(a)
    ensures AddFold(sum, Pair(high, low)) == Fold(a + Pair(high, low)) <= 65535
  {
    PairIsFolded(high, low);
    AddFoldAdds(sum, a, Pair(high, low), Pair(high, low));
  }

  method SumTimestamp(t: Lanes) returns (sum: nat)
    ensures sum == Fold(FrameSum(t))
  {
    hide Fold, Pair, AddFold;
    sum := Pair(t[1], t[0]);
    PairIsFolded(t[1], t[0]);
    ghost var exact: nat := sum;
    AddPair(sum, exact, t[3], t[2]);
    sum, exact := AddFold(sum, Pair(t[3], t[2])), exact + Pair(t[3], t[2]);
    AddPair(sum, exact, t[5], t[4]);
    sum, exact := AddFold(sum, Pair(t[5], t[4])), exact + Pair(t[5], t[4]);
    AddPair(sum, exact, t[7], t[6]);
    sum, exact := AddFold(sum, Pair(t[7], t[6])), exact + Pair(t[7], t[6]);
    assert exact == FrameSum(t);
  }

  method SumField(f: Field) returns (sum: nat)
    ensures sum == Fold(FieldTotal(f))
  {
    hide Fold, Pair, AddFold;
    sum := Pair(f[1], f[0]);
    PairIsFolded(f[1], f[0]);
    ghost var exact: nat := sum;
    AddPair(sum, exact, f[3], f[2]);
    sum, exact := AddFold(sum, Pair(f[3], f[2])), exact + Pair(f[3], f[2]);
    AddPair(sum, exact, f[5], f[4]);
    sum, exact := AddFold(sum, Pair(f[5], f[4])), exact + Pair(f[5], f[4]);
    AddPair(sum, exact, f[7], f[6]);
    sum, exact := AddFold(sum, Pair(f[7], f[6])), exact + Pair(f[7], f[6]);
    AddPair(sum, exact, f[9], f[8]);
    sum, exact := AddFold(sum, Pair(f[9], f[8])), exact + Pair(f[9], f[8]);
    assert exact == FieldTotal(f);
  }

  method SumPrice(f: Field) returns (sum: nat)
    ensures sum == Fold(PriceTotal(f))
  {
    hide Fold, Pair, AddFold;
    sum := Pair(f[0], 0);
    PairIsFolded(f[0], 0);
    ghost var exact: nat := sum;
    AddPair(sum, exact, f[2], f[1]);
    sum, exact := AddFold(sum, Pair(f[2], f[1])), exact + Pair(f[2], f[1]);
    AddPair(sum, exact, f[4], f[3]);
    sum, exact := AddFold(sum, Pair(f[4], f[3])), exact + Pair(f[4], f[3]);
    AddPair(sum, exact, f[6], f[5]);
    sum, exact := AddFold(sum, Pair(f[6], f[5])), exact + Pair(f[6], f[5]);
    AddPair(sum, exact, f[8], f[7]);
    sum, exact := AddFold(sum, Pair(f[8], f[7])), exact + Pair(f[8], f[7]);
    AddPair(sum, exact, 0, f[9]);
    sum, exact := AddFold(sum, Pair(0, f[9])), exact + Pair(0, f[9]);
    assert exact == PriceTotal(f);
  }

  /**
   * The sum handed to the TCP engine, merged from the template sum and the field sums, is the one's complement
   * sum of the whole message.
   */
  method SumMessage(op: Operation) returns (messageSum: nat)
    ensures messageSum == Rfc1071Sum(FixText(op))
  {
    hide Fold, AddFold, FieldTotal, PriceTotal, FrameSum, FixText, WordSum;
    var timestampSum := SumTimestamp(op.timestamp);
    var orderIdSum := SumField(op.orderId);
    var quantitySum := SumField(op.quantity);
    var priceSum := SumPrice(op.price);
    ghost var id, exact: nat := FieldTotal(op.orderId), CONSTANT_TOTAL;
    messageSum := TEMPLATE_SUM;
    assert messageSum == Fold(exact) by { TemplateSumFolded(); }
    AddFoldAdds(messageSum, exact, orderIdSum, id);
    messageSum, exact := AddFold(messageSum, orderIdSum), exact + id;
    AddFoldAdds(messageSum, exact, timestampSum, FrameSum(op.timestamp));
    messageSum, exact := AddFold(messageSum, timestampSum), exact + FrameSum(op.timestamp);
    AddFoldAdds(messageSum, exact, orderIdSum, id);
    messageSum, exact := AddFold(messageSum, orderIdSum), exact + id;
    AddFoldAdds(messageSum, exact, quantitySum, FieldTotal(op.quantity));
    messageSum, exact := AddFold(messageSum, quantitySum), exact + FieldTotal(op.quantity);
    AddFoldAdds(messageSum, exact, priceSum, PriceTotal(op.price));
    messageSum, exact := AddFold(messageSum, priceSum), exact + PriceTotal(op.price);
    MessageTotal(op);
  }

  lemma TemplateSumFolded()
    ensures Fold(CONSTANT_TOTAL) == TEMPLATE_SUM
  {
  }
}
