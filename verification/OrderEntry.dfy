/**
 * The order entry encoder: decimal encoding of the operation, field substitution into the persistent template,
 * the message sum and the 32-word transmission.
 */
module OrderEntryTcp {
  import opened Wrappers
  import opened OnesComplement
  import opened AxiStream
  import opened Bits
  import opened Decimal
  import opened OrderMessage

  const OE_MSG_LEN_BYTES: nat := 256
  const TXSTATUS_SUCCESS: nat := 0

  /** An order operation with its numeric fields, as it arrives from the pricing engine or the host. */
  datatype Request = Request(timestamp: Lanes, orderId: Word32, quantity: Word32, price: Word32)

  datatype ConnectionStatus = ConnectionStatus(connected: bool, space: nat, error: nat, sessionID: nat)

  datatype TxMeta = TxMeta(sessionID: nat, length: nat, validSum: bool, subSum: nat)

  function Encoded(r: Request): Operation {
    Operation(r.timestamp, Ascii(ToNat(r.orderId)), Ascii(ToNat(r.quantity)), Ascii(ToNat(r.price)))
  }

  /** operationEncode. */
  method OperationEncode(requests: seq<Request>) returns (rest: seq<Request>, encoded: Option<Operation>)
    ensures requests == [] ==> rest == [] && encoded.None?
    ensures requests != [] ==> rest == requests[1..] && encoded == Some(Encoded(requests[0]))
  {
    rest, encoded := requests, None;
    if requests != [] {
      var operation := requests[0];
      rest := requests[1..];
      var orderId := Uint32ToAscii(operation.orderId);
      var quantity := Uint32ToAscii(operation.quantity);
      var price := Uint32ToAscii(operation.price);
      encoded := Some(Operation(operation.timestamp, orderId, quantity, price));
    }
  }

  predicate Sendable(connection: ConnectionStatus) {
    connection.connected && OE_MSG_LEN_BYTES <= connection.space && connection.error == TXSTATUS_SUCCESS
  }

  /** The transmitted words: each frame reversed into network order, `last` on the final one. */
  function Words(frames: seq<Lanes>): (ws: seq<Word>)
    ensures |ws| == |frames|
  {
    seq(|frames|, i requires 0 <= i < |frames| => Word(ByteReverse(frames[i]), Full(), i == |frames| - 1))
  }

  /** The transmission is one well-formed packet that carries exactly the frames' octets. */
  lemma {:induction false} WordsArePacket(frames: seq<Lanes>)
    requires |frames| > 0
    ensures IsPacket(Words(frames)) && Octets(Words(frames)) == Wire(frames)
    decreases |frames|
  {
    KeepLenOfMask(8);
    var ws := Words(frames);
    if |frames| > 1 {
      WordsArePacket(frames[1..]);
      assert ws[1..] == Words(frames[1..]);
    } else {
      assert Octets(ws[1..]) == [] && Wire(frames[1..]) == [];
    }
  }

  /** The nine field updates applied to the message of another operation. */
  function Updated(last: Operation, op: Operation): (m: seq<Lanes>)
    ensures |m| == 32
  {
    var m := Message(last);
    m[3 := op.orderId[2..]][4 := m[4][..6] + op.orderId[..2]][9 := op.timestamp]
    [15 := op.orderId[6..] + m[15][4..]][16 := m[16][..2] + op.orderId[..6]]
    [17 := op.quantity[4..] + m[17][6..]][18 := m[18][..4] + op.quantity[..4]]
    [19 := op.price[7..] + m[19][3..]][20 := m[20][..1] + op.price[..7]]
  }

  /** Whatever the last message was, nothing of it is left. */
  lemma UpdatedWords(last: Operation, op: Operation)
    ensures Updated(last, op) == Message(op)
  {
    hide TemplateWord;
    assert forall i :: 0 <= i < 32 ==> Updated(last, op)[i] == MessageWord(op, i);
  }

  /** The five 32-bit counters behind the registers. */
  datatype Counts = Counts(processOperation: nat, txOrder: nat, txData: nat, txMeta: nat, txDrop: nat)

  const COUNTER: nat := 0x1_0000_0000

  function Counted(c: Counts, sent: bool): Counts {
    var d := c.(processOperation := (c.processOperation + 1) % COUNTER);
    if sent then
      d.(txOrder := (c.txOrder + 1) % COUNTER, txData := (c.txData + 32) % COUNTER, txMeta := (c.txMeta + 1) % COUNTER)
    else d.(txDrop := (c.txDrop + 1) % COUNTER)
  }

  /** Every operation taken was sent or dropped; an order is one metadata word and 32 data words. */
  predicate Balanced(c: Counts) {
    && c.txMeta == c.txOrder < COUNTER && c.txDrop < COUNTER && c.processOperation < COUNTER && c.txData < COUNTER
    && (c.processOperation - c.txOrder - c.txDrop) % COUNTER == 0 && (c.txData - 32 * c.txOrder) % COUNTER == 0
  }

  lemma Wraps(x: nat, n: nat)
    requires x < COUNTER && n <= 32
    ensures (x + n) % COUNTER == x + n || (x + n) % COUNTER == x + n - COUNTER
  {
  }

  lemma WholeTurns(x: int, k: int)
    requires x % COUNTER == 0
    ensures (x + k * COUNTER) % COUNTER == 0
  {
  }

  lemma SentBalances(c: Counts, p: nat, o: nat, t: nat)
    requires Balanced(c)
    requires p == c.processOperation + 1 || p == c.processOperation + 1 - COUNTER
    requires o == c.txOrder + 1 || o == c.txOrder + 1 - COUNTER
    requires t == c.txData + 32 || t == c.txData + 32 - COUNTER
    ensures (p - o - c.txDrop) % COUNTER == 0 && (t - 32 * o) % COUNTER == 0
  {
    var x, y := c.processOperation - c.txOrder - c.txDrop, c.txData - 32 * c.txOrder;
    var a := if p == c.processOperation + 1 then 0 else 1;
    var b := if o == c.txOrder + 1 then 0 else 1;
    var e := if t == c.txData + 32 then 0 else 1;
    WholeTurns(x, b - a);
    WholeTurns(y, 32 * b - e);
    assert p - o - c.txDrop == x + (b - a) * COUNTER;
    assert t - 32 * o == y + (32 * b - e) * COUNTER;
  }

  lemma DroppedBalances(c: Counts, p: nat, r: nat)
    requires Balanced(c)
    requires p == c.processOperation + 1 || p == c.processOperation + 1 - COUNTER
    requires r == c.txDrop + 1 || r == c.txDrop + 1 - COUNTER
    ensures (p - c.txOrder - r) % COUNTER == 0
  {
    var x := c.processOperation - c.txOrder - c.txDrop;
    WholeTurns(x, -1);
    WholeTurns(x, 1);
  }

  lemma CountedSent(c: Counts)
    requires Balanced(c)
    ensures Balanced(Counted(c, true))
  {
    Wraps(c.processOperation, 1);
    Wraps(c.txOrder, 1);
    Wraps(c.txData, 32);
    SentBalances(c, (c.processOperation + 1) % COUNTER, (c.txOrder + 1) % COUNTER, (c.txData + 32) % COUNTER);
  }

  lemma CountedDropped(c: Counts)
    requires Balanced(c)
    ensures Balanced(Counted(c, false))
  {
    Wraps(c.processOperation, 1);
    Wraps(c.txDrop, 1);
    DroppedBalances(c, (c.processOperation + 1) % COUNTER, (c.txDrop + 1) % COUNTER);
  }

  lemma CountedBalances(c: Counts, sent: bool)
    requires Balanced(c)
    ensures Balanced(Counted(c, sent))
  {
    hide Balanced, Counted;
    if sent {
      CountedSent(c);
    } else {
      CountedDropped(c);
    }
  }

  /** The counters after the operations of a run, each of which was sent or dropped. */
  function CountedAll(sent: seq<bool>): Counts {
    if sent == [] then Counts(0, 0, 0, 0, 0) else Counted(CountedAll(sent[..|sent| - 1]), sent[|sent| - 1])
  }

  function Sends(sent: seq<bool>): nat {
    if sent == [] then 0 else Sends(sent[..|sent| - 1]) + if sent[|sent| - 1] then 1 else 0
  }

  /** From reset every counter stands for what happened, modulo its 32 bits: 32 data words to an order sent. */
  lemma {:induction false} CountersStand(sent: seq<bool>)
    ensures Sends(sent) <= |sent|
    ensures var c, n, k := CountedAll(sent), |sent|, Sends(sent);
            && c.processOperation == n % 0x1_0000_0000 && c.txDrop == (n - k) % 0x1_0000_0000
            && c.txOrder == c.txMeta == k % 0x1_0000_0000 && c.txData == 32 * k % 0x1_0000_0000
    decreases |sent|
  {
    if sent != [] {
      var front, last := sent[..|sent| - 1], sent[|sent| - 1];
      CountersStand(front);
      CountsOn(|front|, Sends(front));
      assert CountedAll(sent) == Counted(CountedAll(front), last);
    }
  }

  lemma CountsOn(n: nat, k: nat)
    requires k <= n
    ensures (n % COUNTER + 1) % COUNTER == (n + 1) % COUNTER && (k % COUNTER + 1) % COUNTER == (k + 1) % COUNTER
    ensures (32 * k % COUNTER + 32) % COUNTER == 32 * (k + 1) % COUNTER
    ensures ((n - k) % COUNTER + 1) % COUNTER == (n + 1 - k) % COUNTER
  {
    AddModulo(n, 1);
    AddModulo(k, 1);
    AddModulo(32 * k, 32);
    AddModulo(n - k, 1);
  }

  lemma AddModulo(x: nat, d: nat)
    ensures (x % COUNTER + d) % COUNTER == (x + d) % COUNTER
  {
    assert x + d == COUNTER * (x / COUNTER) + (x % COUNTER + d);
  }

  function CountAfter(x: nat, n: nat): nat { if n == 0 then x else (x + n) % COUNTER }

  lemma CountStarts(x: nat)
    ensures CountAfter(x, 0) == x && CountAfter(x, 32) == (x + 32) % COUNTER
  {
  }

  lemma NextCount(x: nat, n: nat)
    ensures CountAfter(x, n + 1) == (CountAfter(x, n) + 1) % COUNTER
  {
  }

  /** The status register: connected, two bits of error, and the low 29 bits of the space. */
  function TxStatus(connection: ConnectionStatus): nat {
    (if connection.connected then 0x8000_0000 else 0) + connection.error % 4 * 0x2000_0000
    + connection.space % 0x2000_0000
  }

  lemma TxStatusFields(connection: ConnectionStatus)
    ensures var r := TxStatus(connection);
            && r / 0x8000_0000 == (if connection.connected then 1 else 0)
            && r / 0x2000_0000 % 4 == connection.error % 4 && r % 0x2000_0000 == connection.space % 0x2000_0000
  {
  }

  class OrderEntry {
    const messageTemplate: array<Lanes>
    var counts: Counts
    var regTxStatus: nat
    /** The first 16 frames of the last transmitted message, for the host to inspect. */
    var regCaptureBuffer: seq<Lanes>
    ghost var substituted: Operation

    /** The template always holds a complete message: the last one substituted. */
    ghost predicate Complete()
      reads this, messageTemplate
    {
      messageTemplate.Length == 32 && messageTemplate[..] == Message(substituted)
    }

    ghost predicate Valid()
      reads this, messageTemplate
    {
      Complete() && Balanced(counts)
    }

    constructor ()
      ensures Valid() && fresh(messageTemplate) && counts == Counts(0, 0, 0, 0, 0)
    {
      messageTemplate := new Lanes[32](i requires 0 <= i < 32 => TemplateWord(i));
      regCaptureBuffer, counts, regTxStatus := [], Counts(0, 0, 0, 0, 0), 0;
      var blank: Field := [0, 0, 0, 0, 0, 0, 0, 0, 0, 0];
      substituted := Operation(blank[..8], blank, blank, blank);
      new;
      BlankMessage(substituted);
    }

    /** The field updates: whatever the previous message left behind, the template becomes this message. */
    method Substitute(operation: Operation)
      requires Complete()
      modifies messageTemplate, `substituted
      ensures Complete() && substituted == operation
    {
      hide TemplateWord, MessageWord;
      ghost var before := substituted;
      messageTemplate[3] := operation.orderId[2..];
      messageTemplate[4] := messageTemplate[4][..6] + operation.orderId[..2];
      messageTemplate[9] := operation.timestamp;
      messageTemplate[15] := operation.orderId[6..] + messageTemplate[15][4..];
      messageTemplate[16] := messageTemplate[16][..2] + operation.orderId[..6];
      messageTemplate[17] := operation.quantity[4..] + messageTemplate[17][6..];
      messageTemplate[18] := messageTemplate[18][..4] + operation.quantity[..4];
      messageTemplate[19] := operation.price[7..] + messageTemplate[19][3..];
      messageTemplate[20] := messageTemplate[20][..1] + operation.price[..7];
      UpdatedWords(before, operation);
      assert messageTemplate[..] == Updated(before, operation);
      substituted := operation;
    }

    /** operationProcessTcp, for one call: the connection status and the control bits are inputs. */
    method OperationProcessTcp(genSum: bool, captureFreeze: bool, connection: ConnectionStatus, input: seq<Operation>)
      returns (rest: seq<Operation>, txMeta: Option<TxMeta>, txData: seq<Word>)
      requires Valid()
      modifies this, messageTemplate
      ensures Valid()
      ensures input == [] ==> rest == [] && txMeta.None? && txData == []
      ensures input != [] ==> rest == input[1..] && substituted == input[0]
      ensures Sendable(connection) <==> connection.connected && connection.space >= 256 && connection.error == 0
      ensures input == [] || !Sendable(connection) ==> txMeta.None? && txData == []
      ensures input != [] && Sendable(connection) ==>
                txMeta == Some(TxMeta(connection.sessionID, 256, genSum,
                                      if genSum then Rfc1071Sum(FixText(input[0])) else 0))
      ensures input != [] && Sendable(connection) ==>
                IsPacket(txData) && Octets(txData) == FixText(input[0]) && |Octets(txData)| == 256
      ensures regCaptureBuffer == if input != [] && Sendable(connection) && !captureFreeze
                                  then Message(input[0])[..16] else old(regCaptureBuffer)
      ensures counts == if input == [] then old(counts) else Counted(old(counts), Sendable(connection))
      ensures regTxStatus == TxStatus(connection)
      ensures regTxStatus / 0x8000_0000 == if connection.connected then 1 else 0
      ensures regTxStatus / 0x2000_0000 % 4 == connection.error % 4
      ensures regTxStatus % 0x2000_0000 == connection.space % 0x2000_0000
    {
      hide FixText, MessageWord, Message, Rfc1071Sum, Wire, Balanced, Words, IsPacket, Octets, TxStatus;
      rest, txMeta, txData := input, None, [];
      CountedBalances(counts, Sendable(connection));
      if input != [] {
        var operation := input[0];
        rest := input[1..];
        counts := counts.(processOperation := (counts.processOperation + 1) % COUNTER);
        Substitute(operation);
        var messageSum, validSum := 0, false;
        if genSum {
          messageSum := SumMessage(operation);
          validSum := true;
        }
        if connection.connected && OE_MSG_LEN_BYTES <= connection.space && connection.error == TXSTATUS_SUCCESS {
          txMeta := Some(TxMeta(connection.sessionID, OE_MSG_LEN_BYTES, validSum, messageSum));
          counts := counts.(txMeta := (counts.txMeta + 1) % COUNTER);
          var capture;
          txData, capture := SendFrames();
          MessageText(operation);
          WordsArePacket(Message(operation));
          counts := counts.(txOrder := (counts.txOrder + 1) % COUNTER);
          if !captureFreeze {
            regCaptureBuffer := capture;
          }
        } else {
          counts := counts.(txDrop := (counts.txDrop + 1) % COUNTER);
        }
      }
      TxStatusFields(connection);
      regTxStatus := TxStatus(connection);
    }

    /** The frame loop: 32 words out, the first 16 frames into the capture. */
    method SendFrames() returns (txData: seq<Word>, capture: seq<Lanes>)
      requires Complete()
      modifies `counts
      ensures Complete() && txData == Words(Message(substituted)) && capture == Message(substituted)[..16]
      ensures counts == old(counts).(txData := (old(counts).txData + 32) % COUNTER)
    {
      hide MessageWord, CountAfter;
      CountStarts(counts.txData);
      txData, capture := [], [];
      for frameCount := 0 to 32
        invariant txData == Words(Message(substituted))[..frameCount]
        invariant capture == Message(substituted)[..if frameCount < 16 then frameCount else 16]
        invariant counts == old(counts).(txData := counts.txData)
        invariant counts.txData == CountAfter(old(counts).txData, frameCount)
      {
        var frameData := messageTemplate[frameCount];
        var messageWord := Word(ByteReverse(frameData), Full(), 31 == frameCount);
        txData := txData + [messageWord];
        NextCount(old(counts).txData, frameCount);
        counts := counts.(txData := (counts.txData + 1) % COUNTER);
        if frameCount * 64 + 63 < 1024 {
          capture := capture + [frameData];
        }
      }
      assert Words(Message(substituted))[..32] == Words(Message(substituted));
    }
  }

  ghost predicate Blank(op: Operation) {
    && op.orderId == op.quantity == op.price == [0, 0, 0, 0, 0, 0, 0, 0, 0, 0]
    && op.timestamp == [0, 0, 0, 0, 0, 0, 0, 0]
  }

  const ZEROS8: Lanes := [0, 0, 0, 0, 0, 0, 0, 0]

  /** The gaps of the template words are zero octets. */
  lemma TemplateGaps()
    ensures TemplateWord(3) == TemplateWord(9) == ZEROS8
    ensures TemplateWord(4)[6..] == ZEROS8[..2] && TemplateWord(15)[..4] == ZEROS8[..4]
    ensures TemplateWord(16)[2..] == ZEROS8[..6]
  {
  }

  lemma TemplateGapsBehind()
    ensures TemplateWord(17)[..6] == ZEROS8[..6] && TemplateWord(18)[4..] == ZEROS8[..4]
    ensures TemplateWord(19)[..3] == ZEROS8[..3] && TemplateWord(20)[1..] == ZEROS8[..7]
  {
  }

  lemma ZeroField(f: Field, i: nat, j: nat)
    requires f == [0, 0, 0, 0, 0, 0, 0, 0, 0, 0] && i <= j <= 10 && j - i <= 8
    ensures f[i..j] == ZEROS8[..j - i]
  {
  }

  lemma Rejoin(w: Lanes, k: nat)
    requires k <= 8
    ensures w == w[..k] + w[k..]
  {
  }

  /** A zero field leaves the template as it is. */
  lemma BlankOrderId(op: Operation)
    requires Blank(op)
    ensures MessageWord(op, 3) == TemplateWord(3) && MessageWord(op, 4) == TemplateWord(4)
    ensures MessageWord(op, 15) == TemplateWord(15) && MessageWord(op, 16) == TemplateWord(16)
  {
    hide TemplateWord;
    TemplateGaps();
    ZeroField(op.orderId, 2, 10);
    ZeroField(op.orderId, 0, 2);
    ZeroField(op.orderId, 6, 10);
    ZeroField(op.orderId, 0, 6);
    assert ZEROS8[..8] == ZEROS8;
    Rejoin(TemplateWord(4), 6);
    Rejoin(TemplateWord(15), 4);
    Rejoin(TemplateWord(16), 2);
    assert MessageWord(op, 4) == TemplateWord(4)[..6] + op.orderId[..2];
    assert MessageWord(op, 15) == op.orderId[6..] + TemplateWord(15)[4..];
    assert MessageWord(op, 16) == TemplateWord(16)[..2] + op.orderId[..6];
  }

  lemma BlankQuantity(op: Operation)
    requires Blank(op)
    ensures MessageWord(op, 17) == TemplateWord(17) && MessageWord(op, 18) == TemplateWord(18)
  {
    hide TemplateWord;
    TemplateGapsBehind();
    ZeroField(op.quantity, 4, 10);
    ZeroField(op.quantity, 0, 4);
    Rejoin(TemplateWord(17), 6);
    Rejoin(TemplateWord(18), 4);
    assert MessageWord(op, 17) == op.quantity[4..] + TemplateWord(17)[6..];
    assert MessageWord(op, 18) == TemplateWord(18)[..4] + op.quantity[..4];
  }

  lemma BlankPrice(op: Operation)
    requires Blank(op)
    ensures MessageWord(op, 19) == TemplateWord(19) && MessageWord(op, 20) == TemplateWord(20)
  {
    hide TemplateWord;
    TemplateGapsBehind();
    ZeroField(op.price, 7, 10);
    ZeroField(op.price, 0, 7);
    Rejoin(TemplateWord(19), 3);
    Rejoin(TemplateWord(20), 1);
    assert MessageWord(op, 19) == op.price[7..] + TemplateWord(19)[3..];
    assert MessageWord(op, 20) == TemplateWord(20)[..1] + op.price[..7];
  }

  /** The blank template is the message whose fields are all zero octets. */
  lemma BlankMessage(op: Operation)
    requires Blank(op)
    ensures forall i :: 0 <= i < 32 ==> MessageWord(op, i) == TemplateWord(i)
  {
    hide TemplateWord;
    TemplateGaps();
    BlankOrderId(op);
    BlankQuantity(op);
    BlankPrice(op);
  }

  // ---------------------------------------------------------------- end to end

  /** The decimal number a text spells, most significant digit first. */
  function ParseText(t: seq<Octet>): int { ParseAscii(Reverse(t)) }

  lemma WordBelow32Bits(x: Word32)
    ensures ToNat(x) < 0x1_0000_0000
  {
    assert Pow2(8) == 256 && Pow2(12) == 16 * Pow2(8) && Pow2(16) == 16 * Pow2(12) && Pow2(20) == 16 * Pow2(16);
    assert Pow2(24) == 16 * Pow2(20) && Pow2(28) == 16 * Pow2(24) && Pow2(32) == 16 * Pow2(28);
  }

  lemma FieldReads(x: Word32)
    ensures ParseText(Reverse(Ascii(ToNat(x)))) == ToNat(x)
  {
    WordBelow32Bits(x);
    ParseRoundTrip(ToNat(x));
    assert Reverse(Reverse(Ascii(ToNat(x)))) == Ascii(ToNat(x));
  }

  /** Reading the fields of the transmitted text gives back the numbers of the request. */
  lemma RequestReadsBack(r: Request)
    ensures |FixText(Encoded(r))| == 256
    ensures ParseText(FixText(Encoded(r))[24..34]) == ToNat(r.orderId)
    ensures ParseText(FixText(Encoded(r))[124..134]) == ToNat(r.orderId)
    ensures ParseText(FixText(Encoded(r))[138..148]) == ToNat(r.quantity)
    ensures ParseText(FixText(Encoded(r))[157..167]) == ToNat(r.price)
    ensures Reverse(FixText(Encoded(r))[72..80]) == r.timestamp
  {
    hide FixText, Ascii, ParseAscii;
    FieldPositions(Encoded(r));
    FieldReads(r.orderId);
    FieldReads(r.quantity);
    FieldReads(r.price);
  }
}
