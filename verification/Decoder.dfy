// The decoder of cmd/decoder/main.go. Each printed line becomes a value of type Line.
module Decoder {
  import opened Bytes
  import opened Itch

  datatype Line =
    | ShortFrame(size: nat)
    | Unknown(kind: Byte, size: nat)
    | Truncated(kind: Byte, size: nat)
    | SystemEvent(locate: nat, time: nat, event: Byte)
    | StockDirectory(locate: nat, time: nat, stock: seq<Byte>, category: Byte, status: Byte, lotSize: nat)
    | TradingAction(locate: nat, time: nat, stock: seq<Byte>, tradingState: Byte)
    | AddOrder(locate: nat, time: nat, ref: nat, side: Byte, shares: nat, stock: seq<Byte>, price: nat)
    | AddOrderMpid(locate: nat, time: nat, ref: nat, side: Byte, shares: nat, stock: seq<Byte>, price: nat,
                   mpid: seq<Byte>)
    | OrderExecuted(locate: nat, time: nat, ref: nat, shares: nat, matchNumber: nat)
    | OrderCancel(locate: nat, time: nat, ref: nat, shares: nat)
    | OrderDelete(locate: nat, time: nat, ref: nat)
    | OrderReplace(locate: nat, time: nat, origRef: nat, ref: nat, shares: nat, price: nat)
    | Trade(locate: nat, time: nat, ref: nat, side: Byte, shares: nat, stock: seq<Byte>, price: nat,
            matchNumber: nat)

  // -------------------------------------------------------------------------------------------------
  // Decoding one body

  function TrimRight(s: seq<Byte>): seq<Byte> {
    if s != [] && s[|s| - 1] == SPACE then TrimRight(s[..|s| - 1]) else s
  }

  function Locate(b: seq<Byte>): nat
    requires |b| >= 11
  {
    Value(b[1..3])
  }

  function Time(b: seq<Byte>): nat
    requires |b| >= 11
  {
    Value(b[5..11])
  }

  /** The bytes a decoder insists on before it reads a body of the given type. */
  function MinimumSize(kind: Byte): nat {
    if kind == SYSTEM_EVENT then 12
    else if kind == STOCK_DIRECTORY then 39
    else if kind == TRADING_ACTION then 25
    else if kind == ADD_ORDER then 36
    else if kind == ADD_ORDER_MPID then 40
    else if kind == ORDER_EXECUTED then 31
    else if kind == ORDER_CANCEL then 23
    else if kind == ORDER_DELETE then 19
    else if kind == ORDER_REPLACE then 35
    else 44
  }

  function DecodeFields(b: seq<Byte>): Line
    requires |b| > 0 && Known(b[0]) && |b| >= MinimumSize(b[0])
  {
    var locate, time := Locate(b), Time(b);
    if b[0] == SYSTEM_EVENT then
      SystemEvent(locate, time, b[11])
    else if b[0] == STOCK_DIRECTORY then
      StockDirectory(locate, time, TrimRight(b[11..19]), b[19], b[20], Value(b[21..25]))
    else if b[0] == TRADING_ACTION then
      TradingAction(locate, time, TrimRight(b[11..19]), b[19])
    else if b[0] == ADD_ORDER then
      AddOrder(locate, time, Value(b[11..19]), b[19], Value(b[20..24]), TrimRight(b[24..32]), Value(b[32..36]))
    else if b[0] == ADD_ORDER_MPID then
      AddOrderMpid(locate, time, Value(b[11..19]), b[19], Value(b[20..24]), TrimRight(b[24..32]),
                   Value(b[32..36]), TrimRight(b[36..40]))
    else if b[0] == ORDER_EXECUTED then
      OrderExecuted(locate, time, Value(b[11..19]), Value(b[19..23]), Value(b[23..31]))
    else if b[0] == ORDER_CANCEL then
      OrderCancel(locate, time, Value(b[11..19]), Value(b[19..23]))
    else if b[0] == ORDER_DELETE then
      OrderDelete(locate, time, Value(b[11..19]))
    else if b[0] == ORDER_REPLACE then
      OrderReplace(locate, time, Value(b[11..19]), Value(b[19..27]), Value(b[27..31]), Value(b[31..35]))
    else
      Trade(locate, time, Value(b[11..19]), b[19], Value(b[20..24]), TrimRight(b[24..32]), Value(b[32..36]),
            Value(b[36..44]))
  }

  /** An empty body prints nothing; every other body prints one line. */
  function DecodeMessage(b: seq<Byte>): seq<Line> {
    if b == [] then []
    else if !Known(b[0]) then [Unknown(b[0], |b|)]
    else if |b| < MinimumSize(b[0]) then [Truncated(b[0], |b|)]
    else [DecodeFields(b)]
  }

  // -------------------------------------------------------------------------------------------------
  // Splitting a websocket payload into frames

  /** A length prefix with a body behind it that the payload really holds. */
  predicate FrameFits(data: seq<Byte>) {
    |data| > 2 && 0 < Value(data[..2]) <= |data| - 2
  }

  /** The bodies of the frames at the front of a payload, up to the first position where none fits. */
  function Bodies(data: seq<Byte>): seq<seq<Byte>> {
    if FrameFits(data) then
      var size := Value(data[..2]);
      [data[2..2 + size]] + Bodies(data[2 + size..])
    else
      []
  }

  /** The bodies to decode: one framed body, or several, or the payload itself as a body without a prefix. */
  function Payload(data: seq<Byte>): seq<seq<Byte>>
    requires |data| >= 2
  {
    if Value(data[..2]) + 2 == |data| then [data[2..]]
    else if FrameFits(data) then Bodies(data)
    else [data]
  }

  /** Everything a printer of single bodies prints for a run of them. */
  function PrintAll(bodies: seq<seq<Byte>>, printer: seq<Byte> -> seq<Line>): seq<Line> {
    if bodies == [] then [] else printer(bodies[0]) + PrintAll(bodies[1..], printer)
  }

  function DecodeAll(bodies: seq<seq<Byte>>): seq<Line> {
    PrintAll(bodies, DecodeMessage)
  }

  function Decode(data: seq<Byte>): seq<Line> {
    if |data| < 2 then [ShortFrame(|data|)] else DecodeAll(Payload(data))
  }

  method SplitFrames(data: seq<Byte>) returns (bodies: seq<seq<Byte>>)
    requires |data| >= 2
    ensures bodies == Payload(data)
  {
    if Value(data[..2]) + 2 == |data| {
      return [data[2..]];
    }
    bodies := [];
    var offset := 0;
    var decoded := false;
    while offset + 2 < |data|
      invariant 0 <= offset <= |data|
      invariant bodies + Bodies(data[offset..]) == Bodies(data)
      invariant decoded <==> offset > 0
      invariant decoded ==> FrameFits(data)
    {
      var rest := data[offset..];
      var frameLen := Value(data[offset..offset + 2]);
      assert data[offset..offset + 2] == rest[..2];
      if frameLen <= 0 || offset + 2 + frameLen > |data| {
        break;
      }
      assert data[offset + 2..offset + 2 + frameLen] == rest[2..2 + frameLen];
      assert data[offset + 2 + frameLen..] == rest[2 + frameLen..];
      bodies := bodies + [data[offset + 2..offset + 2 + frameLen]];
      offset := offset + 2 + frameLen;
      decoded := true;
    }
    if !decoded {
      bodies := [data];
    }
  }

  method PrintEach(bodies: seq<seq<Byte>>, printer: seq<Byte> -> seq<Line>) returns (lines: seq<Line>)
    ensures lines == PrintAll(bodies, printer)
  {
    lines := [];
    assert bodies[0..] == bodies;
    for i := 0 to |bodies|
      invariant lines + PrintAll(bodies[i..], printer) == PrintAll(bodies, printer)
    {
      assert bodies[i..][1..] == bodies[i + 1..];
      lines := lines + printer(bodies[i]);
    }
  }

  method DecodeBinaryFrames(data: seq<Byte>) returns (lines: seq<Line>)
    ensures lines == Decode(data)
  {
    if |data| < 2 {
      return [ShortFrame(|data|)];
    }
    var bodies := SplitFrames(data);
    lines := PrintEach(bodies, DecodeMessage);
  }

  // -------------------------------------------------------------------------------------------------
  // What a decoder should see of a message: every field it reads, at the width the wire gives it

  function Stock(m: Message): seq<Byte> {
    TrimRight(Pad(8, m.stock))
  }

  function Expected(m: Message): Line
    requires Known(m.kind)
  {
    var locate, time := m.stockLocate, m.timestamp % 0x1_0000_0000_0000;
    var shares, price := m.shares % 0x1_0000_0000, m.price % 0x1_0000_0000;
    var ref, orig, matchNumber := m.orderRef % WORD, m.origOrderRef % WORD, m.matchNumber % WORD;
    if m.kind == SYSTEM_EVENT then
      SystemEvent(locate, time, m.eventCode)
    else if m.kind == STOCK_DIRECTORY then
      StockDirectory(locate, time, Stock(m), m.directory.marketCategory, m.directory.financialStatus,
                     m.directory.roundLotSize % 0x1_0000_0000)
    else if m.kind == TRADING_ACTION then
      TradingAction(locate, time, Stock(m), m.tradingState)
    else if m.kind == ADD_ORDER then
      AddOrder(locate, time, ref, m.side, shares, Stock(m), price)
    else if m.kind == ADD_ORDER_MPID then
      AddOrderMpid(locate, time, ref, m.side, shares, Stock(m), price, TrimRight(Pad(4, m.mpid)))
    else if m.kind == ORDER_EXECUTED then
      OrderExecuted(locate, time, ref, shares, matchNumber)
    else if m.kind == ORDER_CANCEL then
      OrderCancel(locate, time, ref, shares)
    else if m.kind == ORDER_DELETE then
      OrderDelete(locate, time, ref)
    else if m.kind == ORDER_REPLACE then
      OrderReplace(locate, time, orig, ref, shares, price)
    else
      Trade(locate, time, ref, m.side, shares, Stock(m), price, matchNumber)
  }

  lemma HeaderFields(m: Message, b: seq<Byte>)
    requires |b| >= 11 && b[..11] == Header(m)
    ensures b[0] == m.kind && Locate(b) == m.stockLocate && Time(b) == m.timestamp % 0x1_0000_0000_0000
  {
    var h := Header(m);
    assert b[1..3] == b[..11][1..3] == h[1..3] == BigEndian(2, m.stockLocate);
    assert b[5..11] == b[..11][5..11] == h[5..11] == BigEndian(6, m.timestamp);
    ReadBack16(m.stockLocate);
    ReadBack48(m.timestamp);
    assert b[0] == b[..11][0];
  }

  lemma AddFields(m: Message, b: seq<Byte>)
    requires |b| >= 36 && b[..36] == AddBody(m)
    ensures Value(b[11..19]) == m.orderRef % WORD && b[19] == m.side && Value(b[20..24]) == m.shares % 0x1_0000_0000
    ensures b[24..32] == Pad(8, m.stock) && Value(b[32..36]) == m.price % 0x1_0000_0000
    ensures b[..11] == Header(m)
  {
    var a := AddBody(m);
    assert b[11..19] == b[..36][11..19] == a[11..19] == BigEndian(8, m.orderRef);
    assert b[19] == b[..36][19];
    assert b[20..24] == b[..36][20..24] == a[20..24] == BigEndian(4, m.shares);
    assert b[24..32] == b[..36][24..32] == a[24..32];
    assert b[32..36] == b[..36][32..36] == a[32..36] == BigEndian(4, m.price);
    assert b[..11] == b[..36][..11] == a[..11];
    ReadBack64(m.orderRef);
    ReadBack32(m.shares);
    ReadBack32(m.price);
  }

  lemma AddRoundTrip(m: Message)
    requires m.kind == ADD_ORDER
    ensures DecodeMessage(Body(m)) == [Expected(m)]
  {
    assert Body(m)[..36] == AddBody(m);
    AddFields(m, Body(m));
    HeaderFields(m, Body(m));
  }

  lemma AddMpidRoundTrip(m: Message)
    requires m.kind == ADD_ORDER_MPID
    ensures DecodeMessage(Body(m)) == [Expected(m)]
  {
    var b := Body(m);
    assert b[..36] == AddBody(m);
    AddFields(m, b);
    HeaderFields(m, b);
    assert b[36..40] == Pad(4, m.mpid);
  }

  lemma TradeRoundTrip(m: Message)
    requires m.kind == TRADE
    ensures DecodeMessage(Body(m)) == [Expected(m)]
  {
    var b := Body(m);
    assert b[..36] == AddBody(m);
    AddFields(m, b);
    HeaderFields(m, b);
    assert b[36..44] == BigEndian(8, m.matchNumber);
    ReadBack64(m.matchNumber);
  }

  lemma ReplaceFields(m: Message, b: seq<Byte>)
    requires b == ReplaceBody(m)
    ensures |b| == 35 && b[..11] == Header(m)
    ensures b[11..19] == BigEndian(8, m.origOrderRef) && b[19..27] == BigEndian(8, m.orderRef)
    ensures b[27..31] == BigEndian(4, m.shares) && b[31..35] == BigEndian(4, m.price)
  {
  }

  lemma ReplaceValues(m: Message, b: seq<Byte>)
    requires b == ReplaceBody(m)
    ensures |b| == 35 && b[..11] == Header(m)
    ensures Value(b[11..19]) == m.origOrderRef % WORD && Value(b[19..27]) == m.orderRef % WORD
    ensures Value(b[27..31]) == m.shares % 0x1_0000_0000 && Value(b[31..35]) == m.price % 0x1_0000_0000
  {
    ReplaceFields(m, b);
    ReadBack64(m.origOrderRef);
    ReadBack64(m.orderRef);
    ReadBack32(m.shares);
    ReadBack32(m.price);
  }

  lemma ReplaceRoundTrip(m: Message)
    requires m.kind == ORDER_REPLACE
    ensures DecodeMessage(Body(m)) == [Expected(m)]
  {
    ReplaceValues(m, Body(m));
    HeaderFields(m, Body(m));
  }

  lemma OrderFields(m: Message, b: seq<Byte>)
    requires |b| >= 19 && b[..19] == Header(m) + BigEndian(8, m.orderRef)
    ensures b[..11] == Header(m) && Value(b[11..19]) == m.orderRef % WORD
  {
    assert b[..11] == b[..19][..11];
    assert b[11..19] == b[..19][11..19] == BigEndian(8, m.orderRef);
    ReadBack64(m.orderRef);
  }

  lemma DeleteRoundTrip(m: Message)
    requires m.kind == ORDER_DELETE
    ensures DecodeMessage(Body(m)) == [Expected(m)]
  {
    var b := Body(m);
    assert b[..19] == b;
    OrderFields(m, b);
    HeaderFields(m, b);
  }

  lemma ExecutedFields(m: Message, b: seq<Byte>)
    requires b == ExecutedBody(m)
    ensures |b| == 31 && b[..19] == Header(m) + BigEndian(8, m.orderRef)
    ensures Value(b[19..23]) == m.shares % 0x1_0000_0000 && Value(b[23..31]) == m.matchNumber % WORD
  {
    assert b[19..23] == BigEndian(4, m.shares);
    assert b[23..31] == BigEndian(8, m.matchNumber);
    ReadBack32(m.shares);
    ReadBack64(m.matchNumber);
  }

  lemma ExecutedRoundTrip(m: Message)
    requires m.kind == ORDER_EXECUTED
    ensures DecodeMessage(Body(m)) == [Expected(m)]
  {
    ExecutedFields(m, Body(m));
    OrderFields(m, Body(m));
    HeaderFields(m, Body(m));
  }

  lemma CancelFields(m: Message, b: seq<Byte>)
    requires b == CancelBody(m)
    ensures |b| == 23 && b[..19] == Header(m) + BigEndian(8, m.orderRef)
    ensures Value(b[19..23]) == m.shares % 0x1_0000_0000
  {
    assert b[19..23] == BigEndian(4, m.shares);
    ReadBack32(m.shares);
  }

  lemma CancelRoundTrip(m: Message)
    requires m.kind == ORDER_CANCEL
    ensures DecodeMessage(Body(m)) == [Expected(m)]
  {
    CancelFields(m, Body(m));
    OrderFields(m, Body(m));
    HeaderFields(m, Body(m));
  }

  lemma EventRoundTrip(m: Message)
    requires m.kind in {SYSTEM_EVENT, STOCK_DIRECTORY, TRADING_ACTION}
    ensures DecodeMessage(Body(m)) == [Expected(m)]
  {
    var b := Body(m);
    assert b[..11] == Header(m);
    HeaderFields(m, b);
    if m.kind == STOCK_DIRECTORY {
      assert b[11..19] == Pad(8, m.stock);
      assert b[21..25] == BigEndian(4, m.directory.roundLotSize);
      ReadBack32(m.directory.roundLotSize);
    } else if m.kind == TRADING_ACTION {
      assert b[11..19] == Pad(8, m.stock);
    }
  }

  /** The decoder recovers every field it reads, for each of the ten message types. */
  lemma BodyRoundTrip(m: Message)
    requires Known(m.kind)
    ensures DecodeMessage(Body(m)) == [Expected(m)]
  {
    if m.kind == ADD_ORDER {
      AddRoundTrip(m);
    } else if m.kind == ADD_ORDER_MPID {
      AddMpidRoundTrip(m);
    } else if m.kind == TRADE {
      TradeRoundTrip(m);
    } else if m.kind in {SYSTEM_EVENT, STOCK_DIRECTORY, TRADING_ACTION} {
      EventRoundTrip(m);
    } else if m.kind == ORDER_REPLACE {
      ReplaceRoundTrip(m);
    } else if m.kind == ORDER_EXECUTED {
      ExecutedRoundTrip(m);
    } else if m.kind == ORDER_CANCEL {
      CancelRoundTrip(m);
    } else {
      DeleteRoundTrip(m);
    }
  }

  /** A text survives padding and trimming exactly when it fits the field and does not end in a space. */
  lemma TextRoundTrip(n: nat, text: seq<Byte>)
    ensures TrimRight(Pad(n, text)) == text <==> |text| <= n && (text == [] || text[|text| - 1] != SPACE)
  {
    TrimLength(Pad(n, text));
    if |text| <= n {
      assert Pad(n, text) == text + Spaces(n - |text|);
      TrimSpaces(text, n - |text|);
      TrimLength(text);
    }
  }

  lemma {:induction false} TrimLength(s: seq<Byte>)
    ensures |TrimRight(s)| <= |s|
    ensures TrimRight(s) == s <==> s == [] || s[|s| - 1] != SPACE
  {
    if s != [] && s[|s| - 1] == SPACE {
      TrimLength(s[..|s| - 1]);
    }
  }

  lemma {:induction false} TrimSpaces(s: seq<Byte>, n: nat)
    ensures TrimRight(s + Spaces(n)) == TrimRight(s)
  {
    if n == 0 {
      assert s + Spaces(0) == s;
    } else {
      assert (s + Spaces(n))[..|s| + n - 1] == s + Spaces(n - 1);
      TrimSpaces(s, n - 1);
    }
  }

  // -------------------------------------------------------------------------------------------------
  // Streams of frames

  /** The encoded messages, back to back; messages of unknown types leave no trace. */
  function Wire(messages: seq<Message>): seq<Byte> {
    if messages == [] then [] else Frame(messages[0]) + Wire(messages[1..])
  }

  function ExpectedLines(messages: seq<Message>): seq<Line> {
    if messages == [] then []
    else if Known(messages[0].kind) then [Expected(messages[0])] + ExpectedLines(messages[1..])
    else ExpectedLines(messages[1..])
  }

  function KnownBodies(messages: seq<Message>): seq<seq<Byte>> {
    if messages == [] then []
    else if Known(messages[0].kind) then [Body(messages[0])] + KnownBodies(messages[1..])
    else KnownBodies(messages[1..])
  }

  lemma FrameAhead(m: Message, rest: seq<Byte>)
    requires Known(m.kind)
    ensures var data := Frame(m) + rest;
            FrameFits(data) && Value(data[..2]) == |Body(m)| && data[2..2 + |Body(m)|] == Body(m) &&
            data[2 + |Body(m)|..] == rest
  {
    var data := Frame(m) + rest;
    assert data[..2] == BigEndian(2, |Body(m)|);
    ReadBack16(|Body(m)|);
  }

  lemma {:induction false} BodiesOfWire(messages: seq<Message>, tail: seq<Byte>)
    requires !FrameFits(tail)
    ensures Bodies(Wire(messages) + tail) == KnownBodies(messages)
  {
    if messages == [] {
      assert [] + tail == tail;
    } else {
      var m, rest := messages[0], Wire(messages[1..]) + tail;
      BodiesOfWire(messages[1..], tail);
      assert Wire(messages) + tail == Frame(m) + rest;
      if Known(m.kind) {
        FrameAhead(m, rest);
      } else {
        assert [] + rest == rest;
      }
    }
  }

  lemma {:induction false} DecodeKnownBodies(messages: seq<Message>)
    ensures DecodeAll(KnownBodies(messages)) == ExpectedLines(messages)
  {
    if messages != [] {
      DecodeKnownBodies(messages[1..]);
      if Known(messages[0].kind) {
        BodyRoundTrip(messages[0]);
        assert KnownBodies(messages)[1..] == KnownBodies(messages[1..]);
      }
    }
  }

  lemma {:induction false} WireOfNone(messages: seq<Message>)
    ensures KnownBodies(messages) == [] <==> ExpectedLines(messages) == []
    ensures KnownBodies(messages) == [] ==> Wire(messages) == []
  {
    if messages != [] {
      WireOfNone(messages[1..]);
    }
  }

  /** Framing: any run of encoded messages, cut off anywhere behind its first one, decodes to exactly the
      messages that are whole. The tail is what was cut: it does not hold a whole frame. */
  lemma StreamRoundTrip(messages: seq<Message>, tail: seq<Byte>)
    requires ExpectedLines(messages) != [] && !FrameFits(tail)
    ensures Decode(Wire(messages) + tail) == ExpectedLines(messages)
  {
    var data := Wire(messages) + tail;
    WireOfNone(messages);
    BodiesOfWire(messages, tail);
    PayloadIsBodies(data);
    DecodeKnownBodies(messages);
  }

  /** When a payload starts with a whole frame, the special case for a single frame changes nothing. */
  lemma PayloadIsBodies(data: seq<Byte>)
    requires Bodies(data) != []
    ensures |data| >= 2 && Payload(data) == Bodies(data)
  {
    var size := Value(data[..2]);
    if size + 2 == |data| {
      assert data[2..2 + size] == data[2..];
      assert data[2 + size..] == [];
      assert Bodies([]) == [];
    }
  }

  /** A tail cut out of a frame, at any point short of its end, holds no whole frame. */
  lemma CutFrame(m: Message, k: nat)
    requires Known(m.kind) && k < |Frame(m)|
    ensures !FrameFits(Frame(m)[..k])
  {
    if k > 2 {
      assert Frame(m)[..k][..2] == BigEndian(2, |Body(m)|);
      ReadBack16(|Body(m)|);
    }
  }

  /** With nothing to decode there is nothing on the wire, which the decoder reports as a short frame. */
  lemma EmptyStream(messages: seq<Message>)
    requires ExpectedLines(messages) == []
    ensures Decode(Wire(messages)) == [ShortFrame(0)]
  {
    WireOfNone(messages);
    DecodeKnownBodies(messages);
  }

  /** A body without its length prefix decodes as its framed form does: read as a length, its type byte and
      the next byte promise far more than the body has. */
  lemma RawBodyDecodesAsFrame(m: Message)
    requires Known(m.kind)
    ensures Decode(Body(m)) == Decode(Frame(m)) == [Expected(m)]
  {
    var b := Body(m);
    ValueOfTwo(b[..2]);
    assert b[0] >= 65;
    BodyRoundTrip(m);
    assert [b][1..] == [] && PrintAll([], DecodeMessage) == [];
    StreamRoundTrip([m], []);
    assert Wire([m]) + [] == Frame(m);
    assert ExpectedLines([m]) == [Expected(m)];
  }
}
