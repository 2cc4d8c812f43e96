// ITCH messages and their binary form: internal/itch/messages.go and internal/itch/binary.go.
//
// Prices are integers in ten-thousandths, the unit of the wire.
module Itch {
  import opened Bytes

  type Word16 = x: int | 0 <= x < 0x1_0000

  // Message type codes of Nasdaq TotalView-ITCH 5.0
  const SYSTEM_EVENT: Byte := 'S' as int
  const STOCK_DIRECTORY: Byte := 'R' as int
  const TRADING_ACTION: Byte := 'H' as int
  const ADD_ORDER: Byte := 'A' as int
  const ADD_ORDER_MPID: Byte := 'F' as int
  const ORDER_EXECUTED: Byte := 'E' as int
  const ORDER_CANCEL: Byte := 'X' as int
  const ORDER_DELETE: Byte := 'D' as int
  const ORDER_REPLACE: Byte := 'U' as int
  const TRADE: Byte := 'P' as int
  const SPACE: Byte := ' ' as int

  /** The universal message: no message type uses all fields. */
  datatype Message = Message(
    kind: Byte,
    timestamp: int,
    stockLocate: Word16,
    trackingNum: Word16,
    stock: seq<Byte>,
    orderRef: nat,
    origOrderRef: nat,
    side: Byte,
    shares: int,
    price: int,
    matchNumber: nat,
    mpid: seq<Byte>,
    eventCode: Byte,
    tradingState: Byte,
    reserved: Byte,
    directory: Directory)

  /** The fields of a message that only a stock directory entry uses. */
  datatype Directory = Directory(
    marketCategory: Byte,
    financialStatus: Byte,
    roundLotSize: int,
    roundLotsOnly: Byte,
    issueClassification: Byte,
    issueSubType: (Byte, Byte),
    authenticity: Byte,
    shortSaleThreshold: Byte,
    ipoFlag: Byte,
    luldRefPriceTier: Byte,
    etpFlag: Byte,
    etpLeverageFactor: int,
    inverseIndicator: Byte)

  const BLANK_DIRECTORY := Directory(0, 0, 0, 0, 0, (0, 0), 0, 0, 0, 0, 0, 0, 0)
  const BLANK := Message(0, 0, 0, 0, [], 0, 0, 0, 0, 0, 0, [], 0, 0, 0, BLANK_DIRECTORY)

  // -------------------------------------------------------------------------------------------------
  // Layouts

  function Spaces(n: nat): (s: seq<Byte>)
    ensures |s| == n
  {
    seq(n, i => SPACE)
  }

  /** A text cut or right-padded with spaces to n bytes. */
  function Pad(n: nat, text: seq<Byte>): (s: seq<Byte>)
    ensures |s| == n
  {
    if |text| >= n then text[..n] else text + Spaces(n - |text|)
  }

  predicate Known(kind: Byte) {
    kind in {SYSTEM_EVENT, STOCK_DIRECTORY, TRADING_ACTION, ADD_ORDER, ADD_ORDER_MPID, ORDER_EXECUTED,
             ORDER_CANCEL, ORDER_DELETE, ORDER_REPLACE, TRADE}
  }

  function Header(m: Message): (s: seq<Byte>)
    ensures |s| == 11
  {
    [m.kind] + BigEndian(2, m.stockLocate) + BigEndian(2, m.trackingNum) + BigEndian(6, m.timestamp)
  }

  function DirectoryBody(m: Message): seq<Byte> {
    var d := m.directory;
    Header(m) + Pad(8, m.stock) + [d.marketCategory] + [d.financialStatus] + BigEndian(4, d.roundLotSize)
    + [d.roundLotsOnly] + [d.issueClassification] + [d.issueSubType.0, d.issueSubType.1] + [d.authenticity]
    + [d.shortSaleThreshold] + [d.ipoFlag] + [d.luldRefPriceTier] + [d.etpFlag]
    + BigEndian(4, d.etpLeverageFactor) + [d.inverseIndicator]
  }

  function TradingBody(m: Message): seq<Byte> {
    Header(m) + Pad(8, m.stock) + [m.tradingState] + [m.reserved] + Spaces(4)
  }

  function AddBody(m: Message): seq<Byte> {
    Header(m) + BigEndian(8, m.orderRef) + [m.side] + BigEndian(4, m.shares) + Pad(8, m.stock)
    + BigEndian(4, m.price)
  }

  function ExecutedBody(m: Message): seq<Byte> {
    Header(m) + BigEndian(8, m.orderRef) + BigEndian(4, m.shares) + BigEndian(8, m.matchNumber)
  }

  function CancelBody(m: Message): seq<Byte> {
    Header(m) + BigEndian(8, m.orderRef) + BigEndian(4, m.shares)
  }

  function ReplaceBody(m: Message): seq<Byte> {
    Header(m) + BigEndian(8, m.origOrderRef) + BigEndian(8, m.orderRef) + BigEndian(4, m.shares)
    + BigEndian(4, m.price)
  }

  /** The body of a message of a known type. */
  function Body(m: Message): (s: seq<Byte>)
    ensures Known(m.kind) ==> 12 <= |s| <= 44 && s[0] == m.kind
  {
    if m.kind == SYSTEM_EVENT then Header(m) + [m.eventCode]
    else if m.kind == STOCK_DIRECTORY then DirectoryBody(m)
    else if m.kind == TRADING_ACTION then TradingBody(m)
    else if m.kind == ADD_ORDER then AddBody(m)
    else if m.kind == ADD_ORDER_MPID then AddBody(m) + Pad(4, m.mpid)
    else if m.kind == ORDER_EXECUTED then ExecutedBody(m)
    else if m.kind == ORDER_CANCEL then CancelBody(m)
    else if m.kind == ORDER_DELETE then Header(m) + BigEndian(8, m.orderRef)
    else if m.kind == ORDER_REPLACE then ReplaceBody(m)
    else if m.kind == TRADE then AddBody(m) + BigEndian(8, m.matchNumber)
    else []
  }

  /** The framed form: a two-byte length, then the body. A message of an unknown type has no form at all. */
  function Frame(m: Message): seq<Byte> {
    if Known(m.kind) then BigEndian(2, |Body(m)|) + Body(m) else []
  }

  // -------------------------------------------------------------------------------------------------
  // Where the fields are: the tables of Nasdaq TotalView-ITCH 5.0, by offset

  /** The ten message types by their codes, and how long their bodies are. */
  lemma BodySizes(m: Message)
    ensures Known(m.kind) <==> m.kind in {0x53, 0x52, 0x48, 0x41, 0x46, 0x45, 0x58, 0x44, 0x55, 0x50}
    ensures m.kind == 0x53 ==> |Body(m)| == 12
    ensures m.kind == 0x52 ==> |Body(m)| == 39
    ensures m.kind == 0x48 ==> |Body(m)| == 25
    ensures m.kind == 0x41 ==> |Body(m)| == 36
    ensures m.kind == 0x46 ==> |Body(m)| == 40
    ensures m.kind == 0x45 ==> |Body(m)| == 31
    ensures m.kind == 0x58 ==> |Body(m)| == 23
    ensures m.kind == 0x44 ==> |Body(m)| == 19
    ensures m.kind == 0x55 ==> |Body(m)| == 35
    ensures m.kind == 0x50 ==> |Body(m)| == 44
  {
  }

  /** A text keeps its first bytes and is filled up with blanks. */
  lemma PadAt(n: nat, text: seq<Byte>, i: nat)
    requires i < n
    ensures Pad(n, text)[i] == if i < |text| then text[i] else 0x20
  {
  }

  lemma HeaderStarts(m: Message)
    requires Known(m.kind)
    ensures |Body(m)| >= 11 && Body(m)[..11] == Header(m)
  {
  }

  /** Type, locate code, tracking number and timestamp, in every message. */
  lemma HeaderLayout(m: Message)
    requires Known(m.kind)
    ensures |Body(m)| >= 11 && Body(m)[0] == m.kind
    ensures Value(Body(m)[1..3]) == m.stockLocate && Value(Body(m)[3..5]) == m.trackingNum
    ensures Value(Body(m)[5..11]) == m.timestamp % 0x1_0000_0000_0000
  {
    HeaderStarts(m);
    var b, h := Body(m), Header(m);
    assert b[1..3] == h[1..3] == BigEndian(2, m.stockLocate);
    assert b[3..5] == h[3..5] == BigEndian(2, m.trackingNum);
    assert b[5..11] == h[5..11] == BigEndian(6, m.timestamp);
    ReadBack16(m.stockLocate);
    ReadBack16(m.trackingNum);
    ReadBack48(m.timestamp);
  }

  /** The fields of a stock directory entry, most of which no decoder here reads. */
  lemma DirectoryLayout(m: Message)
    requires m.kind == 0x52
    ensures var b, d := Body(m), m.directory;
            && |b| == 39 && b[11..19] == Pad(8, m.stock)
            && b[19] == d.marketCategory && b[20] == d.financialStatus
            && Value(b[21..25]) == d.roundLotSize % 0x1_0000_0000 && b[25] == d.roundLotsOnly
            && b[26] == d.issueClassification && b[27] == d.issueSubType.0 && b[28] == d.issueSubType.1
            && b[29] == d.authenticity && b[30] == d.shortSaleThreshold && b[31] == d.ipoFlag
            && b[32] == d.luldRefPriceTier && b[33] == d.etpFlag
            && Value(b[34..38]) == d.etpLeverageFactor % 0x1_0000_0000 && b[38] == d.inverseIndicator
  {
    var b, d := Body(m), m.directory;
    assert b[11..19] == Pad(8, m.stock);
    assert b[21..25] == BigEndian(4, d.roundLotSize);
    assert b[34..38] == BigEndian(4, d.etpLeverageFactor);
    ReadBack32(d.roundLotSize);
    ReadBack32(d.etpLeverageFactor);
  }

  /** A trading action: stock, state, a reserved byte and a reason of four blanks. */
  lemma TradingLayout(m: Message)
    requires m.kind == 0x48
    ensures var b := Body(m);
            && |b| == 25 && b[11..19] == Pad(8, m.stock) && b[19] == m.tradingState && b[20] == m.reserved
            && b[21..25] == [0x20, 0x20, 0x20, 0x20]
  {
    var b := Body(m);
    assert b[11..19] == Pad(8, m.stock);
    assert b[21..25] == Spaces(4);
  }

  /** Orders and trades: reference, side, shares, stock and price, and what follows them. */
  lemma AddLayout(m: Message)
    requires m.kind in {0x41, 0x46, 0x50}
    ensures var b := Body(m);
            && |b| >= 36 && Value(b[11..19]) == m.orderRef % 0x1_0000_0000_0000_0000 && b[19] == m.side
            && Value(b[20..24]) == m.shares % 0x1_0000_0000 && b[24..32] == Pad(8, m.stock)
            && Value(b[32..36]) == m.price % 0x1_0000_0000
            && (m.kind == 0x46 ==> |b| == 40 && b[36..40] == Pad(4, m.mpid))
            && (m.kind == 0x50 ==> |b| == 44 && Value(b[36..44]) == m.matchNumber % 0x1_0000_0000_0000_0000)
  {
    var b, a := Body(m), AddBody(m);
    assert b[..36] == a;
    assert b[11..19] == a[11..19] == BigEndian(8, m.orderRef);
    assert b[20..24] == a[20..24] == BigEndian(4, m.shares);
    assert b[24..32] == a[24..32] == Pad(8, m.stock);
    assert b[32..36] == a[32..36] == BigEndian(4, m.price);
    ReadBack64(m.orderRef);
    ReadBack32(m.shares);
    ReadBack32(m.price);
    if m.kind == 0x50 {
      assert b[36..44] == BigEndian(8, m.matchNumber);
      ReadBack64(m.matchNumber);
    }
  }

  /** Executions, cancels and deletes: reference, then shares and match number as far as there are any. */
  lemma ReductionLayout(m: Message)
    requires m.kind in {0x45, 0x58, 0x44}
    ensures var b := Body(m);
            && |b| >= 19 && Value(b[11..19]) == m.orderRef % 0x1_0000_0000_0000_0000
            && (m.kind != 0x44 ==> |b| >= 23 && Value(b[19..23]) == m.shares % 0x1_0000_0000)
            && (m.kind == 0x45 ==> |b| == 31 && Value(b[23..31]) == m.matchNumber % 0x1_0000_0000_0000_0000)
  {
    var b := Body(m);
    assert b[11..19] == BigEndian(8, m.orderRef);
    ReadBack64(m.orderRef);
    if m.kind != 0x44 {
      assert b[19..23] == BigEndian(4, m.shares);
      ReadBack32(m.shares);
    }
    if m.kind == 0x45 {
      assert b[23..31] == BigEndian(8, m.matchNumber);
      ReadBack64(m.matchNumber);
    }
  }

  /** Replaces: the reference that goes, the one that comes, shares and price. */
  lemma ReplaceLayout(m: Message)
    requires m.kind == 0x55
    ensures var b := Body(m);
            && |b| == 35 && Value(b[11..19]) == m.origOrderRef % 0x1_0000_0000_0000_0000
            && Value(b[19..27]) == m.orderRef % 0x1_0000_0000_0000_0000
            && Value(b[27..31]) == m.shares % 0x1_0000_0000 && Value(b[31..35]) == m.price % 0x1_0000_0000
  {
    var b := Body(m);
    assert b[11..19] == BigEndian(8, m.origOrderRef);
    assert b[19..27] == BigEndian(8, m.orderRef);
    assert b[27..31] == BigEndian(4, m.shares);
    assert b[31..35] == BigEndian(4, m.price);
    ReadBack64(m.origOrderRef);
    ReadBack64(m.orderRef);
    ReadBack32(m.shares);
    ReadBack32(m.price);
  }

  // -------------------------------------------------------------------------------------------------
  // Encoders: each allocates a buffer and fills it at fixed offsets

  method Put(buf: array<Byte>, offset: nat, bytes: seq<Byte>)
    requires offset + |bytes| <= buf.Length
    modifies buf
    ensures buf[..offset + |bytes|] == old(buf[..offset]) + bytes
  {
    for i := 0 to |bytes|
      invariant buf[..offset] == old(buf[..offset])
      invariant buf[offset..offset + i] == bytes[..i]
    {
      buf[offset + i] := bytes[i];
    }
    assert buf[..offset + |bytes|] == buf[..offset] + buf[offset..offset + |bytes|];
  }

  /** Six bytes, big-endian: the timestamp's low 48 bits. */
  method PutTimestamp(buf: array<Byte>, offset: nat, nanos: int)
    requires offset + 6 <= buf.Length
    modifies buf
    ensures buf[..offset + 6] == old(buf[..offset]) + BigEndian(6, nanos)
  {
    buf[offset] := nanos / 0x100_0000_0000 % 256;
    buf[offset + 1] := nanos / 0x1_0000_0000 % 256;
    buf[offset + 2] := nanos / 0x100_0000 % 256;
    buf[offset + 3] := nanos / 0x1_0000 % 256;
    buf[offset + 4] := nanos / 0x100 % 256;
    buf[offset + 5] := nanos % 256;
    SixBytes(nanos);
    assert buf[..offset] == old(buf[..offset]);
    assert buf[..offset + 6] == buf[..offset] + buf[offset..offset + 6];
    assert buf[offset..offset + 6] == BigEndian(6, nanos);
  }

  lemma SixBytes(x: int)
    ensures BigEndian(6, x) == [x / 0x100_0000_0000 % 256, x / 0x1_0000_0000 % 256, x / 0x100_0000 % 256,
                                x / 0x1_0000 % 256, x / 0x100 % 256, x % 256]
  {
    assert BigEndian(0, x / 0x1_0000_0000_0000) == [];
    assert BigEndian(1, x / 0x100_0000_0000) == [x / 0x100_0000_0000 % 256];
    assert BigEndian(2, x / 0x1_0000_0000) == BigEndian(1, x / 0x100_0000_0000) + [x / 0x1_0000_0000 % 256];
    assert BigEndian(3, x / 0x100_0000) == BigEndian(2, x / 0x1_0000_0000) + [x / 0x100_0000 % 256];
    assert BigEndian(4, x / 0x1_0000) == BigEndian(3, x / 0x100_0000) + [x / 0x1_0000 % 256];
    assert BigEndian(5, x / 0x100) == BigEndian(4, x / 0x1_0000) + [x / 0x100 % 256];
  }

  method NewBody(m: Message, size: nat) returns (buf: array<Byte>)
    requires size >= 11
    ensures fresh(buf) && buf.Length == size && buf[..11] == Header(m)
  {
    buf := new Byte[size](i => 0);
    buf[0] := m.kind;
    assert buf[..1] == [m.kind];
    Put(buf, 1, BigEndian(2, m.stockLocate));
    Put(buf, 3, BigEndian(2, m.trackingNum));
    PutTimestamp(buf, 5, m.timestamp);
  }

  method EncodeSystemEvent(m: Message) returns (buf: array<Byte>)
    ensures fresh(buf) && buf[..] == Header(m) + [m.eventCode]
  {
    buf := NewBody(m, 12);
    Put(buf, 11, [m.eventCode]);
    assert buf[..] == buf[..12];
  }

  method EncodeStockDirectory(m: Message) returns (buf: array<Byte>)
    ensures fresh(buf) && buf[..] == DirectoryBody(m)
  {
    var d := m.directory;
    buf := NewBody(m, 39);
    Put(buf, 11, Pad(8, m.stock));
    Put(buf, 19, [d.marketCategory]);
    Put(buf, 20, [d.financialStatus]);
    Put(buf, 21, BigEndian(4, d.roundLotSize));
    Put(buf, 25, [d.roundLotsOnly]);
    Put(buf, 26, [d.issueClassification]);
    Put(buf, 27, [d.issueSubType.0, d.issueSubType.1]);
    Put(buf, 29, [d.authenticity]);
    Put(buf, 30, [d.shortSaleThreshold]);
    Put(buf, 31, [d.ipoFlag]);
    Put(buf, 32, [d.luldRefPriceTier]);
    Put(buf, 33, [d.etpFlag]);
    Put(buf, 34, BigEndian(4, d.etpLeverageFactor));
    Put(buf, 38, [d.inverseIndicator]);
    assert buf[..] == buf[..39];
  }

  method EncodeStockTradingAction(m: Message) returns (buf: array<Byte>)
    ensures fresh(buf) && buf[..] == TradingBody(m)
  {
    buf := NewBody(m, 25);
    Put(buf, 11, Pad(8, m.stock));
    Put(buf, 19, [m.tradingState]);
    Put(buf, 20, [m.reserved]);
    Put(buf, 21, Spaces(4));
    assert buf[..] == buf[..25];
  }

  /** The 36 bytes that an add without a participant, an add with one and a trade have in common. */
  method PutAddFields(buf: array<Byte>, m: Message)
    requires buf.Length >= 36 && buf[..11] == Header(m)
    modifies buf
    ensures buf[..36] == AddBody(m)
  {
    Put(buf, 11, BigEndian(8, m.orderRef));
    Put(buf, 19, [m.side]);
    Put(buf, 20, BigEndian(4, m.shares));
    Put(buf, 24, Pad(8, m.stock));
    Put(buf, 32, BigEndian(4, m.price));
  }

  method EncodeAddOrder(m: Message) returns (buf: array<Byte>)
    ensures fresh(buf) && buf[..] == AddBody(m)
  {
    buf := NewBody(m, 36);
    PutAddFields(buf, m);
    assert buf[..] == buf[..36];
  }

  method EncodeAddOrderMpid(m: Message) returns (buf: array<Byte>)
    ensures fresh(buf) && buf[..] == AddBody(m) + Pad(4, m.mpid)
  {
    buf := NewBody(m, 40);
    PutAddFields(buf, m);
    Put(buf, 36, Pad(4, m.mpid));
    assert buf[..] == buf[..40];
  }

  method EncodeOrderExecuted(m: Message) returns (buf: array<Byte>)
    ensures fresh(buf) && buf[..] == ExecutedBody(m)
  {
    buf := NewBody(m, 31);
    Put(buf, 11, BigEndian(8, m.orderRef));
    Put(buf, 19, BigEndian(4, m.shares));
    Put(buf, 23, BigEndian(8, m.matchNumber));
    assert buf[..] == buf[..31];
  }

  method EncodeOrderCancel(m: Message) returns (buf: array<Byte>)
    ensures fresh(buf) && buf[..] == CancelBody(m)
  {
    buf := NewBody(m, 23);
    Put(buf, 11, BigEndian(8, m.orderRef));
    Put(buf, 19, BigEndian(4, m.shares));
    assert buf[..] == buf[..23];
  }

  method EncodeOrderDelete(m: Message) returns (buf: array<Byte>)
    ensures fresh(buf) && buf[..] == Header(m) + BigEndian(8, m.orderRef)
  {
    buf := NewBody(m, 19);
    Put(buf, 11, BigEndian(8, m.orderRef));
    assert buf[..] == buf[..19];
  }

  method EncodeOrderReplace(m: Message) returns (buf: array<Byte>)
    ensures fresh(buf) && buf[..] == ReplaceBody(m)
  {
    buf := NewBody(m, 35);
    Put(buf, 11, BigEndian(8, m.origOrderRef));
    Put(buf, 19, BigEndian(8, m.orderRef));
    Put(buf, 27, BigEndian(4, m.shares));
    Put(buf, 31, BigEndian(4, m.price));
    assert buf[..] == buf[..35];
  }

  method EncodeTrade(m: Message) returns (buf: array<Byte>)
    ensures fresh(buf) && buf[..] == AddBody(m) + BigEndian(8, m.matchNumber)
  {
    buf := NewBody(m, 44);
    PutAddFields(buf, m);
    Put(buf, 36, BigEndian(8, m.matchNumber));
    assert buf[..] == buf[..44];
  }

  method EncodeBinary(m: Message) returns (wire: seq<Byte>)
    ensures wire == Frame(m)
  {
    var body: array<Byte>;
    if m.kind == SYSTEM_EVENT {
      body := EncodeSystemEvent(m);
    } else if m.kind == STOCK_DIRECTORY {
      body := EncodeStockDirectory(m);
    } else if m.kind == TRADING_ACTION {
      body := EncodeStockTradingAction(m);
    } else if m.kind == ADD_ORDER {
      body := EncodeAddOrder(m);
    } else if m.kind == ADD_ORDER_MPID {
      body := EncodeAddOrderMpid(m);
    } else if m.kind == ORDER_EXECUTED {
      body := EncodeOrderExecuted(m);
    } else if m.kind == ORDER_CANCEL {
      body := EncodeOrderCancel(m);
    } else if m.kind == ORDER_DELETE {
      body := EncodeOrderDelete(m);
    } else if m.kind == ORDER_REPLACE {
      body := EncodeOrderReplace(m);
    } else if m.kind == TRADE {
      body := EncodeTrade(m);
    } else {
      return [];
    }
    assert body[..] == Body(m);
    var frame := new Byte[2 + body.Length](i => 0);
    Put(frame, 0, BigEndian(2, body.Length));
    Put(frame, 2, body[..]);
    assert frame[..] == frame[..2 + body.Length];
    wire := frame[..];
  }
}
