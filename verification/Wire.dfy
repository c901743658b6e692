// The 64 bytes of a market message on the wire: the struct's fields in order, least significant
// byte first, as both ends copy it to and from memory.
module Wire {
  import opened Market
  import opened Framing

  const MESSAGE_SIZE := 64

  // ---- Integers as bytes ----

  function Bytes(x: nat, n: nat): (r: seq<byte>)
    ensures |r| == n
  {
    if n == 0 then [] else [(x % 256) as byte] + Bytes(x / 256, n - 1)
  }

  function Number(bytes: seq<byte>): nat {
    if bytes == [] then 0 else bytes[0] as nat + 256 * Number(bytes[1..])
  }

  function Limit(n: nat): (r: nat)
    ensures r > 0
  {
    if n == 0 then 1 else 256 * Limit(n - 1)
  }

  lemma {:induction false} NumberOfBytes(x: nat, n: nat)
    requires x < Limit(n)
    ensures Number(Bytes(x, n)) == x
  {
    if n > 0 {
      NumberOfBytes(x / 256, n - 1);
    }
  }

  // Two's complement.
  function Unsigned(x: int64): uint64 {
    if x < 0 then x + TWO64 else x
  }

  function Signed(x: uint64): int64 {
    if x >= 0x8000_0000_0000_0000 then x - TWO64 else x
  }

  // ---- The struct ----

  // What the type of the symbol, an array of eight chars, can hold.
  predicate Encodable(m: MarketMessage) {
    |m.symbol| == 8 && forall i :: 0 <= i < 8 ==> m.symbol[i] as int < 256
  }

  function SideCode(side: Side): byte {
    if side.Buy? then 0 else 1
  }

  function KindCode(kind: MessageType): byte {
    match kind
    case Add => 0
    case Modify => 1
    case Cancel => 2
    case Trade => 3
  }

  function Text(symbol: string): (r: seq<byte>)
    requires forall i :: 0 <= i < |symbol| ==> symbol[i] as int < 256
    ensures |r| == |symbol|
  {
    seq(|symbol|, i requires 0 <= i < |symbol| => (symbol[i] as int) as byte)
  }

  function Chars(bytes: seq<byte>): (r: string)
    ensures |r| == |bytes|
  {
    seq(|bytes|, i requires 0 <= i < |bytes| => (bytes[i] as int) as char)
  }

  function Numbers(m: MarketMessage): (r: seq<byte>)
    ensures |r| == 36
  {
    Bytes(m.sequenceNumber, 8) + Bytes(m.timestampNs, 8) + Bytes(m.orderId, 8) + Bytes(Unsigned(m.price), 8)
    + Bytes(m.quantity, 4)
  }

  function Encode(m: MarketMessage): (r: seq<byte>)
    requires Encodable(m)
    ensures |r| == MESSAGE_SIZE
  {
    Numbers(m) + ([SideCode(m.side), KindCode(m.kind)] + Text(m.symbol) + Bytes(0, 18))
  }

  // Bytes that are no message decode to nothing.
  function Decode(r: seq<byte>): Option<MarketMessage> {
    if |r| != MESSAGE_SIZE || r[36] > 1 || r[37] > 3 then None else
    var kind := if r[37] == 0 then Add else if r[37] == 1 then Modify else if r[37] == 2 then Cancel else Trade;
    Some(MarketMessage(Number64(r[..8]), Number64(r[8..16]), Number64(r[16..24]), Signed(Number64(r[24..32])),
                       Number32(r[32..36]), if r[36] == 0 then Buy else Sell, kind, Chars(r[38..46])))
  }

  function Number64(bytes: seq<byte>): uint64
    requires |bytes| == 8
  {
    Limits();
    NumberFits(bytes, 8);
    Number(bytes)
  }

  function Number32(bytes: seq<byte>): uint32
    requires |bytes| == 4
  {
    Limits();
    NumberFits(bytes, 4);
    Number(bytes)
  }

  lemma {:induction false} NumberFits(bytes: seq<byte>, n: nat)
    requires |bytes| == n
    ensures Number(bytes) < Limit(n)
  {
    if n > 0 {
      NumberFits(bytes[1..], n - 1);
    }
  }

  lemma Limits()
    ensures Limit(4) == TWO32 && Limit(8) == TWO64
  {
    assert Limit(2) == 0x1_0000;
    assert Limit(4) == 256 * (256 * Limit(2));
    assert Limit(6) == 256 * (256 * Limit(4));
    assert Limit(8) == 256 * (256 * Limit(6));
  }

  lemma FieldsOf(r: seq<byte>, m: MarketMessage)
    requires r == Numbers(m)
    ensures r[..8] == Bytes(m.sequenceNumber, 8) && r[8..16] == Bytes(m.timestampNs, 8)
    ensures r[16..24] == Bytes(m.orderId, 8) && r[24..32] == Bytes(Unsigned(m.price), 8)
    ensures r[32..36] == Bytes(m.quantity, 4)
  {}

  lemma CodesOf(numbers: seq<byte>, side: byte, kind: byte, text: seq<byte>, padding: seq<byte>, r: seq<byte>)
    requires |numbers| == 36 && |text| == 8 && r == numbers + ([side, kind] + text + padding)
    ensures r[36] == side && r[37] == kind && r[38..46] == text
  {}

  lemma Inside(a: seq<byte>, b: seq<byte>, i: nat, j: nat)
    requires i <= j <= |a|
    ensures (a + b)[i..j] == a[i..j]
  {}

  lemma EncodedFields(m: MarketMessage, r: seq<byte>)
    requires Encodable(m) && r == Encode(m)
    ensures r[..8] == Bytes(m.sequenceNumber, 8) && r[8..16] == Bytes(m.timestampNs, 8)
    ensures r[16..24] == Bytes(m.orderId, 8) && r[24..32] == Bytes(Unsigned(m.price), 8)
    ensures r[32..36] == Bytes(m.quantity, 4)
    ensures r[36] == SideCode(m.side) && r[37] == KindCode(m.kind) && r[38..46] == Text(m.symbol)
  {
    var a, text, padding := Numbers(m), Text(m.symbol), Bytes(0, 18);
    var b := [SideCode(m.side), KindCode(m.kind)] + text + padding;
    FieldsOf(a, m);
    CodesOf(a, SideCode(m.side), KindCode(m.kind), text, padding, r);
    Inside(a, b, 0, 8);
    Inside(a, b, 8, 16);
    Inside(a, b, 16, 24);
    Inside(a, b, 24, 32);
    Inside(a, b, 32, 36);
  }

  // ---- The layout, byte by byte ----

  lemma {:induction false} ByteAt(x: nat, n: nat, j: nat)
    requires j < n
    ensures Bytes(x, n)[j] as nat == (x / Limit(j)) % 256
  {
    if j > 0 {
      ByteAt(x / 256, n - 1, j - 1);
      DivideTwice(x, Limit(j - 1));
    } else {
      assert x / 1 == x;
    }
  }

  lemma DivideTwice(x: nat, d: nat)
    requires d > 0
    ensures (x / 256) / d == x / (256 * d)
  {
    var q := x / 256;
    var r := q / d;
    assert x == 256 * q + x % 256 && q == d * r + q % d;
    assert 256 * q == (256 * d) * r + 256 * (q % d);
    var rest := 256 * (q % d) + x % 256;
    assert x == (256 * d) * r + rest && 0 <= rest < 256 * d;
    QuotientIs(x, 256 * d, r, rest);
  }

  lemma QuotientIs(x: nat, d: nat, q: nat, r: nat)
    requires x == d * q + r && r < d
    ensures x / d == q
  {
    var e := x / d - q;
    assert d * e == r - x % d;
    assert e >= 1 ==> d * e >= d;
    assert e <= -1 ==> d * (0 - e) >= d;
  }

  // Field by field: offset, width, byte order, and the codes of side and kind.
  lemma Layout(m: MarketMessage, r: seq<byte>)
    requires Encodable(m) && r == Encode(m)
    ensures forall j :: 0 <= j < 8 ==> r[j] as nat == (m.sequenceNumber / Limit(j)) % 256
    ensures forall j :: 0 <= j < 8 ==> r[8 + j] as nat == (m.timestampNs / Limit(j)) % 256
    ensures forall j :: 0 <= j < 8 ==> r[16 + j] as nat == (m.orderId / Limit(j)) % 256
    ensures forall j :: 0 <= j < 8 ==>
      r[24 + j] as nat == ((if m.price < 0 then m.price + 0x1_0000_0000_0000_0000 else m.price) / Limit(j)) % 256
    ensures forall j :: 0 <= j < 4 ==> r[32 + j] as nat == (m.quantity / Limit(j)) % 256
    ensures r[36] == if m.side.Buy? then 0 else 1
    ensures r[37] == if m.kind.Add? then 0 else if m.kind.Modify? then 1 else if m.kind.Cancel? then 2 else 3
    ensures forall j :: 0 <= j < 8 ==> r[38 + j] as int == m.symbol[j] as int
  {
    EncodedFields(m, r);
    forall j | 0 <= j < 8
      ensures r[j] == Bytes(m.sequenceNumber, 8)[j] && r[8 + j] == Bytes(m.timestampNs, 8)[j]
      ensures r[16 + j] == Bytes(m.orderId, 8)[j] && r[24 + j] == Bytes(Unsigned(m.price), 8)[j]
      ensures r[38 + j] == Text(m.symbol)[j]
    {
      assert r[j] == r[..8][j] && r[8 + j] == r[8..16][j] && r[16 + j] == r[16..24][j] && r[24 + j] == r[24..32][j];
      assert r[38 + j] == r[38..46][j];
    }
    FieldBytes(r, 0, m.sequenceNumber, 8);
    FieldBytes(r, 8, m.timestampNs, 8);
    FieldBytes(r, 16, m.orderId, 8);
    FieldBytes(r, 24, Unsigned(m.price), 8);
    forall j | 0 <= j < 4 ensures r[32 + j] == Bytes(m.quantity, 4)[j] {
      assert r[32 + j] == r[32..36][j];
    }
    FieldBytes(r, 32, m.quantity, 4);
  }

  lemma FieldBytes(r: seq<byte>, offset: nat, x: nat, n: nat)
    requires offset + n <= |r| && forall j :: 0 <= j < n ==> r[offset + j] == Bytes(x, n)[j]
    ensures forall j :: 0 <= j < n ==> r[offset + j] as nat == (x / Limit(j)) % 256
  {
    forall j | 0 <= j < n ensures r[offset + j] as nat == (x / Limit(j)) % 256 {
      ByteAt(x, n, j);
    }
  }

  // What one end sends, the other end reads.
  lemma RoundTrip(m: MarketMessage)
    requires Encodable(m)
    ensures Decode(Encode(m)) == Some(m)
  {
    EncodedFields(m, Encode(m));
    Read64(m.sequenceNumber);
    Read64(m.timestampNs);
    Read64(m.orderId);
    Read64(Unsigned(m.price));
    Read32(m.quantity);
    assert Chars(Text(m.symbol)) == m.symbol;
  }

  lemma Read64(x: uint64)
    ensures Number64(Bytes(x, 8)) == x
  {
    Limits();
    NumberOfBytes(x, 8);
  }

  lemma Read32(x: uint32)
    ensures Number32(Bytes(x, 4)) == x
  {
    Limits();
    NumberOfBytes(x, 4);
  }
}
