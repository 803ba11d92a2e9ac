/** gRPC length-prefixed messages: a compression flag, four length bytes, and the payload. */
module Frames {
  import opened Varints

  const TWO_32: int := 0x1_0000_0000

  /** What the gzip library makes of a compressed body. */
  datatype Gunzip = NoReader | Corrupt | Inflated(bytes: seq<Byte>)

  datatype Extracted =
    | TooShort
    | NoGzipReader
    | BadGzip
    | Message(payload: seq<Byte>, compressed: bool)

  /** The payload of a request body.  The length bytes are not consulted. */
  function Extract(gunzip: seq<Byte> -> Gunzip, body: seq<Byte>): Extracted {
    if |body| <= 5 then TooShort
    else if body[0] == 1 then
      match gunzip(body[5..])
      case NoReader => NoGzipReader
      case Corrupt => BadGzip
      case Inflated(bytes) => Message(bytes, true)
    else Message(body[5..], false)
  }

  function Header(n: nat): seq<Byte> {
    [0, n / 0x100_0000 % 0x100, n / 0x1_0000 % 0x100, n / 0x100 % 0x100, n % 0x100]
  }

  function Frame(payload: seq<Byte>): seq<Byte> {
    Header(|payload|) + payload
  }

  method EncodeGRPCPayload(finalPayload: seq<Byte>) returns (newBody: array<Byte>)
    ensures fresh(newBody) && newBody[..] == Frame(finalPayload)
    ensures |newBody[..]| == 5 + |finalPayload| && newBody[0] == 0 && newBody[5..] == finalPayload
    ensures BigEndian(newBody[1..5]) == |finalPayload| % TWO_32
  {
    var newBodyLen := |finalPayload|;
    newBody := new Byte[5 + newBodyLen];
    newBody[0] := 0;
    newBody[1] := newBodyLen / 0x100_0000 % 0x100;
    newBody[2] := newBodyLen / 0x1_0000 % 0x100;
    newBody[3] := newBodyLen / 0x100 % 0x100;
    newBody[4] := newBodyLen % 0x100;
    forall i | 0 <= i < newBodyLen {
      newBody[5 + i] := finalPayload[i];
    }
    assert newBody[..5] == Header(newBodyLen);
    assert newBody[5..] == finalPayload;
    assert newBody[..] == newBody[..5] + newBody[5..];
    HeaderLength(finalPayload);
    assert newBody[1..5] == newBody[..][1..5];
  }

  function BigEndian(b: seq<Byte>): nat {
    if b == [] then 0 else 0x100 * BigEndian(b[..|b| - 1]) + b[|b| - 1]
  }

  /** A framed payload is extracted unchanged and uncompressed exactly when it is not empty. */
  lemma FrameRoundTrip(gunzip: seq<Byte> -> Gunzip, payload: seq<Byte>)
    ensures Extract(gunzip, Frame(payload)) == Message(payload, false) <==> payload != []
    ensures payload == [] ==> Extract(gunzip, Frame(payload)) == TooShort
  {
    assert Frame(payload)[5..] == payload;
  }

  /** Whatever the length bytes say: a body with anything after them is taken as it is, unless its
      flag is 1; then it is inflated, or refused as gzip refuses it. */
  lemma ExtractExact(gunzip: seq<Byte> -> Gunzip, flag: Byte, length: seq<Byte>, z: seq<Byte>)
    requires |length| == 4
    ensures var got := Extract(gunzip, [flag] + length + z);
            if z == [] then got == TooShort
            else if flag != 1 then got == Message(z, false)
            else
              && (gunzip(z) == NoReader <==> got == NoGzipReader)
              && (gunzip(z) == Corrupt <==> got == BadGzip)
              && (forall p :: gunzip(z) == Inflated(p) <==> got == Message(p, true))
  {
    var body := [flag] + length + z;
    assert body[0] == flag && body[5..] == z;
  }

  /** Nothing else is refused for its length. */
  lemma TooShortIff(gunzip: seq<Byte> -> Gunzip, body: seq<Byte>)
    ensures Extract(gunzip, body) == TooShort <==> |body| <= 5
  {
  }

  /** The flag says uncompressed; the four length bytes, read big-endian, give the payload length
      exactly below 2^32. */
  lemma HeaderLength(payload: seq<Byte>)
    ensures Frame(payload)[0] == 0
    ensures BigEndian(Frame(payload)[1..5]) == |payload| % TWO_32
    ensures BigEndian(Frame(payload)[1..5]) == |payload| <==> |payload| < TWO_32
  {
    var n := |payload|;
    var b := Frame(payload)[1..5];
    assert b == Header(n)[1..5];
    BigEndianOfFour(b);
    FourBytes(n);
  }

  lemma FourBytes(n: nat)
    ensures 0x100_0000 * (n / 0x100_0000 % 0x100) + 0x1_0000 * (n / 0x1_0000 % 0x100) +
            0x100 * (n / 0x100 % 0x100) + n % 0x100
            == n % TWO_32
  {
    var a := n / 0x100;
    var b := a / 0x100;
    var c := b / 0x100;
    assert n / 0x1_0000 == b && n / 0x100_0000 == c && n / TWO_32 == c / 0x100;
  }

  lemma BigEndianOfFour(b: seq<Byte>)
    requires |b| == 4
    ensures var w: int, x: int, y: int, z: int := b[0], b[1], b[2], b[3];
            BigEndian(b) == 0x100_0000 * w + 0x1_0000 * x + 0x100 * y + z
  {
    var w: int, x: int, y: int := b[0], b[1], b[2];
    assert b[..3][..2] == b[..2] && b[..2][..1] == b[..1] && b[..1][..0] == [];
    assert BigEndian(b[..1]) == w;
    assert BigEndian(b[..2]) == 0x100 * w + x;
    assert BigEndian(b[..3]) == 0x1_0000 * w + 0x100 * x + y;
  }
}
