/** Frames: type, IV, payload length and encrypted payload, packed and unpacked by `Serializer`. */
module Framing {
  import opened Bytes
  import opened Ctr
  import Modular

  const HEADER: nat := 21   // 1 for the type, 16 for the IV, 4 for the length

  const FILE_NAME: byte := 1
  const FILE_DATA: byte := 2

  const WIDTH: nat := 0x1_0000_0000   // what a 4-byte length cannot reach

  /** The byte of a given value. */
  function ToByte(x: nat): (b: byte)
    requires x < 256
    ensures b as nat == x
  {
    if x == 0 then 0 else ToByte(x - 1) + 1
  }

  /** The low `count` bytes of a number, lowest first. */
  function LittleEndian(n: nat, count: nat): (r: seq<byte>)
    ensures |r| == count
  {
    if count == 0 then [] else [ToByte(n % 256)] + LittleEndian(n / 256, count - 1)
  }

  function FromLittleEndian(s: seq<byte>): nat {
    if s == [] then 0 else s[0] as nat + 256 * FromLittleEndian(s[1..])
  }

  lemma {:induction false} LittleEndianValue(n: nat, count: nat, size: nat)
    requires size == Power256(count)
    ensures FromLittleEndian(LittleEndian(n, count)) == n % size
  {
    if count == 0 {
    } else {
      hide LittleEndian, FromLittleEndian, ToByte;
      var rest := Power256(count - 1);
      LittleEndianValue(n / 256, count - 1, rest);
      LowByte(n, count);
      Modular.LowDigit(n, rest);
    }
  }

  lemma LowByte(n: nat, count: nat)
    requires count > 0
    ensures FromLittleEndian(LittleEndian(n, count))
            == n % 256 + 256 * FromLittleEndian(LittleEndian(n / 256, count - 1))
  {}

  /** Four bytes keep a length modulo 2^32: the truncation of the cast to uint32_t. */
  lemma LengthKeptModulo(n: nat)
    ensures FromLittleEndian(LittleEndian(n, 4)) == n % WIDTH
  {
    assert Power256(4) == WIDTH;
    LittleEndianValue(n, 4, WIDTH);
  }

  /** The frame for a payload; an empty payload makes an empty frame. */
  function Frame(cipher: BlockCipher, kind: byte, iv: Block, payload: seq<byte>): (r: seq<byte>)
    ensures |r| == if payload == [] then 0 else HEADER + |payload|
  {
    if payload == [] then []
    else [kind] + iv + LittleEndian(|payload|, 4) + Crypt(cipher, iv, 0, payload)
  }

  /** What unpacking makes of some bytes: too short for a header; longer than announced by the length
      field than there is data; or a payload, possibly empty, of some type. */
  datatype Parsed = TooShort | Overlong(kind: byte) | Whole(kind: byte, payload: seq<byte>)

  function LengthField(data: seq<byte>): nat
    requires |data| >= HEADER
  {
    FromLittleEndian(data[17..21])
  }

  function Parse(cipher: BlockCipher, data: seq<byte>): Parsed {
    if |data| < HEADER then TooShort
    else if LengthField(data) > |data| - HEADER then Overlong(data[0])
    else Whole(data[0], Crypt(cipher, data[1..17], 0, data[HEADER .. HEADER + LengthField(data)]))
  }

  /** Where the fields of a frame lie, whatever follows or however it is cut after the header. */
  lemma HeaderFields(cipher: BlockCipher, kind: byte, iv: Block, payload: seq<byte>, data: seq<byte>)
    requires payload != [] && |data| >= HEADER
    requires data <= Frame(cipher, kind, iv, payload) || Frame(cipher, kind, iv, payload) <= data
    ensures data[0] == kind && data[1..17] == iv
    ensures LengthField(data) == |payload| % WIDTH
  {
    hide LittleEndian, FromLittleEndian;
    var frame := Frame(cipher, kind, iv, payload);
    assert data[..HEADER] == frame[..HEADER];
    assert data[1..17] == data[..HEADER][1..17] == frame[1..17] == iv;
    assert data[17..21] == data[..HEADER][17..21] == frame[17..21] == LittleEndian(|payload|, 4);
    assert data[0] == data[..HEADER][0];
    LengthKeptModulo(|payload|);
  }

  /** What unpacking a whole frame gives, trailing bytes or not: the payload cut to its length modulo 2^32. */
  lemma ParseFrame(cipher: BlockCipher, kind: byte, iv: Block, payload: seq<byte>, suffix: seq<byte>)
    requires payload != []
    ensures Parse(cipher, Frame(cipher, kind, iv, payload) + suffix) == Whole(kind, payload[..|payload| % WIDTH])
  {
    hide LittleEndian, FromLittleEndian, Crypt;
    var data := Frame(cipher, kind, iv, payload) + suffix;
    var n, body := |payload| % WIDTH, Crypt(cipher, iv, 0, payload);
    HeaderFields(cipher, kind, iv, payload, data);
    assert data[HEADER .. HEADER + n] == body[..n];
    FrontDecrypts(cipher, iv, payload, n);
  }

  lemma FrontDecrypts(cipher: BlockCipher, iv: Block, payload: seq<byte>, n: nat)
    requires n <= |payload|
    ensures Crypt(cipher, iv, 0, Crypt(cipher, iv, 0, payload)[..n]) == payload[..n]
  {}

  /** Round trip: packing and unpacking gives the payload and its type back, for every key, IV and trailing
      bytes, exactly when the payload's length fits the 4-byte length field. */
  lemma RoundTripIff(cipher: BlockCipher, kind: byte, iv: Block, payload: seq<byte>, suffix: seq<byte>)
    requires payload != []
    ensures Parse(cipher, Frame(cipher, kind, iv, payload) + suffix) == Whole(kind, payload) <==> |payload| < WIDTH
  {
    hide LittleEndian, FromLittleEndian;
    ParseFrame(cipher, kind, iv, payload, suffix);
  }

  /** The receiver takes these bytes for a message. */
  ghost predicate Accepted(cipher: BlockCipher, data: seq<byte>) {
    var p := Parse(cipher, data);
    p.Whole? && p.payload != []
  }

  lemma CutFrame(cipher: BlockCipher, kind: byte, iv: Block, payload: seq<byte>, cut: nat)
    requires payload != [] && cut < HEADER + |payload|
    ensures Accepted(cipher, Frame(cipher, kind, iv, payload)[..cut])
       <==> 0 < |payload| % WIDTH && HEADER + |payload| % WIDTH <= cut
  {
    hide LittleEndian, FromLittleEndian;
    var data := Frame(cipher, kind, iv, payload)[..cut];
    if cut >= HEADER {
      HeaderFields(cipher, kind, iv, payload, data);
    }
  }

  /** A partial frame is never taken for a whole one, unless the payload is so long that the length field
      wrapped to something else than zero. */
  lemma NoPartialFrameIff(cipher: BlockCipher, kind: byte, iv: Block, payload: seq<byte>)
    requires payload != []
    ensures (forall cut: nat | cut < |Frame(cipher, kind, iv, payload)| ::
               !Accepted(cipher, Frame(cipher, kind, iv, payload)[..cut]))
       <==> |payload| < WIDTH || |payload| % WIDTH == 0
  {
    var frame, n := Frame(cipher, kind, iv, payload), |payload| % WIDTH;
    forall cut: nat | cut < |frame|
      ensures Accepted(cipher, frame[..cut]) <==> 0 < n && HEADER + n <= cut
    {
      CutFrame(cipher, kind, iv, payload, cut);
    }
    if |payload| >= WIDTH && n > 0 {
      assert Accepted(cipher, frame[..HEADER + n]);
    }
  }

  datatype Result<T> = Ok(value: T) | Invalid

  /** Packs with the type it was made for; unpacking sets the type to the frame's. */
  class Serializer {
    const encryptor: Encryption
    var kind: byte
    var buffer: seq<byte>

    ghost predicate Valid()
      reads this, encryptor, encryptor.encryptor, encryptor.decryptor
    {
      encryptor.Valid()
    }

    constructor (encryptor: Encryption, kind: byte)
      ensures this.encryptor == encryptor && this.kind == kind
    {
      this.encryptor := encryptor;
      this.kind := kind;
      buffer := [];
    }

    method Pack(data: seq<byte>, drawn: Block) returns (frame: seq<byte>)
      requires Valid()
      modifies `buffer, encryptor, encryptor.encryptor
      ensures Valid()
      ensures frame == Frame(encryptor.cipher, kind, drawn, data)
    {
      hide LittleEndian, FromLittleEndian, Crypt, Encryption.Valid, CtrMode.Valid;
      buffer := [];
      if data == [] {
        return [];
      }
      var ciphr := new byte[|data|];
      encryptor.Encrypt(data, ciphr, drawn);
      buffer := [kind];
      var iv := encryptor.GetIV();
      buffer := buffer + iv;
      var dataSize := ciphr.Length % WIDTH;
      buffer := buffer + LittleEndian(dataSize, 4);
      SameLowBytes(|data|);
      buffer := buffer + ciphr[..];
      return buffer;
    }

    /** Throws `invalid_argument` (`Invalid`) when the length field exceeds the data; an empty
        result means failure too. */
    method Unpack(data: seq<byte>) returns (r: Result<seq<byte>>)
      requires Valid()
      modifies `kind, `buffer, encryptor.decryptor
      ensures Valid()
      ensures match Parse(encryptor.cipher, data)
              case TooShort => r == Ok([]) && kind == old(kind)
              case Overlong(k) => r == Invalid && kind == k
              case Whole(k, payload) => r == Ok(payload) && kind == k
    {
      buffer := [];
      if data == [] || |data| < HEADER {
        return Ok([]);
      }
      kind := data[0];
      var iv := data[1..17];
      var dataSize := FromLittleEndian(data[17..21]);
      if dataSize > |data| - HEADER {
        return Invalid;
      }
      var recovered := new byte[dataSize];
      encryptor.Decrypt(recovered, data[HEADER..], iv);
      assert data[HEADER..][..dataSize] == data[HEADER .. HEADER + dataSize];
      buffer := recovered[..];
      return Ok(buffer);
    }
  }

  /** The four low bytes do not see more than 32 bits. */
  lemma SameLowBytes(n: nat)
    ensures LittleEndian(n % WIDTH, 4) == LittleEndian(n, 4)
  {
    hide LittleEndian, FromLittleEndian;
    LengthKeptModulo(n);
    LengthKeptModulo(n % WIDTH);
    LittleEndianInjective(LittleEndian(n % WIDTH, 4), LittleEndian(n, 4));
  }

  lemma SameByte(a: byte, b: byte)
    requires a as nat == b as nat
    ensures a == b
  {}

  lemma SameDigits(low: nat, high: nat, low': nat, high': nat)
    requires low < 256 && low' < 256 && low + 256 * high == low' + 256 * high'
    ensures low == low' && high == high'
  {}

  lemma {:induction false} LittleEndianInjective(a: seq<byte>, b: seq<byte>)
    requires |a| == |b| && FromLittleEndian(a) == FromLittleEndian(b)
    ensures a == b
  {
    if a == [] {
    } else {
      SameDigits(a[0] as nat, FromLittleEndian(a[1..]), b[0] as nat, FromLittleEndian(b[1..]));
      hide FromLittleEndian;
      SameByte(a[0], b[0]);
      LittleEndianInjective(a[1..], b[1..]);
      assert a == [a[0]] + a[1..] && b == [b[0]] + b[1..];
    }
  }

  // ---- The bytes on the wire ----

  /** Where everything stands in a frame: type, IV, the length with its low byte first, the encrypted payload. */
  lemma FrameLayout(cipher: BlockCipher, kind: byte, iv: Block, payload: seq<byte>)
    requires 0 < |payload| < WIDTH
    ensures var frame := Frame(cipher, kind, iv, payload);
            && |frame| == 21 + |payload|
            && frame[0] == kind && frame[1..17] == iv
            && AnnouncedLength(frame) == |payload|
            && frame[21..] == Crypt(cipher, iv, 0, payload)
  {
    hide LittleEndian, Crypt;
    var frame := Frame(cipher, kind, iv, payload);
    HeaderFields(cipher, kind, iv, payload, frame);
    FourBytes(frame);
    Modular.SmallMod(|payload|, WIDTH);
  }

  /** The four bytes after the IV as a number. */
  function AnnouncedLength(data: seq<byte>): nat
    requires |data| >= 21
  {
    data[17] as nat + 256 * data[18] as nat + 65536 * data[19] as nat + 16777216 * data[20] as nat
  }

  lemma FourBytes(data: seq<byte>)
    requires |data| >= HEADER
    ensures LengthField(data) == AnnouncedLength(data)
  {
    var s := data[17..21];
    assert s[3..][1..] == [] && FromLittleEndian(s[3..]) == data[20] as nat;
    assert s[2..][1..] == s[3..] && FromLittleEndian(s[2..]) == data[19] as nat + 256 * data[20] as nat;
    assert s[1..][1..] == s[2..] && FromLittleEndian(s[1..]) == data[18] as nat + 256 * FromLittleEndian(s[2..]);
  }

  /** Exactly which bytes are found too short, which make the unpacking throw, and which yield a payload, and of what
      size. */
  lemma ParseIff(cipher: BlockCipher, data: seq<byte>)
    ensures Parse(cipher, data) == TooShort <==> |data| < 21
    ensures forall kind: byte :: Parse(cipher, data) == Overlong(kind)
              <==> |data| >= 21 && kind == data[0] && AnnouncedLength(data) > |data| - 21
    ensures Parse(cipher, data).Whole? ==>
              Parse(cipher, data).kind == data[0] && |Parse(cipher, data).payload| == AnnouncedLength(data)
  {
    hide FromLittleEndian, Crypt;
    if |data| >= HEADER {
      FourBytes(data);
    }
  }

  /** A cut frame is too short for its header, or throws; its type has been taken over by then. */
  lemma CutFrameThrows(cipher: BlockCipher, kind: byte, iv: Block, payload: seq<byte>, cut: nat)
    requires 0 < |payload| < WIDTH && cut < HEADER + |payload|
    ensures Parse(cipher, Frame(cipher, kind, iv, payload)[..cut]) == if cut < 21 then TooShort else Overlong(kind)
  {
    hide LittleEndian, FromLittleEndian, Crypt;
    var data := Frame(cipher, kind, iv, payload)[..cut];
    if cut >= HEADER {
      HeaderFields(cipher, kind, iv, payload, data);
      Modular.SmallMod(|payload|, WIDTH);
    }
  }
}
