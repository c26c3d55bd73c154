/** WebSocket frames: what the server writes, and a reader for it after section 5.2 of RFC 6455. */
module WebSocketFrame {

  import opened Options

  type byte = b: int | 0 <= b < 256

  /** 0x80|b. */
  function WithTopBit(b: byte): byte {
    if b < 128 then b + 128 else b
  }

  // ----- Big-endian numbers -----

  function Pow256(k: nat): nat {
    if k == 0 then 1 else 256 * Pow256(k - 1)
  }

  lemma Powers()
    ensures Pow256(2) == 65536 && Pow256(8) == 0x1_0000_0000_0000_0000
  {
    assert Pow256(1) == 256 && Pow256(2) == 65536 && Pow256(4) == 256 * Pow256(3) && Pow256(6) == 256 * Pow256(5);
  }

  /** The last `k` base-256 digits of `n`, most significant first. */
  function BigEndian(n: nat, k: nat): (bytes: seq<byte>)
    ensures |bytes| == k
  {
    if k == 0 then [] else BigEndian(n / 256, k - 1) + [n % 256]
  }

  function FromBigEndian(bytes: seq<byte>): nat {
    if |bytes| == 0 then 0 else 256 * FromBigEndian(bytes[..|bytes| - 1]) + bytes[|bytes| - 1]
  }

  lemma {:induction false} BigEndianRoundTrip(n: nat, k: nat)
    requires n < Pow256(k)
    ensures FromBigEndian(BigEndian(n, k)) == n
  {
    if k > 0 {
      BigEndianRoundTrip(n / 256, k - 1);
      assert BigEndian(n, k)[..k - 1] == BigEndian(n / 256, k - 1);
    }
  }

  lemma {:induction false} BigEndianUnique(bytes: seq<byte>)
    ensures BigEndian(FromBigEndian(bytes), |bytes|) == bytes
  {
    if |bytes| > 0 {
      BigEndianUnique(bytes[..|bytes| - 1]);
    }
  }

  // ----- Writing -----

  const MAX_7 := 125
  const MAX_16 := 65535
  const MAX_63 := 0x7FFF_FFFF_FFFF_FFFF

  /** The frame writeWebSocketFrame writes. */
  function Encode(opcode: byte, payload: seq<byte>): seq<byte> {
    [WithTopBit(opcode)] + EncodeLength(|payload|) + payload
  }

  function EncodeLength(size: nat): seq<byte> {
    if size <= MAX_7 then [size]
    else if size <= MAX_16 then [126] + BigEndian(size, 2)
    else [127] + BigEndian(size, 8)
  }

  /** binary.BigEndian.PutUint64. */
  method PutUint64(bytes: array<byte>, n: nat)
    requires bytes.Length == 8
    modifies bytes
    ensures bytes[..] == BigEndian(n, 8)
  {
    var rest, i := n, 8;
    while i > 0
      invariant 0 <= i <= 8
      invariant BigEndian(n, 8) == BigEndian(rest, i) + bytes[i..]
    {
      i := i - 1;
      bytes[i] := rest % 256;
      rest := rest / 256;
    }
  }

  lemma TwoBytes(n: nat)
    ensures BigEndian(n, 2) == [n / 256 % 256, n % 256]
  {
    assert BigEndian(n / 256, 1) == BigEndian(n / 256 / 256, 0) + [n / 256 % 256];
  }

  /** writeWebSocketFrame, up to the write itself. */
  method WriteFrame(opcode: byte, payload: seq<byte>) returns (written: seq<byte>)
    ensures written == Encode(opcode, payload)
  {
    var header: seq<byte> := [WithTopBit(opcode)];
    var size := |payload|;
    if size <= 125 {
      header := header + [size];
      assert header == [WithTopBit(opcode)] + EncodeLength(size);
    } else if size <= 65535 {
      header := header + [126];
      header := header + [size / 256 % 256, size % 256];
      TwoBytes(size);
      assert header == [WithTopBit(opcode)] + EncodeLength(size);
    } else {
      header := header + [127];
      var extended := new byte[8];
      PutUint64(extended, size);
      header := header + extended[..];
      assert header == [WithTopBit(opcode)] + EncodeLength(size);
    }
    written := header + payload;
  }

  // ----- Reading -----

  /** An unmasked frame, as a client reads it from a server. */
  datatype Frame = Frame(fin: bool, opcode: byte, payload: seq<byte>)

  datatype Read<T> = Read(result: T, rest: seq<byte>)

  /** The payload length after the first byte. A length form longer than needed is an error when `strict`. */
  function DecodeLength(bytes: seq<byte>, strict: bool): Option<Read<nat>> {
    if |bytes| == 0 || bytes[0] >= 128 then None
    else if bytes[0] <= MAX_7 then Some(Read(bytes[0], bytes[1..]))
    else
      var k := if bytes[0] == 126 then 2 else 8;
      if |bytes| < 1 + k then None
      else
        var size := FromBigEndian(bytes[1..1 + k]);
        if size > MAX_63 || (strict && size <= (if k == 2 then MAX_7 else MAX_16)) then None
        else Some(Read(size, bytes[1 + k..]))
  }

  /** Reads one frame off the front: final bit, three reserved bits that must be clear, opcode, mask bit that must be
      clear, length, payload. */
  function Decode(bytes: seq<byte>, strict: bool): Option<Read<Frame>> {
    if |bytes| == 0 || bytes[0] / 16 % 8 != 0 then None
    else
      var length := DecodeLength(bytes[1..], strict);
      if length.None? || |length.value.rest| < length.value.result then None
      else
        var Read(size, rest) := length.value;
        Some(Read(Frame(bytes[0] >= 128, bytes[0] % 16, rest[..size]), rest[size..]))
  }

  lemma LengthRoundTrip(size: nat, rest: seq<byte>)
    requires size <= MAX_63
    ensures DecodeLength(EncodeLength(size) + rest, true) == Some(Read(size, rest))
  {
    var bytes := EncodeLength(size) + rest;
    if size <= MAX_7 {
      assert bytes[1..] == rest;
    } else {
      var k := if size <= MAX_16 then 2 else 8;
      Powers();
      BigEndianRoundTrip(size, k);
      assert bytes[1..1 + k] == BigEndian(size, k) && bytes[1 + k..] == rest;
    }
  }

  /** What was written is read back, and the bytes after it are left alone, exactly for the opcodes of four bits. */
  lemma RoundTripExactly(opcode: byte, payload: seq<byte>, rest: seq<byte>)
    requires |payload| <= MAX_63
    ensures opcode < 16 <==> Decode(Encode(opcode, payload) + rest, true) == Some(Read(Frame(true, opcode, payload), rest))
  {
    var bytes := Encode(opcode, payload) + rest;
    assert bytes[1..] == EncodeLength(|payload|) + (payload + rest);
    LengthRoundTrip(|payload|, payload + rest);
    assert (payload + rest)[..|payload|] == payload && (payload + rest)[|payload|..] == rest;
  }

  /** The reader accepts no other bytes for a final frame: encoding is the only way to be read back as it. */
  lemma OnlyEncodingIsRead(bytes: seq<byte>)
    requires var read := Decode(bytes, true); read.Some? && read.value.result.fin
    ensures var Read(frame, rest) := Decode(bytes, true).value; bytes == Encode(frame.opcode, frame.payload) + rest
  {
    LengthUnique(bytes[1..]);
    var Read(size, rest) := DecodeLength(bytes[1..], true).value;
    FirstByteUnique(bytes[0]);
    Rejoin([bytes[0]], EncodeLength(size), rest, size);
    assert bytes == [bytes[0]] + bytes[1..];
  }

  lemma Rejoin(a: seq<byte>, b: seq<byte>, c: seq<byte>, k: nat)
    requires k <= |c|
    ensures a + (b + c) == a + b + c[..k] + c[k..]
  {
  }

  lemma FirstByteUnique(b: byte)
    requires b >= 128 && b / 16 % 8 == 0
    ensures WithTopBit(b % 16) == b
  {
  }

  lemma LengthUnique(bytes: seq<byte>)
    requires DecodeLength(bytes, true).Some?
    ensures var Read(size, rest) := DecodeLength(bytes, true).value; bytes == EncodeLength(size) + rest
  {
    Powers();
    if bytes[0] == 126 {
      LongFormUnique(bytes, 2);
    } else if bytes[0] == 127 {
      LongFormUnique(bytes, 8);
    } else {
      assert bytes == [bytes[0]] + bytes[1..];
    }
  }

  lemma LongFormUnique(bytes: seq<byte>, k: nat)
    requires |bytes| >= 1 + k
    ensures bytes == [bytes[0]] + BigEndian(FromBigEndian(bytes[1..1 + k]), k) + bytes[1 + k..]
    ensures FromBigEndian(bytes[1..1 + k]) < Pow256(k)
  {
    BigEndianUnique(bytes[1..1 + k]);
    BigEndianBounded(bytes[1..1 + k]);
  }

  lemma {:induction false} BigEndianBounded(bytes: seq<byte>)
    ensures FromBigEndian(bytes) < Pow256(|bytes|)
  {
    if |bytes| > 0 {
      BigEndianBounded(bytes[..|bytes| - 1]);
    }
  }

  /** The length form is the shortest: no bytes that even a lenient reader takes for the same payload are fewer. */
  lemma EncodingIsMinimal(bytes: seq<byte>)
    requires Decode(bytes, false).Some? && Decode(bytes, false).value.rest == []
    ensures var frame := Decode(bytes, false).value.result; |Encode(frame.opcode, frame.payload)| <= |bytes|
  {
    Powers();
    if bytes[1] == 126 { BigEndianBounded(bytes[1..][1..3]); }
  }
}
