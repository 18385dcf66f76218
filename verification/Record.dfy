/** The record codec: a length, a CRC-32 and a payload (pkg/wal/record.go). */
module Record {
  import opened Bits
  import opened Wrappers
  import Crc32

  type Payload = seq<byte>

  const HEADER_SIZE := 8
  const MAX_RECORD_PAYLOAD := 64 * 1024 * 1024

  datatype Error = Corrupt | Truncated | TooLarge | Eof

  datatype Decoded = Payload(payload: Payload, rest: seq<byte>) | Failed(error: Error)

  /** A payload that decoding accepts. Encoding does not check the size. */
  predicate Fits(p: Payload) {
    |p| <= MAX_RECORD_PAYLOAD
  }

  /** The bytes of a record with an arbitrary stored checksum. */
  function Frame(length: nat, crc: nat, body: seq<byte>): (bytes: seq<byte>)
    ensures |bytes| == HEADER_SIZE + |body|
  {
    LittleEndian(length, 4) + LittleEndian(crc, 4) + body
  }

  function Encode(p: Payload): (bytes: seq<byte>)
    ensures |bytes| == RecordSize(|p|)
  {
    Frame(|p|, Crc32.Checksum(p), p)
  }

  function RecordSize(payloadLength: nat): nat {
    HEADER_SIZE + payloadLength
  }

  /** Decoding one record from the front of a stream of bytes. */
  function Decode(r: seq<byte>): Decoded {
    if |r| == 0 then Failed(Eof)
    else if |r| < HEADER_SIZE then Failed(Truncated)
    else
      var length := FromLittleEndian(r[0..4]);
      var checksum := FromLittleEndian(r[4..8]);
      if length > MAX_RECORD_PAYLOAD then Failed(TooLarge)
      else if |r| - HEADER_SIZE < length then Failed(Truncated)
      else
        var payload := r[HEADER_SIZE..HEADER_SIZE + length];
        if Crc32.Checksum(payload) != checksum then Failed(Corrupt)
        else Payload(payload, r[HEADER_SIZE + length..])
  }

  // ---------- round trips ----------

  lemma FrameFields(length: nat, crc: nat, body: seq<byte>, rest: seq<byte>)
    ensures var r := Frame(length, crc, body) + rest;
            && FromLittleEndian(r[0..4]) == length % 0x1_0000_0000
            && FromLittleEndian(r[4..8]) == crc % 0x1_0000_0000
            && r[HEADER_SIZE..HEADER_SIZE + |body|] == body
            && r[HEADER_SIZE + |body|..] == rest
  {
    var r := Frame(length, crc, body) + rest;
    FourBytes(length);
    FourBytes(crc);
    assert r[0..4] == LittleEndian(length, 4);
    assert r[4..8] == LittleEndian(crc, 4);
  }

  /** A frame whose length field is right decodes to its body exactly when the checksum matches. */
  lemma DecodeFrame(crc: nat, body: Payload, rest: seq<byte>)
    requires Fits(body) && crc < 0x1_0000_0000
    ensures Decode(Frame(|body|, crc, body) + rest) ==
            if Crc32.Checksum(body) == crc then Payload(body, rest) else Failed(Corrupt)
  {
    hide Crc32.Checksum, LittleEndian, FromLittleEndian, Frame;
    FrameFields(|body|, crc, body, rest);
  }

  /** Decoding gives back an encoded payload, and what follows it, exactly when the payload has at most
      64 MiB. */
  lemma RoundTrip(p: Payload, rest: seq<byte>)
    ensures Decode(Encode(p) + rest) == Payload(p, rest) <==> |p| <= 67108864
  {
    if Fits(p) {
      DecodeFrame(Crc32.Checksum(p), p, rest);
    }
  }

  /** A length of more than 64 MiB is refused as too large, whatever follows it, however little. */
  lemma TooLargeRefused(length: nat, crc: nat, body: seq<byte>)
    requires 67108864 < length < 0x1_0000_0000
    ensures Decode(Frame(length, crc, body)) == Failed(TooLarge)
  {
    hide LittleEndian, FromLittleEndian;
    FrameFields(length, crc, body, []);
    assert Frame(length, crc, body) + [] == Frame(length, crc, body);
  }

  /** Four bytes, the lowest first. */
  function Number(a: int, b: int, c: int, d: int): int {
    a + 0x100 * b + 0x1_0000 * c + 0x100_0000 * d
  }

  /** The header: length and checksum in four bytes each, the lowest byte first. */
  lemma HeaderBytes(p: Payload)
    ensures var e, crc := Encode(p), Crc32.Checksum(p);
            && e[8..] == p
            && Number(e[0], e[1], e[2], e[3]) == |p| % 0x1_0000_0000
            && Number(e[4], e[5], e[6], e[7]) == crc
  {
    hide Crc32.Checksum, LittleEndian;
    var e := Encode(p);
    FrameFields(|p|, Crc32.Checksum(p), p, []);
    assert e + [] == e;
    FourOf(e[0..4]);
    FourOf(e[4..8]);
  }

  lemma FourOf(b: seq<byte>)
    requires |b| == 4
    ensures FromLittleEndian(b) == Number(b[0], b[1], b[2], b[3])
  {
    assert b[1..][1..] == b[2..] && b[2..][1..] == b[3..] && b[3..][1..] == [];
    assert FromLittleEndian(b[3..]) == b[3];
    assert FromLittleEndian(b[2..]) == b[2] as int + 0x100 * FromLittleEndian(b[3..]);
    assert FromLittleEndian(b[1..]) == b[1] as int + 0x100 * FromLittleEndian(b[2..]);
  }

  /** Whatever decodes is the encoding of its payload: no other bytes are accepted. */
  lemma DecodedIsEncoded(r: seq<byte>)
    ensures Decode(r).Payload? ==>
              var d := Decode(r); Fits(d.payload) && r == Encode(d.payload) + d.rest
  {
    hide Crc32.Checksum, LittleEndian, FromLittleEndian;
    if Decode(r).Payload? {
      var d := Decode(r);
      LittleEndianOfFrom(r[0..4]);
      LittleEndianOfFrom(r[4..8]);
      assert |d.payload| == FromLittleEndian(r[0..4]);
      assert r == r[0..4] + r[4..8] + r[8..8 + |d.payload|] + r[8 + |d.payload|..];
    }
  }

  /** A record cut anywhere but at its ends reads as truncated. */
  lemma CutRecord(p: Payload, k: nat)
    requires Fits(p) && k < |Encode(p)|
    ensures Decode(Encode(p)[..k]) == Failed(if k == 0 then Eof else Truncated)
  {
    hide Crc32.Checksum, LittleEndian, FromLittleEndian;
    if k >= HEADER_SIZE {
      var e := Encode(p);
      FrameFields(|p|, Crc32.Checksum(p), p, []);
      assert e + [] == e;
      assert e[..k][0..4] == e[0..4];
    }
  }

  /** A burst of at most 32 bits within the payload is refused. */
  lemma BurstRefused(p: Payload, q: Payload, rest: seq<byte>)
    requires Fits(p) && |q| == |p|
    requires Crc32.Burst(Crc32.MessageBits(p), Crc32.MessageBits(q))
    ensures Decode(Frame(|p|, Crc32.Checksum(p), q) + rest) == Failed(Corrupt)
  {
    Crc32.BurstDetected(p, q);
    DecodeFrame(Crc32.Checksum(p), q, rest);
  }

  // ---------- the code, over buffers and readers ----------

  /** Fills one buffer with header and payload, to be written by a single call. */
  method EncodeRecord(payload: Payload) returns (buf: array<byte>)
    ensures fresh(buf)
    ensures buf[..] == Encode(payload)
  {
    buf := new byte[HEADER_SIZE + |payload|];
    PutUint32(buf, 0, |payload|);
    PutUint32(buf, 4, Crc32.Checksum(payload));
    var i := 0;
    while i < |payload|
      invariant 0 <= i <= |payload|
      invariant buf[..8] == LittleEndian(|payload|, 4) + LittleEndian(Crc32.Checksum(payload), 4)
      invariant buf[HEADER_SIZE..HEADER_SIZE + i] == payload[..i]
    {
      buf[HEADER_SIZE + i] := payload[i];
      i := i + 1;
    }
    assert buf[..] == buf[..8] + buf[8..8 + |payload|];
  }

  method PutUint32(buf: array<byte>, at: nat, v: nat)
    requires at + 4 <= buf.Length
    modifies buf
    ensures buf[..] == old(buf[..at]) + LittleEndian(v, 4) + old(buf[at + 4..])
  {
    var rest := v;
    for i := 0 to 4
      invariant buf[..at] == old(buf[..at]) && buf[at + 4..] == old(buf[at + 4..])
      invariant buf[at..at + i] + LittleEndian(rest, 4 - i) == LittleEndian(v, 4)
    {
      buf[at + i] := rest % 256;
      assert LittleEndian(rest, 4 - i) == [rest % 256] + LittleEndian(rest / 256, 4 - i - 1);
      assert buf[at..at + i + 1] == buf[at..at + i] + [rest % 256];
      rest := rest / 256;
    }
    assert buf[..] == buf[..at] + buf[at..at + 4] + buf[at + 4..];
  }

  /** An open file: its bytes and the read position. */
  class Reader {
    const data: seq<byte>
    var pos: nat

    constructor (data: seq<byte>)
      ensures this.data == data && pos == 0
    {
      this.data := data;
      pos := 0;
    }

    predicate Valid()
      reads this
    {
      pos <= |data|
    }

    function Rest(): seq<byte>
      requires Valid()
      reads this
    {
      data[pos..]
    }

    /** Reads n bytes; at the end of the data it reads what there is and fails. */
    method ReadFull(n: nat) returns (bytes: seq<byte>, error: Option<Error>)
      requires Valid()
      modifies this
      ensures Valid()
      ensures |old(Rest())| >= n ==> error == None && bytes == old(Rest())[..n] && Rest() == old(Rest())[n..]
      ensures |old(Rest())| < n ==> Rest() == [] && error == Some(if old(Rest()) == [] then Eof else Truncated)
    {
      if |data| - pos >= n {
        bytes, error := data[pos..pos + n], None;
        pos := pos + n;
      } else {
        bytes, error := data[pos..], Some(if pos == |data| then Eof else Truncated);
        pos := |data|;
      }
    }
  }

  method DecodeRecord(r: Reader) returns (payload: Payload, error: Option<Error>)
    requires r.Valid()
    modifies r
    ensures r.Valid()
    ensures match Decode(old(r.Rest()))
            case Payload(p, rest) => error == None && payload == p && r.Rest() == rest
            case Failed(e) => error == Some(e)
  {
    payload := [];
    ghost var all := r.Rest();
    var hdr, err := r.ReadFull(HEADER_SIZE);
    if err.Some? {
      return payload, err;
    }
    assert hdr[0..4] == all[0..4] && hdr[4..8] == all[4..8];
    var length := FromLittleEndian(hdr[0..4]);
    var checksum := FromLittleEndian(hdr[4..8]);
    if length > MAX_RECORD_PAYLOAD {
      return payload, Some(TooLarge);
    }
    var body;
    body, err := r.ReadFull(length);
    if err.Some? {
      return payload, Some(Truncated);
    }
    assert body == all[HEADER_SIZE..HEADER_SIZE + length];
    assert r.Rest() == all[HEADER_SIZE + length..];
    if Crc32.Checksum(body) != checksum {
      return payload, Some(Corrupt);
    }
    return body, None;
  }
}
