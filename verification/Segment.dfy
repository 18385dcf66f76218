/** Segment files: a sequence of records, possibly with a torn tail (pkg/wal/segment.go). */
module Segment {
  import opened Bits
  import opened Wrappers
  import opened Record
  import Crc32

  function EncodeAll(ms: seq<Payload>): (bytes: seq<byte>)
    ensures ms != [] ==> |bytes| >= HEADER_SIZE
  {
    if |ms| == 0 then [] else Encode(ms[0]) + EncodeAll(ms[1..])
  }

  ghost predicate AllFit(ms: seq<Payload>) {
    forall m :: m in ms ==> Fits(m)
  }

  /** What is read of a file: the records, and the error that stopped the reading, if any. */
  datatype ReadResult = ReadResult(records: seq<Payload>, error: Option<Error>)

  function Prepend(m: Payload, r: ReadResult): ReadResult {
    ReadResult([m] + r.records, r.error)
  }

  /** The end of the file and a partial record both end the reading quietly. */
  function ReadAll(r: seq<byte>): ReadResult
    decreases |r|
  {
    match Decode(r)
    case Payload(m, rest) =>
      DecodedIsEncoded(r);
      Prepend(m, ReadAll(rest))
    case Failed(e) => ReadResult([], if e == Eof || e == Truncated then None else Some(e))
  }

  /** One record more has been read, or none is left. */
  lemma ReadOneMore(records: seq<Payload>, r: seq<byte>)
    ensures match Decode(r)
            case Payload(m, rest) =>
              records + ReadAll(r).records == records + [m] + ReadAll(rest).records
              && ReadAll(r).error == ReadAll(rest).error && |rest| < |r|
            case Failed(e) => ReadAll(r) == ReadResult([], if e == Eof || e == Truncated then None else Some(e))
  {
    hide Decode, Encode;
    DecodedIsEncoded(r);
  }

  method ReadAllRecords(file: seq<byte>) returns (r: ReadResult)
    ensures r == ReadAll(file)
  {
    hide Decode, Encode, EncodeAll, ReadAll;
    var f := new Reader(file);
    var records := [];
    while true
      invariant f.Valid()
      invariant ReadAll(file) == ReadResult(records + ReadAll(f.Rest()).records, ReadAll(f.Rest()).error)
      decreases |f.Rest()|
    {
      ReadOneMore(records, f.Rest());
      var payload, err := DecodeRecord(f);
      if err == Some(Eof) || err == Some(Truncated) {
        return ReadResult(records, None);
      }
      if err.Some? {
        return ReadResult(records, err);
      }
      records := records + [payload];
    }
  }

  // ---------- reading back what was written ----------

  lemma {:induction false} EncodeAllConcat(x: seq<Payload>, y: seq<Payload>)
    ensures EncodeAll(x + y) == EncodeAll(x) + EncodeAll(y)
  {
    hide Encode;
    if |x| == 0 {
      assert x + y == y;
    } else {
      assert (x + y)[1..] == x[1..] + y;
      EncodeAllConcat(x[1..], y);
    }
  }

  lemma EncodeAllOne(m: Payload)
    ensures EncodeAll([m]) == Encode(m)
  {
    assert [m][1..] == [];
  }

  lemma ReadBehindOne(m: Payload, rest: seq<byte>)
    requires Fits(m)
    ensures ReadAll(Encode(m) + rest) == Prepend(m, ReadAll(rest))
  {
    hide Encode, Decode;
    RoundTrip(m, rest);
  }

  /** Records at the front of a file are read back, and the reading goes on behind them. */
  lemma {:induction false} ReadBehind(ms: seq<Payload>, rest: seq<byte>)
    requires AllFit(ms)
    ensures ReadAll(EncodeAll(ms) + rest) == ReadResult(ms + ReadAll(rest).records, ReadAll(rest).error)
  {
    hide Encode, Decode;
    if |ms| == 0 {
      assert EncodeAll(ms) + rest == rest;
    } else {
      var behind := EncodeAll(ms[1..]) + rest;
      assert EncodeAll(ms) + rest == Encode(ms[0]) + behind;
      ReadBehindOne(ms[0], behind);
      ReadBehind(ms[1..], rest);
    }
  }

  lemma ReadEncoded(ms: seq<Payload>)
    requires AllFit(ms)
    ensures ReadAll(EncodeAll(ms)) == ReadResult(ms, None)
  {
    ReadBehind(ms, []);
    assert EncodeAll(ms) + [] == EncodeAll(ms);
  }

  /** A message written behind others is read back exactly when it fits: writing does not check. */
  lemma AppendedReads(ms: seq<Payload>, m: Payload)
    requires AllFit(ms)
    ensures ReadAll(EncodeAll(ms) + Encode(m)) == ReadResult(ms + [m], None) <==> Fits(m)
  {
    hide Encode, EncodeAll, ReadAll, Decode, Fits;
    ReadBehind(ms, Encode(m));
    EncodeAllOne(m);
    if Fits(m) {
      ReadEncoded([m]);
    } else {
      var tail := ReadIsPrefix(Encode(m));
      assert m in [m];
      assert ReadAll(Encode(m)).records != [m];
      assert (ms + [m])[|ms|..] == [m];
      assert (ms + ReadAll(Encode(m)).records)[|ms|..] == ReadAll(Encode(m)).records;
    }
  }

  /** One that is too large makes all reading of the file fail from then on. */
  lemma TooLargeStops(ms: seq<Payload>, m: Payload, rest: seq<byte>)
    requires AllFit(ms) && 67108864 < |m| < 0x1_0000_0000
    ensures ReadAll(EncodeAll(ms) + Encode(m) + rest) == ReadResult(ms, Some(TooLarge))
  {
    hide EncodeAll, Encode, Decode;
    TooLargeRead(m, rest);
    ReadBehind(ms, Encode(m) + rest);
    assert EncodeAll(ms) + Encode(m) + rest == EncodeAll(ms) + (Encode(m) + rest);
  }

  lemma TooLargeRead(m: Payload, rest: seq<byte>)
    requires 67108864 < |m| < 0x1_0000_0000
    ensures Decode(Encode(m) + rest) == Failed(TooLarge)
  {
    hide Crc32.Checksum;
    TooLargeRefused(|m|, Crc32.Checksum(m), m + rest);
    assert Encode(m) + rest == Frame(|m|, Crc32.Checksum(m), m + rest);
  }

  /** Every file is the encoding of what is read of it, followed by a tail where reading stops. */
  lemma {:induction false} ReadIsPrefix(r: seq<byte>) returns (tail: seq<byte>)
    ensures AllFit(ReadAll(r).records)
    ensures r == EncodeAll(ReadAll(r).records) + tail
    ensures Decode(tail).Failed? && ReadAll(tail) == ReadResult([], ReadAll(r).error)
    decreases |r|
  {
    if Decode(r).Failed? {
      tail := r;
    } else {
      DecodedIsEncoded(r);
      var d := Decode(r);
      tail := ReadIsPrefix(d.rest);
      assert ReadAll(r).records[1..] == ReadAll(d.rest).records;
      assert r == Encode(d.payload) + (EncodeAll(ReadAll(d.rest).records) + tail);
    }
  }

  /** Decoding a concatenation of cleanly ended files is concatenating the decodings. */
  lemma ReadConcat(x: seq<byte>, y: seq<byte>)
    requires x == EncodeAll(ReadAll(x).records)
    ensures ReadAll(x + y) == ReadResult(ReadAll(x).records + ReadAll(y).records, ReadAll(y).error)
  {
    var _ := ReadIsPrefix(x);
    ReadBehind(ReadAll(x).records, y);
  }

  // ---------- torn tails ----------

  /** How many messages are written whole in k bytes. */
  function Whole(ms: seq<Payload>, k: nat): (n: nat)
    ensures n <= |ms| && |EncodeAll(ms[..n])| <= k
    ensures n < |ms| ==> k < |EncodeAll(ms[..n + 1])|
  {
    if |ms| == 0 then 0
    else if k < |Encode(ms[0])| then
      assert ms[..1][1..] == []; 0
    else
      var n := Whole(ms[1..], k - |Encode(ms[0])|);
      assert ms[..n + 1][1..] == ms[1..][..n];
      assert n < |ms| - 1 ==> ms[..n + 2][1..] == ms[1..][..n + 1];
      n + 1
  }

  /** A file cut anywhere reads, without error, as the messages that were written whole: as the
      first n, where n is the largest number whose encodings fit before the cut. */
  lemma TornTail(ms: seq<Payload>, k: nat, n: nat)
    requires AllFit(ms) && n <= |ms| && |EncodeAll(ms[..n])| <= k <= |EncodeAll(ms)|
    requires n < |ms| ==> k < |EncodeAll(ms[..n + 1])|
    ensures ReadAll(EncodeAll(ms)[..k]) == ReadResult(ms[..n], None)
  {
    hide Encode, Decode, EncodeAll, ReadAll;
    var cut := k - |EncodeAll(ms[..n])|;
    if n == |ms| {
      assert ms[..n] == ms;
      assert EncodeAll(ms)[..k] == EncodeAll(ms);
      ReadEncoded(ms);
    } else {
      SplitAt(ms, n);
      EncodeNext(ms, n);
      CutMiddle(EncodeAll(ms[..n]), Encode(ms[n]), EncodeAll(ms[n + 1..]), cut);
      CutRecord(ms[n], cut);
      ReadNoRecord(Encode(ms[n])[..cut]);
      ReadBehind(ms[..n], Encode(ms[n])[..cut]);
      assert ms[..n] + [] == ms[..n];
    }
  }

  lemma ReadNoRecord(tail: seq<byte>)
    requires Decode(tail) == Failed(Eof) || Decode(tail) == Failed(Truncated)
    ensures ReadAll(tail) == ReadResult([], None)
  {
  }

  lemma CutMiddle<T>(a: seq<T>, b: seq<T>, c: seq<T>, cut: nat)
    requires cut <= |b|
    ensures (a + b + c)[..|a| + cut] == a + b[..cut]
  {
  }

  lemma EncodeNext(ms: seq<Payload>, n: nat)
    requires n < |ms|
    ensures EncodeAll(ms[..n + 1]) == EncodeAll(ms[..n]) + Encode(ms[n])
  {
    hide Encode;
    assert ms[..n + 1] == ms[..n] + [ms[n]];
    EncodeAllConcat(ms[..n], [ms[n]]);
    EncodeAllOne(ms[n]);
  }

  /** Appending to a file with an unread tail t gives a file that reads as one message more, for
      every message, exactly when the tail is empty: when the file ends on a record boundary. */
  lemma AppendBehindTail(ms: seq<Payload>, t: seq<byte>)
    requires AllFit(ms) && ReadAll(t) == ReadResult([], None)
    ensures (forall m :: Fits(m) ==> ReadAll(EncodeAll(ms) + t + Encode(m)) == ReadResult(ms + [m], None))
            <==> t == []
  {
    hide Encode, Decode, EncodeAll, ReadAll;
    if t == [] {
      forall m | Fits(m)
        ensures ReadAll(EncodeAll(ms) + t + Encode(m)) == ReadResult(ms + [m], None)
      {
        EncodeAllConcat(ms, [m]);
        EncodeAllOne(m);
        assert EncodeAll(ms) + t + Encode(m) == EncodeAll(ms + [m]);
        ReadEncoded(ms + [m]);
      }
    } else {
      var m: Payload := if t[0] == 0 then [0] else [];
      var e := Encode(m);
      FirstByte(m);
      if ReadAll(EncodeAll(ms) + t + e) == ReadResult(ms + [m], None) {
        assert EncodeAll(ms) + t + e == EncodeAll(ms) + (t + e);
        ReadBehind(ms, t + e);
        assert ReadAll(t + e).records == (ms + [m])[|ms|..] == [m];
        ReadBehindTail(t, m);
      }
    }
  }

  lemma ReadBehindTail(t: seq<byte>, m: Payload)
    requires t != [] && ReadAll(t + Encode(m)).records == [m]
    ensures t[0] == Encode(m)[0]
  {
    hide Encode, Decode, EncodeAll, ReadAll;
    var tail := ReadIsPrefix(t + Encode(m));
    EncodeAllOne(m);
    assert (t + Encode(m))[0] == t[0];
  }

  lemma FirstByte(m: Payload)
    requires |m| < 256
    ensures Encode(m)[0] == |m|
  {
  }

  // ---------- corruption ----------

  /** The file of ms in which the payload of record j has become q. */
  function Altered(ms: seq<Payload>, j: nat, q: Payload): seq<byte>
    requires j < |ms|
  {
    EncodeAll(ms[..j]) + Frame(|ms[j]|, Crc32.Checksum(ms[j]), q) + EncodeAll(ms[j + 1..])
  }

  /** A burst of at most 32 bits in one payload stops the reading there, with the corruption error. */
  lemma CorruptionDetected(ms: seq<Payload>, j: nat, q: Payload)
    requires AllFit(ms) && j < |ms| && |q| == |ms[j]|
    requires Crc32.Burst(Crc32.MessageBits(ms[j]), Crc32.MessageBits(q))
    ensures ReadAll(Altered(ms, j, q)) == ReadResult(ms[..j], Some(Corrupt))
  {
    hide Encode, EncodeAll, Decode, Frame, Crc32.MessageBits, Crc32.Burst;
    var rest := Frame(|ms[j]|, Crc32.Checksum(ms[j]), q) + EncodeAll(ms[j + 1..]);
    BurstRefused(ms[j], q, EncodeAll(ms[j + 1..]));
    ReadBehind(ms[..j], rest);
    assert Altered(ms, j, q) == EncodeAll(ms[..j]) + rest;
  }

  /** In particular up to four consecutive altered payload bytes, seen as positions in the file. */
  lemma FourBytesDetected(ms: seq<Payload>, j: nat, file: seq<byte>, w: nat, n: nat)
    requires AllFit(ms) && j < |ms| && n <= 4
    requires var start := |EncodeAll(ms[..j])| + HEADER_SIZE;
             && |file| == |EncodeAll(ms)| && file != EncodeAll(ms)
             && start <= w && w + n <= start + |ms[j]|
             && Crc32.AgreeOutside(EncodeAll(ms), file, w, n)
    ensures ReadAll(file) == ReadResult(ms[..j], Some(Corrupt))
  {
    hide *;
    var start := |EncodeAll(ms[..j])| + HEADER_SIZE;
    var q := AlteredPayload(ms, j, file, w, n);
    WiderWindow(ms[j], q, w - start, n);
    Crc32.FourBytesBurst(ms[j], q, w - start);
    CorruptionDetected(ms, j, q);
  }

  lemma WiderWindow(p: Payload, q: Payload, w: nat, n: nat)
    requires n <= 4 && |p| == |q| && Crc32.AgreeOutside(p, q, w, n)
    ensures Crc32.AgreeOutside(p, q, w, 4)
  {
  }

  lemma AlteredPayload(ms: seq<Payload>, j: nat, file: seq<byte>, w: nat, n: nat) returns (q: Payload)
    requires j < |ms|
    requires var start := |EncodeAll(ms[..j])| + HEADER_SIZE;
             && |file| == |EncodeAll(ms)| && file != EncodeAll(ms)
             && start <= w && w + n <= start + |ms[j]|
             && Crc32.AgreeOutside(EncodeAll(ms), file, w, n)
    ensures |q| == |ms[j]| && q != ms[j] && file == Altered(ms, j, q)
    ensures Crc32.AgreeOutside(ms[j], q, w - |EncodeAll(ms[..j])| - HEADER_SIZE, n)
  {
    hide Encode, Frame, EncodeAll;
    var front, m, behind := EncodeAll(ms[..j]), ms[j], EncodeAll(ms[j + 1..]);
    SplitAt(ms, j);
    EncodeLayout(m, []);
    var header := Encode(m)[..HEADER_SIZE];
    assert front + Encode(m) + behind == (front + header) + m + behind;
    q := AlteredMiddle(front + header, m, behind, file, w, n);
    EncodeLayout(m, q);
    assert front + Frame(|m|, Crc32.Checksum(m), q) + behind == (front + header) + q + behind;
  }

  lemma AlteredMiddle<T>(a: seq<T>, b: seq<T>, c: seq<T>, file: seq<T>, w: nat, n: nat) returns (q: seq<T>)
    requires |file| == |a + b + c| && file != a + b + c
    requires |a| <= w && w + n <= |a + b| && Crc32.AgreeOutside(a + b + c, file, w, n)
    ensures |q| == |b| && q != b && file == a + q + c
    ensures Crc32.AgreeOutside(b, q, w - |a|, n)
  {
    q := file[|a|..|a + b|];
    var whole := a + b + c;
    forall i | 0 <= i < |b| && !(w - |a| <= i < w - |a| + n)
      ensures b[i] == q[i]
    {
      assert whole[|a| + i] == file[|a| + i];
    }
    forall i | 0 <= i < |file|
      ensures file[i] == (a + q + c)[i]
    {
      if i < |a| || |a + b| <= i {
        assert whole[i] == file[i];
      }
    }
  }

  lemma EncodeLayout(m: Payload, q: Payload)
    ensures Encode(m) == Encode(m)[..HEADER_SIZE] + m
    ensures Frame(|m|, Crc32.Checksum(m), q) == Encode(m)[..HEADER_SIZE] + q
  {
  }

  lemma SplitAt(ms: seq<Payload>, j: nat)
    requires j < |ms|
    ensures EncodeAll(ms) == EncodeAll(ms[..j]) + Encode(ms[j]) + EncodeAll(ms[j + 1..])
  {
    hide Encode;
    assert ms == ms[..j] + ms[j..];
    EncodeAllConcat(ms[..j], ms[j..]);
    assert ms[j..][1..] == ms[j + 1..];
  }
}
