/** How appending packs messages into segments, and what the log's size is. */
module Packing {
  import opened Record
  import opened Segment
  import opened LogState
  import opened Recovery

  function SumSizes(segments: seq<Seg>): nat {
    if |segments| == 0 then 0 else SumSizes(Front(segments)) + Last(segments).size
  }

  /** The bytes of the records of some messages. */
  function Bytes(ms: seq<Payload>): nat {
    if |ms| == 0 then 0 else Bytes(Front(ms)) + RecordSize(|Last(ms)|)
  }

  lemma {:induction false} BytesConcat(x: seq<Payload>, y: seq<Payload>)
    ensures Bytes(x + y) == Bytes(x) + Bytes(y)
    decreases |y|
  {
    if |y| == 0 {
      assert x + y == x;
    } else {
      assert Front(x + y) == x + Front(y);
      BytesConcat(x, Front(y));
    }
  }

  lemma {:induction false} EncodedSize(ms: seq<Payload>)
    ensures |EncodeAll(ms)| == Bytes(ms)
    decreases |ms|
  {
    hide Encode;
    if |ms| > 0 {
      EncodedSize(Front(ms));
      EncodeAllConcat(Front(ms), [Last(ms)]);
      EncodeAllOne(Last(ms));
      assert ms == Front(ms) + [Last(ms)];
    }
  }

  /** The segments' sizes add up to the records of all messages. */
  lemma {:induction false} TotalIsRecords(l: Layout)
    ensures SumSizes(MemOf(l).segments) == Bytes(Messages(l))
  {
    hide EncodeAll;
    if |l| > 0 {
      TotalIsRecords(Front(l));
      EncodedSize(Last(l).msgs);
      BytesConcat(Messages(Front(l)), Last(l).msgs);
      assert Front(MemOf(l).segments) == MemOf(Front(l)).segments;
    }
  }

  /** Segments hold just enough records to reach the segment size; the last one may hold fewer. */
  ghost predicate Packed(l: Layout, segmentSize: nat) {
    forall i :: 0 <= i < |l| ==>
      && l[i].msgs != []
      && Bytes(Front(l[i].msgs)) < segmentSize
      && (i < |l| - 1 ==> Bytes(l[i].msgs) >= segmentSize)
  }

  lemma AppendPacks(l: Layout, segmentSize: nat, m: Payload)
    requires segmentSize > 0 && Packed(l, segmentSize)
    ensures Packed(AppendLayout(l, segmentSize, m), segmentSize)
  {
    hide EncodeAll;
    if |l| > 0 {
      EncodedSize(Last(l).msgs);
      assert Front(Last(l).msgs + [m]) == Last(l).msgs;
    }
    assert Front([m]) == [];
  }

  function AppendAll(l: Layout, segmentSize: int, ms: seq<Payload>): Layout {
    if |ms| == 0 then l else AppendLayout(AppendAll(l, segmentSize, Front(ms)), segmentSize, Last(ms))
  }

  lemma {:induction false} FullSegments(l: Layout, segmentSize: nat)
    requires |l| > 0 && forall i :: 0 <= i < |l| - 1 ==> Bytes(l[i].msgs) >= segmentSize
    ensures (|l| - 1) * segmentSize + Bytes(Last(l).msgs) <= Bytes(Messages(l))
  {
    hide Bytes;
    BytesConcat(Messages(Front(l)), Last(l).msgs);
    if |l| > 1 {
      FullSegments(Front(l), segmentSize);
      Times(|l| - 1, segmentSize);
    }
  }

  lemma Times(n: nat, size: nat)
    requires n > 0
    ensures n * size == (n - 1) * size + size
  {
  }

  /** Any messages appended to a fresh log with one segment size are packed: every segment but the
      last reaches the size, none does without its last record, and so the segments are few. */
  lemma {:induction false} RunPacks(segmentSize: nat, ms: seq<Payload>)
    requires segmentSize > 0 && AllFit(ms)
    ensures var l := AppendAll([], segmentSize, ms);
            && WellFormed(l) && Messages(l) == ms && Packed(l, segmentSize)
            && SumSizes(MemOf(l).segments) == Bytes(ms)
            && (|ms| > 0 ==> (|l| - 1) * segmentSize < Bytes(ms))
    decreases |ms|
  {
    hide EncodeAll, MemOf, AppendLayout;
    var l := AppendAll([], segmentSize, ms);
    if |ms| > 0 {
      RunPacks(segmentSize, Front(ms));
      var before := AppendAll([], segmentSize, Front(ms));
      AppendLayoutMessages(before, segmentSize, Last(ms));
      AppendPacks(before, segmentSize, Last(ms));
      assert ms == Front(ms) + [Last(ms)];
      FullSegments(l, segmentSize);
    }
    TotalIsRecords(l);
  }
}
