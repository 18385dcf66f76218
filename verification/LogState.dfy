/** The log on disk and in memory, as values: appending, recovery and refresh (pkg/wal/wal.go).

    A layout is what a log is meant to hold: consecutive chunks of messages, one per segment file.
    FilesOf and MemOf say what the disk and the memory of a log with that layout look like.
 */
module LogState {
  import opened Bits
  import opened Wrappers
  import opened Record
  import opened Segment
  import opened Names

  type Files = map<nat, seq<byte>>

  datatype Chunk = Chunk(base: nat, msgs: seq<Payload>)

  type Layout = seq<Chunk>

  datatype Seg = Seg(base: nat, size: nat)

  datatype IndexEntry = IndexEntry(segIdx: nat, recordIdx: int)

  /** The in-memory part of a log; active is the position of the writable segment. */
  datatype Mem = Mem(segments: seq<Seg>, active: Option<nat>, index: seq<IndexEntry>, nextIdx: nat)

  const EMPTY := Mem([], None, [], 0)

  datatype WalError = Unreadable(error: Error) | NotFound

  datatype Outcome = Outcome(mem: Mem, error: Option<WalError>)

  function Front<T>(s: seq<T>): seq<T>
    requires |s| > 0
  {
    s[..|s| - 1]
  }

  function Last<T>(s: seq<T>): T
    requires |s| > 0
  {
    s[|s| - 1]
  }

  function Messages(l: Layout): seq<Payload> {
    if |l| == 0 then [] else Messages(Front(l)) + Last(l).msgs
  }

  /** Chunks follow each other without gaps; only the last one may be empty. */
  ghost predicate WellFormed(l: Layout) {
    |l| > 0 ==>
      && WellFormed(Front(l))
      && (|l| > 1 ==> Last(Front(l)).msgs != [])
      && Last(l).base == |Messages(Front(l))|
      && AllFit(Last(l).msgs)
  }

  function FilesOf(l: Layout): Files {
    if |l| == 0 then map[] else FilesOf(Front(l))[Last(l).base := EncodeAll(Last(l).msgs)]
  }

  /** Index entries for the records lo .. hi of one segment. */
  function Entries(segIdx: nat, lo: int, hi: int): (es: seq<IndexEntry>)
    ensures |es| == if lo < hi then hi - lo else 0
    decreases hi - lo
  {
    if hi <= lo then [] else Entries(segIdx, lo, hi - 1) + [IndexEntry(segIdx, hi - 1)]
  }

  /** What recovery and refresh do with a segment they find: record it and index its records. */
  function AddSegment(mem: Mem, base: nat, size: nat, records: nat): Mem {
    mem.(segments := mem.segments + [Seg(base, size)],
         index := mem.index + Entries(|mem.segments|, 0, records),
         nextIdx := if base + records > mem.nextIdx then base + records else mem.nextIdx)
  }

  function AddChunk(mem: Mem, c: Chunk): Mem {
    AddSegment(mem, c.base, |EncodeAll(c.msgs)|, |c.msgs|)
  }

  function MemOf(l: Layout): Mem {
    if |l| == 0 then EMPTY else AddChunk(MemOf(Front(l)), Last(l)).(active := Some(|l| - 1))
  }

  // ---------- the operations of the code ----------

  /** Appending a record: roll to a new segment if there is none or it is full, then write. */
  function RollSegment(files: Files, mem: Mem): (Files, Mem) {
    var file := if mem.nextIdx in files then files[mem.nextIdx] else [];
    (files[mem.nextIdx := file],
     mem.(segments := mem.segments + [Seg(mem.nextIdx, 0)], active := Some(|mem.segments|)))
  }

  predicate NeedsRoll(mem: Mem, segmentSize: int)
    requires ActiveInRange(mem)
  {
    mem.active.None? || mem.segments[mem.active.value].size >= segmentSize
  }

  predicate ActiveInRange(mem: Mem) {
    mem.active.Some? ==> mem.active.value < |mem.segments|
  }

  function WriteRecord(files: Files, mem: Mem, m: Payload): (Files, Mem)
    requires mem.active.Some? && mem.active.value < |mem.segments|
  {
    var seg := mem.segments[mem.active.value];
    var offset := mem.nextIdx;
    (if seg.base in files then files[seg.base := files[seg.base] + Encode(m)] else files,
     mem.(segments := mem.segments[mem.active.value := Seg(seg.base, seg.size + |Encode(m)|)],
          index := mem.index + [IndexEntry(|mem.segments| - 1, offset - seg.base)],
          nextIdx := offset + 1))
  }

  function Append(files: Files, mem: Mem, segmentSize: int, m: Payload): (Files, Mem)
    requires ActiveInRange(mem)
  {
    var (files', mem') := if NeedsRoll(mem, segmentSize) then RollSegment(files, mem) else (files, mem);
    WriteRecord(files', mem', m)
  }

  /** Replaying the listed segments in order, up to the first unreadable one. */
  function Replay(files: Files, bases: seq<nat>): Outcome
    requires forall b :: b in bases ==> b in files
  {
    if |bases| == 0 then Outcome(EMPTY, None)
    else
      var before := Replay(files, Front(bases));
      if before.error.Some? then before
      else
        var r := ReadAll(files[Last(bases)]);
        if r.error.Some? then Outcome(before.mem, Some(Unreadable(r.error.value)))
        else Outcome(AddSegment(before.mem, Last(bases), |files[Last(bases)]|, |r.records|), None)
  }

  function Recover(files: Files): Outcome {
    var r := Replay(files, Sorted(files.Keys));
    if r.error.Some? || |r.mem.segments| == 0 then r
    else r.(mem := r.mem.(active := Some(|r.mem.segments| - 1)))
  }

  /** The bases of the segments a log knows. */
  function Known(mem: Mem): set<nat> {
    set i | 0 <= i < |mem.segments| :: mem.segments[i].base
  }

  /** The first half of refresh: adding the listed segments that were not known. */
  function Discover(files: Files, mem: Mem, bases: seq<nat>): Outcome
    requires forall b :: b in bases ==> b in files
  {
    if |bases| == 0 then Outcome(mem, None)
    else
      var before := Discover(files, mem, Front(bases));
      var b := Last(bases);
      if before.error.Some? || b in Known(mem) then before
      else
        var r := ReadAll(files[b]);
        if r.error.Some? then Outcome(before.mem, Some(Unreadable(r.error.value)))
        else Outcome(AddSegment(before.mem, b, |files[b]|, |r.records|), None)
  }

  /** The second half: re-reading the last segment for records written since. */
  function Reread(files: Files, mem: Mem): Outcome {
    if |mem.segments| == 0 then Outcome(mem, None)
    else
      var seg := Last(mem.segments);
      if seg.base !in files then Outcome(mem, Some(NotFound))
      else
        var r := ReadAll(files[seg.base]);
        var count := mem.nextIdx - seg.base;
        if r.error.Some? then Outcome(mem, Some(Unreadable(r.error.value)))
        else if |r.records| <= count then Outcome(mem, None)
        else Outcome(mem.(index := mem.index + Entries(|mem.segments| - 1, count, |r.records|),
                          nextIdx := seg.base + |r.records|,
                          segments := Front(mem.segments) + [Seg(seg.base, |files[seg.base]|)]), None)
  }

  function Refresh(files: Files, mem: Mem): Outcome {
    var found := Discover(files, mem, Sorted(files.Keys));
    if found.error.Some? then found else Reread(files, found.mem)
  }
}
