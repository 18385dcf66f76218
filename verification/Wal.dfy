/** The log itself: its methods over a disk (pkg/wal/wal.go, retention.go, snapshot.go). */
module Wal {
  import opened Bits
  import opened Wrappers
  import opened Record
  import opened Segment
  import opened Names
  import opened LogState
  import opened Recovery
  import R = Refresh
  import V = View
  import Packing
  import Snap = Snapshot
  import S = Store
  import C = Cursor

  /** A copt's data directory: segment files by base, cursor, dead letters and snapshots. The layout
      and the dead messages are what has been written there. */
  class Disk {
    var files: Files
    var dead: Option<seq<byte>>
    var snapshots: map<string, seq<byte>>
    const cursor: C.JSONCursor
    ghost var layout: Layout
    ghost var deadMsgs: seq<Payload>

    constructor ()
      ensures Valid() && fresh(cursor)
      ensures layout == [] && deadMsgs == [] && snapshots == map[]
      ensures cursor.files == C.Files(C.NoFile, C.Missing) && files == map[] && dead == None
      ensures C.Loaded(cursor.files) == S.CursorState(0, 0) && !C.Broken(cursor.files)
    {
      files, dead, snapshots := map[], None, map[];
      cursor := new C.JSONCursor();
      layout, deadMsgs := [], [];
    }

    ghost predicate Valid()
      reads this
    {
      && WellFormed(layout)
      && V.NonEmpty(layout)
      && files == FilesOf(layout)
      && AllFit(deadMsgs)
      && (if dead.None? then [] else dead.value) == EncodeAll(deadMsgs)
    }

    /** Stands for listing the directory: see Names.ListingExact. */
    method ListSegments() returns (bases: seq<nat>)
      ensures Ascending(bases) && forall b :: b in bases <==> b in files
    {
      bases := Sorted(files.Keys);
    }

    /** Removes the segment files in ascending order, until a removal fails. */
    method RemoveSegments(removable: nat) returns (ok: bool)
      modifies this`files
      ensures files == FilesFrom(old(files), removable)
      ensures ok <==> files == map[]
    {
      var bases := ListSegments();
      ghost var all := files;
      AscendingUnique(bases, Sorted(files.Keys));
      for i := 0 to |bases|
        invariant i <= removable && files == FilesFrom(all, i)
      {
        if i == removable {
          OneIsLeft(all, i);
          return false;
        }
        RemovesOne(all, i);
        files := files - {bases[i]};
      }
      NoneIsLeft(all, |bases|);
      NoneIsLeft(all, removable);
      return true;
    }
  }

  /** The files without those of the first n segments. */
  function FilesFrom(files: Files, n: nat): Files {
    var bases := Sorted(files.Keys);
    if n >= |bases| then map[] else map b | b in files && b >= bases[n] :: files[b]
  }

  datatype LogError = ErrClosed | Io(why: WalError) | LoadFailed | SaveFailed | RemoveFailed | WriteFailed

  class Log {
    const disk: Disk
    const opts: S.Options
    var segments: seq<Seg>
    var active: Option<nat>
    var index: seq<IndexEntry>
    var nextIdx: nat
    var cur: S.CursorState
    var closed: bool
    /** A truncation that failed has closed the file of the writable segment. */
    var sealed: bool
    /** What the index answers. */
    ghost var view: seq<Payload>

    constructor (disk: Disk, opts: S.Options)
      ensures this.disk == disk && this.opts == opts
      ensures Mem() == EMPTY && cur == S.CursorState(0, 0) && !closed && !sealed && view == []
    {
      this.disk, this.opts := disk, opts;
      segments, active, index, nextIdx := [], None, [], 0;
      cur := S.CursorState(0, 0);
      closed, sealed := false, false;
      view := [];
    }

    function Mem(): Mem
      reads this
    {
      LogState.Mem.Mem(segments, active, index, nextIdx)
    }

    /** What the log is to its clients. */
    ghost function Abs(): S.Store
      reads this, disk, disk.cursor
    {
      S.Store(Messages(disk.layout), Bases(disk.layout), |segments|, view, nextIdx, cur, C.Loaded(disk.cursor.files),
              disk.deadMsgs)
    }

    /** The disk is sound, and the memory is that of a log which has looked at it at some times. */
    ghost predicate Valid()
      reads this, disk, disk.cursor
    {
      disk.Valid() && V.Shows(disk.layout, Mem(), Abs()) && ActiveInRange(Mem())
    }

    /** The log has read all of its disk, and may write to it. */
    ghost predicate InStep()
      reads this, disk, disk.cursor
    {
      Valid() && Mem() == MemOf(disk.layout) && !sealed
    }

    // ---------- opening ----------

    method AddFound(base: nat, size: nat, records: nat)
      modifies this
      ensures Mem() == AddSegment(old(Mem()), base, size, records)
      ensures cur == old(cur) && closed == old(closed) && sealed == old(sealed) && view == old(view)
    {
      var segIdx := |segments|;
      segments := segments + [Seg(base, size)];
      for recIdx := 0 to records
        invariant index == old(index) + Entries(segIdx, 0, recIdx)
        invariant segments == old(segments) + [Seg(base, size)] && active == old(active)
        invariant nextIdx == old(nextIdx) && cur == old(cur) && closed == old(closed) && sealed == old(sealed)
        invariant view == old(view)
      {
        index := index + [IndexEntry(segIdx, recIdx)];
      }
      if base + records > nextIdx {
        nextIdx := base + records;
      }
    }

    method Recover() returns (err: Option<WalError>)
      requires Mem() == EMPTY
      modifies this
      ensures Outcome(Mem(), err) == LogState.Recover(disk.files)
      ensures cur == old(cur) && closed == old(closed) && sealed == old(sealed)
    {
      hide ReadAll, AddSegment, Replay, Sorted;
      var bases := disk.ListSegments();
      AscendingUnique(bases, Sorted(disk.files.Keys));
      ReplayNone(disk.files);
      if |bases| == 0 {
        return None;
      }
      for i := 0 to |bases|
        invariant Outcome(Mem().(active := None), None) == Replay(disk.files, bases[..i])
        invariant active == if i == |bases| then Some(|segments| - 1) else None
        invariant |segments| == i
        invariant cur == old(cur) && closed == old(closed) && sealed == old(sealed)
      {
        ReplayNext(disk.files, bases, i);
        var file := disk.files[bases[i]];
        var r := ReadAllRecords(file);
        if r.error.Some? {
          ReplayStops(disk.files, bases, i + 1);
          return Some(Unreadable(r.error.value));
        }
        AddSegmentKeepsActive(Mem(), None, bases[i], |file|, |r.records|);
        AddSegmentCounts(Mem(), bases[i], |file|, |r.records|);
        AddFound(bases[i], |file|, |r.records|);
        if i == |bases| - 1 {
          active := Some(|segments| - 1);
        }
      }
      assert bases[..|bases|] == bases;
      return None;
    }

    /** Opens the log of a directory. A cursor ahead of the messages is accepted. */
    static method Open(disk: Disk, opts: S.Options) returns (l: Log, err: Option<LogError>)
      ensures fresh(l) && l.disk == disk && l.opts == opts && !l.closed
      ensures C.Broken(disk.cursor.files) ==> err == Some(LoadFailed)
      ensures !C.Broken(disk.cursor.files) ==>
                && l.cur == C.Loaded(disk.cursor.files)
                && LogState.Recover(disk.files).mem == l.Mem()
                && err == match LogState.Recover(disk.files).error { case None => None case Some(e) => Some(Io(e)) }
                && (disk.Valid() ==> err == None && l.InStep() && l.Abs() == S.Reopened(l.Abs()))
    {
      hide MemOf, FilesOf, WellFormed, LogState.Recover, EncodeAll, Messages, V.Shows, Bases;
      l := new Log(disk, opts);
      var state := disk.cursor.Load();
      if state.None? {
        return l, Some(LoadFailed);
      }
      l.cur := state.value;
      var e := l.Recover();
      if disk.Valid() {
        RecoverInStep(disk.layout);
        MemOfShape(disk.layout);
        V.BasesLong(disk.layout);
        l.view := Messages(disk.layout);
        V.OpenedShows(disk.layout, l.Abs());
        V.ShownValid(disk.layout, l.Mem(), l.Abs());
      }
      err := match e { case None => None case Some(why) => Some(Io(why)) };
    }

    /** The log of a new directory has nothing, and its cursor is at the beginning. */
    static method OpenEmpty(opts: S.Options) returns (l: Log, err: Option<LogError>)
      ensures fresh(l) && l.opts == opts && !l.closed && err == None && l.InStep()
      ensures l.Abs() == S.Store([], [], 0, [], 0, S.CursorState(0, 0), S.CursorState(0, 0), [])
    {
      hide MemOf, FilesOf, WellFormed, LogState.Recover, EncodeAll, V.Shows;
      EmptyLayout();
      var disk := new Disk();
      l, err := Open(disk, opts);
      MemOfShape([]);
    }

    // ---------- appending ----------

    method RollSegment()
      modifies this, disk
      ensures (disk.files, Mem()) == LogState.RollSegment(old(disk.files), old(Mem())) && !sealed
      ensures cur == old(cur) && closed == old(closed) && view == old(view)
      ensures disk.layout == old(disk.layout) && disk.deadMsgs == old(disk.deadMsgs)
      ensures disk.dead == old(disk.dead) && disk.snapshots == old(disk.snapshots)
    {
      if nextIdx !in disk.files {
        disk.files := disk.files[nextIdx := []];
      } else {
        assert disk.files[nextIdx := disk.files[nextIdx]] == disk.files;
      }
      segments := segments + [Seg(nextIdx, 0)];
      active, sealed := Some(|segments| - 1), false;
    }

    /** Writes one record to the writable segment. */
    method WriteRecord(payload: Payload)
      requires active.Some? && active.value < |segments|
      modifies this, disk
      ensures (disk.files, Mem()) == LogState.WriteRecord(old(disk.files), old(Mem()), payload)
      ensures cur == old(cur) && closed == old(closed) && sealed == old(sealed) && view == old(view)
      ensures disk.layout == old(disk.layout) && disk.deadMsgs == old(disk.deadMsgs)
      ensures disk.dead == old(disk.dead) && disk.snapshots == old(disk.snapshots)
    {
      hide Encode;
      var buf := EncodeRecord(payload);
      var seg := segments[active.value];
      if seg.base in disk.files {
        disk.files := disk.files[seg.base := disk.files[seg.base] + buf[..]];
      }
      segments := segments[active.value := Seg(seg.base, seg.size + buf.Length)];
      index := index + [IndexEntry(|segments| - 1, nextIdx - seg.base)];
      nextIdx := nextIdx + 1;
    }

    /** Appends a message and returns its offset. The size of the payload is not checked. */
    method Append(payload: Payload) returns (offset: nat, error: Option<LogError>)
      requires ActiveInRange(Mem())
      modifies this, disk
      ensures closed == old(closed) && cur == old(cur)
      ensures disk.dead == old(disk.dead) && disk.deadMsgs == old(disk.deadMsgs)
      ensures disk.snapshots == old(disk.snapshots)
      ensures old(closed) ==> error == Some(ErrClosed) && disk.files == old(disk.files) && Mem() == old(Mem())
      ensures !old(closed) && old(sealed && !NeedsRoll(Mem(), opts.segmentSize)) ==>
                error == Some(WriteFailed) && disk.files == old(disk.files) && Mem() == old(Mem())
      ensures !old(closed) && !old(sealed && !NeedsRoll(Mem(), opts.segmentSize)) ==>
                && error == None && offset == old(nextIdx)
                && (disk.files, Mem()) == LogState.Append(old(disk.files), old(Mem()), opts.segmentSize, payload)
      ensures !old(closed) && old(InStep()) && Fits(payload) ==>
                && InStep()
                && disk.layout == AppendLayout(old(disk.layout), opts.segmentSize, payload)
                && Messages(disk.layout) == old(Messages(disk.layout)) + [payload]
                && Abs() == S.Reopened(Abs()).(cur := cur)
                && offset == |old(Messages(disk.layout))|
    {
      hide MemOf, FilesOf, WellFormed, LogState.RollSegment, LogState.WriteRecord, Messages, AppendLayout, Encode,
        EncodeAll, Fits, CanAppend, V.Shows, V.NonEmpty, Bases;
      if closed {
        return 0, Some(ErrClosed);
      }
      ghost var step := InStep() && Fits(payload);
      ghost var l, s := disk.layout, Abs();
      RollKeepsRange(disk.files, Mem());
      if active.None? || segments[active.value].size >= opts.segmentSize {
        RollSegment();
      } else if sealed {
        return 0, Some(WriteFailed);
      }
      offset := nextIdx;
      WriteRecord(payload);
      if step {
        V.OwnAppendShows(l, s, opts.segmentSize, payload);
        disk.layout := AppendLayout(l, opts.segmentSize, payload);
        view := Messages(disk.layout);
      }
      return offset, None;
    }

    // ---------- reading ----------

    /** Looks for records appended by other processes. */
    method Refresh() returns (err: Option<WalError>)
      modifies this
      ensures Outcome(Mem(), err) == LogState.Refresh(disk.files, old(Mem()))
      ensures cur == old(cur) && closed == old(closed) && sealed == old(sealed) && view == old(view)
    {
      hide ReadAll, AddSegment, Discover, Sorted, Known;
      ghost var mem := Mem();
      var bases := disk.ListSegments();
      AscendingUnique(bases, Sorted(disk.files.Keys));
      var known: set<nat> := {};
      for i := 0 to |segments|
        invariant known == set j | 0 <= j < i :: segments[j].base
      {
        known := known + {segments[i].base};
      }
      KnownIs(mem, known);
      R.DiscoverNothing(disk.files, mem);
      for i := 0 to |bases|
        invariant Outcome(Mem(), None) == Discover(disk.files, mem, bases[..i])
        invariant cur == old(cur) && closed == old(closed) && sealed == old(sealed) && view == old(view)
      {
        DiscoverNext(disk.files, mem, bases, i);
        if bases[i] in known {
          continue;
        }
        var file := disk.files[bases[i]];
        var r := ReadAllRecords(file);
        if r.error.Some? {
          DiscoverStops(disk.files, mem, bases, i + 1);
          return Some(Unreadable(r.error.value));
        }
        AddFound(bases[i], |file|, |r.records|);
      }
      assert bases[..|bases|] == bases;
      err := Reread();
    }

    /** Looks at the last known segment again. */
    method Reread() returns (err: Option<WalError>)
      modifies this
      ensures Outcome(Mem(), err) == LogState.Reread(disk.files, old(Mem()))
      ensures cur == old(cur) && closed == old(closed) && sealed == old(sealed) && view == old(view)
    {
      hide ReadAll;
      if |segments| == 0 {
        return None;
      }
      var seg := segments[|segments| - 1];
      if seg.base !in disk.files {
        return Some(NotFound);
      }
      var file := disk.files[seg.base];
      var r := ReadAllRecords(file);
      if r.error.Some? {
        return Some(Unreadable(r.error.value));
      }
      var knownCount := nextIdx - seg.base;
      if |r.records| > knownCount {
        var segIdx := |segments| - 1;
        for recIdx := knownCount to |r.records|
          invariant index == old(index) + Entries(segIdx, knownCount, recIdx)
          invariant segments == old(segments) && active == old(active) && nextIdx == old(nextIdx)
          invariant cur == old(cur) && closed == old(closed) && sealed == old(sealed) && view == old(view)
        {
          index := index + [IndexEntry(segIdx, recIdx)];
        }
        nextIdx := seg.base + |r.records|;
        segments := segments[segIdx := Seg(seg.base, |file|)];
      }
      return None;
    }

    /** The next message that has not been consumed: of a sound disk, what the store answers after a
        look, if it looks. */
    method NextUnprocessed() returns (next: Next)
      modifies this
      ensures cur == old(cur) && closed == old(closed) && sealed == old(sealed)
      ensures old(closed) ==> next == Closed && Mem() == old(Mem()) && view == old(view)
      ensures !old(closed) ==> (Mem(), next) == R.NextMessage(disk.files, old(Mem()), cur.consumed)
      ensures !old(closed) && old(Valid()) ==>
                && Valid() && Abs() == S.Looked(old(Abs()))
                && next == V.Reply(S.Answered(Abs()))
                && (old(InStep()) ==> InStep())
    {
      hide MemOf, FilesOf, WellFormed, LogState.Refresh, Messages, ReadMessage, ReadAll, V.Shows, S.Look, Bases;
      if closed {
        return Closed;
      }
      ghost var mem, s, valid := Mem(), Abs(), Valid();
      var offset := cur.consumed;
      if offset >= nextIdx {
        var err := Refresh();
        if err.Some? {
          next := ReadFailed(err.value);
        } else if offset >= nextIdx {
          next := NoMessages;
        } else {
          next := ReadOne(offset);
        }
      } else {
        next := ReadOne(offset);
      }
      assert (Mem(), next) == R.NextMessage(disk.files, mem, offset);
      if valid {
        V.ShownValid(disk.layout, mem, s);
        V.NextShows(disk.layout, mem, s);
        view := S.Looked(s).view;
        V.ShownValid(disk.layout, Mem(), S.Looked(s));
        assert Abs() == S.Looked(s);
        V.ShownMessages(disk.layout, mem, s);
        if mem == MemOf(disk.layout) {
          R.OwnRefresh(disk.layout, mem.active);
        }
        MoreSegments(mem, Mem());
      }
    }

    /** Reads a whole segment for one of its records. */
    method ReadOne(offset: nat) returns (next: Next)
      ensures next == ReadMessage(disk.files, Mem(), offset)
    {
      hide ReadAll;
      if offset >= |index| {
        return Panics;
      }
      var entry := index[offset];
      if entry.segIdx >= |segments| {
        return Panics;
      }
      var seg := segments[entry.segIdx];
      if seg.base !in disk.files {
        return ReadFailed(NotFound);
      }
      var r := ReadAllRecords(disk.files[seg.base]);
      if r.error.Some? {
        return ReadFailed(Unreadable(r.error.value));
      }
      if entry.recordIdx >= |r.records| {
        return Inconsistent;
      }
      if entry.recordIdx < 0 {
        return Panics;
      }
      return Got(offset, r.records[entry.recordIdx]);
    }

    // ---------- the cursor ----------

    method MarkProcessed(offset: nat, fault: C.Fault) returns (error: Option<LogError>)
      modifies this, disk.cursor
      ensures closed == old(closed) && Mem() == old(Mem()) && view == old(view)
      ensures old(closed) ==> error == Some(ErrClosed) && cur == old(cur) && disk.cursor.files == old(disk.cursor.files)
      ensures !old(closed) ==>
                && (error == None <==> fault == C.Fine)
                && Abs() == S.MarkProcessed(old(Abs()), offset, error == None)
      ensures old(Valid()) ==> Valid()
      ensures !C.Broken(old(disk.cursor.files)) ==> !C.Broken(disk.cursor.files)
    {
      hide V.Shows, FilesOf, MemOf, WellFormed, Messages, Bases, EncodeAll;
      ghost var s, valid := Abs(), Valid();
      if closed {
        return Some(ErrClosed);
      }
      if offset + 1 > cur.consumed {
        cur := cur.(consumed := offset + 1);
      }
      var ok := disk.cursor.Save(cur, fault);
      if valid {
        V.ShowsAnyCursor(disk.layout, Mem(), s, Abs());
      }
      return if ok then None else Some(SaveFailed);
    }

    method MarkPostProcessed(offset: nat, fault: C.Fault) returns (error: Option<LogError>)
      modifies this, disk.cursor
      ensures closed == old(closed) && Mem() == old(Mem()) && view == old(view)
      ensures old(closed) ==> error == Some(ErrClosed) && cur == old(cur) && disk.cursor.files == old(disk.cursor.files)
      ensures !old(closed) ==>
                && (error == None <==> fault == C.Fine)
                && Abs() == S.MarkPostProcessed(old(Abs()), offset, error == None)
      ensures old(Valid()) ==> Valid()
      ensures !C.Broken(old(disk.cursor.files)) ==> !C.Broken(disk.cursor.files)
    {
      hide V.Shows, FilesOf, MemOf, WellFormed, Messages, Bases, EncodeAll;
      ghost var s, valid := Abs(), Valid();
      if closed {
        return Some(ErrClosed);
      }
      if offset > cur.postProcessed {
        cur := cur.(postProcessed := offset);
      }
      var ok := disk.cursor.Save(cur, fault);
      if valid {
        V.ShowsAnyCursor(disk.layout, Mem(), s, Abs());
      }
      return if ok then None else Some(SaveFailed);
    }

    // ---------- dead letters ----------

    /** The first half of DeadLetter: the payload is written behind the dead letters. */
    method WriteDead(payload: Payload)
      modifies disk`dead, disk`deadMsgs
      ensures disk.dead == Some((if old(disk.dead).None? then [] else old(disk.dead).value) + Encode(payload))
      ensures Abs() == S.WriteDead(old(Abs()), payload)
      ensures old(Valid()) && Fits(payload) ==> Valid()
    {
      hide Encode, EncodeAll, FilesOf, MemOf, WellFormed, Messages, V.Shows, Bases;
      ghost var s, valid := Abs(), Valid();
      var buf := EncodeRecord(payload);
      disk.dead := Some((if disk.dead.None? then [] else disk.dead.value) + buf[..]);
      EncodeAllConcat(disk.deadMsgs, [payload]);
      EncodeAllOne(payload);
      disk.deadMsgs := disk.deadMsgs + [payload];
      if valid {
        V.ShowsAnyCursor(disk.layout, Mem(), s, Abs());
      }
    }

    /** Writes the payload behind the dead letters, then advances the cursor. A fault of the cursor
        leaves the dead letter written. */
    method DeadLetter(offset: nat, payload: Payload, fault: C.Fault) returns (error: Option<LogError>)
      modifies this, disk`dead, disk`deadMsgs, disk.cursor
      ensures closed == old(closed) && Mem() == old(Mem()) && view == old(view)
      ensures old(closed) ==> error == Some(ErrClosed) && cur == old(cur) && disk.dead == old(disk.dead)
                              && disk.cursor.files == old(disk.cursor.files)
      ensures !old(closed) ==>
                && (error == None <==> fault == C.Fine)
                && disk.dead == Some((if old(disk.dead).None? then [] else old(disk.dead).value) + Encode(payload))
                && Abs() == S.DeadLetter(old(Abs()), offset, payload, error == None)
                && (old(Valid()) && Fits(payload) ==> Valid())
    {
      hide Encode, EncodeAll, FilesOf, MemOf, WellFormed, Messages, V.Shows, Bases;
      if closed {
        return Some(ErrClosed);
      }
      WriteDead(payload);
      error := MarkProcessed(offset, fault);
    }

    method ReadDeadLetters() returns (r: ReadResult)
      ensures r == if disk.dead.None? then ReadResult([], None) else ReadAll(disk.dead.value)
      ensures disk.Valid() ==> r == ReadResult(disk.deadMsgs, None)
    {
      hide ReadAll, EncodeAll;
      if disk.Valid() {
        ReadEncoded(disk.deadMsgs);
        EmptyFile();
        assert disk.dead.None? ==> disk.deadMsgs == [] by {
          Packing.EncodedSize(disk.deadMsgs);
          NoBytesNoMessages(disk.deadMsgs);
        }
      }
      if disk.dead.None? {
        return ReadResult([], None);
      }
      r := ReadAllRecords(disk.dead.value);
    }

    // ---------- retention ----------

    method RetentionExceeded() returns (exceeded: bool)
      ensures exceeded <==> (opts.maxMessages > 0 && cur.consumed > opts.maxMessages)
                            || (opts.maxBytes > 0 && Packing.SumSizes(segments) > opts.maxBytes)
      ensures Valid() ==> exceeded == S.RetentionExceeded(Abs(), opts)
    {
      hide FilesOf, MemOf, WellFormed, Messages, EncodeAll, Bases, S.Valid, Packing.Bytes, Packing.SumSizes;
      if opts.maxMessages > 0 && cur.consumed > opts.maxMessages {
        return true;
      }
      if opts.maxBytes > 0 {
        var total := TotalBytes();
        if total > opts.maxBytes {
          return true;
        }
      }
      return false;
    }

    method TotalBytes() returns (total: nat)
      ensures total == Packing.SumSizes(segments)
    {
      total := 0;
      for i := 0 to |segments|
        invariant total == Packing.SumSizes(segments[..i])
      {
        assert Front(segments[..i + 1]) == segments[..i];
        total := total + segments[i].size;
      }
      assert segments[..|segments|] == segments;
    }

    method Depth() returns (depth: nat)
      ensures depth == S.Depth(Abs())
      ensures cur.consumed <= nextIdx ==> depth + cur.consumed == nextIdx
      ensures cur.consumed > nextIdx ==> depth == 0
      ensures InStep() && cur.consumed <= |Messages(disk.layout)| ==>
                depth + cur.consumed == |Messages(disk.layout)|
    {
      depth := if nextIdx > cur.consumed then nextIdx - cur.consumed else 0;
    }

    /** Copies the segments to a temporary file that is renamed to dest. Nothing is left at dest if
        a segment cannot be copied. */
    method Snapshot(dest: string) returns (error: Option<LogError>)
      modifies disk`snapshots
      ensures closed ==> error == Some(ErrClosed)
      ensures error.Some? ==> disk.snapshots == old(disk.snapshots)
      ensures !closed ==> (error == None <==> forall s :: s in segments ==> s.base in disk.files)
      ensures error == None ==>
                && (forall s :: s in segments ==> s.base in disk.files)
                && disk.snapshots == old(disk.snapshots)[dest := Snap.Contents(disk.files, segments)]
      ensures !closed && Valid() ==>
                && error == None
                && Snap.HeaderVersion(disk.snapshots[dest]) == Some(Snap.SNAPSHOT_VERSION)
                && S.Valid(Abs())
                && ReadAll(disk.snapshots[dest][Snap.SNAPSHOT_HEADER_SIZE..]) == ReadResult(S.Snapshot(Abs()), None)
    {
      hide FilesOf, MemOf, WellFormed, Messages, ReadAll, Snap.HeaderVersion, Snap.Contents, V.Shows, Bases, S.Valid;
      if closed {
        return Some(ErrClosed);
      }
      if Valid() {
        V.ShownValid(disk.layout, Mem(), Abs());
        V.ShownSegments(disk.layout, Mem(), Abs());
        Snap.SnapshotRoundTrip(disk.layout, segments);
        V.PrefixEnds(disk.layout, Abs(), |segments|);
      }
      var temp := Snap.Header();
      NoContents(disk.files);
      for i := 0 to |segments|
        invariant forall s :: s in segments[..i] ==> s.base in disk.files
        invariant temp == Snap.Contents(disk.files, segments[..i])
        invariant disk.snapshots == old(disk.snapshots)
      {
        if segments[i].base !in disk.files {
          return Some(Io(NotFound));
        }
        ContentsNext(disk.files, segments, i);
        temp := temp + disk.files[segments[i].base];
      }
      assert segments[..|segments|] == segments;
      disk.snapshots := disk.snapshots[dest := temp];
      return None;
    }

    /** Deletes every segment file there is, known or not, and then resets the cursor. If a removal
        fails, the files before it are gone, and the log is as it was but for its writable segment,
        whose file it has closed. */
    method Truncate(removable: nat, fault: C.Fault) returns (error: Option<LogError>)
      modifies this, disk, disk.cursor
      ensures closed == old(closed)
      ensures disk.dead == old(disk.dead) && disk.deadMsgs == old(disk.deadMsgs)
      ensures disk.snapshots == old(disk.snapshots)
      ensures old(closed) ==> error == Some(ErrClosed) && disk.files == old(disk.files)
      ensures !old(closed) ==> disk.files == FilesFrom(old(disk.files), removable)
      ensures old(closed) || disk.files != map[] ==>
                && error == Some(if old(closed) then ErrClosed else RemoveFailed)
                && Mem() == old(Mem()) && cur == old(cur) && view == old(view) && disk.layout == old(disk.layout)
                && sealed == (!old(closed) || old(sealed))
                && disk.cursor.files == old(disk.cursor.files)
      ensures !old(closed) && disk.files == map[] ==>
                && (error == None <==> fault == C.Fine)
                && Mem() == EMPTY && disk.layout == [] && cur == S.CursorState(0, 0)
                && Abs() == S.Truncate(old(Abs()), error == None)
                && (old(disk.Valid()) ==> InStep())
      ensures !C.Broken(old(disk.cursor.files)) ==> !C.Broken(disk.cursor.files)
    {
      hide EncodeAll, FilesOf, MemOf, WellFormed, Messages, V.Shows, FilesFrom, Bases;
      EmptyLayout();
      if closed {
        return Some(ErrClosed);
      }
      var removed := disk.RemoveSegments(removable);
      sealed := !removed;
      if !removed {
        return Some(RemoveFailed);
      }
      disk.layout, view := [], [];
      segments, active, index, nextIdx := [], None, [], 0;
      cur := S.CursorState(0, 0);
      var ok := disk.cursor.Save(cur, fault);
      V.OpenedShows([], Abs());
      return if ok then None else Some(SaveFailed);
    }

    method Close()
      modifies this
      ensures closed && Mem() == old(Mem()) && cur == old(cur) && view == old(view)
    {
      closed := true;
    }

    // ---------- another process ----------

    /** Appends while another log of the same disk is open, which goes on showing the disk. */
    method AppendBeside(payload: Payload, ghost reader: Log)
      requires InStep() && !closed && Fits(payload)
      requires reader != this && reader.disk == disk && reader.Valid()
      modifies this, disk
      ensures InStep() && !closed && reader.Valid()
      ensures S.Valid(old(reader.Abs()))
      ensures reader.Abs() == S.Append(old(reader.Abs()), S.Appended(opts.segmentSize, payload))
      ensures disk.snapshots == old(disk.snapshots)
    {
      hide FilesOf, MemOf, WellFormed, Messages, AppendLayout, EncodeAll, Fits, V.Shows, S.Append, Bases, S.Valid,
        V.NonEmpty;
      V.ReaderSees(disk.layout, reader.Mem(), reader.Abs(), opts.segmentSize, payload);
      ghost var s := reader.Abs();
      var _, _ := Append(payload);
      assert reader.Abs() == s.(msgs := Messages(disk.layout), bases := Bases(disk.layout));
    }

    /** A process that opens its own log of the directory and appends to it. A reader with an open
        log stays valid: it sees the same store, grown by the messages. */
    static method Send(disk: Disk, opts: S.Options, ms: seq<Payload>, ghost reader: Log)
      requires disk.Valid() && !C.Broken(disk.cursor.files) && AllFit(ms)
      requires reader.disk == disk && reader.Valid()
      modifies disk
      ensures reader.Valid() && S.Valid(old(reader.Abs()))
      ensures reader.Abs() == S.Grow(old(reader.Abs()), Sent(opts.segmentSize, ms))
      ensures disk.snapshots == old(disk.snapshots)
    {
      hide FilesOf, MemOf, WellFormed, Messages, AppendLayout, EncodeAll, Fits, Extends, V.Shows, S.Grow, S.Append,
        Bases,
        S.Valid, V.NonEmpty;
      ghost var before := reader.Abs();
      V.ShownValid(disk.layout, reader.Mem(), before);
      var l, err := Open(disk, opts);
      NothingGrown(before, opts.segmentSize);
      for i := 0 to |ms|
        invariant l.disk == disk && l.opts == opts && fresh(l) && l.InStep() && !l.closed
        invariant reader.Valid() && reader.Abs() == S.Grow(before, Sent(opts.segmentSize, ms[..i]))
        invariant disk.snapshots == old(disk.snapshots)
      {
        FitsAt(ms, i);
        l.AppendBeside(ms[i], reader);
        GrownByOne(before, opts.segmentSize, ms, i);
      }
      assert ms[..|ms|] == ms;
    }
  }

  /** Messages as they are appended by a process with one segment size. */
  function Sent(segmentSize: int, ms: seq<Payload>): (appends: seq<S.Appended>)
    ensures |appends| == |ms|
  {
    seq(|ms|, i requires 0 <= i < |ms| => S.Appended(segmentSize, ms[i]))
  }

  lemma FitsAt(ms: seq<Payload>, i: nat)
    requires AllFit(ms) && i < |ms|
    ensures Fits(ms[i])
  {
  }

  lemma NothingGrown(s: S.Store, segmentSize: int)
    requires S.Valid(s)
    ensures S.Grow(s, Sent(segmentSize, [])) == s
  {
  }

  lemma GrownByOne(s: S.Store, segmentSize: int, ms: seq<Payload>, i: nat)
    requires S.Valid(s) && i < |ms|
    ensures var grown := S.Grow(s, Sent(segmentSize, ms[..i]));
            S.Grow(s, Sent(segmentSize, ms[..i + 1])) == S.Append(grown, S.Appended(segmentSize, ms[i]))
  {
    hide S.Append, S.Valid;
    var as' := Sent(segmentSize, ms[..i + 1]);
    assert as'[..i] == Sent(segmentSize, ms[..i]);
  }

  lemma MoreSegments(mem: Mem, mem': Mem)
    requires ActiveInRange(mem) && mem'.active == mem.active && |mem.segments| <= |mem'.segments|
    ensures ActiveInRange(mem')
  {
  }

  lemma RemovesOne(files: Files, i: nat)
    requires i < |Sorted(files.Keys)|
    ensures FilesFrom(files, i) - {Sorted(files.Keys)[i]} == FilesFrom(files, i + 1)
  {
    hide Sorted;
    var bases := Sorted(files.Keys);
    forall b | b in files
      ensures b >= bases[i] && b != bases[i] <==> i + 1 < |bases| && b >= bases[i + 1]
    {
      NextInOrder(bases, i, b);
    }
  }

  lemma NextInOrder(bases: seq<nat>, i: nat, b: nat)
    requires Ascending(bases) && i < |bases| && b in bases
    ensures b >= bases[i] && b != bases[i] <==> i + 1 < |bases| && b >= bases[i + 1]
  {
    var j :| 0 <= j < |bases| && bases[j] == b;
    assert j > i <==> b > bases[i];
  }

  lemma OneIsLeft(files: Files, i: nat)
    requires i < |Sorted(files.Keys)|
    ensures FilesFrom(files, i) != map[]
  {
    var bases := Sorted(files.Keys);
    assert bases[i] in bases;
    assert bases[i] in FilesFrom(files, i);
  }

  lemma NoneIsLeft(files: Files, i: nat)
    requires i >= |Sorted(files.Keys)|
    ensures FilesFrom(files, i) == map[]
  {
  }

  lemma NoContents(files: Files)
    ensures Snap.Contents(files, []) == Snap.Header()
  {
    assert Snap.Header() + [] == Snap.Header();
  }

  lemma ContentsNext(files: Files, segments: seq<Seg>, i: nat)
    requires i < |segments| && forall s :: s in segments[..i + 1] ==> s.base in files
    ensures segments[i].base in files && forall s :: s in segments[..i] ==> s.base in files
    ensures Snap.Contents(files, segments[..i + 1]) ==
            Snap.Contents(files, segments[..i]) + files[segments[i].base]
  {
    assert Front(segments[..i + 1]) == segments[..i];
    assert segments[i] in segments[..i + 1];
  }

  lemma EmptyLayout()
    ensures WellFormed([]) && FilesOf([]) == map[] && MemOf([]) == EMPTY && Messages([]) == [] && Bases([]) == []
            && V.NonEmpty([])
  {
  }

  lemma NoBytesNoMessages(ms: seq<Payload>)
    ensures |EncodeAll(ms)| == 0 ==> ms == []
  {
  }

  lemma KnownIs(mem: Mem, known: set<nat>)
    requires known == set j | 0 <= j < |mem.segments| :: mem.segments[j].base
    ensures known == Known(mem)
  {
  }

  lemma DiscoverNext(files: Files, mem: Mem, bases: seq<nat>, i: nat)
    requires i < |bases| && forall b :: b in bases ==> b in files
    requires Discover(files, mem, bases[..i]).error.None?
    ensures var before, r := Discover(files, mem, bases[..i]).mem, ReadAll(files[bases[i]]);
            Discover(files, mem, bases[..i + 1]) ==
            if bases[i] in Known(mem) then Outcome(before, None)
            else if r.error.Some? then Outcome(before, Some(Unreadable(r.error.value)))
            else Outcome(AddSegment(before, bases[i], |files[bases[i]]|, |r.records|), None)
  {
    hide ReadAll, AddSegment, Known;
    assert Front(bases[..i + 1]) == bases[..i];
  }

  lemma {:induction false} DiscoverStops(files: Files, mem: Mem, bases: seq<nat>, k: nat)
    requires k <= |bases| && forall b :: b in bases ==> b in files
    requires Discover(files, mem, bases[..k]).error.Some?
    ensures Discover(files, mem, bases) == Discover(files, mem, bases[..k])
    decreases |bases|
  {
    hide ReadAll, AddSegment, Known;
    if k == |bases| {
      assert bases[..k] == bases;
    } else {
      assert Front(bases)[..k] == bases[..k];
      DiscoverStops(files, mem, Front(bases), k);
    }
  }

  lemma RollKeepsRange(files: Files, mem: Mem)
    ensures var mem' := LogState.RollSegment(files, mem).1;
            mem'.active == Some(|mem.segments|) && |mem'.segments| == |mem.segments| + 1
            && mem'.nextIdx == mem.nextIdx
  {
  }

  lemma AddSegmentCounts(mem: Mem, base: nat, size: nat, records: nat)
    ensures |AddSegment(mem, base, size, records).segments| == |mem.segments| + 1
    ensures AddSegment(mem, base, size, records).active == mem.active
  {
  }
}
