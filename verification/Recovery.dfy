/** Appending keeps disk and memory in step; recovery and refresh rebuild the same memory. */
module Recovery {
  import opened Bits
  import opened Wrappers
  import opened Record
  import opened Segment
  import opened Names
  import opened LogState
  import Crc32

  /** The layout after appending m with the given segment size. */
  function AppendLayout(l: Layout, segmentSize: int, m: Payload): (r: Layout)
    ensures |r| > 0
  {
    if |l| == 0 || |EncodeAll(Last(l).msgs)| >= segmentSize
    then l + [Chunk(|Messages(l)|, [m])]
    else Front(l) + [Chunk(Last(l).base, Last(l).msgs + [m])]
  }

  /** Rolling must not meet an empty last segment, which has the base the new one would get. */
  ghost predicate CanAppend(l: Layout, segmentSize: int) {
    |l| > 0 && Last(l).msgs == [] ==> segmentSize > 0
  }

  lemma AppendLayoutMessages(l: Layout, segmentSize: int, m: Payload)
    requires WellFormed(l) && CanAppend(l, segmentSize) && Fits(m)
    ensures WellFormed(AppendLayout(l, segmentSize, m))
    ensures Messages(AppendLayout(l, segmentSize, m)) == Messages(l) + [m]
  {
    hide EncodeAll;
    var r := AppendLayout(l, segmentSize, m);
    if |l| == 0 || |EncodeAll(Last(l).msgs)| >= segmentSize {
      assert Front(r) == l;
      assert |l| > 0 && Last(l).msgs == [] ==> |EncodeAll([])| == 0 by {
        EmptyFile();
      }
    } else {
      assert Front(r) == Front(l);
    }
  }

  lemma EmptyFile()
    ensures EncodeAll([]) == []
  {
  }

  lemma {:induction false} MemOfShape(l: Layout)
    requires WellFormed(l)
    ensures |MemOf(l).segments| == |l|
    ensures MemOf(l).active == if |l| == 0 then None else Some(|l| - 1)
    ensures MemOf(l).nextIdx == |MemOf(l).index| == |Messages(l)|
    ensures forall i :: 0 <= i < |l| ==> MemOf(l).segments[i] == Seg(l[i].base, |EncodeAll(l[i].msgs)|)
  {
    hide EncodeAll;
    if |l| > 0 {
      MemOfShape(Front(l));
    }
  }

  /** Chunks follow each other in ascending order within the messages of the log. */
  lemma {:induction false} ChunkBounds(l: Layout)
    requires WellFormed(l)
    ensures forall i, j :: 0 <= i < j < |l| ==> l[i].base < l[j].base
    ensures forall i :: 0 <= i < |l| ==> l[i].base + |l[i].msgs| <= |Messages(l)| && AllFit(l[i].msgs)
  {
    hide EncodeAll;
    if |l| > 0 {
      var f := Front(l);
      ChunkBounds(f);
      assert forall i :: 0 <= i < |f| ==> l[i] == f[i];
      if |f| > 0 {
        assert Last(f).base < Last(l).base by {
          assert Messages(f) == Messages(Front(f)) + Last(f).msgs;
        }
      }
    }
  }

  lemma {:induction false} FileAt(l: Layout, i: nat)
    requires WellFormed(l) && i < |l|
    ensures l[i].base in FilesOf(l) && FilesOf(l)[l[i].base] == EncodeAll(l[i].msgs)
    decreases |l|
  {
    hide EncodeAll;
    if i < |l| - 1 {
      FileAt(Front(l), i);
      ChunkBounds(l);
    }
  }

  lemma {:induction false} FileKeys(l: Layout, b: nat)
    requires WellFormed(l)
    ensures b in FilesOf(l) <==> exists i :: 0 <= i < |l| && l[i].base == b
  {
    hide EncodeAll;
    if |l| > 0 {
      var f := Front(l);
      FileKeys(f, b);
      if b in FilesOf(f) {
        var i :| 0 <= i < |f| && f[i].base == b;
        assert l[i].base == b;
      }
      if i :| 0 <= i < |l| && l[i].base == b {
        assert i < |f| ==> f[i].base == b;
      }
    }
  }

  lemma NextBaseFree(l: Layout)
    requires WellFormed(l) && (|l| > 0 ==> Last(l).msgs != [])
    ensures |Messages(l)| !in FilesOf(l)
  {
    ChunkBounds(l);
    FileKeys(l, |Messages(l)|);
    forall i | 0 <= i < |l|
      ensures l[i].base != |Messages(l)|
    {
      assert l[i].base <= Last(l).base;
    }
  }

  /** Appending to a log in step with its disk leaves it in step, one message longer. */
  lemma AppendInStep(l: Layout, segmentSize: int, m: Payload)
    requires WellFormed(l) && CanAppend(l, segmentSize) && Fits(m)
    ensures ActiveInRange(MemOf(l))
    ensures Append(FilesOf(l), MemOf(l), segmentSize, m) ==
            (FilesOf(AppendLayout(l, segmentSize, m)), MemOf(AppendLayout(l, segmentSize, m)))
  {
    hide Encode, EncodeAll, WriteRecord, RollSegment, FilesOf, MemOf, Messages;
    MemOfShape(l);
    if |l| == 0 || |EncodeAll(Last(l).msgs)| >= segmentSize {
      EmptyFile();
      NextBaseFree(l);
      NewSegmentInStep(l, m);
    } else {
      MemOfShape(Front(l));
      SameSegmentInStep(l, m);
    }
  }

  lemma NewSegmentInStep(l: Layout, m: Payload)
    requires |Messages(l)| !in FilesOf(l) && |MemOf(l).segments| == |l| && MemOf(l).nextIdx == |Messages(l)|
    ensures var r := l + [Chunk(|Messages(l)|, [m])];
            var (files, mem) := RollSegment(FilesOf(l), MemOf(l));
            mem.active == Some(|l|) && |mem.segments| == |l| + 1
            && WriteRecord(files, mem, m) == (FilesOf(r), MemOf(r))
  {
    hide Encode, EncodeAll, AddSegment, Messages;
    EncodeAllOne(m);
    var r := l + [Chunk(|Messages(l)|, [m])];
    assert Front(r) == l;
    NewSegmentStep(FilesOf(l), MemOf(l), m);
  }

  /** If there is a file of the new segment's name already, what it has stays, the message goes behind
      it, and the segment counts the message only. */
  lemma RollsOnto(files: Files, mem: Mem, segmentSize: int, m: Payload)
    requires ActiveInRange(mem) && NeedsRoll(mem, segmentSize) && mem.nextIdx in files
    ensures var (files', mem') := Append(files, mem, segmentSize, m);
            && files' == files[mem.nextIdx := files[mem.nextIdx] + Encode(m)]
            && mem'.segments == mem.segments + [Seg(mem.nextIdx, 8 + |m|)]
  {
    hide Encode;
    assert files[mem.nextIdx := files[mem.nextIdx]] == files;
  }

  lemma NewSegmentStep(files: Files, mem: Mem, m: Payload)
    requires mem.nextIdx !in files
    ensures var (files', mem') := RollSegment(files, mem);
            mem'.active == Some(|mem.segments|) && |mem'.segments| == |mem.segments| + 1
            && WriteRecord(files', mem', m) ==
               (files[mem.nextIdx := Encode(m)],
                AddSegment(mem, mem.nextIdx, |Encode(m)|, 1).(active := Some(|mem.segments|)))
  {
    hide Encode;
    var n := |mem.segments|;
    assert Entries(n, 0, 1) == [IndexEntry(n, 0)] by {
      assert Entries(n, 0, 0) == [];
    }
    assert [] + Encode(m) == Encode(m);
    var (files', mem') := RollSegment(files, mem);
    assert mem'.segments[n := Seg(mem.nextIdx, |Encode(m)|)] == mem.segments + [Seg(mem.nextIdx, |Encode(m)|)];
    assert files'[mem.nextIdx := Encode(m)] == files[mem.nextIdx := Encode(m)];
  }

  lemma SameSegmentInStep(l: Layout, m: Payload)
    requires |l| > 0 && |MemOf(Front(l)).segments| == |l| - 1 && MemOf(Front(l)).nextIdx == Last(l).base
    ensures MemOf(l).active == Some(|l| - 1) && |MemOf(l).segments| == |l|
    ensures var r := Front(l) + [Chunk(Last(l).base, Last(l).msgs + [m])];
            WriteRecord(FilesOf(l), MemOf(l), m) == (FilesOf(r), MemOf(r))
  {
    hide Encode, EncodeAll, AddSegment, WriteRecord, Messages;
    var f, c := Front(l), Last(l);
    var r := f + [Chunk(c.base, c.msgs + [m])];
    assert Front(r) == f;
    EncodeAllConcat(c.msgs, [m]);
    EncodeAllOne(m);
    SameSegmentStep(FilesOf(f), MemOf(f), EncodeAll(c.msgs), |c.msgs|, m);
  }

  lemma SameSegmentStep(files: Files, mem: Mem, file: seq<byte>, records: nat, m: Payload)
    ensures var n := |mem.segments|;
            var base := mem.nextIdx;
            var mem' := AddSegment(mem, base, |file|, records).(active := Some(n));
            |mem'.segments| == n + 1
            && WriteRecord(files[base := file], mem', m) ==
               (files[base := file + Encode(m)],
                AddSegment(mem, base, |file + Encode(m)|, records + 1).(active := Some(n)))
  {
    hide Encode;
    var n, base := |mem.segments|, mem.nextIdx;
    var grown := Seg(base, |file + Encode(m)|);
    assert (mem.segments + [Seg(base, |file|)])[n := grown] == mem.segments + [grown];
    assert mem.index + Entries(n, 0, records + 1) == mem.index + Entries(n, 0, records) + [IndexEntry(n, records)];
    assert files[base := file][base := file + Encode(m)] == files[base := file + Encode(m)];
  }

  // ---------- recovery ----------

  function Bases(l: Layout): (bases: seq<nat>)
    ensures |bases| == |l|
  {
    if |l| == 0 then [] else Bases(Front(l)) + [Last(l).base]
  }

  lemma {:induction false} BasesAt(l: Layout, i: nat)
    requires i < |l|
    ensures Bases(l)[i] == l[i].base
    decreases |l|
  {
    if i < |l| - 1 {
      BasesAt(Front(l), i);
    }
  }

  /** The files are those of the chunks of l, and each reads, without error, as its chunk. */
  ghost predicate ReadsAs(files: Files, l: Layout) {
    && (forall b :: b in files <==> b in Bases(l))
    && (forall i :: 0 <= i < |l| ==> ReadAll(FileOf(files, l[i].base)) == ReadResult(l[i].msgs, None))
  }

  function FileOf(files: Files, base: nat): seq<byte> {
    if base in files then files[base] else []
  }

  /** The memory of a log whose segment files have the given contents, torn tails included. */
  function MemReading(files: Files, l: Layout): Mem {
    if |l| == 0 then EMPTY
    else AddSegment(MemReading(files, Front(l)), Last(l).base, |FileOf(files, Last(l).base)|, |Last(l).msgs|)
         .(active := Some(|l| - 1))
  }

  lemma {:induction false} ReplayReads(files: Files, l: Layout)
    requires forall b :: b in Bases(l) ==> b in files
    requires forall i :: 0 <= i < |l| ==> ReadAll(FileOf(files, l[i].base)) == ReadResult(l[i].msgs, None)
    ensures Replay(files, Bases(l)) == Outcome(MemReading(files, l).(active := None), None)
  {
    hide ReadAll, AddSegment;
    if |l| > 0 {
      var f, c := Front(l), Last(l);
      assert forall i :: 0 <= i < |f| ==> f[i] == l[i];
      assert Front(Bases(l)) == Bases(f) && Last(Bases(l)) == c.base;
      ReplayReads(files, f);
      assert ReadAll(files[c.base]) == ReadResult(c.msgs, None);
      AddSegmentKeepsActive(MemReading(files, f), None, c.base, |files[c.base]|, |c.msgs|);
    }
  }

  lemma AddSegmentKeepsActive(mem: Mem, active: Option<nat>, base: nat, size: nat, records: nat)
    ensures AddSegment(mem.(active := active), base, size, records) ==
            AddSegment(mem, base, size, records).(active := active)
  {
  }

  lemma {:induction false} MemReadingShape(files: Files, l: Layout)
    ensures |MemReading(files, l).segments| == |l|
  {
    if |l| > 0 {
      MemReadingShape(files, Front(l));
    }
  }

  lemma SortedBases(files: Files, l: Layout)
    requires WellFormed(l) && forall b :: b in files <==> b in Bases(l)
    ensures Sorted(files.Keys) == Bases(l)
  {
    ChunkBounds(l);
    forall i, j | 0 <= i < j < |l|
      ensures Bases(l)[i] < Bases(l)[j]
    {
      BasesAt(l, i);
      BasesAt(l, j);
    }
    AscendingUnique(Sorted(files.Keys), Bases(l));
  }

  /** Recovery rebuilds the memory from whatever the files read as: torn tails are passed over. */
  lemma RecoverReads(files: Files, l: Layout)
    requires WellFormed(l) && ReadsAs(files, l)
    ensures Recover(files) == Outcome(MemReading(files, l), None)
  {
    hide ReadAll, AddSegment, WellFormed, Replay, Sorted, Bases;
    SortedBases(files, l);
    ReplayReads(files, l);
    MemReadingShape(files, l);
  }

  lemma FilesReadAsLayout(l: Layout)
    requires WellFormed(l)
    ensures ReadsAs(FilesOf(l), l)
  {
    hide ReadAll, EncodeAll;
    forall b
      ensures b in FilesOf(l) <==> b in Bases(l)
    {
      FileKeys(l, b);
      if i :| 0 <= i < |l| && l[i].base == b {
        BasesAt(l, i);
      }
      if b in Bases(l) {
        var i :| 0 <= i < |l| && Bases(l)[i] == b;
        BasesAt(l, i);
      }
    }
    ChunkBounds(l);
    forall i | 0 <= i < |l|
      ensures ReadAll(FileOf(FilesOf(l), l[i].base)) == ReadResult(l[i].msgs, None)
    {
      FileAt(l, i);
      ReadEncoded(l[i].msgs);
    }
  }

  lemma ReplayNone(files: Files)
    ensures Replay(files, []) == Outcome(EMPTY, None)
  {
  }

  lemma ReplayNext(files: Files, bases: seq<nat>, i: nat)
    requires i < |bases| && forall b :: b in bases ==> b in files
    requires Replay(files, bases[..i]).error.None?
    ensures var before, r := Replay(files, bases[..i]).mem, ReadAll(files[bases[i]]);
            Replay(files, bases[..i + 1]) ==
            if r.error.Some? then Outcome(before, Some(Unreadable(r.error.value)))
            else Outcome(AddSegment(before, bases[i], |files[bases[i]]|, |r.records|), None)
  {
    hide ReadAll, AddSegment;
    assert Front(bases[..i + 1]) == bases[..i];
  }

  lemma {:induction false} ReplayStops(files: Files, bases: seq<nat>, k: nat)
    requires k <= |bases| && forall b :: b in bases ==> b in files
    requires Replay(files, bases[..k]).error.Some?
    ensures Replay(files, bases) == Replay(files, bases[..k])
    decreases |bases|
  {
    if k == |bases| {
      assert bases[..k] == bases;
    } else {
      assert Front(bases)[..k] == bases[..k];
      ReplayStops(files, Front(bases), k);
    }
  }

  /** Of any directory that can be read, however its segments came there: the next number is behind the
      last record of every segment, and right behind that of one. */
  lemma {:induction false} NextIsBehindAll(files: Files, bases: seq<nat>)
    requires (forall b :: b in bases ==> b in files) && Replay(files, bases).error == None
    ensures var next := Replay(files, bases).mem.nextIdx;
            && (forall b :: b in bases ==> b + |ReadAll(files[b]).records| <= next)
            && (next == 0 || exists b :: b in bases && next == b + |ReadAll(files[b]).records|)
  {
    hide ReadAll, Entries;
    if |bases| > 0 {
      NextIsBehindAll(files, Front(bases));
      assert forall b :: b in bases ==> b in Front(bases) || b == Last(bases);
    }
  }

  lemma RecoveredNext(files: Files)
    requires Recover(files).error == None
    ensures var next := Recover(files).mem.nextIdx;
            && (forall b :: b in files ==> b + |ReadAll(files[b]).records| <= next)
            && (next == 0 || exists b :: b in files && next == b + |ReadAll(files[b]).records|)
  {
    hide ReadAll, Replay, Sorted;
    NextIsBehindAll(files, Sorted(files.Keys));
  }

  /** A segment that cannot be read stops recovery there, whatever the segments after it. */
  lemma RecoverStopsAt(files: Files, l: Layout, i: nat, e: Error)
    requires WellFormed(l) && i < |l|
    requires forall b :: b in files <==> b in Bases(l)
    requires forall j :: 0 <= j < i ==> ReadAll(FileOf(files, l[j].base)) == ReadResult(l[j].msgs, None)
    requires ReadAll(FileOf(files, l[i].base)).error == Some(e)
    ensures Recover(files) == Outcome(MemReading(files, l[..i]).(active := None), Some(Unreadable(e)))
  {
    hide ReadAll, EncodeAll, WellFormed, Sorted, AddSegment, MemReading, Replay, Bases;
    SortedBases(files, l);
    BasesAt(l, i);
    BasesOfPrefix(l, i);
    ReplayReads(files, l[..i]);
    ReplayStopsAt(files, Bases(l), i, e);
  }

  lemma BasesOfPrefix(l: Layout, i: nat)
    requires i <= |l|
    ensures Bases(l)[..i] == Bases(l[..i])
  {
    forall j | 0 <= j < i
      ensures Bases(l)[j] == Bases(l[..i])[j]
    {
      BasesAt(l, j);
      BasesAt(l[..i], j);
    }
  }

  lemma ReplayStopsAt(files: Files, bases: seq<nat>, i: nat, e: Error)
    requires i < |bases| && forall b :: b in bases ==> b in files
    requires Replay(files, bases[..i]).error.None? && ReadAll(files[bases[i]]).error == Some(e)
    ensures Replay(files, bases) == Outcome(Replay(files, bases[..i]).mem, Some(Unreadable(e)))
  {
    hide ReadAll, AddSegment, Replay;
    ReplayNext(files, bases, i);
    ReplayStops(files, bases, i + 1);
  }

  /** So altering up to four consecutive payload bytes of one segment leaves a log that cannot be
      opened, and not one that opens with other messages. */
  lemma AlteredSegmentStopsRecovery(l: Layout, i: nat, k: nat, file: seq<byte>, w: nat, n: nat)
    requires WellFormed(l) && i < |l| && k < |l[i].msgs| && n <= 4
    requires var ms := l[i].msgs;
             var start := |EncodeAll(ms[..k])| + HEADER_SIZE;
             && |file| == |EncodeAll(ms)| && file != EncodeAll(ms)
             && start <= w && w + n <= start + |ms[k]|
             && Crc32.AgreeOutside(EncodeAll(ms), file, w, n)
    ensures Recover(FilesOf(l)[l[i].base := file]).error == Some(Unreadable(Corrupt))
  {
    hide ReadAll, EncodeAll, WellFormed, FilesOf, MemReading, Recover, Bases, AllFit;
    var files := FilesOf(l)[l[i].base := file];
    ChunkBounds(l);
    FourBytesDetected(l[i].msgs, k, file, w, n);
    FilesReadAsLayout(l);
    FileAt(l, i);
    forall j | 0 <= j < i
      ensures ReadAll(FileOf(files, l[j].base)) == ReadResult(l[j].msgs, None)
    {
      assert FileOf(files, l[j].base) == FileOf(FilesOf(l), l[j].base);
    }
    RecoverStopsAt(files, l, i, Corrupt);
  }

  lemma {:induction false} MemReadingOwnFiles(files: Files, l: Layout)
    requires forall i :: 0 <= i < |l| ==> FileOf(files, l[i].base) == EncodeAll(l[i].msgs)
    ensures MemReading(files, l) == MemOf(l)
  {
    hide EncodeAll, AddSegment;
    if |l| > 0 {
      MemReadingOwnFiles(files, Front(l));
    }
  }

  /** On the files of a layout, recovery gives exactly the memory of the log that wrote them. */
  lemma RecoverInStep(l: Layout)
    requires WellFormed(l)
    ensures Recover(FilesOf(l)) == Outcome(MemOf(l), None)
  {
    hide ReadAll, EncodeAll;
    FilesReadAsLayout(l);
    RecoverReads(FilesOf(l), l);
    forall i | 0 <= i < |l|
      ensures FileOf(FilesOf(l), l[i].base) == EncodeAll(l[i].msgs)
    {
      FileAt(l, i);
    }
    MemReadingOwnFiles(FilesOf(l), l);
  }

  // ---------- runs ----------

  /** What happens to a log: messages are appended, and it is reopened on the files as they are. */
  datatype Action = AppendMessage(segmentSize: int, m: Payload) | Reopen

  /** Running the code. A log that cannot be reopened keeps the memory it had. */
  function Run(files: Files, mem: Mem, actions: seq<Action>): (Files, Mem)
    decreases |actions|
  {
    if |actions| == 0 then (files, mem)
    else
      match actions[0]
      case AppendMessage(size, m) =>
        if ActiveInRange(mem) then
          var (files', mem') := Append(files, mem, size, m);
          Run(files', mem', actions[1..])
        else (files, mem)
      case Reopen =>
        var r := Recover(files);
        Run(files, if r.error.None? then r.mem else mem, actions[1..])
  }

  function Appended(actions: seq<Action>): seq<Payload> {
    if |actions| == 0 then []
    else (if actions[0].AppendMessage? then [actions[0].m] else []) + Appended(actions[1..])
  }

  ghost predicate Acceptable(actions: seq<Action>) {
    forall a :: a in actions && a.AppendMessage? ==> a.segmentSize > 0 && Fits(a.m)
  }

  /** After any appends and reopenings, with any segment sizes, the log holds the old messages and
      the new ones in order, and recovery of its disk gives its memory. */
  lemma {:induction false} RebuildEqualsIncremental(l: Layout, actions: seq<Action>) returns (r: Layout)
    requires WellFormed(l) && Acceptable(actions)
    ensures WellFormed(r) && Messages(r) == Messages(l) + Appended(actions)
    ensures Run(FilesOf(l), MemOf(l), actions) == (FilesOf(r), MemOf(r))
    ensures Recover(FilesOf(r)) == Outcome(MemOf(r), None)
    decreases |actions|
  {
    hide Append, Recover, FilesOf, MemOf, AppendLayout, Messages, WellFormed, Fits, CanAppend;
    if |actions| == 0 {
      r := l;
      RecoverInStep(l);
      assert Messages(l) + [] == Messages(l);
    } else {
      var a := actions[0];
      match a {
        case AppendMessage(size, m) =>
          RunAppends(l, actions);
          AppendLayoutMessages(l, size, m);
          r := RebuildEqualsIncremental(AppendLayout(l, size, m), actions[1..]);
          assert Messages(l) + [m] + Appended(actions[1..]) == Messages(l) + Appended(actions);
        case Reopen =>
          RunReopens(l, actions);
          r := RebuildEqualsIncremental(l, actions[1..]);
      }
    }
  }

  lemma RunAppends(l: Layout, actions: seq<Action>)
    requires WellFormed(l) && Acceptable(actions) && |actions| > 0 && actions[0].AppendMessage?
    ensures CanAppend(l, actions[0].segmentSize) && Acceptable(actions[1..])
    ensures Appended(actions) == [actions[0].m] + Appended(actions[1..])
    ensures var l' := AppendLayout(l, actions[0].segmentSize, actions[0].m);
            Run(FilesOf(l), MemOf(l), actions) == Run(FilesOf(l'), MemOf(l'), actions[1..])
  {
    hide Append, FilesOf, MemOf, AppendLayout, WellFormed, Fits, ActiveInRange;
    AppendInStep(l, actions[0].segmentSize, actions[0].m);
  }

  lemma RunReopens(l: Layout, actions: seq<Action>)
    requires WellFormed(l) && Acceptable(actions) && |actions| > 0 && actions[0].Reopen?
    ensures Acceptable(actions[1..]) && Appended(actions) == Appended(actions[1..])
    ensures Run(FilesOf(l), MemOf(l), actions) == Run(FilesOf(l), MemOf(l), actions[1..])
  {
    hide Append, Recover, FilesOf, MemOf, WellFormed, Fits, ActiveInRange;
    RecoverInStep(l);
    assert [] + Appended(actions[1..]) == Appended(actions[1..]);
  }

  // ---------- reading through the index ----------

  lemma {:induction false} EntriesAt(segIdx: nat, lo: int, hi: int, k: nat)
    requires k < hi - lo
    ensures Entries(segIdx, lo, hi)[k] == IndexEntry(segIdx, lo + k)
    decreases hi - lo
  {
    if k < hi - lo - 1 {
      EntriesAt(segIdx, lo, hi - 1, k);
    }
  }

  /** The index entry of message o names the chunk and the place within it that hold message o. */
  lemma {:induction false} IndexFinds(l: Layout, o: nat)
    requires WellFormed(l) && o < |Messages(l)|
    ensures o < |MemOf(l).index|
    ensures var e := MemOf(l).index[o];
            e.segIdx < |l| && 0 <= e.recordIdx < |l[e.segIdx].msgs|
            && l[e.segIdx].msgs[e.recordIdx] == Messages(l)[o]
    decreases |l|
  {
    hide EncodeAll;
    MemOfShape(l);
    var f := Front(l);
    MemOfShape(f);
    if o < |Messages(f)| {
      IndexFinds(f, o);
    } else {
      EntriesAt(|f|, 0, |Last(l).msgs|, o - |Messages(f)|);
    }
  }

  /** l' is l with messages appended, by whatever process, since. */
  ghost predicate Extends(l: Layout, l': Layout) {
    && |l| <= |l'|
    && (forall i :: 0 <= i < |l| - 1 ==> l'[i] == l[i])
    && (|l| > 0 ==> l'[|l| - 1].base == Last(l).base && Last(l).msgs <= l'[|l| - 1].msgs)
  }

  lemma ExtendsAppend(l: Layout, l': Layout, segmentSize: int, m: Payload)
    requires Extends(l, l')
    ensures Extends(l, AppendLayout(l', segmentSize, m))
  {
    hide EncodeAll, Messages;
  }

  lemma {:induction false} MessagesOfPrefix(l: Layout, k: nat)
    requires k <= |l|
    ensures Messages(l[..k]) <= Messages(l)
    ensures WellFormed(l) ==> WellFormed(l[..k])
    decreases |l| - k
  {
    if k < |l| {
      MessagesOfPrefix(l, k + 1);
      assert Front(l[..k + 1]) == l[..k];
    } else {
      assert l[..k] == l;
    }
  }

  lemma ExtendsMessages(l: Layout, l': Layout)
    requires Extends(l, l')
    ensures Messages(l) <= Messages(l')
  {
    if |l| > 0 {
      var k := l'[..|l|];
      assert Front(k) == Front(l);
      MessagesOfPrefix(l', |l|);
    }
  }

  /** What NextUnprocessed can return; Panics: the process panics, by an index out of range. */
  datatype Next =
    | Got(offset: nat, payload: Payload)
    | NoMessages
    | Closed
    | ReadFailed(why: WalError)
    | Inconsistent
    | Panics

  /** Reading the message at an offset below nextIdx through the index. */
  function ReadMessage(files: Files, mem: Mem, offset: nat): Next {
    if offset >= |mem.index| then Panics
    else
      var e := mem.index[offset];
      if e.segIdx >= |mem.segments| then Panics
      else if mem.segments[e.segIdx].base !in files then ReadFailed(NotFound)
      else
        var r := ReadAll(files[mem.segments[e.segIdx].base]);
        if r.error.Some? then ReadFailed(Unreadable(r.error.value))
        else if e.recordIdx >= |r.records| then Inconsistent
        else if e.recordIdx < 0 then Panics
        else Got(offset, r.records[e.recordIdx])
  }

  /** However far behind its disk, a log reads every message it knows as it was appended. */
  lemma ReadsAppended(l: Layout, l': Layout, offset: nat)
    requires WellFormed(l) && WellFormed(l') && Extends(l, l') && offset < |Messages(l)|
    ensures offset < |Messages(l')|
    ensures ReadMessage(FilesOf(l'), MemOf(l), offset) == Got(offset, Messages(l')[offset])
  {
    hide ReadAll, EncodeAll, FilesOf, MemOf, WellFormed;
    ExtendsMessages(l, l');
    IndexFinds(l, offset);
    MemOfShape(l);
    var i := MemOf(l).index[offset].segIdx;
    FileAt(l', i);
    ChunkBounds(l');
    ReadEncoded(l'[i].msgs);
    assert l[i].msgs <= l'[i].msgs && l[i].base == l'[i].base;
  }

  // ---------- appending with a writable segment that is no longer the last ----------

  /** Refresh does not update the writable segment. Appending through the i-th of the segments, the
      new message can be read back if that is the last one, or full so that a new one is created;
      and otherwise its index entry finds nothing. */
  lemma AppendThenRead(l: Layout, i: nat, segmentSize: int, m: Payload)
    requires WellFormed(l) && i < |l| && Fits(m)
    ensures i < |MemOf(l).segments|
    ensures var mem, n := MemOf(l).(active := Some(i)), |Messages(l)|;
            var (files', mem') := Append(FilesOf(l), mem, segmentSize, m);
            ReadMessage(files', mem', n) ==
            if i == |l| - 1 || |EncodeAll(l[i].msgs)| >= segmentSize then Got(n, m) else Inconsistent
  {
    hide ReadAll, EncodeAll, FilesOf, MemOf, WellFormed, Messages;
    MemOfShape(l);
    var mem, n := MemOf(l).(active := Some(i)), |Messages(l)|;
    if |EncodeAll(l[i].msgs)| >= segmentSize {
      FileToRollTo(l);
      RollThenRead(FilesOf(l), mem, m);
    } else {
      FileAt(l, i);
      FileAt(l, |l| - 1);
      ChunkBounds(l);
      if i == |l| - 1 {
        LastChunkEnds(l);
        WriteLastThenRead(FilesOf(l), mem, l[i].msgs, m);
      } else {
        EarlierChunkEnds(l, i);
        WriteEarlierThenRead(FilesOf(l), mem, Last(l).msgs, m);
      }
    }
  }

  /** A file with the base of the next segment is empty. */
  lemma FileToRollTo(l: Layout)
    requires WellFormed(l)
    ensures |Messages(l)| in FilesOf(l) ==> FilesOf(l)[|Messages(l)|] == []
  {
    hide EncodeAll, FilesOf, WellFormed, Messages;
    FileKeys(l, |Messages(l)|);
    ChunkBounds(l);
    EmptyFile();
    forall i | 0 <= i < |l| && l[i].base == |Messages(l)|
      ensures FilesOf(l)[|Messages(l)|] == []
    {
      FileAt(l, i);
      assert l[i].msgs == [];
    }
  }

  lemma LastChunkEnds(l: Layout)
    requires WellFormed(l) && |l| > 0
    ensures Last(l).base == |Messages(Front(l))|
    ensures Last(l).base + |Last(l).msgs| == |Messages(l)| && AllFit(Last(l).msgs)
  {
  }

  /** After a chunk that is not the last there are more messages than in the last chunk. */
  lemma EarlierChunkEnds(l: Layout, i: nat)
    requires WellFormed(l) && i < |l| - 1
    ensures |Messages(l)| - l[i].base > |Last(l).msgs| && AllFit(Last(l).msgs) && l[i].base < Last(l).base
  {
    hide EncodeAll, WellFormed, Messages;
    ChunkBounds(l);
    LastChunkEnds(l);
  }

  lemma RollThenRead(files: Files, mem: Mem, m: Payload)
    requires Fits(m) && |mem.index| == mem.nextIdx
    requires mem.nextIdx in files ==> files[mem.nextIdx] == []
    ensures var (files', mem') := RollSegment(files, mem);
            var (files'', mem'') := WriteRecord(files', mem', m);
            ReadMessage(files'', mem'', mem.nextIdx) == Got(mem.nextIdx, m)
  {
    hide ReadAll, Encode, EncodeAll;
    EncodeAllOne(m);
    assert [] + Encode(m) == Encode(m);
    ReadEncoded([m]);
  }

  lemma WriteLastThenRead(files: Files, mem: Mem, ms: seq<Payload>, m: Payload)
    requires AllFit(ms) && Fits(m) && |mem.index| == mem.nextIdx
    requires mem.active.Some? && mem.active.value == |mem.segments| - 1
    requires Last(mem.segments).base + |ms| == mem.nextIdx
    requires Last(mem.segments).base in files && files[Last(mem.segments).base] == EncodeAll(ms)
    ensures var (files', mem') := WriteRecord(files, mem, m);
            ReadMessage(files', mem', mem.nextIdx) == Got(mem.nextIdx, m)
  {
    hide ReadAll, Encode, EncodeAll;
    EncodeAllOne(m);
    EncodeAllConcat(ms, [m]);
    ReadEncoded(ms + [m]);
  }

  lemma WriteEarlierThenRead(files: Files, mem: Mem, ms: seq<Payload>, m: Payload)
    requires AllFit(ms) && |mem.index| == mem.nextIdx
    requires mem.active.Some? && mem.active.value < |mem.segments| - 1
    requires var seg := mem.segments[mem.active.value];
             seg.base != Last(mem.segments).base && mem.nextIdx - seg.base > |ms|
    requires Last(mem.segments).base in files && files[Last(mem.segments).base] == EncodeAll(ms)
    ensures var (files', mem') := WriteRecord(files, mem, m);
            ReadMessage(files', mem', mem.nextIdx) == Inconsistent
  {
    hide ReadAll, Encode, EncodeAll;
    ReadEncoded(ms);
  }
}
