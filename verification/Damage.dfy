/** An open log whose segment files are altered, cut or removed under it (pkg/wal/wal.go): what it
    answers, and when a look at the disk notices. */
module Damage {
  import opened Bits
  import opened Wrappers
  import opened Record
  import opened Segment
  import opened Names
  import opened LogState
  import opened Recovery
  import R = Refresh
  import Leftover
  import Crc32

  /** The index entry of message o counts from the beginning of its segment. */
  lemma {:induction false} IndexAt(l: Layout, o: nat)
    requires WellFormed(l) && o < |Messages(l)|
    ensures o < |MemOf(l).index|
    ensures var e := MemOf(l).index[o];
            e.segIdx < |l| && 0 <= e.recordIdx < |l[e.segIdx].msgs| && l[e.segIdx].base + e.recordIdx == o
    decreases |l|
  {
    hide EncodeAll;
    MemOfShape(l);
    var f := Front(l);
    MemOfShape(f);
    if o < |Messages(f)| {
      IndexAt(f, o);
    } else {
      EntriesAt(|f|, 0, |Last(l).msgs|, o - |Messages(f)|);
    }
  }

  /** Message o is in segment i. */
  predicate Holds(l: Layout, i: nat, o: nat)
    requires i < |l|
  {
    l[i].base <= o < l[i].base + |l[i].msgs|
  }

  lemma {:induction false} SegmentsApart(l: Layout, i: nat, j: nat)
    requires WellFormed(l) && i <= j < |l|
    ensures i < j ==> l[i].base + |l[i].msgs| <= l[j].base
    decreases |l|
  {
    hide EncodeAll;
    if i < j {
      if j == |l| - 1 {
        ChunkBounds(Front(l));
        assert Front(l)[i] == l[i];
      } else {
        SegmentsApart(Front(l), i, j);
      }
    }
  }

  // ---------- what it answers ----------

  /** What is read of a file for the record with a number. */
  function RecordOf(file: seq<byte>, o: nat, k: int): Next {
    var r := ReadAll(file);
    if r.error.Some? then ReadFailed(Unreadable(r.error.value))
    else if 0 <= k < |r.records| then Got(o, r.records[k])
    else Inconsistent
  }

  /** If one segment's file has other contents, whatever was appended since the log looked, the log
      answers the offsets in that segment with what is read there, or fails: with the error of
      reading, or because there are too few records. It answers every other offset with its message. */
  lemma DamagedAnswers(l: Layout, l': Layout, i: nat, file: seq<byte>, o: nat)
    requires WellFormed(l) && WellFormed(l') && Extends(l, l') && i < |l'| && o < |Messages(l)|
    ensures |Messages(l)| <= |Messages(l')|
    ensures R.NextMessage(FilesOf(l')[l'[i].base := file], MemOf(l), o) ==
            (MemOf(l), if Holds(l', i, o) then RecordOf(file, o, o - l'[i].base) else Got(o, Messages(l')[o]))
  {
    hide ReadAll, EncodeAll, FilesOf, MemOf, WellFormed, Messages, ReadMessage;
    MemOfShape(l);
    IndexAt(l, o);
    var e := MemOf(l).index[o];
    ExtendsMessages(l, l');
    SameSegment(l, l', e.segIdx);
    InSameSegment(l, l', i, o);
    ReadsAppended(l, l', o);
    ChunkBounds(l');
    if e.segIdx != i {
      ReadElsewhere(FilesOf(l'), MemOf(l), o, l'[i].base, file);
    } else {
      ReadThere(FilesOf(l')[l'[i].base := file], MemOf(l), o, file);
    }
  }

  lemma SameSegment(l: Layout, l': Layout, j: nat)
    requires Extends(l, l') && j < |l|
    ensures l[j].base == l'[j].base && l[j].msgs <= l'[j].msgs
  {
  }

  lemma InSameSegment(l: Layout, l': Layout, i: nat, o: nat)
    requires WellFormed(l) && WellFormed(l') && Extends(l, l') && i < |l'| && o < |Messages(l)|
    ensures o < |MemOf(l).index| && MemOf(l).index[o].segIdx < |l|
    ensures Holds(l', i, o) <==> MemOf(l).index[o].segIdx == i
  {
    hide EncodeAll, WellFormed, MemOf, Messages;
    IndexAt(l, o);
    var j := MemOf(l).index[o].segIdx;
    SameSegment(l, l', j);
    SegmentsApart(l', if i < j then i else j, if i < j then j else i);
  }

  lemma ReadElsewhere(files: Files, mem: Mem, o: nat, base: nat, file: seq<byte>)
    requires o < |mem.index| && mem.index[o].segIdx < |mem.segments|
    requires mem.segments[mem.index[o].segIdx].base != base
    ensures ReadMessage(files[base := file], mem, o) == ReadMessage(files, mem, o)
  {
  }

  lemma ReadThere(files: Files, mem: Mem, o: nat, file: seq<byte>)
    requires o < |mem.index| && mem.index[o].segIdx < |mem.segments| && mem.index[o].recordIdx >= 0
    requires var base := mem.segments[mem.index[o].segIdx].base; base in files && files[base] == file
    ensures ReadMessage(files, mem, o) == RecordOf(file, o, mem.index[o].recordIdx)
  {
    hide ReadAll;
  }

  /** So of a segment of which up to four consecutive payload bytes are altered it answers nothing, but
      fails as corrupt; and the messages of the other segments it answers. */
  lemma AlteredIsCorrupt(l: Layout, i: nat, k: nat, file: seq<byte>, w: nat, n: nat, o: nat)
    requires WellFormed(l) && i < |l| && k < |l[i].msgs| && n <= 4 && o < |Messages(l)|
    requires var ms := l[i].msgs;
             var start := |EncodeAll(ms[..k])| + HEADER_SIZE;
             && |file| == |EncodeAll(ms)| && file != EncodeAll(ms)
             && start <= w && w + n <= start + |ms[k]|
             && Crc32.AgreeOutside(EncodeAll(ms), file, w, n)
    ensures R.NextMessage(FilesOf(l)[l[i].base := file], MemOf(l), o).1 ==
            if l[i].base <= o < l[i].base + |l[i].msgs| then ReadFailed(Unreadable(Corrupt))
            else Got(o, Messages(l)[o])
  {
    hide ReadAll, EncodeAll, FilesOf, MemOf, WellFormed, Messages, R.NextMessage;
    ChunkBounds(l);
    FourBytesDetected(l[i].msgs, k, file, w, n);
    ItselfExtends(l);
    DamagedAnswers(l, l, i, file, o);
  }

  lemma ItselfExtends(l: Layout)
    ensures Extends(l, l)
  {
  }

  /** If a segment's file is gone it fails on its messages, and answers the others. */
  lemma MissingIsNotFound(l: Layout, i: nat, o: nat)
    requires WellFormed(l) && i < |l| && o < |Messages(l)|
    ensures R.NextMessage(FilesOf(l) - {l[i].base}, MemOf(l), o).1 ==
            if l[i].base <= o < l[i].base + |l[i].msgs| then ReadFailed(NotFound) else Got(o, Messages(l)[o])
  {
    hide ReadAll, EncodeAll, FilesOf, MemOf, WellFormed, Messages, ReadMessage;
    MemOfShape(l);
    IndexAt(l, o);
    ItselfExtends(l);
    InSameSegment(l, l, i, o);
    ReadsAppended(l, l, o);
    ChunkBounds(l);
    ReadWithout(FilesOf(l), MemOf(l), o, l[i].base);
  }

  lemma ReadWithout(files: Files, mem: Mem, o: nat, base: nat)
    requires o < |mem.index| && mem.index[o].segIdx < |mem.segments|
    ensures ReadMessage(files - {base}, mem, o) ==
            if mem.segments[mem.index[o].segIdx].base == base then ReadFailed(NotFound)
            else ReadMessage(files, mem, o)
  {
    hide ReadAll;
  }

  // ---------- when a look notices ----------

  /** Discovery reads only the files that are not known. */
  lemma {:induction false} DiscoverSame(files: Files, files': Files, mem: Mem, bases: seq<nat>)
    requires forall b :: b in bases ==> b in files && b in files' && (b !in Known(mem) ==> files[b] == files'[b])
    ensures Discover(files, mem, bases) == Discover(files', mem, bases)
  {
    hide ReadAll, AddSegment, Known;
    if |bases| > 0 {
      DiscoverSame(files, files', mem, Front(bases));
    }
  }

  /** It stops at the first of them that cannot be read. */
  lemma {:induction false} DiscoverStopsAt(files: Files, mem: Mem, bases: seq<nat>, i: nat, e: Error)
    requires (forall b :: b in bases ==> b in files) && i < |bases|
    requires Discover(files, mem, bases[..i]).error.None? && bases[i] !in Known(mem)
    requires ReadAll(files[bases[i]]).error == Some(e)
    ensures Discover(files, mem, bases) == Outcome(Discover(files, mem, bases[..i]).mem, Some(Unreadable(e)))
    decreases |bases|
  {
    hide ReadAll, AddSegment, Known;
    if i == |bases| - 1 {
      assert bases[..i] == Front(bases);
    } else {
      assert Front(bases)[..i] == bases[..i] && Front(bases)[i] == bases[i];
      DiscoverStopsAt(files, mem, Front(bases), i, e);
    }
  }

  /** Only the last segment on disk is read again, and those that are new. */
  lemma RereadSame(files: Files, files': Files, mem: Mem)
    requires |mem.segments| > 0 && var b := Last(mem.segments).base; b in files && b in files' && files[b] == files'[b]
    ensures Reread(files, mem) == Reread(files', mem)
  {
  }

  lemma RereadFails(files: Files, mem: Mem, e: Error)
    requires |mem.segments| > 0 && var b := Last(mem.segments).base; b in files && ReadAll(files[b]).error == Some(e)
    ensures Reread(files, mem) == Outcome(mem, Some(Unreadable(e)))
  {
  }

  lemma DiscoveredLast(mem: Mem, l: Layout, n: nat)
    requires R.KnowsFirst(mem, l, n) && |l| > 0
    ensures var r := R.AddChunks(mem, l[n..]); |r.segments| > 0 && Last(r.segments).base == Last(l).base
  {
    hide EncodeAll;
    assert n < |l| ==> Last(l[n..]) == Last(l);
    assert n == |l| ==> l[n..] == [];
  }

  lemma LaterBases(l: Layout, i: nat)
    requires WellFormed(l) && i < |l|
    ensures Bases(l)[..i] == Bases(l[..i]) && Bases(l)[i] == l[i].base
    ensures l[i].base !in Bases(l)[..i]
  {
    hide EncodeAll, WellFormed, Bases;
    BasesOfPrefix(l, i);
    BasesAt(l, i);
    ChunkBounds(l);
    forall j | 0 <= j < i
      ensures Bases(l)[j] != l[i].base
    {
      BasesAt(l, j);
    }
  }

  lemma SameListing(l: Layout, i: nat, file: seq<byte>)
    requires WellFormed(l) && i < |l|
    ensures var good := FilesOf(l); var files := good[l[i].base := file];
            && l[i].base in good && Sorted(good.Keys) == Sorted(files.Keys) == Bases(l)
            && forall b :: b in Bases(l) <==> b in good
  {
    hide EncodeAll, FilesOf, WellFormed, Bases, Sorted;
    FilesReadAsLayout(l);
    SortedBases(FilesOf(l), l);
    FileAt(l, i);
    assert FilesOf(l)[l[i].base := file].Keys == FilesOf(l).Keys;
  }

  lemma NewDamaged(l: Layout, l': Layout, i: nat, file: seq<byte>, e: Error)
    requires WellFormed(l) && WellFormed(l') && Extends(l, l') && |l| <= i < |l'|
    requires ReadAll(file).error == Some(e)
    ensures LogState.Refresh(FilesOf(l')[l'[i].base := file], MemOf(l)).error == Some(Unreadable(e))
  {
    hide ReadAll, EncodeAll, FilesOf, MemOf, WellFormed, Bases, Sorted, Known, Discover, Reread, Messages,
      R.AddChunks;
    var good, mem := FilesOf(l'), MemOf(l);
    var files := good[l'[i].base := file];
    SameListing(l', i, file);
    R.KnowsOwn(l, l');
    R.NewIsUnknown(mem, |l|, l', i);
    LaterBases(l', i);
    R.DiscoverAdds(mem, |l|, l', i);
    DiscoverSame(files, good, mem, Bases(l')[..i]);
    DiscoverStopsAt(files, mem, Bases(l'), i, e);
  }

  lemma KnownDamaged(l: Layout, l': Layout, i: nat, file: seq<byte>, e: Error)
    requires WellFormed(l) && WellFormed(l') && Extends(l, l') && i < |l|
    requires ReadAll(file).error == Some(e)
    ensures var r := LogState.Refresh(FilesOf(l')[l'[i].base := file], MemOf(l));
            if i == |l'| - 1 then r.error == Some(Unreadable(e))
            else r == LogState.Refresh(FilesOf(l'), MemOf(l))
  {
    hide ReadAll, EncodeAll, FilesOf, MemOf, WellFormed, Bases, Sorted, Known, Discover, Reread, Messages,
      R.AddChunks;
    var good, mem := FilesOf(l'), MemOf(l);
    var files, all := good[l'[i].base := file], R.AddChunks(mem, l'[|l|..]);
    SameListing(l', i, file);
    R.KnowsOwn(l, l');
    R.NewIsUnknown(mem, |l|, l', i);
    assert l'[..|l'|] == l';
    R.DiscoverAdds(mem, |l|, l', |l'|);
    DiscoverSame(files, good, mem, Bases(l'));
    AllAdded(mem, l', |l|);
    DiscoveredLast(mem, l', |l|);
    if i == |l'| - 1 {
      RereadFails(files, all, e);
    } else {
      FileAt(l', |l'| - 1);
      ChunkBounds(l');
      RereadSame(files, good, all);
    }
  }

  /** A log that knows the first segments of a directory looks at it when one file there cannot be
      read. It fails with that error if the segment is new to it, or the last one; otherwise it does
      not notice. */
  lemma LooksAtDamaged(l: Layout, l': Layout, i: nat, file: seq<byte>, e: Error)
    requires WellFormed(l) && WellFormed(l') && Extends(l, l') && i < |l'|
    requires ReadAll(file).error == Some(e)
    ensures var r := LogState.Refresh(FilesOf(l')[l'[i].base := file], MemOf(l));
            if i >= |l| || i == |l'| - 1 then r.error == Some(Unreadable(e))
            else r == LogState.Refresh(FilesOf(l'), MemOf(l)) && r.error == None
  {
    hide ReadAll, EncodeAll, FilesOf, MemOf, WellFormed, LogState.Refresh;
    if i >= |l| {
      NewDamaged(l, l', i, file, e);
    } else {
      KnownDamaged(l, l', i, file, e);
      if |l| < |l'| {
        R.RefreshNewSegments(l, l');
      } else {
        R.RefreshSameSegments(l, l');
      }
    }
  }

  lemma AllAdded(mem: Mem, l: Layout, n: nat)
    requires n <= |l|
    ensures l[n..|l|] == l[n..] && (n == |l| ==> R.AddChunks(mem, l[n..]) == mem)
  {
  }

  /** So a caught-up log does not wait for messages when it cannot read where they would be. */
  lemma CaughtUpFails(l: Layout, l': Layout, i: nat, file: seq<byte>, e: Error)
    requires WellFormed(l) && WellFormed(l') && Extends(l, l') && i < |l'| && (i >= |l| || i == |l'| - 1)
    requires ReadAll(file).error == Some(e)
    ensures R.NextMessage(FilesOf(l')[l'[i].base := file], MemOf(l), |Messages(l)|).1 == ReadFailed(Unreadable(e))
  {
    hide ReadAll, EncodeAll, FilesOf, MemOf, WellFormed, Messages, LogState.Refresh;
    MemOfShape(l);
    LooksAtDamaged(l, l', i, file, e);
  }

  /** A caught-up log fails if the file of its last segment is gone, and looks in vain if others are. */
  lemma LastMissing(l: Layout, i: nat)
    requires WellFormed(l) && i < |l|
    ensures R.NextMessage(FilesOf(l) - {l[i].base}, MemOf(l), |Messages(l)|) ==
            (MemOf(l), if i == |l| - 1 then ReadFailed(NotFound) else NoMessages)
  {
    hide ReadAll, EncodeAll, FilesOf, MemOf, WellFormed, Bases, Sorted, Known, Discover, Reread, Messages;
    var good, mem, base := FilesOf(l), MemOf(l), l[i].base;
    var files := good - {base};
    MemOfShape(l);
    FilesReadAsLayout(l);
    SortedBases(good, l);
    ItselfExtends(l);
    R.KnowsOwn(l, l);
    Leftover.KnowsLeft(l, 0);
    assert l[0..] == l;
    assert forall b :: b in Sorted(files.Keys) ==> b in files && b in Bases(l);
    Leftover.DiscoverKnown(files, mem, Sorted(files.Keys));
    FileAt(l, |l| - 1);
    if i == |l| - 1 {
      RereadMissing(files, mem);
    } else {
      ChunkBounds(l);
      RereadSame(files, good, mem);
      R.RefreshSameSegments(l, l);
      Leftover.DiscoverKnown(good, mem, Bases(l));
    }
  }

  lemma RereadMissing(files: Files, mem: Mem)
    requires |mem.segments| > 0 && Last(mem.segments).base !in files
    ensures Reread(files, mem) == Outcome(mem, Some(NotFound))
  {
  }
}
