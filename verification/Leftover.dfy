/** What is left of a log on disk when the first of its segment files are gone: the files of the later
    chunks, under their old names. It is read, appended to and looked at as any log
    (pkg/wal/wal.go). */
module Leftover {
  import opened Bits
  import opened Wrappers
  import opened Record
  import opened Segment
  import opened Names
  import opened LogState
  import opened Recovery
  import R = Refresh
  import V = View

  lemma {:induction false} MessagesSplit(l: Layout, k: nat)
    requires k <= |l|
    ensures Messages(l) == Messages(l[..k]) + Messages(l[k..])
    decreases |l|
  {
    if k == |l| {
      assert l[..k] == l;
    } else {
      MessagesSplit(Front(l), k);
      assert Front(l)[..k] == l[..k] && Front(l[k..]) == Front(l)[k..];
    }
  }

  /** The memory of any chunks, wherever they begin: the index finds their messages, in order. */
  lemma {:induction false} ChunksFind(l: Layout, o: nat)
    requires o < |Messages(l)|
    ensures |MemOf(l).segments| == |l| && |MemOf(l).index| == |Messages(l)|
    ensures forall i :: 0 <= i < |l| ==> MemOf(l).segments[i].base == l[i].base
    ensures V.Finds(l, |l|, MemOf(l).index[o], Messages(l)[o])
    decreases |l|
  {
    hide EncodeAll;
    var f, c := Front(l), Last(l);
    ChunksShape(f);
    if o < |Messages(f)| {
      ChunksFind(f, o);
    } else {
      EntriesAt(|f|, 0, |c.msgs|, o - |Messages(f)|);
    }
  }

  lemma {:induction false} ChunksShape(l: Layout)
    ensures |MemOf(l).segments| == |l| && |MemOf(l).index| == |Messages(l)|
    ensures forall i :: 0 <= i < |l| ==> MemOf(l).segments[i].base == l[i].base
  {
    hide EncodeAll;
    if |l| > 0 {
      ChunksShape(Front(l));
    }
  }

  lemma BasesAre(l: Layout, k: nat)
    requires k <= |l|
    ensures |Bases(l)| == |l| && forall i :: 0 <= i < |l| ==> Bases(l)[i] == l[i].base
    ensures |Bases(l[k..])| == |l| - k && forall i :: 0 <= i < |l| - k ==> Bases(l[k..])[i] == l[k + i].base
  {
    hide Bases;
    V.BasesLong(l);
    V.BasesLong(l[k..]);
    forall i | 0 <= i < |l|
      ensures Bases(l)[i] == l[i].base
    {
      BasesAt(l, i);
    }
    forall i | 0 <= i < |l| - k
      ensures Bases(l[k..])[i] == l[k + i].base
    {
      BasesAt(l[k..], i);
    }
  }

  lemma {:induction false} KeysOfLeft(l: Layout, k: nat, b: nat)
    requires WellFormed(l) && k <= |l|
    ensures b in FilesOf(l[k..]) <==> exists i :: k <= i < |l| && l[i].base == b
    ensures b in FilesOf(l[k..]) ==> b in FilesOf(l) && FilesOf(l[k..])[b] == FilesOf(l)[b]
    decreases |l|
  {
    hide EncodeAll;
    if k < |l| {
      var f := Front(l);
      assert Front(l[k..]) == f[k..] && Last(l[k..]) == Last(l);
      KeysOfLeft(f, k, b);
      ChunkBounds(l);
      if i :| k <= i < |l| && l[i].base == b {
        assert i < |f| ==> f[i].base == b;
      }
      if b in FilesOf(f[k..]) {
        var i :| k <= i < |f| && f[i].base == b;
        assert l[i].base == b;
      }
    }
  }

  /** What is left is listed and read as the later chunks. */
  lemma LeftListed(l: Layout, k: nat)
    requires WellFormed(l) && k <= |l|
    ensures var files, kept := FilesOf(l[k..]), l[k..];
            && Sorted(files.Keys) == Bases(kept)
            && (forall b :: b in files <==> b in Bases(kept))
            && forall i :: 0 <= i < |kept| ==>
                 kept[i].base in files && files[kept[i].base] == EncodeAll(kept[i].msgs) && AllFit(kept[i].msgs)
  {
    hide EncodeAll, FilesOf, WellFormed, Sorted, Bases;
    var files, kept := FilesOf(l[k..]), l[k..];
    BasesAre(l, k);
    ChunkBounds(l);
    forall b: nat
      ensures b in files <==> b in Bases(kept)
    {
      KeysOfLeft(l, k, b);
      if i :| k <= i < |l| && l[i].base == b {
        assert Bases(kept)[i - k] == b;
      }
      if b in Bases(kept) {
        var j :| 0 <= j < |kept| && Bases(kept)[j] == b;
        assert l[k + j].base == b;
      }
    }
    forall i | 0 <= i < |kept|
      ensures kept[i].base in files && files[kept[i].base] == EncodeAll(kept[i].msgs) && AllFit(kept[i].msgs)
    {
      assert kept[i] == l[k + i];
      KeysOfLeft(l, k, l[k + i].base);
      FileAt(l, k + i);
    }
    SameMembers(Bases(kept), files.Keys);
  }

  /** Its memory: all is as before, but the index begins with the first message left. */
  lemma {:induction false} LeftShape(l: Layout, k: nat)
    requires WellFormed(l) && k < |l|
    ensures var mem := MemOf(l[k..]);
            && |mem.segments| == |l| - k && mem.active == Some(|l| - k - 1)
            && mem.nextIdx == |Messages(l)|
            && Last(mem.segments) == Seg(Last(l).base, |EncodeAll(Last(l).msgs)|)
    decreases |l|
  {
    hide EncodeAll;
    assert Front(l[k..]) == Front(l)[k..] && Last(l[k..]) == Last(l);
    if k < |l| - 1 {
      LeftShape(Front(l), k);
    } else {
      assert l[k..] == [Last(l)] && Front([Last(l)]) == [];
    }
  }

  /** Recovery accepts what is left, without an error, and numbers its messages from 0. */
  lemma LeftRecovers(l: Layout, k: nat)
    requires WellFormed(l) && k <= |l|
    ensures Recover(FilesOf(l[k..])) == Outcome(MemOf(l[k..]), None)
  {
    hide EncodeAll, FilesOf, WellFormed, Sorted, Bases, ReadAll, MemReading;
    var files, kept := FilesOf(l[k..]), l[k..];
    LeftListed(l, k);
    forall i | 0 <= i < |kept|
      ensures FileOf(files, kept[i].base) == EncodeAll(kept[i].msgs)
      ensures ReadAll(FileOf(files, kept[i].base)) == ReadResult(kept[i].msgs, None)
    {
      ReadEncoded(kept[i].msgs);
    }
    ReplayReads(files, kept);
    MemReadingShape(files, kept);
    MemReadingOwnFiles(files, kept);
  }

  /** It answers from its first message on. */
  lemma LeftReads(l: Layout, k: nat, o: nat)
    requires WellFormed(l) && k <= |l|
    ensures var kept := l[k..];
            ReadMessage(FilesOf(kept), MemOf(kept), o) ==
            if o < |Messages(kept)| then Got(o, Messages(kept)[o]) else Panics
  {
    hide EncodeAll, FilesOf, WellFormed, Bases, ReadAll, MemOf, Messages;
    var kept := l[k..];
    LeftListed(l, k);
    ChunksShape(kept);
    if o < |Messages(kept)| {
      ChunksFind(kept, o);
      ReadEncoded(kept[MemOf(kept).index[o].segIdx].msgs);
    }
  }

  // ---------- appending ----------

  /** The chunks from k on, after a message was appended. */
  function LeftAfter(l: Layout, k: nat, segmentSize: int, m: Payload): Layout
    requires k <= |l|
  {
    AppendLayout(l, segmentSize, m)[k..]
  }

  /** A log that has the last segment of l for its own, and numbers on from there, leaves the files
      that appending leaves of the later chunks: if that segment is gone, it writes nothing until it
      is full. */
  lemma FilesAppended(l: Layout, k: nat, mem: Mem, segmentSize: int, m: Payload)
    requires WellFormed(l) && V.NonEmpty(l) && |l| > 0 && k <= |l|
    requires ActiveInRange(mem) && mem.active.Some? && mem.nextIdx == |Messages(l)|
    requires mem.segments[mem.active.value] == Seg(Last(l).base, |EncodeAll(Last(l).msgs)|)
    ensures Append(FilesOf(l[k..]), mem, segmentSize, m).0 == FilesOf(LeftAfter(l, k, segmentSize, m))
  {
    hide Encode, EncodeAll, WellFormed, Messages;
    var kept, r := l[k..], LeftAfter(l, k, segmentSize, m);
    var n := |Messages(l)|;
    EncodeAllOne(m);
    if |EncodeAll(Last(l).msgs)| >= segmentSize {
      assert r == kept + [Chunk(n, [m])] && Front(r) == kept;
      NextBaseFree(l);
      KeysOfLeft(l, k, n);
      RolledFile(FilesOf(kept), mem, m);
    } else if k < |l| {
      var c := Last(l);
      assert r == Front(kept) + [Chunk(c.base, c.msgs + [m])] && Front(r) == Front(kept) && Last(kept) == c;
      EncodeAllConcat(c.msgs, [m]);
      WrittenFile(FilesOf(Front(kept)), c.base, EncodeAll(c.msgs), Encode(m));
    } else {
      assert r == [] && kept == [];
    }
  }

  lemma RolledFile(files: Files, mem: Mem, m: Payload)
    requires mem.nextIdx !in files
    ensures var (files', mem') := RollSegment(files, mem);
            mem'.active == Some(|mem'.segments| - 1)
            && WriteRecord(files', mem', m).0 == files[mem.nextIdx := Encode(m)]
  {
    hide Encode;
    assert [] + Encode(m) == Encode(m);
    assert files[mem.nextIdx := []][mem.nextIdx := Encode(m)] == files[mem.nextIdx := Encode(m)];
  }

  lemma WrittenFile(files: Files, base: nat, file: seq<byte>, more: seq<byte>)
    ensures files[base := file][base := file + more] == files[base := file + more]
  {
  }

  // ---------- looking again ----------

  lemma {:induction false} DiscoverKnown(files: Files, mem: Mem, bases: seq<nat>)
    requires forall b :: b in bases ==> b in files && b in Known(mem)
    ensures Discover(files, mem, bases) == Outcome(mem, None)
  {
    hide ReadAll, AddSegment, Known;
    if |bases| > 0 {
      DiscoverKnown(files, mem, Front(bases));
    }
  }

  lemma KnowsLeft(l: Layout, k: nat)
    requires WellFormed(l) && k <= |l|
    ensures forall b :: b in Bases(l[k..]) <==> b in Known(MemOf(l[k..]))
  {
    hide EncodeAll, WellFormed, MemOf, Bases;
    var mem, kept := MemOf(l[k..]), l[k..];
    ChunksShape(kept);
    BasesAre(l, k);
    forall b
      ensures b in Bases(kept) <==> b in Known(mem)
    {
      if b in Bases(kept) {
        var i :| 0 <= i < |kept| && Bases(kept)[i] == b;
        assert kept[i] == l[k + i] && mem.segments[i].base == b;
      }
      if b in Known(mem) {
        var i :| 0 <= i < |kept| && mem.segments[i].base == b;
        assert kept[i] == l[k + i] && Bases(kept)[i] == b;
      }
    }
  }

  /** A log of what is left that looks again and finds nothing new stays as it is. */
  lemma LeftLooks(l: Layout, k: nat)
    requires WellFormed(l) && k < |l|
    ensures LogState.Refresh(FilesOf(l[k..]), MemOf(l[k..])) == Outcome(MemOf(l[k..]), None)
  {
    hide EncodeAll, WellFormed, MemOf, Bases, FilesOf, ReadAll, Known, Sorted, Messages, Discover, Reread;
    var files, mem, c := FilesOf(l[k..]), MemOf(l[k..]), Last(l);
    LeftListed(l, k);
    LeftShape(l, k);
    KnowsLeft(l, k);
    LastChunk(l);
    assert l[k..][|l| - k - 1] == c;
    DiscoverKnown(files, mem, Bases(l[k..]));
    ReadEncoded(c.msgs);
    V.RereadIs(files, mem, c.base, c.msgs, |c.msgs|);
  }

  lemma LastChunk(l: Layout)
    requires WellFormed(l) && |l| > 0
    ensures Last(l).base + |Last(l).msgs| == |Messages(l)| && AllFit(Last(l).msgs)
  {
  }

  /** If a message was appended, it finds that message behind those it knew. */
  lemma LeftGrows(l: Layout, k: nat, segmentSize: int, m: Payload)
    requires WellFormed(l) && V.NonEmpty(l) && k < |l| && Fits(m)
    ensures var mem, r := MemOf(l[k..]), LogState.Refresh(FilesOf(LeftAfter(l, k, segmentSize, m)), MemOf(l[k..]));
            r.error == None && r.mem.nextIdx == mem.nextIdx + 1 && |r.mem.index| == |mem.index| + 1
  {
    hide EncodeAll, WellFormed, MemOf, Bases, FilesOf, ReadAll, Known, Sorted, Messages, Discover, Reread, Fits;
    var l', kept, kept', mem := AppendLayout(l, segmentSize, m), l[k..], LeftAfter(l, k, segmentSize, m), MemOf(l[k..]);
    var files, c, c' := FilesOf(kept'), Last(l), Last(l');
    AppendLayoutMessages(l, segmentSize, m);
    LeftListed(l', k);
    LeftShape(l, k);
    KnowsLeft(l, k);
    LastChunk(l);
    LastChunk(l');
    assert kept'[|kept'| - 1] == c';
    ReadEncoded(c'.msgs);
    if |EncodeAll(c.msgs)| >= segmentSize {
      assert kept' == kept + [c'];
      BasesGrow(kept, c');
      DiscoverKnown(files, mem, Bases(kept));
      NewBase(l, k);
      R.DiscoverStep(files, mem, Bases(kept), c'.base, mem, [m]);
      V.RereadIs(files, AddSegment(mem, c'.base, |files[c'.base]|, 1), c'.base, [m], 1);
    } else {
      SameBases(kept, kept');
      DiscoverKnown(files, mem, Bases(kept));
      V.RereadIs(files, mem, c.base, c'.msgs, |c.msgs|);
    }
  }

  lemma BasesGrow(l: Layout, c: Chunk)
    ensures Bases(l + [c]) == Bases(l) + [c.base]
  {
    assert Front(l + [c]) == l;
  }

  lemma SameBases(l: Layout, l': Layout)
    requires |l| == |l'| > 0 && Front(l) == Front(l') && Last(l).base == Last(l').base
    ensures Bases(l) == Bases(l')
  {
  }

  /** The next segment's name is new. */
  lemma NewBase(l: Layout, k: nat)
    requires WellFormed(l) && V.NonEmpty(l) && k < |l|
    ensures |Messages(l)| !in Known(MemOf(l[k..]))
  {
    hide EncodeAll, WellFormed, MemOf, Messages, Known, Bases;
    KnowsLeft(l, k);
    BasesAre(l, k);
    ChunkBounds(l);
    forall i | 0 <= i < |l| - k
      ensures Bases(l[k..])[i] != |Messages(l)|
    {
      assert l[k + i].msgs != [];
    }
  }

  // ---------- looking for the first time ----------

  /** Discovering files from nothing is replaying them. */
  lemma {:induction false} DiscoverIsReplay(files: Files, bases: seq<nat>)
    requires forall b :: b in bases ==> b in files
    ensures Discover(files, EMPTY, bases) == Replay(files, bases)
  {
    hide ReadAll, AddSegment;
    if |bases| > 0 {
      DiscoverIsReplay(files, Front(bases));
    }
  }

  /** A log without any memory that looks finds what recovery finds. */
  lemma LeftFound(l: Layout, k: nat)
    requires WellFormed(l) && k <= |l|
    ensures LogState.Refresh(FilesOf(l[k..]), EMPTY) == Outcome(MemOf(l[k..]).(active := None), None)
  {
    hide EncodeAll, WellFormed, MemOf, Bases, FilesOf, ReadAll, Known, Sorted, Messages, Discover, Replay, Reread,
      MemReading;
    var files, kept := FilesOf(l[k..]), l[k..];
    LeftListed(l, k);
    forall i | 0 <= i < |kept|
      ensures FileOf(files, kept[i].base) == EncodeAll(kept[i].msgs)
      ensures ReadAll(FileOf(files, kept[i].base)) == ReadResult(kept[i].msgs, None)
    {
      ReadEncoded(kept[i].msgs);
    }
    ReplayReads(files, kept);
    MemReadingOwnFiles(files, kept);
    DiscoverIsReplay(files, Bases(kept));
    var mem := MemOf(kept).(active := None);
    if k < |l| {
      LeftShape(l, k);
      LastChunk(l);
      var c := Last(l);
      assert kept[|kept| - 1] == c;
      ReadEncoded(c.msgs);
      V.RereadIs(files, mem, c.base, c.msgs, |c.msgs|);
    } else {
      ChunksShape(kept);
      V.NothingToReread(files, mem);
    }
  }
}
