/** The store that the disk and the memory of a log stand for, whatever looks the log has made. */
module View {
  import opened Wrappers
  import opened Record
  import opened Segment
  import opened Names
  import opened LogState
  import opened Recovery
  import opened Packing
  import R = Refresh
  import S = Store

  /** As appending leaves it, every segment holds a message. */
  ghost predicate NonEmpty(l: Layout) {
    forall i :: 0 <= i < |l| ==> l[i].msgs != []
  }

  /** The memory knows the first n segments, its index answers view, and its sizes add up to it. */
  ghost predicate Reads(l: Layout, mem: Mem, n: nat, view: seq<Payload>) {
    && R.KnowsFirst(mem, l, n)
    && |mem.index| == |view|
    && (forall j :: 0 <= j < |view| ==> Finds(l, n, mem.index[j], view[j]))
    && SumSizes(mem.segments) == Bytes(view)
  }

  ghost predicate Finds(l: Layout, n: nat, e: IndexEntry, m: Payload)
    requires n <= |l|
  {
    e.segIdx < n && 0 <= e.recordIdx < |l[e.segIdx].msgs| && l[e.segIdx].msgs[e.recordIdx] == m
  }

  /** The bytes of the last known segment that the log takes account of. */
  ghost predicate LastSized(l: Layout, mem: Mem) {
    |mem.segments| > 0 ==>
      && |mem.segments| <= |l|
      && var c := l[|mem.segments| - 1];
         && c.base < mem.nextIdx <= c.base + |c.msgs|
         && Last(mem.segments).size == Bytes(c.msgs[..mem.nextIdx - c.base])
  }

  ghost predicate Shows(l: Layout, mem: Mem, s: S.Store) {
    && WellFormed(l) && NonEmpty(l)
    && S.Valid(s) && s.msgs == Messages(l) && s.bases == Bases(l)
    && s.known == mem.nextIdx
    && Reads(l, mem, s.segs, s.view)
    && LastSized(l, mem)
  }

  // ---------- layouts as messages and bases ----------

  lemma ChunkAt(l: Layout, i: nat)
    requires WellFormed(l) && i < |l|
    ensures l[i].base == |Messages(l[..i])|
    ensures Messages(l[..i + 1]) == Messages(l[..i]) + l[i].msgs <= Messages(l)
    ensures l[i].base + |l[i].msgs| <= |Messages(l)|
    ensures Messages(l)[l[i].base..l[i].base + |l[i].msgs|] == l[i].msgs
  {
    hide EncodeAll, WellFormed;
    var k := l[..i + 1];
    MessagesOfPrefix(l, i + 1);
    assert Front(k) == l[..i] && Last(k) == l[i];
    assert Messages(k) == Messages(l[..i]) + l[i].msgs;
    LastChunkEnds(k);
  }

  lemma ChunkEnds(l: Layout, i: nat)
    requires WellFormed(l) && i < |l|
    ensures l[i].base + |l[i].msgs| == if i + 1 < |l| then l[i + 1].base else |Messages(l)|
  {
    hide EncodeAll, WellFormed, Messages;
    ChunkAt(l, i);
    if i + 1 < |l| {
      ChunkAt(l, i + 1);
    } else {
      assert l[..i + 1] == l;
    }
  }

  /** A store with the messages and bases of a layout and a log's knowledge of it is valid. */
  lemma LayoutValid(l: Layout, s: S.Store)
    requires WellFormed(l) && NonEmpty(l) && s.msgs == Messages(l) && s.bases == Bases(l)
    requires s.segs <= |l| && |s.view| <= s.known
    requires if s.segs == 0 then s.known == 0
             else l[s.segs - 1].base < s.known <= l[s.segs - 1].base + |l[s.segs - 1].msgs|
    ensures S.Valid(s)
  {
    hide EncodeAll, WellFormed, Messages, Bases;
    ChunkBounds(l);
    forall i | 0 <= i < |l|
      ensures s.bases[i] == l[i].base && l[i].base + |l[i].msgs| <= |s.msgs|
    {
      BasesAt(l, i);
      ChunkAt(l, i);
    }
    NoChunks(l);
    if s.segs > 0 {
      ChunkEnds(l, s.segs - 1);
    }
    if |l| > 0 {
      ChunkAt(l, 0);
      NoChunks(l[..0]);
    }
  }

  lemma NoChunks(l: Layout)
    ensures |l| == 0 ==> Messages(l) == []
  {
  }

  /** The first segments hold the messages up to where the next one begins. */
  lemma PrefixEnds(l: Layout, s: S.Store, n: nat)
    requires WellFormed(l) && n <= |l| && s.msgs == Messages(l) && s.bases == Bases(l)
    ensures S.End(s, n) <= |s.msgs| && Messages(l[..n]) == s.msgs[..S.End(s, n)]
  {
    hide EncodeAll, WellFormed, Messages, Bases;
    NoChunks(l[..0]);
    if n > 0 {
      ChunkAt(l, n - 1);
      ChunkEnds(l, n - 1);
      if n < |l| {
        BasesAt(l, n);
      }
      assert l[..n - 1 + 1] == l[..n];
      assert |Messages(l[..n])| == S.End(s, n);
    }
  }

  // ---------- appending ----------

  lemma AppendedStore(l: Layout, s: S.Store, segmentSize: int, m: Payload)
    requires WellFormed(l) && NonEmpty(l) && Fits(m) && S.Valid(s)
    requires s.msgs == Messages(l) && s.bases == Bases(l)
    ensures CanAppend(l, segmentSize)
    ensures var l', s' := AppendLayout(l, segmentSize, m), S.Append(s, S.Appended(segmentSize, m));
            WellFormed(l') && NonEmpty(l') && s'.msgs == Messages(l') && s'.bases == Bases(l')
  {
    hide EncodeAll, Messages, WellFormed, S.Valid, Bytes, Fits, S.Rolls;
    AppendLayoutMessages(l, segmentSize, m);
    RollsAlike(l, s, segmentSize);
    var l' := AppendLayout(l, segmentSize, m);
    if |l'| > |l| {
      assert Front(l') == l;
    } else {
      assert Front(l') == Front(l);
    }
  }

  /** The store rolls when the log does. */
  lemma RollsAlike(l: Layout, s: S.Store, segmentSize: int)
    requires WellFormed(l) && s.msgs == Messages(l) && s.bases == Bases(l)
    ensures s.bases != [] ==> s.bases[|s.bases| - 1] <= |s.msgs|
    ensures S.Rolls(s, segmentSize) <==> |l| == 0 || |EncodeAll(Last(l).msgs)| >= segmentSize
  {
    hide EncodeAll, Messages, WellFormed, Bytes;
    if |l| > 0 {
      var n := |l| - 1;
      ChunkAt(l, n);
      ChunkEnds(l, n);
      BasesAt(l, n);
      assert s.msgs[l[n].base..] == l[n].msgs;
      EncodedSize(l[n].msgs);
    }
  }

  /** Messages appended by other processes change what there is, not what the log answers. */
  lemma ShowsGrown(l: Layout, l': Layout, mem: Mem, s: S.Store)
    requires Shows(l, mem, s) && Extends(l, l') && WellFormed(l') && NonEmpty(l')
    ensures Shows(l', mem, s.(msgs := Messages(l'), bases := Bases(l')))
  {
    hide EncodeAll, WellFormed, Messages, Bytes, Reads, LastSized, S.Valid, NonEmpty;
    ReadsKnows(l, mem, s.segs, s.view);
    ReadsGrown(l, l', mem, s.segs, s.view);
    KnownBounds(s);
    LastSizedGrown(l, l', mem);
    BasesLong(l);
    LayoutValid(l', s.(msgs := Messages(l'), bases := Bases(l')));
  }

  lemma KnownBounds(s: S.Store)
    requires S.Valid(s)
    ensures |s.view| <= s.known && s.segs <= |s.bases| && (s.segs == 0 ==> s.known == 0)
  {
  }

  lemma ReadsGrown(l: Layout, l': Layout, mem: Mem, n: nat, view: seq<Payload>)
    requires Reads(l, mem, n, view) && Extends(l, l')
    ensures Reads(l', mem, n, view)
  {
    hide SumSizes, Bytes;
    forall j | 0 <= j < |view|
      ensures Finds(l', n, mem.index[j], view[j])
    {
      assert Finds(l, n, mem.index[j], view[j]);
    }
  }

  lemma LastSizedGrown(l: Layout, l': Layout, mem: Mem)
    requires LastSized(l, mem) && Extends(l, l')
    ensures LastSized(l', mem)
    ensures var n := |mem.segments|;
            n > 0 ==> n <= |l'| && l'[n - 1].base < mem.nextIdx <= l'[n - 1].base + |l'[n - 1].msgs|
  {
    hide Bytes;
    if |mem.segments| > 0 {
      var c, c' := l[|mem.segments| - 1], l'[|mem.segments| - 1];
      assert c.base == c'.base && c.msgs <= c'.msgs;
      assert c.msgs[..mem.nextIdx - c.base] == c'.msgs[..mem.nextIdx - c.base];
    }
  }

  lemma BasesLong(l: Layout)
    ensures |Bases(l)| == |l|
  {
  }

  // ---------- a log that has read everything ----------

  lemma AddChunkReads(l: Layout, mem: Mem, n: nat, view: seq<Payload>)
    requires Reads(l, mem, n, view) && n < |l|
    ensures Reads(l, AddChunk(mem, l[n]), n + 1, view + l[n].msgs)
  {
    hide EncodeAll, Bytes;
    var c := l[n];
    var r := AddChunk(mem, c);
    EncodedSize(c.msgs);
    BytesConcat(view, c.msgs);
    assert Front(r.segments) == mem.segments;
    forall j | 0 <= j < |view + c.msgs|
      ensures Finds(l, n + 1, r.index[j], (view + c.msgs)[j])
    {
      if j >= |view| {
        EntriesAt(n, 0, |c.msgs|, j - |view|);
      } else {
        assert Finds(l, n, mem.index[j], view[j]);
      }
    }
  }

  /** Adding the segments from n on answers their messages. */
  lemma {:induction false} AddChunksReads(l: Layout, mem: Mem, n: nat, view: seq<Payload>, k: nat)
    requires WellFormed(l) && Reads(l, mem, n, view) && n < k <= |l| && mem.nextIdx <= l[n].base
    ensures l[n].base <= |Messages(l[..k])| <= |Messages(l)| && Messages(l[..k]) <= Messages(l)
    ensures var r := R.AddChunks(mem, l[n..k]);
            && Reads(l, r, k, view + Messages(l)[l[n].base..|Messages(l[..k])|])
            && r.nextIdx == |Messages(l[..k])| && r.active == mem.active
            && Last(r.segments).size == Bytes(l[k - 1].msgs)
    decreases k
  {
    hide EncodeAll, WellFormed, Messages, Bytes, Reads, AddChunk;
    var c := l[k - 1];
    ChunkAt(l, k - 1);
    assert l[..k - 1 + 1] == l[..k];
    EncodedSize(c.msgs);
    assert Front(l[n..k]) == l[n..k - 1] && Last(l[n..k]) == c;
    if k == n + 1 {
      assert l[n..n] == [];
      AddChunkReads(l, mem, n, view);
      AddedLast(mem, c);
    } else {
      AddChunksReads(l, mem, n, view, k - 1);
      var before := R.AddChunks(mem, l[n..k - 1]);
      var seen := Messages(l)[l[n].base..|Messages(l[..k - 1])|];
      AddChunkReads(l, before, k - 1, view + seen);
      AddedLast(before, c);
      assert view + seen + c.msgs == view + Messages(l)[l[n].base..|Messages(l[..k])|];
    }
  }

  lemma AddedLast(mem: Mem, c: Chunk)
    ensures var r := AddChunk(mem, c);
            && r.segments != [] && Last(r.segments).size == |EncodeAll(c.msgs)| && r.active == mem.active
            && r.nextIdx == if c.base + |c.msgs| > mem.nextIdx then c.base + |c.msgs| else mem.nextIdx
  {
  }

  lemma {:induction false} MemOfChunks(l: Layout)
    ensures MemOf(l) == R.AddChunks(EMPTY, l).(active := if |l| == 0 then None else Some(|l| - 1))
  {
    hide EncodeAll;
    if |l| > 0 {
      MemOfChunks(Front(l));
    }
  }

  /** The memory that recovery builds shows a store that has just been opened. */
  lemma OpenedShows(l: Layout, s: S.Store)
    requires WellFormed(l) && NonEmpty(l) && s.msgs == Messages(l) && s.bases == Bases(l)
    requires s.segs == |l| && s.view == s.msgs && s.known == |s.msgs|
    ensures Shows(l, MemOf(l), s)
  {
    hide EncodeAll, WellFormed, Messages, Bytes, Reads, MemOf, S.Valid;
    BasesLong(l);
    NoChunks(l);
    MemOfShape(l);
    if |l| == 0 {
      NothingRead(l);
      NoMemory(l);
    } else {
      OpenedReads(l);
      ChunkEnds(l, |l| - 1);
      assert Last(l).msgs[..|Last(l).msgs|] == Last(l).msgs;
    }
    LayoutValid(l, s);
  }

  lemma NoMemory(l: Layout)
    requires |l| == 0
    ensures MemOf(l) == EMPTY
  {
  }

  lemma OpenedReads(l: Layout)
    requires WellFormed(l) && |l| > 0
    ensures Reads(l, MemOf(l), |l|, Messages(l)) && MemOf(l).segments != []
    ensures Last(MemOf(l).segments).size == Bytes(Last(l).msgs)
  {
    hide EncodeAll, WellFormed, Messages, Bytes, SumSizes;
    MemOfChunks(l);
    ChunkAt(l, 0);
    NoChunks(l[..0]);
    NothingRead(l);
    AddChunksReads(l, EMPTY, 0, [], |l|);
    assert l[0..|l|] == l && l[..|l|] == l;
    assert [] + Messages(l)[0..|Messages(l)|] == Messages(l);
  }

  lemma NothingRead(l: Layout)
    ensures Reads(l, EMPTY, 0, [])
  {
  }

  // ---------- looking ----------

  /** A look at the disk succeeds and has the memory show what Store.Look says. */
  lemma LookShows(l: Layout, mem: Mem, s: S.Store)
    requires Shows(l, mem, s)
    ensures var r := Refresh(FilesOf(l), mem);
            r.error == None && r.mem.active == mem.active && Shows(l, r.mem, S.Look(s))
  {
    hide EncodeAll, WellFormed, Messages, Bytes, FilesOf, Bases, Sorted, Discover, Reread, Reads, SumSizes;
    FilesReadAsLayout(l);
    SortedBases(FilesOf(l), l);
    assert l[..|l|] == l;
    BasesLong(l);
    ReadsKnows(l, mem, s.segs, s.view);
    R.DiscoverAdds(mem, s.segs, l, |l|);
    if s.segs < |l| {
      NewSegmentsShow(l, mem, s);
    } else {
      SameSegmentsShow(l, mem, s);
    }
  }

  lemma ReadsKnows(l: Layout, mem: Mem, n: nat, view: seq<Payload>)
    requires Reads(l, mem, n, view)
    ensures R.KnowsFirst(mem, l, n)
  {
  }

  lemma NewSegmentsShow(l: Layout, mem: Mem, s: S.Store)
    requires Shows(l, mem, s) && s.segs < |l|
    ensures var r := R.AddChunks(mem, l[s.segs..]);
            Reread(FilesOf(l), r) == Outcome(r, None) && r.active == mem.active && Shows(l, r, S.Look(s))
  {
    hide EncodeAll, WellFormed, Messages, Bytes, FilesOf, Bases, Reread, Reads;
    var n := s.segs;
    BasesLong(l);
    BasesAt(l, n);
    ChunkAt(l, n);
    AddChunksReads(l, mem, n, s.view, |l|);
    assert l[..|l|] == l && l[n..|l|] == l[n..];
    assert Messages(l)[l[n].base..|Messages(l)|] == s.msgs[S.Found(s)..];
    var r := R.AddChunks(mem, l[n..]);
    ReadsKnows(l, r, |l|, S.Look(s).view);
    ChunkEnds(l, |l| - 1);
    assert Last(l).msgs[..|Last(l).msgs|] == Last(l).msgs;
    R.RereadAfterDiscovery(l, r);
  }

  lemma SameSegmentsShow(l: Layout, mem: Mem, s: S.Store)
    requires Shows(l, mem, s) && s.segs == |l|
    ensures var r := Reread(FilesOf(l), mem);
            r.error == None && r.mem.active == mem.active && Shows(l, r.mem, S.Look(s))
  {
    hide EncodeAll, WellFormed, Messages, Bytes, FilesOf, Bases, ReadAll, Reads, Reread, S.Valid, NonEmpty;
    BasesLong(l);
    ReadsKnows(l, mem, |l|, s.view);
    if |l| == 0 {
      NoChunks(l);
      NothingToReread(FilesOf(l), mem);
      LooksAtNothing(s);
    } else {
      var c := Last(l);
      FileAt(l, |l| - 1);
      ChunkBounds(l);
      ReadEncoded(c.msgs);
      ChunkEnds(l, |l| - 1);
      EncodedSize(c.msgs);
      RereadIs(FilesOf(l), mem, c.base, c.msgs, mem.nextIdx - c.base);
      if mem.nextIdx == |s.msgs| {
        LooksAtNothing(s);
      } else {
        LastSegmentShows(l, mem, s);
      }
    }
  }

  lemma LooksAtNothing(s: S.Store)
    requires S.Valid(s) && s.segs == |s.bases| && (s.segs == 0 || s.known == |s.msgs|)
    ensures S.Look(s) == s
  {
    assert s.view + s.msgs[s.known..] == s.view;
  }

  lemma LastSegmentShows(l: Layout, mem: Mem, s: S.Store)
    requires Shows(l, mem, s) && s.segs == |l| > 0 && mem.nextIdx < |s.msgs| && mem.segments != []
    ensures var c := Last(l);
            && c.base <= mem.nextIdx
            && Shows(l, Reread1(mem, c.base, Bytes(c.msgs), c.msgs, mem.nextIdx - c.base), S.Look(s))
  {
    hide EncodeAll, WellFormed, Messages, Bytes, Bases, Reads, NonEmpty;
    var c, n := Last(l), |l| - 1;
    BasesLong(l);
    ReadsKnows(l, mem, |l|, s.view);
    ChunkAt(l, n);
    ChunkEnds(l, n);
    var count := mem.nextIdx - c.base;
    assert s.msgs[c.base..] == c.msgs;
    assert s.msgs[s.known..] == c.msgs[count..];
    assert c.msgs[..|c.msgs|] == c.msgs;
    RereadReads(l, mem, s.view, count);
  }

  lemma NothingToReread(files: Files, mem: Mem)
    requires |mem.segments| == 0
    ensures Reread(files, mem) == Outcome(mem, None)
  {
  }

  /** The memory with the records of the last segment from count on. */
  function Reread1(mem: Mem, base: nat, size: nat, msgs: seq<Payload>, count: nat): Mem
    requires mem.segments != []
  {
    mem.(index := mem.index + Entries(|mem.segments| - 1, count, |msgs|), nextIdx := base + |msgs|,
         segments := Front(mem.segments) + [Seg(base, size)])
  }

  lemma RereadIs(files: Files, mem: Mem, base: nat, msgs: seq<Payload>, count: nat)
    requires mem.segments != [] && Last(mem.segments).base == base && base in files && mem.nextIdx == base + count
    requires ReadAll(files[base]) == ReadResult(msgs, None)
    ensures Reread(files, mem) == Outcome(if |msgs| <= count
            then mem else Reread1(mem, base, |files[base]|, msgs, count), None)
  {
    hide ReadAll, Entries;
  }

  lemma RereadReads(l: Layout, mem: Mem, view: seq<Payload>, count: nat)
    requires WellFormed(l) && |l| > 0 && Reads(l, mem, |l|, view) && count < |Last(l).msgs|
    requires Last(mem.segments).size == Bytes(Last(l).msgs[..count])
    ensures var c := Last(l);
            Reads(l, Reread1(mem, c.base, Bytes(c.msgs), c.msgs, count), |l|, view + c.msgs[count..])
  {
    hide EncodeAll, WellFormed, Bytes, Messages;
    var c, n := Last(l), |l| - 1;
    var r := Reread1(mem, c.base, Bytes(c.msgs), c.msgs, count);
    assert Front(r.segments) == Front(mem.segments);
    assert c.msgs[..count] + c.msgs[count..] == c.msgs;
    BytesConcat(c.msgs[..count], c.msgs[count..]);
    BytesConcat(view, c.msgs[count..]);
    forall j | 0 <= j < |view + c.msgs[count..]|
      ensures Finds(l, |l|, r.index[j], (view + c.msgs[count..])[j])
    {
      if j >= |view| {
        EntriesAt(n, count, |c.msgs|, j - |view|);
      } else {
        assert Finds(l, |l|, mem.index[j], view[j]);
      }
    }
  }

  // ---------- reading ----------

  /** Reading an offset answers as the store does: the message in view, or an index out of range. */
  lemma ReadShows(l: Layout, mem: Mem, s: S.Store, offset: nat)
    requires Shows(l, mem, s)
    ensures ReadMessage(FilesOf(l), mem, offset) ==
            if offset < |s.view| then Got(offset, s.view[offset]) else Panics
  {
    hide EncodeAll, WellFormed, Messages, Bytes, FilesOf, Bases, ReadAll, SumSizes;
    if offset < |s.view| {
      var e := mem.index[offset];
      assert Finds(l, s.segs, e, s.view[offset]);
      FileAt(l, e.segIdx);
      ChunkBounds(l);
      ReadEncoded(l[e.segIdx].msgs);
    }
  }

  /** What NextUnprocessed returns of a log that shows a store. */
  function Reply(a: S.Answer): Recovery.Next {
    match a
    case Nothing => NoMessages
    case Next(o, p) => Got(o, p)
    case Panic => Panics
  }

  /** NextUnprocessed looks and answers as the store does, after any looks before it. */
  lemma NextShows(l: Layout, mem: Mem, s: S.Store)
    requires Shows(l, mem, s)
    ensures var (mem', next) := R.NextMessage(FilesOf(l), mem, s.cur.consumed);
            && Shows(l, mem', S.Looked(s)) && mem'.active == mem.active
            && next == Reply(S.Answered(S.Looked(s)))
  {
    hide Shows, FilesOf, Refresh, ReadMessage, S.Look;
    ShownValid(l, mem, s);
    var looked := S.Looked(s);
    if s.cur.consumed < mem.nextIdx {
      ReadShows(l, mem, s, s.cur.consumed);
    } else {
      LookShows(l, mem, s);
      var r := Refresh(FilesOf(l), mem).mem;
      ShownValid(l, r, looked);
      ReadShows(l, r, looked, s.cur.consumed);
    }
  }

  lemma ShownValid(l: Layout, mem: Mem, s: S.Store)
    requires Shows(l, mem, s)
    ensures S.Valid(s) && s.known == mem.nextIdx && s.segs == |mem.segments| && s.segs <= |l|
  {
  }

  lemma ShownMessages(l: Layout, mem: Mem, s: S.Store)
    requires Shows(l, mem, s)
    ensures WellFormed(l) && NonEmpty(l) && s.msgs == Messages(l) && s.bases == Bases(l)
  {
  }

  lemma ShownSegments(l: Layout, mem: Mem, s: S.Store)
    requires Shows(l, mem, s)
    ensures |mem.segments| <= |l| && forall i :: 0 <= i < |mem.segments| ==> mem.segments[i].base == l[i].base
  {
  }

  /** When another process appends a message, a log goes on showing the store, grown by it. */
  lemma ReaderSees(l: Layout, mem: Mem, s: S.Store, segmentSize: int, m: Payload)
    requires Shows(l, mem, s) && Fits(m)
    ensures S.Valid(s) && Shows(AppendLayout(l, segmentSize, m), mem, S.Append(s, S.Appended(segmentSize, m)))
    ensures var r := S.Append(s, S.Appended(segmentSize, m));
            && r.msgs == Messages(AppendLayout(l, segmentSize, m)) && r.bases == Bases(AppendLayout(l, segmentSize, m))
            && r == s.(msgs := r.msgs, bases := r.bases)
  {
    hide WellFormed, Messages, Bases, Reads, LastSized, AppendLayout, S.Valid, NonEmpty, Fits;
    AppendedStore(l, s, segmentSize, m);
    ExtendsItself(l);
    ExtendsAppend(l, l, segmentSize, m);
    ShowsGrown(l, AppendLayout(l, segmentSize, m), mem, s);
  }

  lemma ExtendsItself(l: Layout)
    ensures Extends(l, l)
  {
  }

  /** A log that has read everything and appends shows the store with the message, read as well. */
  lemma OwnAppendShows(l: Layout, s: S.Store, segmentSize: int, m: Payload)
    requires Shows(l, MemOf(l), s) && Fits(m)
    ensures ActiveInRange(MemOf(l)) && MemOf(l).nextIdx == |Messages(l)|
    ensures var r := AppendLayout(l, segmentSize, m);
            && WellFormed(r) && NonEmpty(r) && Messages(r) == Messages(l) + [m]
            && Append(FilesOf(l), MemOf(l), segmentSize, m) == (FilesOf(r), MemOf(r))
            && ActiveInRange(MemOf(r))
            && |MemOf(r).segments| == |Bases(r)| && MemOf(r).nextIdx == |Messages(r)|
            && Shows(r, MemOf(r), s.(msgs := Messages(r), bases := Bases(r), segs := |Bases(r)|, view := Messages(r),
                                     known := |Messages(r)|))
  {
    hide EncodeAll, WellFormed, Messages, FilesOf, MemOf, Reads, LastSized, S.Valid, AppendLayout, Append, Fits,
      NonEmpty;
    var r := AppendLayout(l, segmentSize, m);
    ShownMessages(l, MemOf(l), s);
    AppendedStore(l, s, segmentSize, m);
    AppendInStep(l, segmentSize, m);
    AppendLayoutMessages(l, segmentSize, m);
    MemOfShape(l);
    MemOfShape(r);
    BasesLong(r);
    OpenedShows(r, s.(msgs := Messages(r), bases := Bases(r), segs := |r|, view := Messages(r),
            known := |Messages(r)|));
  }

  lemma ShowsAnyCursor(l: Layout, mem: Mem, s: S.Store, r: S.Store)
    requires Shows(l, mem, s) && r == s.(cur := r.cur, saved := r.saved, dead := r.dead)
    ensures Shows(l, mem, r)
  {
  }

  /** What a log answers has been appended, so it fits. */
  lemma ViewFits(l: Layout, mem: Mem, s: S.Store)
    requires Shows(l, mem, s)
    ensures AllFit(s.view)
  {
    hide WellFormed, Messages, Bytes, EncodeAll;
    ChunkBounds(l);
    forall m | m in s.view
      ensures Fits(m)
    {
      var j :| 0 <= j < |s.view| && s.view[j] == m;
      assert Finds(l, s.segs, mem.index[j], m);
    }
  }

  /** For a log that has read what the disk then held, a look is safe as a store exactly when it is
      safe as a refresh: not both the last segment has grown and one was added. */
  lemma SafeAlike(l: Layout, l': Layout, s: S.Store)
    requires WellFormed(l) && WellFormed(l') && NonEmpty(l) && NonEmpty(l') && Extends(l, l')
    requires S.Valid(s) && s.msgs == Messages(l') && s.bases == Bases(l') && s.segs == |l| && s.known == |Messages(l)|
    ensures S.Safe(s) <==> R.Safe(l, l')
  {
    hide EncodeAll, WellFormed, Messages, Bases;
    BasesLong(l');
    NoChunks(l);
    if |l| < |l'| {
      BasesAt(l', |l|);
      if |l| == 0 {
        ChunkAt(l', 0);
        NoChunks(l'[..0]);
      } else {
        ChunkEnds(l', |l| - 1);
        ChunkEnds(l, |l| - 1);
      }
    }
  }
}
