/** What refresh makes of records that another process appended, and when it is right. */
module Refresh {
  import opened Wrappers
  import opened Record
  import opened Segment
  import opened Names
  import opened LogState
  import opened Recovery

  /** Adding chunks one after the other. */
  function AddChunks(mem: Mem, cs: seq<Chunk>): Mem {
    if |cs| == 0 then mem else AddChunk(AddChunks(mem, Front(cs)), Last(cs))
  }

  /** Since l was read, only its last segment has grown, or only segments have been added. */
  ghost predicate Safe(l: Layout, l': Layout) {
    |l'| <= |l| || |l| == 0 || l'[|l| - 1] == Last(l)
  }

  lemma DiscoverStep(files: Files, mem: Mem, bases: seq<nat>, b: nat, before: Mem, msgs: seq<Payload>)
    requires b in files && forall x :: x in bases ==> x in files
    requires Discover(files, mem, bases) == Outcome(before, None)
    requires ReadAll(files[b]) == ReadResult(msgs, None)
    ensures Discover(files, mem, bases + [b]) ==
            Outcome(if b in Known(mem) then before else AddSegment(before, b, |files[b]|, |msgs|), None)
  {
    hide ReadAll, AddSegment, Known;
    assert Front(bases + [b]) == bases;
  }

  /** The memory knows the first n segments of l. */
  ghost predicate KnowsFirst(mem: Mem, l: Layout, n: nat) {
    |mem.segments| == n <= |l| && forall i :: 0 <= i < n ==> mem.segments[i].base == l[i].base
  }

  /** Going through the first k segments adds those that are not among the first n. */
  lemma {:induction false} DiscoverAdds(mem: Mem, n: nat, l: Layout, k: nat)
    requires WellFormed(l) && KnowsFirst(mem, l, n) && k <= |l|
    ensures forall b :: b in Bases(l[..k]) ==> b in FilesOf(l)
    ensures Discover(FilesOf(l), mem, Bases(l[..k])) ==
            Outcome(if k <= n then mem else AddChunks(mem, l[n..k]), None)
    decreases k
  {
    hide ReadAll, EncodeAll, FilesOf, WellFormed, AddSegment, Known, Discover, Messages;
    if k == 0 {
      assert l[..0] == [];
      DiscoverNothing(FilesOf(l), mem);
    } else {
      var c := l[k - 1];
      assert Front(l[..k]) == l[..k - 1];
      DiscoverAdds(mem, n, l, k - 1);
      FileAt(l, k - 1);
      ChunkBounds(l);
      ReadEncoded(c.msgs);
      NewIsUnknown(mem, n, l, k - 1);
      var before := if k - 1 <= n then mem else AddChunks(mem, l[n..k - 1]);
      DiscoverStep(FilesOf(l), mem, Bases(l[..k - 1]), c.base, before, c.msgs);
      if k > n {
        assert Front(l[n..k]) == l[n..k - 1];
        assert k - 1 == n ==> l[n..k - 1] == [];
      }
    }
  }

  lemma DiscoverNothing(files: Files, mem: Mem)
    ensures Discover(files, mem, []) == Outcome(mem, None)
  {
  }

  lemma NewIsUnknown(mem: Mem, n: nat, l: Layout, i: nat)
    requires WellFormed(l) && KnowsFirst(mem, l, n) && i < |l|
    ensures l[i].base in Known(mem) <==> i < n
  {
    hide EncodeAll, FilesOf, Messages, WellFormed;
    ChunkBounds(l);
    if i < n {
      assert mem.segments[i].base in Known(mem);
    }
  }

  /** mem is known, followed by what whole has beyond its first segs segments and seen entries. */
  ghost predicate Beyond(mem: Mem, known: Mem, whole: Mem, segs: nat, seen: nat) {
    && |known.segments| == segs <= |whole.segments| && seen <= |whole.index|
    && mem.segments == known.segments + whole.segments[segs..]
    && mem.index == known.index + whole.index[seen..]
    && mem.active == known.active
  }

  lemma AddedChunk(mem: Mem, known: Mem, whole: Mem, segs: nat, seen: nat, c: Chunk)
    requires Beyond(mem, known, whole, segs, seen)
    ensures Beyond(AddChunk(mem, c), known, AddChunk(whole, c).(active := Some(|whole.segments|)), segs, seen)
  {
    hide EncodeAll, Entries;
    assert |mem.segments| == |whole.segments|;
    Behind(mem.index, known.index, whole.index, Entries(|whole.segments|, 0, |c.msgs|), seen);
    Behind(mem.segments, known.segments, whole.segments, [Seg(c.base, |EncodeAll(c.msgs)|)], segs);
  }

  lemma Behind<T>(s: seq<T>, known: seq<T>, whole: seq<T>, added: seq<T>, n: nat)
    requires n <= |whole| && s == known + whole[n..]
    ensures s + added == known + (whole + added)[n..]
  {
  }

  /** The memory after adding the chunks |l| .. n to that of l is that of l' without the messages
      which the last segment of l has gained. */
  lemma {:induction false} AddedChunks(l: Layout, l': Layout, n: nat)
    requires WellFormed(l) && WellFormed(l') && Extends(l, l') && |l| <= n <= |l'|
    ensures Beyond(AddChunks(MemOf(l), l'[|l|..n]), MemOf(l), MemOf(l'[..n]), |l|, |Messages(l'[..|l|])|)
    ensures AddChunks(MemOf(l), l'[|l|..n]).nextIdx == |Messages(if n == |l| then l else l'[..n])|
  {
    hide EncodeAll, FilesOf, WellFormed, AddChunk, Messages, Beyond, Extends;
    if n == |l| {
      NothingAdded(l, l');
    } else {
      AddedChunks(l, l', n - 1);
      var before, k', c := AddChunks(MemOf(l), l'[|l|..n - 1]), l'[..n - 1], l'[n - 1];
      assert Front(l'[..n]) == k';
      assert Front(l'[|l|..n]) == l'[|l|..n - 1];
      MessagesOfPrefix(l', n - 1);
      MessagesOfPrefix(l', n);
      MemOfShape(k');
      AddedChunk(before, MemOf(l), MemOf(k'), |l|, |Messages(l'[..|l|])|, c);
      LastChunkEnds(l'[..n]);
      NextAfterChunk(before, c);
      assert before.nextIdx <= |Messages(k')| by {
        if n - 1 == |l| {
          ExtendsPrefix(l, l');
        }
      }
    }
  }

  lemma NothingAdded(l: Layout, l': Layout)
    requires WellFormed(l) && WellFormed(l') && Extends(l, l')
    ensures Beyond(AddChunks(MemOf(l), l'[|l|..|l|]), MemOf(l), MemOf(l'[..|l|]), |l|, |Messages(l'[..|l|])|)
    ensures AddChunks(MemOf(l), l'[|l|..|l|]).nextIdx == |Messages(l)|
  {
    hide EncodeAll, FilesOf, MemOf, Messages, WellFormed;
    assert l'[|l|..|l|] == [];
    MessagesOfPrefix(l', |l|);
    MemOfShape(l);
    MemOfShape(l'[..|l|]);
  }

  lemma ExtendsPrefix(l: Layout, l': Layout)
    requires Extends(l, l')
    ensures |Messages(l)| <= |Messages(l'[..|l|])|
  {
    if |l| > 0 {
      assert Front(l'[..|l|]) == Front(l);
    }
  }

  lemma NextAfterChunk(mem: Mem, c: Chunk)
    ensures AddChunk(mem, c).nextIdx == if c.base + |c.msgs| > mem.nextIdx then c.base + |c.msgs| else mem.nextIdx
  {
  }

  lemma KnowsOwn(l: Layout, l': Layout)
    requires WellFormed(l) && Extends(l, l')
    ensures KnowsFirst(MemOf(l), l', |l|)
  {
    hide EncodeAll, MemOf, WellFormed;
    MemOfShape(l);
  }

  // ---------- the result of refresh ----------

  /** What the memory lacks of the messages the last segment of l has gained. */
  function Missed(l: Layout, l': Layout): nat
    requires |l| <= |l'| && (|l| > 0 ==> |Last(l).msgs| <= |l'[|l| - 1].msgs|)
  {
    if |l| == 0 then 0 else |l'[|l| - 1].msgs| - |Last(l).msgs|
  }

  lemma RereadAfterDiscovery(l': Layout, mem: Mem)
    requires WellFormed(l') && |l'| > 0
    requires |mem.segments| > 0 && Last(mem.segments).base == Last(l').base && mem.nextIdx == |Messages(l')|
    ensures Reread(FilesOf(l'), mem) == Outcome(mem, None)
  {
    hide EncodeAll, ReadAll, FilesOf, WellFormed;
    FileAt(l', |l'| - 1);
    ChunkBounds(l');
    LastChunkEnds(l');
    ReadEncoded(Last(l').msgs);
  }

  /** Segments were added: the index is the true one with the missed messages cut out, although
      nextIdx counts them. */
  lemma RefreshNewSegments(l: Layout, l': Layout)
    requires WellFormed(l) && WellFormed(l') && Extends(l, l') && |l| < |l'|
    ensures var known := |Messages(l)|;
            var cut := known + Missed(l, l');
            && cut <= |MemOf(l').index| && |l| <= |MemOf(l').segments|
            && Refresh(FilesOf(l'), MemOf(l)) ==
               Outcome(Mem(MemOf(l).segments + MemOf(l').segments[|l|..], MemOf(l).active,
                           MemOf(l).index + MemOf(l').index[cut..], |Messages(l')|), None)
  {
    hide EncodeAll, ReadAll, FilesOf, MemOf, WellFormed, Sorted, Bases, AddChunks, Reread, Discover;
    FilesReadAsLayout(l');
    SortedBases(FilesOf(l'), l');
    assert l'[..|l'|] == l';
    KnowsOwn(l, l');
    DiscoverAdds(MemOf(l), |l|, l', |l'|);
    AddedChunks(l, l', |l'|);
    MissedCounts(l, l');
    MemOfShape(l');
    var mem := AddChunks(MemOf(l), l'[|l|..|l'|]);
    assert Last(mem.segments) == Last(MemOf(l').segments);
    RereadAfterDiscovery(l', mem);
  }

  lemma MissedCounts(l: Layout, l': Layout)
    requires Extends(l, l')
    ensures |Messages(l'[..|l|])| == |Messages(l)| + Missed(l, l')
  {
    if |l| > 0 {
      assert Front(l'[..|l|]) == Front(l);
    }
  }

  /** Only the last segment has grown: refresh indexes exactly what was added. */
  lemma RefreshSameSegments(l: Layout, l': Layout)
    requires WellFormed(l) && WellFormed(l') && Extends(l, l') && |l| == |l'|
    ensures Refresh(FilesOf(l'), MemOf(l)) == Outcome(MemOf(l'), None)
  {
    hide EncodeAll, ReadAll, FilesOf, MemOf, WellFormed, Sorted, Bases, AddChunks, Reread, Discover;
    FilesReadAsLayout(l');
    SortedBases(FilesOf(l'), l');
    assert l'[..|l'|] == l';
    KnowsOwn(l, l');
    DiscoverAdds(MemOf(l), |l|, l', |l'|);
    if |l| == 0 {
      NoSegments();
    } else {
      FileAt(l', |l'| - 1);
      ChunkBounds(l');
      ReadEncoded(Last(l').msgs);
      assert Front(l) == Front(l');
      RereadLast(l, Last(l').msgs, FilesOf(l'));
      assert l' == Front(l) + [Chunk(Last(l).base, Last(l').msgs)];
    }
  }

  lemma NoSegments()
    ensures MemOf([]) == EMPTY && Reread(FilesOf([]), EMPTY) == Outcome(EMPTY, None)
  {
  }

  lemma RereadLast(l: Layout, msgs: seq<Payload>, files: Files)
    requires WellFormed(l) && |l| > 0 && Last(l).msgs <= msgs
    requires Last(l).base in files && files[Last(l).base] == EncodeAll(msgs)
    requires ReadAll(EncodeAll(msgs)) == ReadResult(msgs, None)
    ensures Reread(files, MemOf(l)) == Outcome(MemOf(Front(l) + [Chunk(Last(l).base, msgs)]), None)
  {
    hide EncodeAll, ReadAll, FilesOf, AddSegment, Reread;
    var f, c := Front(l), Last(l);
    var l' := f + [Chunk(c.base, msgs)];
    assert Front(l') == f;
    MemOfShape(f);
    assert |c.msgs| == |msgs| ==> c.msgs == msgs;
    RereadGrown(MemOf(f), c.base, |EncodeAll(c.msgs)|, |c.msgs|, files, msgs);
  }

  lemma RereadGrown(mem: Mem, base: nat, size: nat, records: nat, files: Files, msgs: seq<Payload>)
    requires base in files && ReadAll(files[base]) == ReadResult(msgs, None) && mem.nextIdx == base
    requires records <= |msgs| && (records == |msgs| ==> size == |files[base]|)
    ensures var n := |mem.segments|;
            Reread(files, AddSegment(mem, base, size, records).(active := Some(n))) ==
            Outcome(AddSegment(mem, base, |files[base]|, |msgs|).(active := Some(n)), None)
  {
    hide ReadAll, Entries;
    var n := |mem.segments|;
    EntriesSplit(n, records, |msgs|);
    assert mem.index + Entries(n, 0, records) + Entries(n, records, |msgs|) == mem.index + Entries(n, 0, |msgs|);
    assert Front(mem.segments + [Seg(base, size)]) == mem.segments;
  }

  lemma {:induction false} EntriesSplit(segIdx: nat, mid: nat, hi: nat)
    requires mid <= hi
    ensures Entries(segIdx, 0, mid) + Entries(segIdx, mid, hi) == Entries(segIdx, 0, hi)
    decreases hi
  {
    if mid < hi {
      EntriesSplit(segIdx, mid, hi - 1);
    } else {
      assert Entries(segIdx, mid, hi) == [];
    }
  }

  lemma {:induction false} MemOfPrefix(l: Layout, k: nat)
    requires k <= |l|
    ensures MemOf(l[..k]).segments <= MemOf(l).segments && MemOf(l[..k]).index <= MemOf(l).index
    decreases |l| - k
  {
    hide EncodeAll;
    if k < |l| {
      MemOfPrefix(l, k + 1);
      assert Front(l[..k + 1]) == l[..k];
    } else {
      assert l[..k] == l;
    }
  }

  /** Refresh leaves the segments, the index and nextIdx that recovery would build from the disk
      exactly when not both the last known segment has grown and segments have been added. */
  lemma RefreshRefinesRecovery(l: Layout, l': Layout)
    requires WellFormed(l) && WellFormed(l') && Extends(l, l')
    ensures Recover(FilesOf(l')) == Outcome(MemOf(l'), None)
    ensures Refresh(FilesOf(l'), MemOf(l)) == Outcome(MemOf(l').(active := MemOf(l).active), None) <==> Safe(l, l')
  {
    hide EncodeAll, FilesOf, MemOf, WellFormed, Refresh, Recover, Messages;
    RecoverInStep(l');
    MemOfShape(l);
    MemOfShape(l');
    if |l| == |l'| {
      RefreshSameSegments(l, l');
    } else {
      RefreshNewSegments(l, l');
      if Safe(l, l') {
        assert l'[..|l|] == l by {
          if |l| > 0 {
            assert l'[..|l|] == Front(l) + [Last(l)];
          }
        }
        MemOfPrefix(l', |l|);
        assert MemOf(l').index[..|Messages(l)|] == MemOf(l).index;
        assert MemOf(l').segments[..|l|] == MemOf(l).segments;
      } else {
        assert Missed(l, l') > 0;
      }
    }
  }

  /** After an unsafe refresh the offsets from |Messages(l)| on are answered with messages that lie
      further on, the missed ones are skipped, and the last offsets have no index entry. */
  lemma UnsafeRefreshSkips(l: Layout, l': Layout, offset: nat)
    requires WellFormed(l) && WellFormed(l') && Extends(l, l') && !Safe(l, l')
    requires |Messages(l)| <= offset < |Messages(l')|
    ensures Missed(l, l') > 0
    ensures Refresh(FilesOf(l'), MemOf(l)).error == None
    ensures ReadMessage(FilesOf(l'), Refresh(FilesOf(l'), MemOf(l)).mem, offset) ==
            if offset + Missed(l, l') < |Messages(l')| then Got(offset, Messages(l')[offset + Missed(l, l')])
            else Panics
  {
    hide EncodeAll, ReadAll, FilesOf, MemOf, WellFormed, Refresh, Messages;
    MemOfShape(l);
    MemOfShape(l');
    RefreshNewSegments(l, l');
    var missed := Missed(l, l');
    assert missed > 0;
    if offset + missed < |Messages(l')| {
      ReadThroughShifted(l, l', offset, missed);
    }
  }

  lemma ReadThroughShifted(l: Layout, l': Layout, offset: nat, missed: nat)
    requires WellFormed(l) && WellFormed(l') && Extends(l, l') && |l| < |l'|
    requires missed == Missed(l, l') && |Messages(l)| <= offset && offset + missed < |Messages(l')|
    ensures ReadMessage(FilesOf(l'), Refresh(FilesOf(l'), MemOf(l)).mem, offset) ==
            Got(offset, Messages(l')[offset + missed])
  {
    hide EncodeAll, ReadAll, FilesOf, MemOf, WellFormed, Refresh, Messages;
    MemOfShape(l);
    MemOfShape(l');
    RefreshNewSegments(l, l');
    var mem := Refresh(FilesOf(l'), MemOf(l)).mem;
    IndexFinds(l', offset + missed);
    var e := MemOf(l').index[offset + missed];
    assert mem.index[offset] == e;
    FileAt(l', e.segIdx);
    ChunkBounds(l');
    ReadEncoded(l'[e.segIdx].msgs);
    assert mem.segments[e.segIdx].base == l'[e.segIdx].base by {
      if e.segIdx < |l| {
        assert MemOf(l).segments[e.segIdx].base == l[e.segIdx].base;
      }
    }
  }

  // ---------- delivering the next message ----------

  /** NextUnprocessed on an open log: a caught-up log looks at the disk again first. */
  function NextMessage(files: Files, mem: Mem, consumed: nat): (Mem, Next) {
    if consumed < mem.nextIdx then (mem, ReadMessage(files, mem, consumed))
    else
      var r := Refresh(files, mem);
      if r.error.Some? then (r.mem, ReadFailed(r.error.value))
      else if consumed >= r.mem.nextIdx then (r.mem, NoMessages)
      else (r.mem, ReadMessage(files, r.mem, consumed))
  }

  lemma {:induction false} DiscoverKeepsActive(files: Files, mem: Mem, bases: seq<nat>, a: Option<nat>)
    requires forall b :: b in bases ==> b in files
    ensures var r := Discover(files, mem, bases);
            Discover(files, mem.(active := a), bases) == r.(mem := r.mem.(active := a))
  {
    hide ReadAll, Entries;
    if |bases| > 0 {
      DiscoverKeepsActive(files, mem, Front(bases), a);
    }
  }

  lemma RefreshKeepsActive(files: Files, mem: Mem, a: Option<nat>)
    ensures var r := Refresh(files, mem);
            Refresh(files, mem.(active := a)) == r.(mem := r.mem.(active := a))
  {
    hide ReadAll, Discover, Entries;
    DiscoverKeepsActive(files, mem, Sorted(files.Keys), a);
  }

  /** Message number consumed of the disk is delivered, or none if there is none, and the log knows
      no less than before; a log that knows messages not yet consumed does not look at the disk. */
  lemma NextDelivers(l: Layout, l': Layout, a: Option<nat>, consumed: nat)
    requires WellFormed(l) && WellFormed(l') && Extends(l, l')
    requires consumed < |Messages(l)| || Safe(l, l')
    ensures NextMessage(FilesOf(l'), MemOf(l).(active := a), consumed) ==
            (MemOf(if consumed < |Messages(l)| then l else l').(active := a),
             if consumed < |Messages(l')| then Got(consumed, Messages(l')[consumed]) else NoMessages)
  {
    hide EncodeAll, ReadAll, FilesOf, MemOf, WellFormed, Refresh, Recover, Messages, ReadMessage;
    MemOfShape(l);
    MemOfShape(l');
    ExtendsMessages(l, l');
    if consumed < |Messages(l)| {
      ReadsAppended(l, l', consumed);
      ReadKeepsActive(FilesOf(l'), MemOf(l), a, consumed);
    } else {
      RefreshRefinesRecovery(l, l');
      RefreshKeepsActive(FilesOf(l'), MemOf(l), a);
      if consumed < |Messages(l')| {
        ReadsAppended(l', l', consumed);
        ReadKeepsActive(FilesOf(l'), MemOf(l'), a, consumed);
      }
    }
  }

  lemma ReadKeepsActive(files: Files, mem: Mem, a: Option<nat>, offset: nat)
    ensures ReadMessage(files, mem.(active := a), offset) == ReadMessage(files, mem, offset)
  {
  }

  /** Asked again before the cursor moves, the log gives the same answer, whatever was appended
      meanwhile and wherever. */
  lemma NextRepeats(l: Layout, l': Layout, l'': Layout, a: Option<nat>, consumed: nat)
    requires WellFormed(l) && WellFormed(l') && WellFormed(l'') && Extends(l, l') && Extends(l', l'')
    requires consumed < |Messages(l)| || Safe(l, l')
    requires consumed < |Messages(l')|
    ensures var (mem, next) := NextMessage(FilesOf(l'), MemOf(l).(active := a), consumed);
            && next == Got(consumed, Messages(l')[consumed])
            && NextMessage(FilesOf(l''), mem, consumed) == (mem, next)
  {
    hide EncodeAll, ReadAll, FilesOf, MemOf, WellFormed, Refresh, Recover, Messages, ReadMessage, NextMessage;
    NextDelivers(l, l', a, consumed);
    ExtendsMessages(l', l'');
    if consumed < |Messages(l)| {
      assert Extends(l, l'');
      NextDelivers(l, l'', a, consumed);
    } else {
      NextDelivers(l', l'', a, consumed);
    }
  }

  /** A log that has read everything and finds nothing new stays as it is. */
  lemma OwnRefresh(l: Layout, a: Option<nat>)
    requires WellFormed(l)
    ensures Refresh(FilesOf(l), MemOf(l).(active := a)) == Outcome(MemOf(l).(active := a), None)
  {
    hide EncodeAll, FilesOf, MemOf, WellFormed, Refresh;
    RefreshSameSegments(l, l);
    RefreshKeepsActive(FilesOf(l), MemOf(l), a);
  }
}
