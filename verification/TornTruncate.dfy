/** What a truncation leaves that ends before the cursor is saved, be it by a crash or by a failure:
    the segment files behind those already removed, and the old cursor (pkg/wal/wal.go). */
module TornTruncate {
  import opened Wrappers
  import opened Record
  import opened Segment
  import opened Names
  import opened LogState
  import opened Recovery
  import opened Leftover
  import R = Refresh
  import S = Store
  import V = View
  import W = Wal

  /** The keys of the files that are left. */
  lemma KeysLeft(l: Layout, k: nat, b: nat)
    requires WellFormed(l) && k < |l|
    ensures b in W.FilesFrom(FilesOf(l), k) <==> exists i :: k <= i < |l| && l[i].base == b
    ensures b in W.FilesFrom(FilesOf(l), k) ==> W.FilesFrom(FilesOf(l), k)[b] == FilesOf(l)[b]
  {
    hide EncodeAll, FilesOf, WellFormed, Sorted, Bases;
    FilesReadAsLayout(l);
    SortedBases(FilesOf(l), l);
    BasesAre(l, k);
    ChunkBounds(l);
    FileKeys(l, b);
  }

  /** The files that are left are those of the later chunks. */
  lemma TornLeaves(l: Layout, k: nat)
    requires WellFormed(l) && k <= |l|
    ensures W.FilesFrom(FilesOf(l), k) == FilesOf(l[k..])
  {
    hide EncodeAll, WellFormed, Sorted, Bases, W.FilesFrom, FilesOf;
    if k == |l| {
      FilesReadAsLayout(l);
      SortedBases(FilesOf(l), l);
      V.BasesLong(l);
      NothingLeft(FilesOf(l), k);
      assert l[k..] == [];
    } else {
      forall b
        ensures b in W.FilesFrom(FilesOf(l), k) <==> b in FilesOf(l[k..])
        ensures b in W.FilesFrom(FilesOf(l), k) ==> W.FilesFrom(FilesOf(l), k)[b] == FilesOf(l[k..])[b]
      {
        KeysLeft(l, k, b);
        KeysOfLeft(l, k, b);
      }
    }
  }

  lemma NothingLeft(files: Files, k: nat)
    requires |Sorted(files.Keys)| <= k
    ensures W.FilesFrom(files, k) == map[] == FilesOf([])
  {
  }

  /** Recovery accepts what is left, without an error, and numbers its messages from 0. */
  lemma TornRecovers(l: Layout, k: nat)
    requires WellFormed(l) && k < |l|
    ensures Recover(W.FilesFrom(FilesOf(l), k)) == Outcome(MemOf(l[k..]), None)
  {
    hide EncodeAll, WellFormed, W.FilesFrom, FilesOf, Recover, MemOf;
    TornLeaves(l, k);
    LeftRecovers(l, k);
  }

  /** After a truncation that has removed k segments and no more, the process that comes next answers
      the offset at the old cursor with a message further on, by as many as were removed, or panics;
      with a cursor at the end it finds nothing. So with any removed it gives the right message only
      if the two happen to be the same. */
  lemma TornTruncateAnswers(l: Layout, k: nat, consumed: nat)
    requires WellFormed(l) && V.NonEmpty(l) && k < |l|
    ensures var files, removed, n := W.FilesFrom(FilesOf(l), k), l[k].base, |Messages(l)|;
            var mem := Recover(files).mem;
            && (removed == 0 <==> k == 0)
            && R.NextMessage(files, mem, consumed) ==
               (mem, if removed + consumed < n then Got(consumed, Messages(l)[removed + consumed])
                     else if consumed < n then Panics else NoMessages)
  {
    hide EncodeAll, FilesOf, WellFormed, Bases, W.FilesFrom, ReadAll, MemOf, Messages, Recover, ReadMessage,
      LogState.Refresh;
    TornLeaves(l, k);
    LeftRecovers(l, k);
    LeftReads(l, k, consumed);
    LeftLooks(l, k);
    LeftShape(l, k);
    MessagesSplit(l, k);
    V.ChunkAt(l, k);
    FirstBase(l, k);
  }

  lemma FirstBase(l: Layout, k: nat)
    requires WellFormed(l) && V.NonEmpty(l) && k < |l|
    ensures l[k].base == 0 <==> k == 0
  {
    hide EncodeAll, WellFormed;
    ChunkBounds(l);
    V.ChunkAt(l, 0);
    V.NoChunks(l[..0]);
  }

  /** If that process has a cursor at the end, and a message is appended to what is left, it gives that
      message if no segment was removed, and panics otherwise; and so does a process after it. */
  lemma TornThenAppended(l: Layout, k: nat, segmentSize: int, m: Payload)
    requires WellFormed(l) && V.NonEmpty(l) && k < |l| && Fits(m)
    ensures var files, n := W.FilesFrom(FilesOf(l), k), |Messages(l)|;
            var mem := Recover(files).mem;
            && ActiveInRange(mem)
            && var files' := Append(files, mem, segmentSize, m).0;
               var next := if k == 0 then Got(n, m) else Panics;
               R.NextMessage(files', mem, n).1 == next == ReadMessage(files', Recover(files').mem, n)
  {
    hide EncodeAll, FilesOf, WellFormed, Bases, W.FilesFrom, ReadAll, MemOf, Messages, Recover, ReadMessage, Fits,
      LogState.Refresh, Append, AppendLayout;
    var l', n := AppendLayout(l, segmentSize, m), |Messages(l)|;
    TornLeaves(l, k);
    LeftRecovers(l, k);
    LeftShape(l, k);
    FilesAppended(l, k, MemOf(l[k..]), segmentSize, m);
    AppendLayoutMessages(l, segmentSize, m);
    LeftGrown(l, k, segmentSize, m);
    LeftRecovers(l', k);
    LeftReads(l', k, n);
    if k == 0 {
      assert l[0..] == l && l'[0..] == l';
      WholeDelivers(l, segmentSize, m);
    } else {
      FirstBase(l, k);
      LeftGrows(l, k, segmentSize, m);
      ChunksShape(l[k..]);
      MessagesSplit(l, k);
      V.ChunkAt(l, k);
      BeyondPanics(FilesOf(l'[k..]), LogState.Refresh(FilesOf(l'[k..]), MemOf(l[k..])).mem, n);
    }
  }

  lemma BeyondPanics(files: Files, mem: Mem, offset: nat)
    requires |mem.index| <= offset
    ensures ReadMessage(files, mem, offset) == Panics
  {
  }

  /** How many messages are left after an append. */
  lemma LeftGrown(l: Layout, k: nat, segmentSize: int, m: Payload)
    requires WellFormed(l) && V.NonEmpty(l) && k < |l| && Fits(m)
    ensures var l' := AppendLayout(l, segmentSize, m);
            k < |l'| && |Messages(l'[k..])| == |Messages(l)| + 1 - l[k].base
  {
    hide EncodeAll, WellFormed, Messages, Fits;
    var l' := AppendLayout(l, segmentSize, m);
    AppendLayoutMessages(l, segmentSize, m);
    MessagesSplit(l', k);
    assert l'[..k] == l[..k];
    V.ChunkAt(l, k);
  }

  lemma WholeDelivers(l: Layout, segmentSize: int, m: Payload)
    requires WellFormed(l) && V.NonEmpty(l) && |l| > 0 && Fits(m)
    ensures R.NextMessage(FilesOf(AppendLayout(l, segmentSize, m)), MemOf(l), |Messages(l)|).1 ==
            Got(|Messages(l)|, m)
  {
    hide EncodeAll, WellFormed, Messages, Fits, FilesOf, MemOf, R.NextMessage;
    var l' := AppendLayout(l, segmentSize, m);
    AppendLayoutMessages(l, segmentSize, m);
    R.NextDelivers(l, l', MemOf(l).active, |Messages(l)|);
  }

  /** If all files were removed, the next process skips as many of the messages to come as the old
      cursor says: it starts with the first one just when that was 0. */
  lemma EmptiedSkips(s: S.Store, later: seq<Payload>)
    requires S.Valid(s)
    ensures var r := S.Truncate(s, false).(cur := s.saved, msgs := later, bases := if later == [] then [] else [0]);
            && S.Valid(r)
            && S.Answered(S.Looked(r)) == (if s.saved.consumed < |later|
                    then S.Next(s.saved.consumed, later[s.saved.consumed])
                                           else S.Nothing)
            && (later != [] ==> (S.Answered(S.Looked(r)) == S.Next(0, later[0]) <==> s.saved.consumed == 0))
  {
    var r := S.Truncate(s, false).(cur := s.saved, msgs := later, bases := if later == [] then [] else [0]);
    assert r.view + r.msgs[0..] == later;
  }
}
