/** A log that was open when another process truncated the directory (pkg/wal/wal.go): it knows
    nothing of it, and writes on to a segment file that is gone, until that is full. */
module StaleLog {
  import opened Wrappers
  import opened Record
  import opened Segment
  import opened LogState
  import opened Recovery
  import opened Packing
  import opened Leftover
  import opened Senders
  import R = Refresh
  import S = Store
  import V = View

  /** One log appends messages, one after the other. */
  function AppendMany(files: Files, mem: Mem, segmentSize: int, ms: seq<Payload>): (r: (Files, Mem))
    requires ActiveInRange(mem)
    ensures ActiveInRange(r.1)
  {
    if |ms| == 0 then (files, mem)
    else
      var (files', mem') := AppendMany(files, mem, segmentSize, Front(ms));
      AppendKeepsRange(files', mem', segmentSize, Last(ms));
      Append(files', mem', segmentSize, Last(ms))
  }

  lemma AppendKeepsRange(files: Files, mem: Mem, segmentSize: int, m: Payload)
    requires ActiveInRange(mem)
    ensures ActiveInRange(Append(files, mem, segmentSize, m).1)
  {
  }

  /** What the log remembers does not depend on the files. */
  lemma MemoryAlone(files: Files, files': Files, mem: Mem, segmentSize: int, m: Payload)
    requires ActiveInRange(mem)
    ensures Append(files, mem, segmentSize, m).1 == Append(files', mem, segmentSize, m).1
  {
  }

  lemma AppendStays(l: Layout, segmentSize: int, m: Payload)
    requires WellFormed(l) && V.NonEmpty(l) && Fits(m)
    ensures var r := AppendLayout(l, segmentSize, m);
            WellFormed(r) && V.NonEmpty(r) && |l| <= |r| && Messages(r) == Messages(l) + [m]
  {
    hide EncodeAll, WellFormed, Fits;
    AppendLayoutMessages(l, segmentSize, m);
  }

  lemma {:induction false} AppendsStay(l: Layout, segmentSize: int, ms: seq<Payload>)
    requires WellFormed(l) && V.NonEmpty(l) && AllFit(ms)
    ensures var r := AppendAll(l, segmentSize, ms);
            WellFormed(r) && V.NonEmpty(r) && |l| <= |r| && Messages(r) == Messages(l) + ms
  {
    hide WellFormed, AppendLayout, Fits;
    if |ms| > 0 {
      AppendsStay(l, segmentSize, Front(ms));
      AppendStays(AppendAll(l, segmentSize, Front(ms)), segmentSize, Last(ms));
      assert Front(ms) + [Last(ms)] == ms;
    }
  }

  /** Whatever the log appends, it goes on as it would have done, and so does the directory, but
      without the segments that the log had when it was truncated. */
  lemma {:induction false} StaleAppends(l: Layout, segmentSize: int, ms: seq<Payload>)
    requires WellFormed(l) && V.NonEmpty(l) && |l| > 0 && AllFit(ms)
    ensures ActiveInRange(MemOf(l))
    ensures var r := AppendAll(l, segmentSize, ms);
            |l| <= |r| && AppendMany(map[], MemOf(l), segmentSize, ms) == (FilesOf(r[|l|..]), MemOf(r))
  {
    hide WellFormed, AppendLayout, Fits, MemOf, FilesOf, Append, EncodeAll, Messages, ActiveInRange;
    MemOfShape(l);
    InRange(l);
    AppendsStay(l, segmentSize, ms);
    if |ms| == 0 {
      NoFilesOfNone(l);
    } else {
      var before := AppendAll(l, segmentSize, Front(ms));
      StaleAppends(l, segmentSize, Front(ms));
      AppendsStay(l, segmentSize, Front(ms));
      MemOfShape(before);
      InRange(before);
      AppendInStep(before, segmentSize, Last(ms));
      MemoryAlone(FilesOf(before), FilesOf(before[|l|..]), MemOf(before), segmentSize, Last(ms));
      FilesAppended(before, |l|, MemOf(before), segmentSize, Last(ms));
    }
  }

  lemma InRange(l: Layout)
    requires WellFormed(l) && |MemOf(l).segments| == |l|
    requires MemOf(l).active == if |l| == 0 then None else Some(|l| - 1)
    ensures ActiveInRange(MemOf(l))
  {
  }

  lemma NoFilesOfNone(l: Layout)
    ensures l[|l|..] == [] && FilesOf(l[|l|..]) == map[]
  {
  }

  // ---------- what is found in the directory ----------

  /** The messages that get into the directory, behind those that get into no file. */
  function Found(l: Layout, segmentSize: int, ms: seq<Payload>): seq<Payload>
    requires |l| <= |AppendAll(l, segmentSize, ms)|
  {
    Messages(AppendAll(l, segmentSize, ms)[|l|..])
  }

  lemma {:induction false} AppendsExtend(l: Layout, segmentSize: int, ms: seq<Payload>)
    ensures Extends(l, AppendAll(l, segmentSize, ms))
  {
    hide AppendLayout;
    if |ms| > 0 {
      AppendsExtend(l, segmentSize, Front(ms));
      ExtendsAppend(l, AppendAll(l, segmentSize, Front(ms)), segmentSize, Last(ms));
    }
  }

  /** They are the last ones. */
  lemma FoundAreLast(l: Layout, segmentSize: int, ms: seq<Payload>)
    requires WellFormed(l) && V.NonEmpty(l) && |l| > 0 && AllFit(ms)
    ensures |l| <= |AppendAll(l, segmentSize, ms)|
    ensures var r, found := AppendAll(l, segmentSize, ms), Found(l, segmentSize, ms);
            && |found| <= |ms| && found == ms[|ms| - |found|..]
            && (found == [] <==> |r| == |l|)
  {
    hide WellFormed, AppendLayout, AppendAll, Messages, Fits, EncodeAll;
    var r := AppendAll(l, segmentSize, ms);
    AppendsStay(l, segmentSize, ms);
    AppendsExtend(l, segmentSize, ms);
    MessagesSplit(r, |l|);
    ExtendsMessages(l, r[..|l|]);
    Behind(Messages(l), ms, Messages(r[..|l|]), Messages(r[|l|..]));
    if |r| > |l| {
      HasMessages(r[|l|..]);
    } else {
      assert r[|l|..] == [];
      V.NoChunks(r[|l|..]);
    }
  }

  lemma Behind<T>(x: seq<T>, y: seq<T>, p: seq<T>, q: seq<T>)
    requires x + y == p + q && |x| <= |p|
    ensures |q| <= |y| && q == y[|y| - |q|..]
  {
    assert q == (p + q)[|p|..];
    assert (x + y)[|p|..] == y[|p| - |x|..];
  }

  lemma HasMessages(l: Layout)
    requires |l| > 0 && Last(l).msgs != []
    ensures Messages(l) != []
  {
  }

  /** Every process that opens the directory afterwards, and the one that truncated it when it looks
      again, answers with the messages that got there, numbered from 0, although their sender was
      told higher numbers; and it panics at the offsets behind them. */
  lemma StaleAnswers(l: Layout, segmentSize: int, ms: seq<Payload>, consumed: nat)
    requires WellFormed(l) && V.NonEmpty(l) && |l| > 0 && AllFit(ms)
    ensures ActiveInRange(MemOf(l)) && |l| <= |AppendAll(l, segmentSize, ms)|
    ensures var files, found := AppendMany(map[], MemOf(l), segmentSize, ms).0, Found(l, segmentSize, ms);
            var next := if consumed < |found| then Got(consumed, found[consumed])
                        else if found != [] && consumed < |Messages(l) + ms| then Panics else NoMessages;
            && |found| <= |ms| && found == ms[|ms| - |found|..]
            && Recover(files).error == None
            && R.NextMessage(files, Recover(files).mem, consumed).1 == next
            && R.NextMessage(files, EMPTY, consumed).1 == next
  {
    hide WellFormed, AppendLayout, AppendAll, AppendMany, Messages, Fits, EncodeAll, MemOf, FilesOf, Recover,
      LogState.Refresh, R.NextMessage;
    var r, k := AppendAll(l, segmentSize, ms), |l|;
    StaleAppends(l, segmentSize, ms);
    AppendsStay(l, segmentSize, ms);
    FoundAreLast(l, segmentSize, ms);
    LeftRecovers(r, k);
    LeftAnswers(r, k, consumed);
  }

  /** What a log of what is left answers, and what a log without any memory does. */
  lemma LeftAnswers(r: Layout, k: nat, consumed: nat)
    requires WellFormed(r) && k <= |r|
    ensures var files, left := FilesOf(r[k..]), Messages(r[k..]);
            var next := if consumed < |left| then Got(consumed, left[consumed])
                        else if k < |r| && consumed < |Messages(r)| then Panics else NoMessages;
            && R.NextMessage(files, MemOf(r[k..]), consumed).1 == next
            && R.NextMessage(files, EMPTY, consumed).1 == next
  {
    hide WellFormed, Messages, EncodeAll, MemOf, FilesOf, LogState.Refresh, ReadMessage;
    var files, mem := FilesOf(r[k..]), MemOf(r[k..]);
    LeftFound(r, k);
    LeftReads(r, k, consumed);
    R.ReadKeepsActive(files, mem, None, consumed);
    MessagesSplit(r, k);
    if k < |r| {
      LeftLooks(r, k);
      LeftShape(r, k);
    } else {
      assert r[k..] == [];
      NoLog();
    }
  }

  lemma NoLog()
    ensures MemOf([]) == EMPTY && Messages([]) == []
  {
  }

  /** A message appended by a log that is open is in the directory under the offset that Append
      returns exactly if the directory has not been truncated since, or the log had no messages. */
  lemma OpenAcrossTruncation(l: Layout, segmentSize: int, m: Payload, truncated: bool)
    requires WellFormed(l) && V.NonEmpty(l) && Fits(m)
    ensures ActiveInRange(MemOf(l))
    ensures var n := MemOf(l).nextIdx;
            var files := Append(if truncated then map[] else FilesOf(l), MemOf(l), segmentSize, m).0;
            && Recover(files).error == None
            && (ReadMessage(files, Recover(files).mem, n) == Got(n, m) <==> !truncated || l == [])
  {
    hide WellFormed, AppendLayout, Messages, Fits, EncodeAll, MemOf, FilesOf, Recover, ReadMessage, Append;
    var r, n := AppendLayout(l, segmentSize, m), |Messages(l)|;
    MemOfShape(l);
    AppendInStep(l, segmentSize, m);
    AppendStays(l, segmentSize, m);
    var k := if truncated then |l| else 0;
    assert l[0..] == l && r[0..] == r;
    if truncated && |l| > 0 {
      FilesAppended(l, |l|, MemOf(l), segmentSize, m);
      NoFilesOfNone(l);
      MessagesSplit(r, k);
      AtLeastBefore(l, segmentSize, m);
    } else if truncated {
      NoFilesOfNone(l);
    }
    LeftRecovers(r, k);
    LeftReads(r, k, n);
  }

  /** The chunks that l has had keep their messages. */
  lemma AtLeastBefore(l: Layout, segmentSize: int, m: Payload)
    requires WellFormed(l) && V.NonEmpty(l) && |l| > 0
    ensures var r := AppendLayout(l, segmentSize, m); |l| <= |r| && |Messages(r[..|l|])| >= |Messages(l)| > 0
  {
    hide WellFormed, AppendLayout, Messages, EncodeAll;
    var r := AppendLayout(l, segmentSize, m);
    ExtendsAppend(l, l, segmentSize, m);
    ExtendsMessages(l, r[..|l|]);
    HasMessages(l);
  }

  // ---------- the sender of the machine ----------

  /** The last segment's bytes, with which a truncation detaches the sender. */
  function Filled(l: Layout): nat
    requires |l| > 0
  {
    Bytes(Last(l).msgs)
  }

  function Sendings(ms: seq<Payload>): (sends: seq<Sending>)
    ensures |sends| == |ms|
  {
    if |ms| == 0 then [] else Sendings(Front(ms)) + [Sending.Appends(Last(ms))]
  }

  /** A truncation detaches a sender with the number that comes next in its log and the bytes of its
      last segment; of a log without messages it is the sender still. */
  lemma DetachIs(l: Layout, epoch: nat, segmentSize: int, s: S.Store)
    requires WellFormed(l) && V.NonEmpty(l) && S.Valid(s) && s.msgs == Messages(l) && s.bases == Bases(l)
    ensures Detach(Attached(segmentSize), epoch, s) ==
            if |l| == 0 then Attached(segmentSize) else Detached(epoch, segmentSize, |Messages(l)|, Filled(l))
  {
    hide WellFormed, Messages, EncodeAll, S.Valid, Bases;
    V.BasesLong(l);
    if |l| > 0 {
      BasesAt(l, |l| - 1);
      V.ChunkAt(l, |l| - 1);
      LastChunk(l);
      assert S.LastSegment(s) == Last(l).msgs;
    }
  }

  /** The log does what the sender does: it becomes stray when it begins a segment, and until then it
      has the next number and the bytes of the sender. */
  lemma {:induction false} SenderFollows(l: Layout, epoch: nat, segmentSize: int, ms: seq<Payload>)
    requires WellFormed(l) && V.NonEmpty(l) && |l| > 0 && AllFit(ms)
    ensures var r := AppendAll(l, segmentSize, ms);
            && |r| >= |l|
            && After(Detached(epoch, segmentSize, |Messages(l)|, Filled(l)), Sendings(ms)) ==
               if |r| > |l| then Stray else Detached(epoch, segmentSize, |Messages(r)|, Filled(r))
  {
    hide WellFormed, AppendLayout, Messages, EncodeAll, Fits, After, Sendings, Filled;
    var t := Detached(epoch, segmentSize, |Messages(l)|, Filled(l));
    if |ms| == 0 {
      NothingSent(t);
    } else {
      var before := AppendAll(l, segmentSize, Front(ms));
      SenderFollows(l, epoch, segmentSize, Front(ms));
      AppendsStay(l, segmentSize, Front(ms));
      AppendStays(before, segmentSize, Last(ms));
      OneMore(before, segmentSize, Last(ms));
      OneSent(t, ms);
    }
  }

  lemma NothingSent(t: Sender)
    ensures After(t, Sendings([])) == t
  {
  }

  lemma OneSent(t: Sender, ms: seq<Payload>)
    requires |ms| > 0
    ensures After(t, Sendings(ms)) == AfterOne(After(t, Sendings(Front(ms))), Sending.Appends(Last(ms)))
  {
    assert Sendings(ms)[..|ms| - 1] == Sendings(Front(ms));
  }

  lemma OneMore(l: Layout, segmentSize: int, m: Payload)
    requires |l| > 0
    ensures var r := AppendLayout(l, segmentSize, m);
            if Filled(l) >= segmentSize then |r| == |l| + 1
            else |r| == |l| && Filled(r) == Filled(l) + RecordSize(|m|)
  {
    hide EncodeAll, Messages;
    EncodedSize(Last(l).msgs);
    assert Front(Last(l).msgs + [m]) == Last(l).msgs;
  }
}
