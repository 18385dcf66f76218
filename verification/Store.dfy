/** The message store as its clients see it (pkg/store/store.go).

    What a process knows of the messages on disk is kept apart from what there is, because looking
    at the disk again does not always find everything (refresh in pkg/wal/wal.go).
 */
module Store {
  import opened Record
  import Packing

  /** consumed is the next offset to deliver. */
  datatype CursorState = CursorState(consumed: nat, postProcessed: nat)

  datatype Options = Options(maxMessages: int, maxBytes: int, segmentSize: int)

  /** On disk: the messages since the last truncation, the numbers of those that begin a segment
      file, the saved cursor and the dead letters. In the process: how many segments it knows, what
      it answers for the offsets 0, 1, ..., below which offset it takes messages to exist, and its
      cursor. */
  datatype Store = Store(
    msgs: seq<Payload>,
    bases: seq<nat>,
    segs: nat,
    view: seq<Payload>,
    known: nat,
    cur: CursorState,
    saved: CursorState,
    dead: seq<Payload>)

  const FRESH := Store([], [], 0, [], 0, CursorState(0, 0), CursorState(0, 0), [])

  /** Where the messages of the first n segments end. */
  function End(s: Store, n: nat): nat {
    if n == 0 then 0 else if n < |s.bases| then s.bases[n] else |s.msgs|
  }

  /** Segments hold at least one message each, and the process knows messages of its last one. */
  ghost predicate Valid(s: Store) {
    && (s.msgs != [] ==> s.bases != [])
    && (s.bases != [] ==> s.bases[0] == 0)
    && (forall i, j :: 0 <= i < j < |s.bases| ==> s.bases[i] < s.bases[j])
    && (forall i :: 0 <= i < |s.bases| ==> s.bases[i] < |s.msgs|)
    && s.segs <= |s.bases|
    && (if s.segs == 0 then s.known == 0 else s.bases[s.segs - 1] < s.known <= End(s, s.segs))
    && |s.view| <= s.known
  }

  /** The process answers every offset below known with its message. */
  ghost predicate Faithful(s: Store) {
    s.known <= |s.msgs| && s.view == s.msgs[..s.known]
  }

  // ---------- appending ----------

  /** A message appended by a process of its own, with its segment size. */
  datatype Appended = Appended(segmentSize: int, payload: Payload)

  function Payloads(appends: seq<Appended>): (ps: seq<Payload>)
    ensures |ps| == |appends|
  {
    if |appends| == 0 then [] else Payloads(appends[..|appends| - 1]) + [appends[|appends| - 1].payload]
  }

  /** The messages of the last segment. */
  function LastSegment(s: Store): seq<Payload>
    requires s.bases != [] && s.bases[|s.bases| - 1] <= |s.msgs|
  {
    s.msgs[s.bases[|s.bases| - 1]..]
  }

  /** A message begins a new segment if there is none or the last one is full. */
  predicate Rolls(s: Store, segmentSize: int)
    requires s.bases != [] ==> s.bases[|s.bases| - 1] <= |s.msgs|
  {
    s.bases == [] || Packing.Bytes(LastSegment(s)) >= segmentSize
  }

  function Append(s: Store, a: Appended): (r: Store)
    requires Valid(s)
    ensures Valid(r) && r.msgs == s.msgs + [a.payload] && s.bases <= r.bases
    ensures End(s, s.segs) <= End(r, r.segs)
  {
    s.(msgs := s.msgs + [a.payload], bases := if Rolls(s, a.segmentSize) then s.bases + [|s.msgs|] else s.bases)
  }

  function Grow(s: Store, appends: seq<Appended>): (r: Store)
    requires Valid(s)
    ensures Valid(r) && r.msgs == s.msgs + Payloads(appends) && s.bases <= r.bases
    ensures r == s.(msgs := r.msgs, bases := r.bases)
    ensures |appends| == 0 ==> r == s
    ensures End(s, s.segs) <= End(r, r.segs)
  {
    if |appends| == 0 then s
    else Append(Grow(s, appends[..|appends| - 1]), appends[|appends| - 1])
  }

  // ---------- looking and reading ----------

  /** The first message that a look finds: if there are new segments, the first one of those. */
  function Found(s: Store): (n: nat)
    requires Valid(s)
    ensures s.known <= n <= |s.msgs|
    ensures n < |s.msgs| || (n == s.known && s.segs == |s.bases|)
  {
    if s.segs < |s.bases| then s.bases[s.segs] else s.known
  }

  /** A look at the disk. It takes all messages to be known, but misses those before Found. */
  function Look(s: Store): (r: Store)
    requires Valid(s)
    ensures Valid(r) && r.known == |s.msgs|
  {
    s.(segs := |s.bases|, view := s.view + s.msgs[Found(s)..], known := |s.msgs|)
  }

  /** A look misses nothing: no segment was added, or else the last known one has not grown. */
  predicate Safe(s: Store)
    requires Valid(s)
  {
    Found(s) == s.known
  }

  /** Only a caught-up reader looks at the disk again. */
  function Looked(s: Store): (r: Store)
    requires Valid(s)
    ensures Valid(r) && s.known <= r.known && s.view <= r.view && s.segs <= r.segs
    ensures r == s.(segs := r.segs, view := r.view, known := r.known)
    ensures End(s, s.segs) <= End(r, r.segs)
  {
    if s.cur.consumed >= s.known then Look(s) else s
  }

  /** No message, or an offset with a payload, or an index out of range. */
  datatype Answer = Nothing | Next(offset: nat, payload: Payload) | Panic

  function Answered(s: Store): Answer {
    if s.cur.consumed >= s.known then Nothing
    else if s.cur.consumed < |s.view| then Next(s.cur.consumed, s.view[s.cur.consumed])
    else Panic
  }

  function Depth(s: Store): nat {
    if s.known > s.cur.consumed then s.known - s.cur.consumed else 0
  }

  // ---------- the cursor, dead letters, retention ----------

  /** The saved cursor follows the one in memory when saving succeeds. */
  function Save(s: Store, ok: bool): Store {
    if ok then s.(saved := s.cur) else s
  }

  function Advance(s: Store, offset: nat): Store {
    if offset + 1 > s.cur.consumed then s.(cur := s.cur.(consumed := offset + 1)) else s
  }

  function MarkProcessed(s: Store, offset: nat, ok: bool): Store {
    Save(Advance(s, offset), ok)
  }

  function MarkPostProcessed(s: Store, offset: nat, ok: bool): Store {
    Save(if offset > s.cur.postProcessed then s.(cur := s.cur.(postProcessed := offset)) else s, ok)
  }

  function WriteDead(s: Store, payload: Payload): Store {
    s.(dead := s.dead + [payload])
  }

  function DeadLetter(s: Store, offset: nat, payload: Payload, ok: bool): Store {
    MarkProcessed(WriteDead(s, payload), offset, ok)
  }

  /** The sizes of the known segments, as last seen, are those of the records that are answered. */
  predicate RetentionExceeded(s: Store, opts: Options) {
    || (opts.maxMessages > 0 && s.cur.consumed > opts.maxMessages)
    || (opts.maxBytes > 0 && Packing.Bytes(s.view) > opts.maxBytes)
  }

  /** A snapshot copies the known segments as they are on disk. */
  function Snapshot(s: Store): (snapshot: seq<Payload>)
    requires Valid(s)
    ensures s.known <= |snapshot| && snapshot <= s.msgs
    ensures |snapshot| == |s.msgs| <==> s.segs == |s.bases|
  {
    s.msgs[..End(s, s.segs)]
  }

  function Truncate(s: Store, ok: bool): Store {
    Save(s.(msgs := [], bases := [], segs := 0, view := [], known := 0, cur := CursorState(0, 0)), ok)
  }

  /** A new process on the same disk: it knows all messages and starts from the saved cursor. */
  function Reopened(s: Store): (r: Store)
    requires Valid(s)
    ensures Valid(r) && Faithful(r) && r.cur == s.saved
  {
    s.(segs := |s.bases|, view := s.msgs, known := |s.msgs|, cur := s.saved)
  }

  /** The cursor never goes back: it becomes the larger of where it was and the offset behind the
      message, and is saved with what else it says if saving succeeds. */
  lemma MarksForward(s: Store, offset: nat, ok: bool)
    ensures var r := MarkProcessed(s, offset, ok);
            && r.cur.consumed >= s.cur.consumed && r.cur.consumed >= offset + 1
            && (r.cur.consumed == s.cur.consumed || r.cur.consumed == offset + 1)
            && r.cur.postProcessed == s.cur.postProcessed && r.saved == (if ok then r.cur else s.saved)
            && r == s.(cur := r.cur, saved := r.saved)
  {
  }

  /** The same for the highest offset that was post-processed. */
  lemma PostMarksForward(s: Store, offset: nat, ok: bool)
    ensures var r := MarkPostProcessed(s, offset, ok);
            && r.cur.postProcessed >= s.cur.postProcessed && r.cur.postProcessed >= offset
            && (r.cur.postProcessed == s.cur.postProcessed || r.cur.postProcessed == offset)
            && r.cur.consumed == s.cur.consumed && r.saved == (if ok then r.cur else s.saved)
            && r == s.(cur := r.cur, saved := r.saved)
  {
  }

  /** What is known is consumed or counted by the depth; it is 0 exactly if there is nothing to
      answer. A message appended and read deepens it by one, and one that is processed takes one off. */
  lemma DepthCounts(s: Store, a: Appended, ok: bool)
    requires Valid(s)
    ensures s.cur.consumed <= s.known ==> Depth(s) + s.cur.consumed == s.known
    ensures Depth(s) == 0 <==> Answered(s).Nothing?
    ensures s.cur.consumed < s.known ==> Depth(MarkProcessed(s, s.cur.consumed, ok)) == Depth(s) - 1
    ensures s.known == |s.msgs| && s.cur.consumed <= s.known ==> Depth(Look(Append(s, a))) == Depth(s) + 1
  {
  }

  // ---------- what a look is worth ----------

  /** A caught-up reader that looks is given the message at the cursor exactly if the look is safe,
      or the first message of the new segments happens to be the same. */
  lemma LookDecides(s: Store)
    requires Valid(s) && Faithful(s) && s.cur.consumed == s.known < |s.msgs|
    ensures Answered(Look(s)) == Next(s.known, s.msgs[Found(s)])
    ensures Answered(Look(s)) == Next(s.known, s.msgs[s.known]) <==>
            Safe(s) || s.msgs[Found(s)] == s.msgs[s.known]
    ensures Faithful(Look(s)) <==> Safe(s)
  {
    var r := Look(s);
    if Safe(s) {
      assert s.msgs[..s.known] + s.msgs[s.known..] == s.msgs;
      assert s.msgs[..|s.msgs|] == s.msgs;
    } else {
      assert |r.view| < |s.msgs|;
    }
  }
}
