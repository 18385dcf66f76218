/** A process that appends through one log that it keeps open, as `nile send` does (cmd/nile/main.go),
    and what becomes of its messages when the log is truncated meanwhile (pkg/wal/wal.go).

    One such process is there at a time. Nothing tells it of a truncation: it goes on writing to its
    last segment file, which is deleted, until that is full.
 */
module Senders {
  import opened Store
  import Packing
  import Record

  /** It opens its log, with a segment size, or appends a message. */
  datatype Sending = Opens(segmentSize: int) | Appends(payload: Record.Payload)

  /** A sender whose log is the directory's; or one whose log was truncated, in an epoch, with the
      number that its next message gets and the bytes in its last segment; or one that has begun a
      new segment after that, so that its messages are in the directory again, under numbers that
      are too high. */
  datatype Sender =
    | NoSender
    | Attached(segmentSize: int)
    | Detached(epoch: nat, segmentSize: int, next: nat, filled: nat)
    | Stray

  /** What Append has returned: in which epoch the sender's log was opened, and the offset. */
  datatype Accepted = Accepted(epoch: nat, offset: nat, payload: Record.Payload)

  function AfterOne(t: Sender, a: Sending): Sender {
    match (t, a)
    case (Stray, _) => Stray
    case (_, Opens(size)) => Attached(size)
    case (Detached(epoch, size, next, filled), Appends(p)) =>
      if filled >= size then Stray else Detached(epoch, size, next + 1, filled + Record.RecordSize(|p|))
    case (_, Appends(_)) => t
  }

  function After(t: Sender, sends: seq<Sending>): Sender {
    if |sends| == 0 then t else AfterOne(After(t, sends[..|sends| - 1]), sends[|sends| - 1])
  }

  /** The messages that are appended to the directory. */
  function Landing(t: Sender, sends: seq<Sending>): seq<Appended> {
    if |sends| == 0 then []
    else
      var before, a := sends[..|sends| - 1], sends[|sends| - 1];
      var now := After(t, before);
      Landing(t, before) + if a.Appends? && now.Attached? then [Appended(now.segmentSize, a.payload)] else []
  }

  /** The offsets that Append returns, in an epoch and from the n-th message on. */
  function Accepting(t: Sender, epoch: nat, n: nat, sends: seq<Sending>): seq<Accepted> {
    if |sends| == 0 then []
    else
      var before, a := sends[..|sends| - 1], sends[|sends| - 1];
      var now := After(t, before);
      Accepting(t, epoch, n, before)
      + if a.Opens? then []
        else match now
             case Attached(_) => [Accepted(epoch, n + |Landing(t, before)|, a.payload)]
             case Detached(e, _, next, _) => [Accepted(e, next, a.payload)]
             case _ => []
  }

  /** The sender goes on appending to a log that has been truncated. */
  predicate Vanishes(t: Sender, sends: seq<Sending>) {
    t.Detached? && |sends| > 0 && sends[0].Appends?
  }

  /** A truncation leaves the sender with the files of the log as it was, if there were any. */
  function Detach(t: Sender, epoch: nat, s: Store): Sender
    requires Valid(s)
  {
    if t.Attached? && s.bases != [] then
      Detached(epoch, t.segmentSize, |s.msgs|, Packing.Bytes(LastSegment(s)))
    else t
  }

  /** What one more sending does. */
  lemma SendsNext(t: Sender, sends: seq<Sending>, i: nat)
    requires i < |sends|
    ensures var now := After(t, sends[..i]);
            && After(t, sends[..i + 1]) == AfterOne(now, sends[i])
            && Landing(t, sends[..i + 1]) ==
               Landing(t, sends[..i]) + if sends[i].Appends? && now.Attached?
               then [Appended(now.segmentSize, sends[i].payload)] else []
  {
    assert sends[..i + 1][..i] == sends[..i];
  }

  lemma {:induction false} StrayBefore(t: Sender, sends: seq<Sending>, i: nat)
    requires i <= |sends| && After(t, sends[..i]).Stray?
    ensures After(t, sends).Stray?
    decreases |sends|
  {
    if i == |sends| {
      assert sends[..i] == sends;
    } else {
      assert sends[..|sends| - 1][..i] == sends[..i];
      StrayBefore(t, sends[..|sends| - 1], i);
    }
  }

  lemma {:induction false} StaysStray(sends: seq<Sending>)
    ensures After(Stray, sends) == Stray
    decreases |sends|
  {
    if |sends| > 0 {
      StaysStray(sends[..|sends| - 1]);
    }
  }
}
