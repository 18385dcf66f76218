/** The transport over a neb's stdin and stdout (pkg/transport/stdio.go).

    Requests are lines on one pipe, responses lines on another; the ids are never compared. What
    pairs them is that every request that is written takes one line, and that nothing is sent any
    more once a request did not get its line.
 */
module Transport {
  import opened Wrappers

  datatype Request = Request(id: nat, encodes: bool)

  datatype Response = Response(id: nat, ok: bool)

  /** A line from the neb: a response, or what does not decode as one. */
  datatype Line = Json(response: Response) | Malformed

  datatype SendError = Closed | Broken | Unencodable | WriteFailed | StdoutClosed | TimedOut | Undecodable

  /** How Send ends; without a timeout and with no line it waits forever and keeps its lock. */
  datatype Outcome = Got(response: Response) | Failed(error: SendError) | Waits

  /** What happens from the end of the previous call until this one returns: the lines the neb
      writes, in order, and whether its stdout ends after them; whether the write succeeds; and
      whether the timer goes off before a line that is there is taken. late tells whether the reader
      that an earlier timeout has left behind takes a line, if there is one. */
  datatype Meanwhile = Meanwhile(lines: seq<Line>, ends: bool, writes: bool, expires: bool, late: bool)

  // ---------- the transport and its pipes as a value ----------

  /** sent are the lines in the neb's stdin, output all it ever wrote to its stdout, of which the
      scanner has handed out the first read. A reader may have been left behind, blocked in it. */
  datatype Link = Link(
    timeout: nat,
    closed: bool,
    broken: bool,
    locked: bool,
    sent: seq<Request>,
    output: seq<Line>,
    read: nat,
    ended: bool,
    reader: bool,
    // the responses returned, with the number of the request among those written
    returned: seq<(nat, Response)>)

  function Fresh(timeout: nat): Link {
    Link(timeout, false, false, false, [], [], 0, false, false, [])
  }

  /** The neb's part: after the end of its stdout there are no more lines. And that of a reader left
      behind: it takes one line, or finds the end, at any later time. */
  function Moved(l: Link, m: Meanwhile): Link {
    var l := if l.ended then l else l.(output := l.output + m.lines, ended := m.ends);
    if l.reader && m.late && l.read < |l.output| then l.(read := l.read + 1, reader := false)
    else if l.reader && l.ended && l.read == |l.output| then l.(reader := false)
    else l
  }

  /** The next line, if the reader gets one. */
  function LineRead(l: Link, m: Meanwhile): (Link, Option<Line>, Outcome) {
    if l.timeout > 0 && (m.expires || (l.read == |l.output| && !l.ended)) then
      (l.(broken := true, reader := true), None, Failed(TimedOut))
    else if l.read < |l.output| then (l.(read := l.read + 1), Some(l.output[l.read]), Waits)
    else if l.ended then (l, None, Failed(StdoutClosed))
    else (l.(locked := true), None, Waits)
  }

  function Sent(before: Link, req: Request, m: Meanwhile): (Link, Outcome) {
    var l := Moved(before, m);
    if l.locked then (l, Waits)
    else if l.closed then (l, Failed(Closed))
    else if l.broken then (l, Failed(Broken))
    else if !req.encodes then (l, Failed(Unencodable))
    else if !m.writes then (l, Failed(WriteFailed))
    else
      var (l, line, out) := LineRead(l.(sent := l.sent + [req]), m);
      match line
      case None => (l, out)
      case Some(Malformed) => (l, Failed(Undecodable))
      case Some(Json(r)) => (l.(returned := l.returned + [(|l.sent| - 1, r)]), Got(r))
  }

  function Shut(l: Link): Link {
    if l.locked then l else l.(closed := true)
  }

  // ---------- the code ----------

  class Stdio {
    const timeout: nat
    var closed: bool
    var broken: bool
    var locked: bool
    var stdin: seq<Request>
    var stdout: seq<Line>
    var read: nat
    var ended: bool
    var reader: bool
    ghost var returned: seq<(nat, Response)>

    constructor (timeout: nat)
      ensures Abs() == Fresh(timeout)
    {
      this.timeout := timeout;
      closed, broken, locked, ended, reader := false, false, false, false, false;
      stdin, stdout, read, returned := [], [], 0, [];
    }

    ghost function Abs(): Link
      reads this
    {
      Link(timeout, closed, broken, locked, stdin, stdout, read, ended, reader, returned)
    }

    /** What the neb writes, and what a reader left behind takes of it. */
    method NebActs(m: Meanwhile)
      modifies this`stdout, this`ended, this`read, this`reader
      ensures Abs() == Moved(old(Abs()), m)
    {
      if !ended {
        stdout := stdout + m.lines;
        ended := m.ends;
      }
      if reader && (if read < |stdout| then m.late else ended && read == |stdout|) {
        var _, _ := Scan();
        reader := false;
      }
    }

    /** One line of the scanner, if there is one or the stream has ended. */
    method Scan() returns (found: bool, line: Option<Line>)
      modifies this`read
      ensures found <==> old(read) < |stdout| || ended
      ensures line == if old(read) < |stdout| then Some(stdout[old(read)]) else None
      ensures read == old(read) + if line.Some? then 1 else 0
    {
      if read < |stdout| {
        line := Some(stdout[read]);
        read := read + 1;
        return true, line;
      }
      return ended, None;
    }

    /** Reads a line directly, or in a goroutine that the timer may beat, and beats if there is
        neither a line nor the end. */
    method ReadLine(m: Meanwhile) returns (line: Option<Line>, out: Outcome)
      requires read <= |stdout|
      modifies this`read, this`broken, this`locked, this`reader
      ensures (Abs(), line, out) == LineRead(old(Abs()), m)
    {
      if timeout > 0 && m.expires {
        broken, reader := true, true;
        return None, Failed(TimedOut);
      }
      var found, l := Scan();
      if !found {
        if timeout > 0 {
          broken, reader := true, true;
          return None, Failed(TimedOut);
        }
        locked := true;
        return None, Waits;
      }
      if l.None? {
        return None, Failed(StdoutClosed);
      }
      return l, Waits;
    }

    method Send(req: Request, m: Meanwhile) returns (out: Outcome)
      requires read <= |stdout|
      modifies this
      ensures (Abs(), out) == Sent(old(Abs()), req, m)
      ensures read <= |stdout|
    {
      NebActs(m);
      if locked {
        return Waits;
      }
      if closed {
        return Failed(Closed);
      }
      if broken {
        return Failed(Broken);
      }
      if !req.encodes {
        return Failed(Unencodable);
      }
      if !m.writes {
        return Failed(WriteFailed);
      }
      stdin := stdin + [req];
      var line;
      line, out := ReadLine(m);
      match line {
        case None =>
        case Some(Malformed) =>
          out := Failed(Undecodable);
        case Some(Json(r)) =>
          returned := returned + [(|stdin| - 1, r)];
          out := Got(r);
      }
    }

    method Close()
      modifies this`closed
      ensures Abs() == old(Shut(Abs()))
    {
      if !locked {
        closed := true;
      }
    }
  }

  // ---------- whole runs ----------

  datatype Action = Sending(req: Request, meanwhile: Meanwhile) | Closing

  function Act(l: Link, a: Action): Link {
    match a
    case Sending(req, m) => Sent(l, req, m).0
    case Closing => Shut(l)
  }

  function Run(l: Link, actions: seq<Action>): Link {
    if |actions| == 0 then l else Act(Run(l, actions[..|actions| - 1]), actions[|actions| - 1])
  }

  /** While requests are still written and answered, as many lines have been read as were written; a
      reader left behind is one line short. */
  ghost predicate InStep(l: Link) {
    && (!l.broken && !l.locked && !(l.ended && l.read == |l.output|) ==> l.read == |l.sent|)
    && (l.reader ==> l.broken && l.read < |l.sent|)
    && l.read <= |l.sent| && l.read <= |l.output|
    && forall x <- l.returned :: x.0 < |l.sent| && x.0 < |l.output| && l.output[x.0] == Json(x.1)
  }

  lemma MovedInStep(l: Link, m: Meanwhile)
    requires InStep(l)
    ensures InStep(Moved(l, m))
  {
    var r := Moved(l, m);
    assert l.output <= r.output;
  }

  lemma SentInStep(l: Link, req: Request, m: Meanwhile)
    requires InStep(l)
    ensures InStep(Sent(l, req, m).0)
  {
    hide Moved;
    MovedInStep(l, m);
  }

  lemma ActInStep(l: Link, a: Action)
    requires InStep(l)
    ensures InStep(Act(l, a))
  {
    hide Sent, InStep;
    match a
    case Sending(req, m) => SentInStep(l, req, m);
    case Closing => ShutInStep(l);
  }

  lemma ShutInStep(l: Link)
    requires InStep(l)
    ensures InStep(Shut(l))
  {
  }

  /** Whatever the neb writes and whenever: the response to the k-th request that was written is the
      k-th line of the neb. */
  lemma {:induction false} LineOfItsRequest(timeout: nat, actions: seq<Action>)
    ensures InStep(Run(Fresh(timeout), actions))
  {
    hide Act;
    if |actions| > 0 {
      LineOfItsRequest(timeout, actions[..|actions| - 1]);
      ActInStep(Run(Fresh(timeout), actions[..|actions| - 1]), actions[|actions| - 1]);
    }
  }

  // ---------- what a call returns ----------

  /** Before the call the neb has gone on writing. */
  function Written(l: Link, m: Meanwhile): seq<Line> {
    if l.ended then l.output else l.output + m.lines
  }

  function Ended(l: Link, m: Meanwhile): bool {
    l.ended || m.ends
  }

  /** A reader that a timeout has left behind takes one line, when it is late enough and there is one,
      and with that is gone, as it is at the end of the stream. */
  lemma ReaderLeavesWithOne(l: Link, m: Meanwhile)
    requires l.reader && l.read <= |l.output|
    ensures var r, there := Moved(l, m), l.read < |Written(l, m)|;
            && r.output == Written(l, m) && r.ended == Ended(l, m)
            && r.read == l.read + (if m.late && there then 1 else 0)
            && (r.reader <==> if there then !m.late else !Ended(l, m))
  {
  }

  predicate Open(l: Link) {
    !l.locked && !l.closed && !l.broken
  }

  /** The request gets to the neb. */
  predicate Reaches(l: Link, req: Request, m: Meanwhile) {
    Open(l) && req.encodes && m.writes
  }

  predicate InTime(l: Link, m: Meanwhile) {
    l.timeout == 0 || !m.expires
  }

  /** How the call after any others ends: with the neb's line of its own number, if there is one in
      time; and each way in which it can fail has its condition. */
  lemma SendReturns(timeout: nat, actions: seq<Action>, req: Request, m: Meanwhile)
    ensures var l := Run(Fresh(timeout), actions);
            var (r, out) := Sent(l, req, m);
            var n, lines, ended := |l.sent|, Written(l, m), Ended(l, m);
            var reaches, inTime := Reaches(l, req, m), InTime(l, m);
            && l.timeout == timeout
            && (forall x :: out == Got(x) <==> reaches && inTime && n < |lines| && lines[n] == Json(x))
            && (out == Failed(Undecodable) <==> reaches && inTime && n < |lines| && lines[n] == Malformed)
            && (out == Failed(StdoutClosed) <==> reaches && inTime && n >= |lines| && ended)
            && (out == Failed(TimedOut) <==>
                  reaches && timeout > 0 && (m.expires || (n >= |lines| && !ended)))
            && (out == Waits <==> l.locked || (reaches && timeout == 0 && n >= |lines| && !ended))
            && (out == Failed(Closed) <==> !l.locked && l.closed)
            && (out == Failed(Broken) <==> !l.locked && !l.closed && l.broken)
            && (out == Failed(Unencodable) <==> Open(l) && !req.encodes)
            && (out == Failed(WriteFailed) <==> Open(l) && req.encodes && !m.writes)
            && r.sent == (if reaches then l.sent + [req] else l.sent)
            && (r.broken <==> l.broken || out == Failed(TimedOut)) && (r.locked <==> out == Waits)
            && r.closed == l.closed
  {
    hide Act;
    LineOfItsRequest(timeout, actions);
    SameTimeout(timeout, actions);
  }

  /** A request is encoded and written, and the neb's line of its number, with its id, is there in
      time. */
  ghost predicate Answered(l: Link, a: Action) {
    && a.Sending? && a.req.encodes && a.meanwhile.writes && InTime(l, a.meanwhile)
    && var n, lines := |l.sent|, Written(l, a.meanwhile);
       n < |lines| && lines[n].Json? && lines[n].response.id == a.req.id
  }

  /** A neb that answers each request by a line with its id, in order and in time. */
  ghost predicate Prompt(timeout: nat, actions: seq<Action>) {
    forall k {:trigger actions[k]} :: 0 <= k < |actions| ==> Answered(Run(Fresh(timeout), actions[..k]), actions[k])
  }

  lemma {:induction false} StaysOpen(timeout: nat, actions: seq<Action>, k: nat)
    requires Prompt(timeout, actions) && k <= |actions|
    ensures Open(Run(Fresh(timeout), actions[..k])) && |Run(Fresh(timeout), actions[..k]).sent| == k
    decreases k
  {
    hide Sent;
    if k > 0 {
      StaysOpen(timeout, actions, k - 1);
      assert actions[..k][..k - 1] == actions[..k - 1];
      var a := actions[k - 1];
      assert Answered(Run(Fresh(timeout), actions[..k - 1]), a);
      SendReturns(timeout, actions[..k - 1], a.req, a.meanwhile);
    }
  }

  /** With such a neb every request is answered, by a response with its own id. */
  lemma AllAnswered(timeout: nat, actions: seq<Action>, k: nat)
    requires Prompt(timeout, actions) && k < |actions|
    ensures actions[k].Sending?
    ensures var (r, out) := Sent(Run(Fresh(timeout), actions[..k]), actions[k].req, actions[k].meanwhile);
            && out.Got? && out.response.id == actions[k].req.id
            && r.returned == Run(Fresh(timeout), actions[..k]).returned + [(k, out.response)]
  {
    hide Sent, Run;
    var l, a := Run(Fresh(timeout), actions[..k]), actions[k];
    assert Answered(l, a);
    StaysOpen(timeout, actions, k);
    SendReturns(timeout, actions[..k], a.req, a.meanwhile);
    assert Sent(l, a.req, a.meanwhile).1 == Got(Written(l, a.meanwhile)[k].response);
    GotReturned(l, a.req, a.meanwhile);
  }

  lemma GotReturned(l: Link, req: Request, m: Meanwhile)
    ensures var (r, out) := Sent(l, req, m);
            r.returned == l.returned + (if out.Got? then [(|l.sent|, out.response)] else [])
  {
  }

  lemma CloseAct(l: Link)
    requires !l.locked
    ensures Act(l, Closing).closed && !Act(l, Closing).locked
  {
  }

  lemma StaysClosed(l: Link, a: Action)
    requires l.closed && !l.locked
    ensures Act(l, a).closed && !Act(l, a).locked
  {
  }

  /** After Close, which waits for no call, every request is refused as closed. */
  lemma {:induction false} ClosedForGood(l: Link, actions: seq<Action>, req: Request, m: Meanwhile)
    requires !l.locked
    ensures var c := Run(Act(l, Closing), actions);
            c.closed && !c.locked && Sent(c, req, m).1 == Failed(Closed)
  {
    hide Act;
    CloseAct(l);
    if |actions| > 0 {
      ClosedForGood(l, actions[..|actions| - 1], req, m);
      StaysClosed(Run(Act(l, Closing), actions[..|actions| - 1]), actions[|actions| - 1]);
    }
  }

  lemma {:induction false} SameTimeout(timeout: nat, actions: seq<Action>)
    ensures Run(Fresh(timeout), actions).timeout == timeout
  {
    hide Act;
    if |actions| > 0 {
      SameTimeout(timeout, actions[..|actions| - 1]);
      ActTimeout(Run(Fresh(timeout), actions[..|actions| - 1]), actions[|actions| - 1]);
    }
  }

  lemma ActTimeout(l: Link, a: Action)
    ensures Act(l, a).timeout == l.timeout
  {
  }

  /** Line k answers request k. */
  ghost predicate Answers(l: Link, k: nat) {
    k < |l.sent| && k < |l.output| && l.output[k].Json? && l.output[k].response.id == l.sent[k].id
  }

  /** A response has the id of its request just when the neb's line of the same number has; so with
      a neb that answers each request in order by one line, however late, all responses do. */
  lemma ResponsesArePaired(timeout: nat, actions: seq<Action>)
    ensures var l := Run(Fresh(timeout), actions);
            && (forall x <- l.returned :: x.0 < |l.sent|)
            && (forall x <- l.returned :: x.1.id == l.sent[x.0].id <==> Answers(l, x.0))
            && ((forall k :: 0 <= k < |l.output| && l.output[k].Json? ==> Answers(l, k)) ==>
                  forall x <- l.returned :: x.1.id == l.sent[x.0].id)
  {
    LineOfItsRequest(timeout, actions);
  }

  ghost predicate Silent(l: Link, r: Link) {
    && (r.closed || r.broken || r.locked) && (l.broken ==> r.broken)
    && r.sent == l.sent && r.returned == l.returned
    && r.read + (if r.reader then 1 else 0) <= l.read + (if l.reader then 1 else 0)
  }

  lemma ActSilent(l: Link, a: Action)
    requires l.closed || l.broken || l.locked
    ensures Silent(l, Act(l, a))
  {
    hide LineRead;
  }

  /** Once closed, timed out or stuck, the transport writes and returns nothing any more, and at most
      one more line is taken: by a reader that a timeout has left behind. */
  lemma {:induction false} SilentForGood(l: Link, actions: seq<Action>)
    requires l.closed || l.broken || l.locked
    ensures Silent(l, Run(l, actions))
  {
    hide Act;
    if |actions| > 0 {
      SilentForGood(l, actions[..|actions| - 1]);
      ActSilent(Run(l, actions[..|actions| - 1]), actions[|actions| - 1]);
    }
  }

  lemma ActNotStuck(l: Link, a: Action)
    requires l.timeout > 0 && !l.locked && l.read <= |l.output|
    ensures Act(l, a).timeout == l.timeout && !Act(l, a).locked
  {
  }

  /** With a timeout no call waits forever. */
  lemma {:induction false} NeverStuck(timeout: nat, actions: seq<Action>)
    requires timeout > 0
    ensures var l := Run(Fresh(timeout), actions); l.timeout == timeout && !l.locked
  {
    hide Act;
    if |actions| > 0 {
      NeverStuck(timeout, actions[..|actions| - 1]);
      LineOfItsRequest(timeout, actions[..|actions| - 1]);
      ActNotStuck(Run(Fresh(timeout), actions[..|actions| - 1]), actions[|actions| - 1]);
    }
  }

  /** Why a timeout must be remembered: behind by a line, and forgetting it, the transport would
      return the line of an earlier request, so the wrong response of a neb that answers in order
      (unless the reader left behind takes that line first). */
  lemma StaleIfForgotten(timeout: nat, actions: seq<Action>, req: Request, m: Meanwhile)
    requires !m.late
    ensures var l := Run(Fresh(timeout), actions);
            var (r, out) := Sent(l.(broken := false), req, m);
            l.broken && l.read < |l.sent| && out.Got? ==>
              && r.returned == l.returned + [(|l.sent|, out.response)]
              && l.read < |r.output| && r.output[l.read] == Json(out.response)
              && (Answers(r, l.read) && (forall k :: 0 <= k < |l.sent| ==> l.sent[k].id != req.id) ==>
                    out.response.id != req.id)
  {
    hide Act;
    LineOfItsRequest(timeout, actions);
    var l := Run(Fresh(timeout), actions);
    var (r, out) := Sent(l.(broken := false), req, m);
    if l.read < |l.sent| && out.Got? {
      assert r.sent[l.read] == l.sent[l.read];
    }
  }
}
