/** The manager's code over the log, and that it takes the steps of the state machine
    (pkg/lifecycle/manager.go).

    A script says what the world does at each interaction, in order. Where it runs out the process
    is taken to end, so a script is any finite part of any run.
 */
module Manager {
  import opened Wrappers
  import opened States
  import opened Senders
  import opened Pump
  import P = Pump
  import S = Store
  import W = Wal
  import C = Cursor
  import V = View
  import L = LogState
  import Names
  import Recovery
  import R = Refresh
  import Record
  import Segment
  import Snap = Snapshot
  import Trace
  import Retries
  import Order

  /** How a method ends: it goes on, Start returns nil or an error, the process panics, or it is cut
      off. */
  datatype Exit = Continue | Nil | Error | Panic | Cut

  /** How often a process tries a message, by the MaxRetries it is created with. */
  function MaxAttempts(maxRetries: int): nat {
    if maxRetries == 0 then 4 else if maxRetries > 0 then maxRetries + 1 else 0
  }

  /** The configuration in use: zero retries stand for three. */
  function RetriesOf(opts: S.Options, maxRetries: int): Config {
    Config(opts, if maxRetries == 0 then 3 else maxRetries)
  }

  ghost predicate AppendsFit(script: seq<Event>) {
    forall e :: e in script ==> SendsFit(e.sends)
  }

  ghost predicate SendsFit(sends: seq<Sending>) {
    forall a :: a in sends && a.Appends? ==> Record.Fits(a.payload)
  }

  /** No sender becomes stray. */
  ghost predicate NeverStray(s: Sys, script: seq<Event>)
    requires Inv(s)
  {
    forall k {:trigger script[..k]} :: 0 <= k <= |script| ==> !Ticks(s, script[..k]).sender.Stray?
  }

  /** The segment size of a sender whose log is the directory's. */
  function AttachedTo(t: Sender): Option<int> {
    if t.Attached? then Some(t.segmentSize) else None
  }

  /** Where snapshots are written; the time in the name is left out. */
  const SNAPSHOT_PATH := "retain/snap.wal"

  class Manager {
    const cfg: Config
    const log: W.Log
    var state: State
    var reqID: nat
    var stopped: bool
    /** The requests handed to the transport with their outcomes, and the states gone through. */
    var calls: seq<Call>
    var states: seq<State>
    var epoch: nat
    const script: seq<Event>
    var pos: nat
    /** The sender outside, while its log is the one in the directory. */
    var attached: Option<int>
    /** The machine in the state of this manager, and where it started. */
    ghost var sys: Sys
    ghost const origin: Sys

    /** A new manager on a log; epoch numbers the requests' epoch and does nothing else. */
    constructor (opts: S.Options, maxRetries: int, log: W.Log, epoch: nat, script: seq<Event>, attached: Option<int>,
                 ghost s: Sys)
      requires Inv(s) && s.cfg == RetriesOf(opts, maxRetries) && s.pc.AtStart?
      requires s.reqId == 0 && !s.stop && s.calls == [] && s.states == [Created] && P.Epoch(s) == epoch
      requires log.opts == opts && log.Valid() && !log.closed && log.Abs() == s.store
      requires !C.Broken(log.disk.cursor.files) && AppendsFit(script) && NeverStray(s, script)
      requires attached == AttachedTo(s.sender)
      ensures this.script == script && pos == 0 && origin == s && sys == s && this.log == log
      ensures cfg == Config(opts, if maxRetries == 0 then 3 else maxRetries)
      ensures state == Created && reqID == 0 && !stopped && calls == []
      ensures Valid() && At(sys) && Coupled(sys)
    {
      cfg := RetriesOf(opts, maxRetries);
      state, reqID, stopped := Created, 0, false;
      calls, states, this.epoch := [], [Created], epoch;
      hide Step, Inv, S.Valid, V.Shows, L.WellFormed, L.FilesOf, L.MemOf, L.Messages, Recovery.Bases;
      this.log, this.script, pos, this.attached := log, script, 0, attached;
      sys, origin := s, s;
    }

    ghost predicate Valid()
      reads this
    {
      && pos <= |script| && Inv(origin) && AppendsFit(script) && log.opts == cfg.opts
      && NeverStray(origin, script)
    }

    /** The machine has reached s with the events so far. */
    ghost predicate At(s: Sys)
      requires Valid()
      reads this
    {
      Ticks(origin, script[..pos]) == s
    }

    /** The machine has this manager's configuration, state, requests and store. */
    ghost predicate Coupled(s: Sys)
      reads this, log, log.disk, log.disk.cursor
    {
      && s.state == state && s.reqId == reqID && s.calls == calls && s.states == states && P.Epoch(s) == epoch
      && SameWorld(s)
    }

    ghost predicate SameWorld(s: Sys)
      reads this, log, log.disk, log.disk.cursor
    {
      && s.cfg == cfg && s.stop == stopped && attached == AttachedTo(s.sender)
      && log.Valid() && !log.closed && !C.Broken(log.disk.cursor.files)
      && s.store == log.Abs()
    }

    /** The machine is where the code is, before an interaction. */
    ghost predicate InStep()
      reads this, log, log.disk, log.disk.cursor
    {
      Valid() && At(sys) && Inv(sys) && Coupled(sys)
    }

    /** After an interaction, before the code has done what follows it. */
    ghost predicate Between(e: Event)
      requires Valid() && Inv(sys)
      reads this, log, log.disk, log.disk.cursor
    {
      At(Step(sys, e)) && SameWorld(World(sys, e))
    }

    /** The code has yet to make the retention check with which the machine's step ends. */
    ghost predicate BeforeCheck(idle: bool)
      reads this, log, log.disk, log.disk.cursor
    {
      && Valid() && Coupled(sys) && sys.state == Idle
      && At(CheckRetention(sys, idle)) && Inv(CheckRetention(sys, idle))
    }

    /** What holds at the end, however it comes. */
    ghost predicate Ended(exit: Exit)
      reads this, log, log.disk, log.disk.cursor
    {
      && Valid() && At(sys) && Inv(sys) && sys.cfg == cfg
      && sys.store == log.Abs() && log.Valid() && !C.Broken(log.disk.cursor.files)
      && attached == AttachedTo(sys.sender)
      && match exit
         case Continue => false
         case Nil => Coupled(sys) && sys.pc == Returned(true)
         case Error => Coupled(sys) && sys.pc == Returned(false)
         case Panic => Coupled(sys) && sys.pc == Panicked
            case Cut =>
           && pos == |script| && sys.calls == calls && sys.states <= states
           && !sys.pc.Returned? && !sys.pc.Panicked?
    }

    // ---------- interactions ----------

    /** Other processes append. A sender that keeps its log open appends as one that opens it for each
        message does, as long as its log is the one in the directory; later its messages get into no
        file that is there. */
    method Others(sends: seq<Sending>, ghost t: Sender)
      requires log.Valid() && !C.Broken(log.disk.cursor.files)
      requires SendsFit(sends) && attached == AttachedTo(t) && !After(t, sends).Stray?
      modifies this`attached, log.disk
      ensures log.Valid() && attached == AttachedTo(After(t, sends))
      ensures S.Valid(old(log.Abs())) && log.Abs() == S.Grow(old(log.Abs()), Landing(t, sends))
    {
      hide S.Grow, S.Append, S.Valid, V.Shows, L.WellFormed, L.FilesOf, L.MemOf, L.Messages, Recovery.Bases,
        Segment.EncodeAll, Segment.AllFit, Record.Fits, After, Landing;
      V.ShownValid(log.disk.layout, log.Mem(), log.Abs());
      ghost var before := log.Abs();
      NothingSent(before, t);
      for i := 0 to |sends|
        invariant attached == AttachedTo(After(t, sends[..i]))
        invariant log.Valid() && log.Abs() == S.Grow(before, Landing(t, sends[..i]))
      {
        SendsNext(t, sends, i);
        if After(t, sends[..i]).Stray? {
          StrayBefore(t, sends, i);
          assert false;
        }
        SendOne(sends[i], before, Landing(t, sends[..i]));
      }
      assert sends[..|sends|] == sends;
    }

    method SendOne(a: Sending, ghost before: S.Store, ghost landed: seq<S.Appended>)
      requires log.Valid() && !C.Broken(log.disk.cursor.files) && (a.Appends? ==> Record.Fits(a.payload))
      requires S.Valid(before) && log.Abs() == S.Grow(before, landed)
      modifies this`attached, log.disk
      ensures log.Valid()
      ensures attached == if a.Opens? then Some(a.segmentSize) else old(attached)
      ensures log.Abs() == S.Grow(before, landed + if a.Appends? && old(attached).Some?
                                                   then [S.Appended(old(attached).value, a.payload)] else [])
    {
      hide S.Grow, S.Append, S.Valid, V.Shows, L.WellFormed, L.FilesOf, L.MemOf, L.Messages, Recovery.Bases,
        Segment.EncodeAll, Segment.AllFit, Record.Fits;
      assert landed + [] == landed;
      match a {
        case Opens(size) =>
          attached := Some(size);
        case Appends(p) =>
          if attached.Some? {
            GrowsByOne(before, landed, S.Appended(attached.value, p));
            OneFits(p);
            W.Log.Send(log.disk, S.Options(0, 0, attached.value), [p], log);
          }
      }
    }

    /** The next interaction: what other processes append, whether a stop is requested, and how it
        turns out. */
    method Interact() returns (e: Option<Event>)
      requires Valid() && At(sys) && Inv(sys) && SameWorld(sys)
      modifies this`pos, this`stopped, this`attached, log.disk
      ensures Valid() && old(pos) <= pos
      ensures e.None? ==> pos == old(pos) == |script| && At(sys) && SameWorld(sys)
      ensures e.Some? ==> pos == old(pos) + 1 && Between(e.value)
    {
      hide Step, PcFits, Ticks, Inv, S.Grow, S.Valid, V.Shows, L.WellFormed, L.FilesOf, L.MemOf, L.Messages,
        Recovery.Bases, Segment.EncodeAll, Segment.AllFit, Record.Fits;
      if pos == |script| {
        return None;
      }
      var ev := script[pos];
      assert script[..pos + 1] == script[..pos] + [ev];
      TicksAppend(origin, script[..pos], ev);
      StepStrays(sys, ev);
      pos := pos + 1;
      Others(ev.sends, sys.sender);
      stopped := stopped || ev.stop;
      return Some(ev);
    }

    /** Hands a request to the transport; the outcome is what the transport reports. */
    method Send(request: Request, ok: bool)
      modifies this`reqID, this`calls
      ensures reqID == old(reqID) + 1
      ensures calls == old(calls) + [Call(old(reqID) + 1, request, ok, epoch)]
    {
      reqID := reqID + 1;
      calls := calls + [Call(reqID, request, ok, epoch)];
    }

    /** The same, with the machine's request. */
    method Issue(request: Request, ok: bool, ghost next: Sys)
      requires Valid() && Coupled(sys) && At(next)
      modifies this`reqID, this`calls, this`sys
      ensures Valid() && Coupled(sys) && At(next) && sys == P.Send(old(sys), request, ok)
      ensures calls == old(calls) + [Call(old(reqID) + 1, request, ok, epoch)]
    {
      hide Ticks, NeverStray, AppendsFit, AttachedTo, Inv, W.Log.Valid, W.Log.Abs, W.Log.Mem;
      Send(request, ok);
      sys := P.Send(sys, request, ok);
    }

    /** Assigns the state without a check. */
    method Assign(to: State)
      modifies this`state, this`states
      ensures state == to && states == old(states) + [to]
    {
      state, states := to, states + [to];
    }

    method Transition(to: State) returns (ok: bool)
      modifies this`state, this`states
      ensures ok <==> CanTransition(old(state), to)
      ensures state == if ok then to else old(state)
      ensures states == if ok then old(states) + [to] else old(states)
    {
      if !CanTransition(state, to) {
        return false;
      }
      state, states := to, states + [to];
      return true;
    }

    // ---------- a message ----------

    /** The wait before a retry. A stop during it ends the message. */
    method Backoff() returns (exit: Exit, stops: bool)
      requires InStep() && sys.pc.AtBackoff?
      modifies this, log.disk
      ensures pos >= old(pos)
      ensures exit == Continue || (exit == Cut && Ended(Cut))
      ensures exit == Continue && stops ==> BeforeCheck(false)
      ensures exit == Continue && !stops ==>
                InStep() && sys.pc == AtSend(old(sys.pc.offset), old(sys.pc.payload), old(sys.pc.attempt))
    {
      hide Ticks, NeverStray, AppendsFit, AttachedTo, Inv, Step, Effect, PcFits, CheckRetention, W.Log.Valid,
        W.Log.Abs, W.Log.Mem, CanTransition,
        S.MarkProcessed, S.MarkPostProcessed, World;
      var e := Interact();
      if e.None? {
        return Cut, false;
      }
      BackoffStep(sys, e.value);
      ghost var w := World(sys, e.value);
      if stopped && e.value.ok {
        var _ := Transition(Idle);
        sys := P.Transition(w, Idle);
        return Continue, true;
      }
      sys := Step(sys, e.value);
      return Continue, false;
    }

    /** One message call. */
    method SendMessage(offset: nat, payload: Payload) returns (exit: Exit, ok: bool, post: bool)
      requires InStep() && sys.pc.AtSend? && sys.pc.offset == offset && sys.pc.payload == payload
      modifies this, log.disk
      ensures pos >= old(pos)
      ensures exit == Continue || (exit == Cut && Ended(Cut))
      ensures exit == Continue ==>
                && InStep()
                && calls == old(calls) + [Call(old(reqID) + 1, Message(offset, payload), ok, old(epoch))]
                && sys.pc == if ok then AtMark(offset, post)
                             else if old(sys.pc.attempt) < cfg.maxRetries
                             then AtBackoff(offset, payload, old(sys.pc.attempt) + 1)
                             else AtDeadWrite(offset, payload)
    {
      hide Ticks, NeverStray, AppendsFit, AttachedTo, Inv, Step, Effect, PcFits, CheckRetention, W.Log.Valid,
        W.Log.Abs, W.Log.Mem, CanTransition,
        S.MarkProcessed, S.MarkPostProcessed, World;
      var e := Interact();
      if e.None? {
        return Cut, false, false;
      }
      SendStep(sys, e.value);
      ghost var next := Step(sys, e.value);
      sys := World(sys, e.value);
      Issue(Message(offset, payload), e.value.ok, next);
      sys := next;
      return Continue, e.value.ok, e.value.post;
    }

    /** After a result: advance the cursor, and record the post-processing if it was asked for. */
    method MarkDone(offset: nat, post: bool) returns (exit: Exit)
      requires InStep() && sys.pc == AtMark(offset, post)
      modifies this, log, log.disk, log.disk.cursor
      ensures pos >= old(pos)
      ensures exit == Continue || Ended(exit)
      ensures exit == Continue ==> BeforeCheck(false)
    {
      hide Ticks, NeverStray, AppendsFit, AttachedTo, Inv, Step, Effect, PcFits, S.RetentionExceeded, CheckRetention,
        W.Log.Valid, W.Log.Abs, W.Log.Mem,
        CanTransition,
        S.MarkProcessed, S.MarkPostProcessed, World;
      var e := Interact();
      if e.None? {
        return Cut;
      }
      MarkStep(sys, e.value);
      ghost var next := Step(sys, e.value);
      sys := World(sys, e.value);
      var saved := MarkCursor(offset, e.value.ok, next);
      if !saved {
        sys := next;
        return Error;
      }
      if post {
        PostProcess(next);
        exit := MarkPost(offset);
      } else {
        Idles(next);
        exit := Continue;
      }
    }

    /** The store's cursor goes past the message. */
    method MarkCursor(offset: nat, ok: bool, ghost next: Sys) returns (saved: bool)
      requires Valid() && Coupled(sys) && At(next)
      modifies this`sys, log, log.disk.cursor
      ensures Valid() && Coupled(sys) && At(next) && saved == ok
      ensures sys == old(sys).(store := S.MarkProcessed(old(sys.store), offset, ok))
    {
      hide Ticks, NeverStray, AppendsFit, AttachedTo, Inv, W.Log.Valid, W.Log.Abs, W.Log.Mem, S.MarkProcessed;
      var err := log.MarkProcessed(offset, Fault(ok));
      sys := sys.(store := log.Abs());
      return err.None?;
    }

    /** The store's post-processed offset. */
    method MarkCursorPost(offset: nat, ok: bool, ghost next: Sys) returns (saved: bool)
      requires Valid() && Coupled(sys) && At(next)
      modifies this`sys, log, log.disk.cursor
      ensures Valid() && Coupled(sys) && At(next) && saved == ok
      ensures sys == old(sys).(store := S.MarkPostProcessed(old(sys.store), offset, ok))
    {
      hide Ticks, NeverStray, AppendsFit, AttachedTo, Inv, W.Log.Valid, W.Log.Abs, W.Log.Mem, S.MarkPostProcessed;
      var err := log.MarkPostProcessed(offset, Fault(ok));
      sys := sys.(store := log.Abs());
      return err.None?;
    }

    /** The message is done, and the check for retention is to come. */
    method Idles(ghost next: Sys)
      requires Valid() && Coupled(sys) && At(next) && CanTransition(sys.state, Idle)
      requires Done(P.Transition(sys, Idle), next)
      modifies this`state, this`states, this`sys
      ensures BeforeCheck(false)
    {
      hide Ticks, NeverStray, AppendsFit, AttachedTo, Inv, CheckRetention, W.Log.Valid, W.Log.Abs, W.Log.Mem,
        CanTransition;
      var _ := Transition(Idle);
      sys := P.Transition(sys, Idle);
    }

    method PostProcess(ghost next: Sys)
      requires Valid() && Coupled(sys) && At(next) && Inv(next) && CanTransition(sys.state, PostProcessing)
      requires next == P.Transition(sys, PostProcessing).(pc := next.pc)
      modifies this`state, this`states, this`sys
      ensures InStep() && sys == next
    {
      hide Ticks, NeverStray, AppendsFit, AttachedTo, Inv, W.Log.Valid, W.Log.Abs, W.Log.Mem, CanTransition;
      var _ := Transition(PostProcessing);
      sys := next;
    }

    method MarkPost(offset: nat) returns (exit: Exit)
      requires InStep() && sys.pc == AtMarkPost(offset)
      modifies this, log, log.disk, log.disk.cursor
      ensures pos >= old(pos)
      ensures exit == Continue || Ended(exit)
      ensures exit == Continue ==> BeforeCheck(false)
    {
      hide Ticks, NeverStray, AppendsFit, AttachedTo, Inv, Step, Effect, PcFits, S.RetentionExceeded, CheckRetention,
        W.Log.Valid, W.Log.Abs, W.Log.Mem,
        CanTransition,
        S.MarkProcessed, S.MarkPostProcessed, World;
      var e := Interact();
      if e.None? {
        return Cut;
      }
      MarkPostStep(sys, e.value);
      ghost var next := Step(sys, e.value);
      sys := World(sys, e.value);
      var saved := MarkCursorPost(offset, e.value.ok, next);
      if !saved {
        sys := next;
        return Error;
      }
      Idles(next);
      return Continue;
    }

    /** The store's DeadLetter: its two halves are two interactions, between which the process may
        end. First the dead letter is written. */
    method Bury(offset: nat, payload: Payload) returns (exit: Exit)
      requires InStep() && sys.pc == AtDeadWrite(offset, payload)
      modifies this, log, log.disk, log.disk.cursor
      ensures pos >= old(pos)
      ensures exit == Continue || Ended(exit)
      ensures exit == Continue ==> BeforeCheck(false)
    {
      hide Ticks, NeverStray, AppendsFit, AttachedTo, Inv, Step, Effect, PcFits, CheckRetention, W.Log.Valid,
        W.Log.Abs, W.Log.Mem, CanTransition,
        S.MarkProcessed, S.MarkPostProcessed, World;
      var e := Interact();
      if e.None? {
        return Cut;
      }
      DeadWriteStep(sys, e.value);
      ghost var next := Step(sys, e.value);
      sys := World(sys, e.value);
      if !e.value.ok {
        sys := next;
        return Error;
      }
      WriteDead(payload, next);
      exit := SaveBuried(offset);
    }

    method WriteDead(payload: Payload, ghost next: Sys)
      requires Valid() && Coupled(sys) && At(next) && Inv(next) && payload in sys.store.view
      requires next == sys.(store := S.WriteDead(sys.store, payload), pc := next.pc, deadIds := next.deadIds)
      modifies this`sys, log.disk
      ensures InStep() && sys == next && pos == old(pos)
    {
      hide Ticks, NeverStray, AppendsFit, AttachedTo, Inv, W.Log.Valid, W.Log.Abs, S.WriteDead, Record.Fits;
      AnswerFits(log, payload);
      log.WriteDead(payload);
      sys := next;
    }

    /** Then the cursor goes past the message. */
    method SaveBuried(offset: nat) returns (exit: Exit)
      requires InStep() && sys.pc == AtDeadSave(offset)
      modifies this, log, log.disk, log.disk.cursor
      ensures pos >= old(pos)
      ensures exit == Continue || Ended(exit)
      ensures exit == Continue ==> BeforeCheck(false)
    {
      hide Ticks, NeverStray, AppendsFit, AttachedTo, Inv, Step, Effect, PcFits, S.RetentionExceeded, CheckRetention,
        W.Log.Valid, W.Log.Abs, W.Log.Mem,
        CanTransition,
        S.MarkProcessed, S.MarkPostProcessed, World;
      var e := Interact();
      if e.None? {
        return Cut;
      }
      DeadSaveStep(sys, e.value);
      ghost var next := Step(sys, e.value);
      sys := World(sys, e.value);
      var saved := MarkCursor(offset, e.value.ok, next);
      if !saved {
        sys := next;
        return Error;
      }
      Idles(next);
      return Continue;
    }

    /** Sends a message until there is a result, at most MaxRetries + 1 times, then buries it. */
    method ProcessMessage(offset: nat, payload: Payload) returns (exit: Exit)
      requires Valid() && Coupled(sys)
      requires At(BeginMessage(sys, offset, payload)) && Inv(BeginMessage(sys, offset, payload))
      requires sys.state == Idle
      modifies this, log, log.disk, log.disk.cursor
      ensures pos >= old(pos)
      ensures exit == Continue || Ended(exit)
      ensures exit == Continue ==> BeforeCheck(false)
    {
      hide Ticks, NeverStray, AppendsFit, AttachedTo, Inv, Step, Effect, PcFits, S.RetentionExceeded, CheckRetention,
        W.Log.Valid, W.Log.Abs, W.Log.Mem,
        CanTransition,
        S.MarkProcessed, S.MarkPostProcessed, World;
      IdleMoves();
      var ok := Transition(Processing);
      sys := BeginMessage(sys, offset, payload);
      exit := Deliver(offset, payload);
    }

    /** The retry loop. */
    method Deliver(offset: nat, payload: Payload) returns (exit: Exit)
      requires InStep()
      requires sys.pc == if cfg.maxRetries < 0 then AtDeadWrite(offset, payload) else AtSend(offset, payload, 0)
      modifies this, log, log.disk, log.disk.cursor
      ensures pos >= old(pos)
      ensures exit == Continue || Ended(exit)
      ensures exit == Continue ==> BeforeCheck(false)
    {
      hide Ticks, NeverStray, AppendsFit, AttachedTo, Inv, Step, Effect, PcFits, S.RetentionExceeded, CheckRetention,
        W.Log.Valid, W.Log.Abs, W.Log.Mem,
        CanTransition,
        S.MarkProcessed, S.MarkPostProcessed, World;
      var attempt := 0;
      while attempt <= cfg.maxRetries
        invariant InStep() && pos >= old(pos)
        invariant sys.pc == if attempt > cfg.maxRetries then AtDeadWrite(offset, payload)
                            else if attempt == 0 then AtSend(offset, payload, 0)
                            else AtBackoff(offset, payload, attempt)
        decreases cfg.maxRetries + 1 - attempt
      {
        if attempt > 0 {
          var exit', stops := Backoff();
          if exit' == Cut || stops {
            return exit';
          }
        }
        var exit', sent, post := SendMessage(offset, payload);
        if exit' == Cut {
          return Cut;
        }
        if sent {
          exit := MarkDone(offset, post);
          return;
        }
        attempt := attempt + 1;
      }
      exit := Bury(offset, payload);
    }

    // ---------- retention ----------

    /** Snapshot, retain, truncate: the check has found that retention is due. */
    method DoRetention(ghost idle: bool) returns (exit: Exit)
      requires BeforeCheck(idle) && S.RetentionExceeded(log.Abs(), cfg.opts)
      modifies this, log, log.disk, log.disk.cursor
      ensures pos >= old(pos)
      ensures exit == Continue || Ended(exit)
      ensures exit == Continue ==> InStep() && sys.pc == if idle then AtWait else AtHead
    {
      hide Ticks, NeverStray, AppendsFit, AttachedTo, Inv, Step, Effect, PcFits, S.RetentionExceeded, W.Log.Valid,
        W.Log.Abs, W.Log.Mem, CanTransition,
        S.MarkProcessed, S.MarkPostProcessed, World;
      IdleMoves();
      var ok := Transition(Draining);
      sys := CheckRetention(sys, idle);
      exit := SnapshotAndRetain(idle);
    }

    method SnapshotAndRetain(ghost idle: bool) returns (exit: Exit)
      requires InStep() && sys.pc == AtSnapshot(idle)
      modifies this, log, log.disk, log.disk.cursor
      ensures pos >= old(pos)
      ensures exit == Continue || Ended(exit)
      ensures exit == Continue ==> InStep() && sys.pc == if idle then AtWait else AtHead
    {
      hide Ticks, NeverStray, AppendsFit, AttachedTo, Inv, Step, Effect, PcFits, S.RetentionExceeded, CheckRetention,
        W.Log.Valid, W.Log.Abs, W.Log.Mem,
        CanTransition,
        S.MarkProcessed, S.MarkPostProcessed, World;
      var e := Interact();
      if e.None? {
        return Cut;
      }
      SnapshotStep(sys, e.value);
      ghost var next := Step(sys, e.value);
      sys := World(sys, e.value);
      if !e.value.ok {
        sys := next;
        return Error;
      }
      var snapshot := BeginRetaining(next);
      exit := RetainSnapshot(snapshot, idle);
    }

    method BeginRetaining(ghost next: Sys) returns (snapshot: seq<Payload>)
      requires Valid() && Coupled(sys) && At(next) && Inv(next) && CanTransition(sys.state, Retaining)
      requires next == P.Assign(sys, Retaining).(pc := next.pc)
      modifies this`state, this`states, this`sys, log.disk`snapshots
      ensures InStep() && sys == next && S.Valid(sys.store) && snapshot == S.Snapshot(sys.store)
    {
      hide Ticks, NeverStray, AppendsFit, AttachedTo, Inv, W.Log.Valid, W.Log.Abs, W.Log.Mem, CanTransition;
      snapshot := TakeSnapshot();
      var _ := Transition(Retaining);
      sys := next;
    }

    /** Writes the snapshot, and what the neb reads from the file. */
    method TakeSnapshot() returns (snapshot: seq<Payload>)
      requires log.Valid() && !log.closed && !C.Broken(log.disk.cursor.files)
      modifies log.disk`snapshots
      ensures log.Valid() && log.Abs() == old(log.Abs())
      ensures S.Valid(log.Abs()) && snapshot == S.Snapshot(log.Abs())
    {
      hide S.Valid, S.Snapshot, V.Shows, L.WellFormed, L.FilesOf, L.MemOf, L.Messages, Recovery.Bases,
        Segment.EncodeAll, Segment.AllFit, Segment.ReadAll, Snap.Contents;
      var _ := log.Snapshot(SNAPSHOT_PATH);
      assert SNAPSHOT_PATH in log.disk.snapshots;
      var r := Segment.ReadAllRecords(log.disk.snapshots[SNAPSHOT_PATH][Snap.SNAPSHOT_HEADER_SIZE..]);
      return r.records;
    }

    method RetainSnapshot(snapshot: seq<Payload>, ghost idle: bool) returns (exit: Exit)
      requires InStep() && sys.pc == AtRetain(snapshot, idle)
      modifies this, log, log.disk, log.disk.cursor
      ensures pos >= old(pos)
      ensures exit == Continue || Ended(exit)
      ensures exit == Continue ==> InStep() && sys.pc == if idle then AtWait else AtHead
    {
      hide Ticks, NeverStray, AppendsFit, AttachedTo, Inv, Step, Effect, PcFits, S.RetentionExceeded, CheckRetention,
        W.Log.Valid, W.Log.Abs, W.Log.Mem,
        CanTransition,
        S.MarkProcessed, S.MarkPostProcessed, World;
      var e := Interact();
      if e.None? {
        return Cut;
      }
      RetainStep(sys, e.value);
      ghost var next := Step(sys, e.value);
      sys := World(sys, e.value);
      Issue(Retain(snapshot), e.value.ok, next);
      if !e.value.ok {
        Fails(next);
        return Error;
      }
      sys := next;
      exit := TruncateLog(idle);
    }

    /** The manager fails. */
    method Fails(ghost next: Sys)
      requires Valid() && Coupled(sys) && At(next) && Inv(next) && CanTransition(sys.state, Failed)
      requires next == Fail(P.Assign(sys, Failed))
      modifies this`state, this`states, this`sys
      ensures Ended(Error)
    {
      hide Ticks, NeverStray, AppendsFit, AttachedTo, Inv, W.Log.Valid, W.Log.Abs, W.Log.Mem, CanTransition;
      var _ := Transition(Failed);
      sys := next;
    }

    method TruncateLog(ghost idle: bool) returns (exit: Exit)
      requires InStep() && sys.pc.AtTruncate? && sys.pc.idle == idle
      modifies this, log, log.disk, log.disk.cursor
      ensures pos >= old(pos)
      ensures exit == Continue || Ended(exit)
      ensures exit == Continue ==> InStep() && sys.pc == if idle then AtWait else AtHead
    {
      hide Ticks, NeverStray, AppendsFit, AttachedTo, Inv, Step, Effect, PcFits, S.RetentionExceeded, CheckRetention,
        W.Log.Valid, W.Log.Abs, W.Log.Mem,
        CanTransition,
        S.MarkProcessed, S.MarkPostProcessed, World;
      var e := Interact();
      if e.None? {
        return Cut;
      }
      TruncateStep(sys, e.value);
      ghost var next := Step(sys, e.value);
      sys := World(sys, e.value);
      if !e.value.ok {
        Fails(next);
        return Error;
      }
      BeginEpoch(next);
      return Continue;
    }

    method BeginEpoch(ghost next: Sys)
      requires Valid() && Coupled(sys) && At(next) && Inv(next) && CanTransition(sys.state, Idle)
      requires AttachedTo(next.sender) == None
      requires next == P.Assign(sys.(archive := sys.archive + [sys.store.msgs], store := S.Truncate(sys.store, true),
                                     sender := next.sender), Idle).(pc := next.pc)
      modifies this`epoch, this`attached, this`state, this`states, this`sys, log, log.disk, log.disk.cursor
      ensures InStep() && sys == next && pos == old(pos)
    {
      hide Ticks, NeverStray, AppendsFit, AttachedTo, Inv, S.Truncate, W.Log.Valid, W.Log.Abs, W.Log.Mem, CanTransition;
      ghost var msgs := sys.store.msgs;
      EmptyLog();
      epoch, attached := epoch + 1, None;
      sys := sys.(archive := sys.archive + [msgs], store := log.Abs(), sender := next.sender);
      BecomesIdle(next);
    }

    method BecomesIdle(ghost next: Sys)
      requires Valid() && Coupled(sys) && At(next) && Inv(next) && CanTransition(sys.state, Idle)
      requires next == P.Assign(sys, Idle).(pc := next.pc)
      modifies this`state, this`states, this`sys
      ensures InStep() && sys == next
    {
      hide Ticks, NeverStray, AppendsFit, AttachedTo, Inv, W.Log.Valid, W.Log.Abs, W.Log.Mem, CanTransition;
      var _ := Transition(Idle);
      sys := next;
    }

    method EmptyLog()
      requires log.Valid() && !log.closed && !C.Broken(log.disk.cursor.files)
      modifies log, log.disk, log.disk.cursor
      ensures log.Valid() && !log.closed && !C.Broken(log.disk.cursor.files)
      ensures log.Abs() == S.Truncate(old(log.Abs()), true)
    {
      hide S.Valid, V.Shows, L.WellFormed, L.FilesOf, L.MemOf, L.Messages, Recovery.Bases, Segment.EncodeAll,
        Segment.AllFit, W.FilesFrom;
      var bases := log.disk.ListSegments();
      AllRemoved(log.disk, bases);
      var _ := log.Truncate(|bases|, C.Fine);
    }

    // ---------- the life of a process ----------

    /** Shutdown assigns the state without a check, unless the manager is idle or stopping. */
    method Shutdown() returns (exit: Exit)
      requires Valid() && Coupled(sys) && At(ToShutdown(sys)) && Inv(ToShutdown(sys))
      modifies this, log.disk
      ensures pos >= old(pos)
      ensures Ended(exit)
    {
      hide Ticks, NeverStray, AppendsFit, AttachedTo, Inv, Step, Effect, PcFits, S.RetentionExceeded, CheckRetention,
        W.Log.Valid, W.Log.Abs, W.Log.Mem,
        CanTransition,
        S.MarkProcessed, S.MarkPostProcessed, World;
      if state != Idle && state != Stopping {
        Assign(Stopping);
      } else {
        var _ := Transition(Stopping);
      }
      sys := ToShutdown(sys);
      exit := SendShutdown();
    }

    method SendShutdown() returns (exit: Exit)
      requires InStep() && sys.pc == AtShutdown
      modifies this, log.disk
      ensures pos >= old(pos)
      ensures Ended(exit)
    {
      hide Ticks, NeverStray, AppendsFit, AttachedTo, Inv, Step, Effect, PcFits, S.RetentionExceeded, CheckRetention,
        W.Log.Valid, W.Log.Abs, W.Log.Mem,
        CanTransition,
        S.MarkProcessed, S.MarkPostProcessed, World;
      var e := Interact();
      if e.None? {
        return Cut;
      }
      ShutdownStep(sys, e.value);
      ghost var next := Step(sys, e.value);
      sys := World(sys, e.value);
      Issue(Request.Shutdown, e.value.ok, next);
      Stops(next);
      return Nil;
    }

    method Stops(ghost next: Sys)
      requires Valid() && Coupled(sys) && At(next) && Inv(next)
      requires next == P.Assign(sys, Stopped).(pc := Returned(true))
      modifies this`state, this`states, this`sys
      ensures Ended(Nil)
    {
      hide Ticks, NeverStray, AppendsFit, AttachedTo, Inv, W.Log.Valid, W.Log.Abs, W.Log.Mem;
      Assign(Stopped);
      sys := next;
    }

    /** The retention check and what it leads to. */
    method Check(ghost idle: bool) returns (exit: Exit)
      requires BeforeCheck(idle)
      modifies this, log, log.disk, log.disk.cursor
      ensures pos >= old(pos)
      ensures exit == Continue || Ended(exit)
      ensures exit == Continue ==> InStep() && sys.pc == if idle then AtWait else AtHead
    {
      hide Ticks, NeverStray, AppendsFit, AttachedTo, Inv, S.RetentionExceeded, Step, Effect, PcFits, W.Log.Valid,
        W.Log.Abs, W.Log.Mem, CanTransition,
        S.MarkProcessed, S.MarkPostProcessed, World;
      var due := log.RetentionExceeded();
      if due {
        exit := DoRetention(idle);
      } else {
        sys := CheckRetention(sys, idle);
        exit := Continue;
      }
    }

    /** The pump: endless but for a stop, an error, a panic, or the end of the script. */
    method Pump() returns (exit: Exit)
      requires InStep() && sys.pc == AtHead
      modifies this, log, log.disk, log.disk.cursor
      ensures Ended(exit)
    {
      hide Ticks, NeverStray, AppendsFit, AttachedTo, Inv, Step, Effect, PcFits, S.RetentionExceeded, CheckRetention,
        W.Log.Valid, W.Log.Abs, W.Log.Mem,
        CanTransition,
        S.MarkProcessed, S.MarkPostProcessed, World;
      while true
        invariant InStep() && sys.pc == AtHead
        decreases |script| - pos
      {
        exit := Iterate();
        if exit != Continue {
          return;
        }
      }
    }

    /** One turn of the loop. */
    method Iterate() returns (exit: Exit)
      requires InStep() && sys.pc == AtHead
      modifies this, log, log.disk, log.disk.cursor
      ensures exit == Continue || Ended(exit)
      ensures exit == Continue ==> InStep() && sys.pc == AtHead && pos > old(pos)
    {
      hide Ticks, NeverStray, AppendsFit, AttachedTo, Inv, Step, Effect, PcFits, S.RetentionExceeded, CheckRetention,
        W.Log.Valid, W.Log.Abs, W.Log.Mem,
        CanTransition,
        S.MarkProcessed, S.MarkPostProcessed, World;
      var e := Interact();
      if e.None? {
        return Cut;
      }
      HeadStep(sys, e.value);
      ghost var next := Step(sys, e.value);
      sys := World(sys, e.value);
      exit := Turn(e.value.ok, next);
    }

    method Turn(ok: bool, ghost next: Sys) returns (exit: Exit)
      requires Valid() && Coupled(sys) && At(next) && Inv(next) && Turns(sys, ok, next)
      modifies this, log, log.disk, log.disk.cursor
      ensures pos >= old(pos)
      ensures exit == Continue || Ended(exit)
      ensures exit == Continue ==> InStep() && sys.pc == AtHead
    {
      hide Ticks, NeverStray, AppendsFit, AttachedTo, Inv, BeginMessage, CheckRetention, ToShutdown, Dispatched,
        W.Log.Valid, W.Log.Abs, W.Log.Mem, S.Looked, S.Valid;
      if stopped {
        exit := Shutdown();
        return;
      }
      // The code would wait for a tick here, but it is always idle at this point.
      if state != Idle {
        assert false;
      }
      if !ok {
        sys := next;
        return Error;
      }
      exit := Look(next);
    }

    /** Looks for a message, and deals with it or waits. */
    method Look(ghost next: Sys) returns (exit: Exit)
      requires Valid() && Coupled(sys) && sys.state == Idle && At(next) && Inv(next) && S.Valid(sys.store)
      requires Dispatched(sys.(store := S.Looked(sys.store)), next)
      modifies this, log, log.disk, log.disk.cursor
      ensures pos >= old(pos)
      ensures exit == Continue || Ended(exit)
      ensures exit == Continue ==> InStep() && sys.pc == AtHead
    {
      hide Ticks, NeverStray, AppendsFit, AttachedTo, Inv, BeginMessage, CheckRetention, W.Log.Valid, W.Log.Abs,
        S.Looked, S.Answered, S.Valid;
      var found := FindNext(next);
      match found {
        case NoMessages =>
          exit := Wait();
        case Got(offset, payload) =>
          exit := HandleMessage(offset, payload);
        case Panics =>
          sys := next;
          return Panic;
        case _ =>
          assert false;
      }
    }

    method FindNext(ghost next: Sys) returns (found: Recovery.Next)
      requires Valid() && Coupled(sys) && At(next) && S.Valid(sys.store)
      modifies this`sys, log
      ensures Valid() && Coupled(sys) && At(next)
      ensures sys == old(sys).(store := S.Looked(old(sys.store))) && found == V.Reply(S.Answered(sys.store))
    {
      hide Ticks, NeverStray, AppendsFit, AttachedTo, Inv, W.Log.Valid, W.Log.Abs, W.Log.Mem, W.Log.InStep,
        R.NextMessage, S.Looked, S.Answered, S.Valid,
        V.Reply, W.Disk.Valid;
      found := log.NextUnprocessed();
      sys := sys.(store := log.Abs());
    }

    method HandleMessage(offset: nat, payload: Payload) returns (exit: Exit)
      requires Valid() && Coupled(sys)
      requires At(BeginMessage(sys, offset, payload)) && Inv(BeginMessage(sys, offset, payload))
      requires sys.state == Idle
      modifies this, log, log.disk, log.disk.cursor
      ensures pos >= old(pos)
      ensures exit == Continue || Ended(exit)
      ensures exit == Continue ==> InStep() && sys.pc == AtHead
    {
      hide *;
      exit := ProcessMessage(offset, payload);
      if exit == Continue {
        exit := Check(false);
      }
    }

    /** No message: retention if it is due, then a tick or a stop. */
    method Wait() returns (exit: Exit)
      requires BeforeCheck(true)
      modifies this, log, log.disk, log.disk.cursor
      ensures pos >= old(pos)
      ensures exit == Continue || Ended(exit)
      ensures exit == Continue ==> InStep() && sys.pc == AtHead
    {
      hide Ticks, NeverStray, AppendsFit, AttachedTo, Inv, Step, S.RetentionExceeded, CheckRetention, Effect, PcFits,
        W.Log.Valid, W.Log.Abs, W.Log.Mem,
        CanTransition, S.MarkProcessed, S.MarkPostProcessed, World;
      exit := Check(true);
      if exit != Continue {
        return;
      }
      var e := Interact();
      if e.None? {
        return Cut;
      }
      WaitStep(sys, e.value);
      if stopped && e.value.ok {
        sys := World(sys, e.value);
        exit := Shutdown();
        return;
      }
      sys := Step(sys, e.value);
      return Continue;
    }

    /** Sends init and pumps. Returns nil after a shutdown and an error otherwise, unless the process
        panics or is cut off. Whatever happens the machine has made the same steps on the events of
        the script: the same requests sent, the same states gone through, and the same store left. */
    method Start() returns (exit: Exit)
      requires InStep() && sys.pc == AtStart
      modifies this, log, log.disk, log.disk.cursor
      ensures Ended(exit)
    {
      hide Ticks, NeverStray, AppendsFit, AttachedTo, Inv, Step, Effect, PcFits, S.RetentionExceeded, CheckRetention,
        W.Log.Valid, W.Log.Abs, W.Log.Mem,
        CanTransition,
        S.MarkProcessed, S.MarkPostProcessed, World;
      exit := Initialize();
      if exit != Continue {
        return;
      }
      exit := Pump();
    }

    /** The first half of Start. */
    method Initialize() returns (exit: Exit)
      requires InStep() && sys.pc == AtStart
      modifies this, log.disk
      ensures exit == Continue || Ended(exit)
      ensures exit == Continue ==> InStep() && sys.pc == AtHead
    {
      hide Ticks, NeverStray, AppendsFit, AttachedTo, Inv, Step, Effect, PcFits, S.RetentionExceeded, CheckRetention,
        W.Log.Valid, W.Log.Abs, W.Log.Mem,
        CanTransition,
        S.MarkProcessed, S.MarkPostProcessed, World;
      StartsCreated(sys);
      var _ := Transition(Starting);
      var e := Interact();
      if e.None? {
        return Cut;
      }
      StartStep(sys, e.value);
      ghost var next := Step(sys, e.value);
      sys := P.Assign(World(sys, e.value), Starting);
      exit := SendInit(e.value.ok, next);
    }

    method SendInit(ok: bool, ghost next: Sys) returns (exit: Exit)
      requires Valid() && Coupled(sys) && At(next) && Inv(next)
      requires CanTransition(sys.state, Idle) && CanTransition(sys.state, Failed)
      requires var sent := P.Send(sys, Init, ok);
               next == if ok then P.Assign(sent, Idle).(pc := AtHead) else Fail(P.Assign(sent, Failed))
      modifies this`reqID, this`calls, this`state, this`states, this`sys
      ensures exit == Continue || Ended(exit)
      ensures exit == Continue ==> InStep() && sys.pc == AtHead
    {
      hide Ticks, NeverStray, AppendsFit, AttachedTo, Inv, W.Log.Valid, W.Log.Abs, W.Log.Mem, CanTransition;
      Issue(Init, ok, next);
      if !ok {
        Fails(next);
        return Error;
      }
      BecomesIdle(next);
      return Continue;
    }
  }

  // ---------- a process of the whole system ----------

  /** The disk holds what a store has on disk. */
  ghost predicate HasDisk(disk: W.Disk, s: S.Store)
    reads disk, disk.cursor
  {
    && disk.Valid() && !C.Broken(disk.cursor.files)
    && L.Messages(disk.layout) == s.msgs && Recovery.Bases(disk.layout) == s.bases
    && C.Loaded(disk.cursor.files) == s.saved && disk.deadMsgs == s.dead
  }

  /** How a process that ends in s has returned, and what it has sent and gone through. */
  ghost predicate EndsAs(s: Sys, exit: Exit, calls: seq<Call>, states: seq<State>) {
    && s.calls == calls
    && (if exit == Cut then s.states <= states else s.states == states)
    && match exit
       case Continue => false
       case Nil => s.pc == Returned(true)
       case Error => s.pc == Returned(false)
       case Panic => s.pc == Panicked
       case Cut => !s.pc.Returned? && !s.pc.Panicked?
  }

  /** What holds of the calls of every process. */
  ghost predicate CallsHold(maxRetries: int, exit: Exit, calls: seq<Call>) {
    && (exit == Nil <==> Trace.CompleteTrace(calls))
    && (exit != Nil ==> forall c :: c in calls ==> c.request != Request.Shutdown)
    && (forall i :: 0 <= i < |calls| ==> calls[i].id == i + 1 && (calls[i].request == Init <==> i == 0))
    && Order.Contiguous(calls)
    && (forall id: Id :: Retries.Attempts(calls, id) <= MaxAttempts(maxRetries))
  }

  /** What a process has dead-lettered it has tried as often as it may, each time in vain. */
  ghost predicate BuriedHold(maxRetries: int, before: Sys, s: Sys, calls: seq<Call>) {
    && |before.deadIds| <= |s.deadIds|
    && forall i :: |before.deadIds| <= i < |s.deadIds| ==>
         Retries.Attempts(calls, s.deadIds[i]) == Retries.Failures(calls, s.deadIds[i]) == MaxAttempts(maxRetries)
  }

  /** A process that finds the disk of a reachable state. After some events of the script, and after
      all if it is cut off, the machine has sent the same requests, and where the process has returned
      gone through the same states; and it is in a reachable state that has the disk which is left. So
      what holds of every run holds of what is left, and of the requests. */
  method RunProcess(opts: S.Options, maxRetries: int, disk: W.Disk, epoch: nat, script: seq<Event>,
                    attached: Option<int>, ghost before: Sys)
      returns (exit: Exit, calls: seq<Call>, states: seq<State>, attached': Option<int>)
    requires Reachable(before) && Inv(before) && HasDisk(disk, before.store) && epoch == P.Epoch(before)
    requires attached == AttachedTo(before.sender) && AppendsFit(script)
    requires NeverStray(Restart(before, RetriesOf(opts, maxRetries)), script)
    modifies disk, disk.cursor
    ensures exists k | 0 <= k <= |script| ::
              var s := Ticks(Restart(before, RetriesOf(opts, maxRetries)), script[..k]);
              Reachable(s) && HasDisk(disk, s.store) && EndsAs(s, exit, calls, states)
                      && attached' == AttachedTo(s.sender) && (exit == Cut ==> k == |script|)
                      && BuriedHold(maxRetries, before, s, calls)
    ensures CallsHold(maxRetries, exit, calls)
    ensures exit != Cut ==> Legal(states)
  {
    hide Step, Inv, Ticks, Effect, Reachable, Restart, S.Valid, S.Reopened, W.Log.Valid, W.Log.Abs, W.Disk.Valid,
      CallsHold, BuriedHold,
      Legal, HasDisk, EndsAs, Manager.Ended;
    ghost var cfg := RetriesOf(opts, maxRetries);
    ReachableFits(before);
    RestartsAttached(before, cfg);
    ActReaches(before, Restarted(cfg));
    ghost var s := Restart(before, cfg);
    StartsOver(before, cfg);
    var log := OpenOn(disk, opts, before.store);
    var m := new Manager(opts, maxRetries, log, epoch, script, attached, s);
    exit := m.Start();
    Ends(m, exit);
    TicksReach(s, script[..m.pos]);
    TicksKeepStart(s, script[..m.pos]);
    RestartKeepsDead(before, cfg);
    ProcessCalls(m.sys, opts, maxRetries, exit, m.calls, m.states);
    ProcessBuries(before, m.sys, opts, maxRetries, exit, m.calls, m.states);
    return exit, m.calls, m.states, m.attached;
  }

  /** A process on a new directory: it starts from the initial state of the machine. */
  method RunFirst(opts: S.Options, maxRetries: int, script: seq<Event>)
      returns (disk: W.Disk, exit: Exit, calls: seq<Call>, states: seq<State>, attached: Option<int>)
    requires AppendsFit(script)
    requires var cfg := RetriesOf(opts, maxRetries); NeverStray(Restart(Initial(cfg), cfg), script)
    ensures fresh(disk) && fresh(disk.cursor)
    ensures exists k | 0 <= k <= |script| ::
              var first := Initial(RetriesOf(opts, maxRetries));
              var s := Ticks(Restart(first, first.cfg), script[..k]);
              Reachable(s) && HasDisk(disk, s.store) && EndsAs(s, exit, calls, states)
                      && attached == AttachedTo(s.sender) && (exit == Cut ==> k == |script|)
                      && BuriedHold(maxRetries, first, s, calls)
    ensures CallsHold(maxRetries, exit, calls)
    ensures exit != Cut ==> Legal(states)
  {
    hide Step, Inv, Ticks, Effect, Reachable, Restart, CallsHold, BuriedHold, Legal, EndsAs, HasDisk;
    InitialReachable(RetriesOf(opts, maxRetries));
    ReachableFits(Initial(RetriesOf(opts, maxRetries)));
    disk := NewDirectory(RetriesOf(opts, maxRetries));
    exit, calls, states, attached :=
      RunProcess(opts, maxRetries, disk, 0, script, None, Initial(RetriesOf(opts, maxRetries)));
  }

  method NewDirectory(ghost cfg: Config) returns (disk: W.Disk)
    ensures fresh(disk) && fresh(disk.cursor) && HasDisk(disk, Initial(cfg).store)
  {
    W.EmptyLayout();
    disk := new W.Disk();
  }

  method OpenOn(disk: W.Disk, opts: S.Options, ghost s: S.Store) returns (log: W.Log)
    requires HasDisk(disk, s) && S.Valid(s)
    ensures fresh(log) && log.disk == disk && log.opts == opts && !log.closed && !C.Broken(disk.cursor.files)
    ensures log.Valid() && log.Abs() == S.Reopened(s)
  {
    hide S.Valid, V.Shows, L.WellFormed, L.FilesOf, L.MemOf, L.Messages, Recovery.Bases, Segment.EncodeAll,
      Segment.AllFit,
      L.Recover;
    var err;
    log, err := W.Log.Open(disk, opts);
  }

  lemma Ends(m: Manager, exit: Exit)
    requires m.Ended(exit)
    ensures m.pos <= |m.script| && (exit == Cut ==> m.pos == |m.script|)
    ensures Inv(m.origin) && Ticks(m.origin, m.script[..m.pos]) == m.sys && m.sys.cfg == m.cfg
    ensures HasDisk(m.log.disk, m.sys.store) && EndsAs(m.sys, exit, m.calls, m.states)
    ensures m.attached == AttachedTo(m.sys.sender)
  {
    hide Step, Inv, Ticks, V.Shows;
  }

  lemma RestartsAttached(s: Sys, cfg: Config)
    requires Inv(s)
    ensures Restart(s, cfg).sender == s.sender
  {
  }

  lemma StartsOver(s: Sys, cfg: Config)
    requires Inv(s)
    ensures var r := Restart(s, cfg);
            && r.pc.AtStart? && r.reqId == 0 && !r.stop && r.calls == [] && r.states == [Created] && r.cfg == cfg
            && P.Epoch(r) == P.Epoch(s) && S.Valid(s.store) && r.store == S.Reopened(s.store)
  {
  }

  lemma RestartKeepsDead(s: Sys, cfg: Config)
    requires Inv(s)
    ensures Restart(s, cfg).startDead == |s.deadIds|
  {
  }

  lemma ProcessBuries(before: Sys, s: Sys, opts: S.Options, maxRetries: int, exit: Exit, calls: seq<Call>,
                      states: seq<State>)
    requires Reachable(s) && s.cfg == RetriesOf(opts, maxRetries) && EndsAs(s, exit, calls, states)
    requires s.startDead == |before.deadIds|
    ensures BuriedHold(maxRetries, before, s, calls)
  {
    hide Reachable, Retries.Attempts, Retries.Failures;
    Retries.DeadOnlyAfterRetries(s);
  }

  lemma ProcessCalls(s: Sys, opts: S.Options, maxRetries: int, exit: Exit, calls: seq<Call>, states: seq<State>)
    requires Reachable(s) && s.cfg == RetriesOf(opts, maxRetries) && EndsAs(s, exit, calls, states)
    ensures CallsHold(maxRetries, exit, calls) && (exit != Cut ==> Legal(states))
  {
    hide Reachable, Retries.Attempts, Retries.Failures;
    Trace.CallTrace(s);
    Trace.EveryChangeLegal(s);
    Retries.DeadOnlyAfterRetries(s);
    Order.CallsContiguous(s);
  }

  lemma NothingSent(s: S.Store, t: Sender)
    requires S.Valid(s)
    ensures After(t, []) == t && S.Grow(s, Landing(t, [])) == s
  {
  }

  lemma GrowsByOne(s: S.Store, landed: seq<S.Appended>, a: S.Appended)
    requires S.Valid(s)
    ensures S.Grow(S.Grow(s, landed), W.Sent(a.segmentSize, [a.payload])) == S.Grow(s, landed + [a])
  {
    hide S.Append, S.Valid;
    var one := W.Sent(a.segmentSize, [a.payload]);
    assert one == [a] && one[..0] == [];
    assert (landed + [a])[..|landed|] == landed;
  }

  lemma OneFits(p: Payload)
    requires Record.Fits(p)
    ensures Segment.AllFit([p])
  {
  }

  // ---------- the machine's steps, as the code takes them ----------

  lemma BackoffStep(s: Sys, e: Event)
    requires Inv(s) && s.pc.AtBackoff?
    ensures var w := World(s, e);
            && Inv(Step(s, e)) && CanTransition(w.state, Idle) && w.pc == s.pc && WorldOnly(s, e)
            && Step(s, e) == if w.stop && e.ok then CheckRetention(P.Transition(w, Idle), false)
                             else w.(pc := AtSend(s.pc.offset, s.pc.payload, s.pc.attempt))
  {
    hide Effect, S.Valid, S.RetentionExceeded, CheckRetention, S.Grow;
  }

  /** The world changes the store, the sender and what it was told, and the stop flag only. */
  ghost predicate WorldOnly(s: Sys, e: Event)
    requires Inv(s)
  {
    var w := World(s, e);
    w == s.(store := w.store, sender := w.sender, accepted := w.accepted, stop := w.stop)
  }

  lemma SendStep(s: Sys, e: Event)
    requires Inv(s) && s.pc.AtSend?
    ensures var w := World(s, e);
            && Inv(Step(s, e)) && WorldOnly(s, e)
            && Step(s, e) == P.Send(w, Message(s.pc.offset, s.pc.payload), e.ok)
                             .(pc := if e.ok then AtMark(s.pc.offset, e.post)
                                     else if s.pc.attempt < s.cfg.maxRetries
                                     then AtBackoff(s.pc.offset, s.pc.payload, s.pc.attempt + 1)
                                     else AtDeadWrite(s.pc.offset, s.pc.payload))
  {
    hide Effect, S.Valid, S.Grow;
  }

  lemma IdleMoves()
    ensures CanTransition(Idle, Processing) && CanTransition(Idle, Draining)
  {
  }

  /** An interaction that fails is a write of the cursor that fails. */
  function Fault(ok: bool): (fault: C.Fault)
    ensures ok <==> fault == C.Fine
  {
    if ok then C.Fine else C.WriteFails
  }

  lemma AnswerFits(log: W.Log, payload: Payload)
    requires log.Valid() && payload in log.Abs().view
    ensures Record.Fits(payload)
  {
    V.ViewFits(log.disk.layout, log.Mem(), log.Abs());
  }

  lemma AllRemoved(disk: W.Disk, bases: seq<nat>)
    requires Names.Ascending(bases) && forall b :: b in bases <==> b in disk.files
    ensures W.FilesFrom(disk.files, |bases|) == map[]
  {
    Names.SameMembers(bases, disk.files.Keys);
  }

  /** The machine's step, when a message is done and the check for retention is to come. */
  ghost predicate Done(s: Sys, next: Sys) {
    s.state == Idle && next == CheckRetention(s, false) && Inv(next)
  }

  lemma MarkStep(s: Sys, e: Event)
    requires Inv(s) && s.pc.AtMark?
    ensures var w := World(s, e);
            var m := w.(store := S.MarkProcessed(w.store, s.pc.offset, e.ok));
            && Inv(Step(s, e)) && WorldOnly(s, e)
            && w.state == Processing && CanTransition(Processing, PostProcessing) && CanTransition(Processing, Idle)
            && (!e.ok ==> Step(s, e) == Fail(m))
            && (e.ok && s.pc.post ==> Step(s, e) == P.Transition(m, PostProcessing).(pc := AtMarkPost(s.pc.offset)))
            && (e.ok && !s.pc.post ==> Done(P.Transition(m, Idle), Step(s, e)))
  {
    hide Effect, S.Valid, S.RetentionExceeded, CheckRetention, S.Grow, S.MarkProcessed;
  }

  lemma MarkPostStep(s: Sys, e: Event)
    requires Inv(s) && s.pc.AtMarkPost?
    ensures var w := World(s, e);
            var m := w.(store := S.MarkPostProcessed(w.store, s.pc.offset, e.ok));
            && Inv(Step(s, e)) && WorldOnly(s, e)
            && w.state == PostProcessing && CanTransition(PostProcessing, Idle)
            && (!e.ok ==> Step(s, e) == Fail(m))
            && (e.ok ==> Done(P.Transition(m, Idle), Step(s, e)))
  {
    hide Effect, S.Valid, S.RetentionExceeded, CheckRetention, S.Grow, S.MarkPostProcessed;
  }

  lemma DeadWriteStep(s: Sys, e: Event)
    requires Inv(s) && s.pc.AtDeadWrite?
    ensures var w := World(s, e);
            && Inv(Step(s, e)) && WorldOnly(s, e) && s.pc.payload in w.store.view
            && Step(s, e) == if !e.ok then Fail(w)
                             else w.(store := S.WriteDead(w.store, s.pc.payload), pc := AtDeadSave(s.pc.offset),
                                     deadIds := w.deadIds + [Id(P.Epoch(w), s.pc.offset)])
  {
    hide Effect, S.Valid, S.Grow;
  }

  lemma DeadSaveStep(s: Sys, e: Event)
    requires Inv(s) && s.pc.AtDeadSave?
    ensures var w := World(s, e);
            var m := w.(store := S.MarkProcessed(w.store, s.pc.offset, e.ok));
            && Inv(Step(s, e)) && WorldOnly(s, e)
            && w.state == Processing && CanTransition(Processing, Idle)
            && (!e.ok ==> Step(s, e) == Fail(m))
            && (e.ok ==> Done(P.Transition(m, Idle), Step(s, e)))
  {
    hide Effect, S.Valid, S.RetentionExceeded, CheckRetention, S.Grow, S.MarkProcessed;
  }

  lemma StartsCreated(s: Sys)
    requires Inv(s) && s.pc.AtStart?
    ensures s.state == Created && CanTransition(Created, Starting)
  {
  }

  lemma StartStep(s: Sys, e: Event)
    requires Inv(s) && s.pc.AtStart?
    ensures var w := P.Send(P.Assign(World(s, e), Starting), Init, e.ok);
            && Inv(Step(s, e)) && WorldOnly(s, e) && s.state == Created && CanTransition(Created, Starting)
            && CanTransition(Starting, Idle) && CanTransition(Starting, Failed)
            && Step(s, e) == if e.ok then P.Assign(w, Idle).(pc := AtHead) else Fail(P.Assign(w, Failed))
  {
    hide Effect, S.Valid, S.Grow;
  }

  /** What the machine does with what the look at s has found. */
  ghost predicate Dispatched(s: Sys, next: Sys) {
    match S.Answered(s.store)
    case Nothing => next == CheckRetention(s, true)
    case Next(o, p) => next == BeginMessage(s, o, p)
    case Panic => next == s.(pc := Panicked)
  }

  /** What the loop head does once it has heard from the world. */
  ghost predicate Turns(s: Sys, ok: bool, next: Sys) {
    && S.Valid(s.store) && s.state == Idle
    && (s.stop ==> next == ToShutdown(s))
    && (!s.stop && !ok ==> next == Fail(s))
    && (!s.stop && ok ==> Dispatched(s.(store := S.Looked(s.store)), next))
  }

  lemma HeadStep(s: Sys, e: Event)
    requires Inv(s) && s.pc.AtHead?
    ensures Inv(Step(s, e)) && WorldOnly(s, e) && Turns(World(s, e), e.ok, Step(s, e))
  {
    hide Effect, S.RetentionExceeded, CheckRetention, S.Grow, S.Looked;
  }

  lemma WaitStep(s: Sys, e: Event)
    requires Inv(s) && s.pc.AtWait?
    ensures var w := World(s, e);
            && Inv(Step(s, e)) && WorldOnly(s, e)
            && Step(s, e) == if w.stop && e.ok then ToShutdown(w) else w.(pc := AtHead)
  {
    hide Effect, S.Valid, S.Grow;
  }

  lemma SnapshotStep(s: Sys, e: Event)
    requires Inv(s) && s.pc.AtSnapshot?
    ensures var w := World(s, e);
            && Inv(Step(s, e)) && WorldOnly(s, e) && S.Valid(w.store)
            && s.state == Draining && CanTransition(Draining, Retaining)
            && Step(s, e) == if !e.ok then Fail(w)
                             else P.Assign(w, Retaining).(pc := AtRetain(S.Snapshot(w.store), s.pc.idle))
  {
    hide Effect, S.Grow, S.Snapshot;
  }

  lemma RetainStep(s: Sys, e: Event)
    requires Inv(s) && s.pc.AtRetain?
    ensures var w := P.Send(World(s, e), Retain(s.pc.snapshot), e.ok);
            && Inv(Step(s, e)) && WorldOnly(s, e) && s.state == Retaining && CanTransition(Retaining, Failed)
            && Step(s, e) == if !e.ok then Fail(P.Assign(w, Failed))
                             else w.(retained := w.retained + [(P.Epoch(w), s.pc.snapshot)],
                                     pc := AtTruncate(s.pc.snapshot, s.pc.idle))
  {
    hide Effect, S.Valid, S.Grow;
  }

  lemma TruncateStep(s: Sys, e: Event)
    requires Inv(s) && s.pc.AtTruncate?
    ensures var w := World(s, e);
            && Inv(Step(s, e)) && WorldOnly(s, e)
            && s.state == Retaining && CanTransition(Retaining, Failed) && CanTransition(Retaining, Idle)
            && (e.ok ==> AttachedTo(Step(s, e).sender) == None)
            && Step(s, e) == if !e.ok then Fail(P.Assign(w, Failed))
                             else P.Assign(w.(archive := w.archive + [w.store.msgs], store := S.Truncate(w.store, true),
                                               sender := Step(s, e).sender), Idle)
                                  .(pc := if s.pc.idle then AtWait else AtHead)
  {
    hide Effect, S.Valid, S.Grow;
    BasesKnown(World(s, e).store);
  }

  lemma BasesKnown(s: S.Store)
    ensures S.Valid(s) && s.known > 0 ==> s.bases != []
  {
  }

  lemma ShutdownStep(s: Sys, e: Event)
    requires Inv(s) && s.pc.AtShutdown?
    ensures Inv(Step(s, e)) && WorldOnly(s, e)
    ensures Step(s, e) == P.Assign(P.Send(World(s, e), Request.Shutdown, e.ok), Stopped).(pc := Returned(true))
  {
    hide Effect, S.Valid, S.Grow;
  }
}
