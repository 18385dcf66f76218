/** The lifecycle manager as a state machine (pkg/lifecycle/manager.go).

    One step is one interaction of the manager with the store, the neb or the stop channel, and what
    the code does before the next one. Other processes append, and a stop may be requested, before
    any step; the process may end between any two steps and start anew on the disk it left.
 */
module Pump {
  import opened Wrappers
  import opened Store
  import opened States
  import opened Senders
  import Record

  type Payload = Record.Payload

  datatype Config = Config(opts: Options, maxRetries: int)

  /** A retain request names a snapshot by its path; here it carries the messages in it. */
  datatype Request = Init | Message(offset: nat, payload: Payload) | Retain(snapshot: seq<Payload>) | Shutdown

  /** A request handed to the transport, whether a result came back, and the epoch it was sent in:
      the number of truncations so far. */
  datatype Call = Call(id: nat, request: Request, ok: bool, epoch: nat)

  /** The interaction to come. idle tells which of the two retention checks led to a retention. */
  datatype Pc =
    | AtStart
    | AtHead
    | AtWait
    | AtSend(offset: nat, payload: Payload, attempt: nat)
    | AtBackoff(offset: nat, payload: Payload, attempt: nat)
    | AtMark(offset: nat, post: bool)
    | AtMarkPost(offset: nat)
    | AtDeadWrite(offset: nat, payload: Payload)
    | AtDeadSave(offset: nat)
    | AtSnapshot(idle: bool)
    | AtRetain(snapshot: seq<Payload>, idle: bool)
    | AtTruncate(snapshot: seq<Payload>, idle: bool)
    | AtShutdown
    | Returned(ok: bool)
    | Panicked

  /** A message, by epoch and offset. */
  datatype Id = Id(epoch: nat, offset: nat)

  /** The manager and its store, and the history of what happened. */
  datatype Sys = Sys(
    cfg: Config,
    store: Store,
    pc: Pc,
    state: State,
    reqId: nat,
    stop: bool,
    // this process: the calls sent and the states gone through
    calls: seq<Call>,
    states: seq<State>,
    // where this process started: the epoch, the saved cursor and the number of dead letters
    start: Id,
    startDead: nat,
    // earlier processes: their calls
    past: seq<Call>,
    // earlier epochs: their messages
    archive: seq<seq<Payload>>,
    // which message each dead letter stands for
    deadIds: seq<Id>,
    // the snapshots, by epoch, that the neb took over
    retained: seq<(nat, seq<Payload>)>,
    // who appends, and the offsets that appending has returned so far
    sender: Sender,
    accepted: seq<Accepted>)

  /** What happens before and during a step. The outcome of the interaction is ok; of a stop and a
      timer that are both due, ok picks the stop. */
  datatype Event = Event(sends: seq<Sending>, stop: bool, ok: bool, post: bool)

  function Initial(cfg: Config): Sys {
    Sys(cfg, FRESH, AtStart, Created, 0, false, [], [Created], Id(0, 0), 0, [], [], [], [], NoSender, [])
  }

  function Epoch(s: Sys): nat {
    |s.archive|
  }

  // ---------- the base invariant ----------

  /** The message to come is what the store answers for the offset at the cursor. */
  ghost predicate Current(s: Sys, offset: nat, payload: Payload) {
    s.state == Processing && offset == s.store.cur.consumed < |s.store.view| && payload == s.store.view[offset]
  }

  ghost predicate PcFits(s: Sys) {
    match s.pc
    case AtStart => s.state == Created
    case AtHead => s.state == Idle
    case AtWait => s.state == Idle
    case AtSend(o, p, n) => Current(s, o, p) && n <= s.cfg.maxRetries
    case AtBackoff(o, p, n) => Current(s, o, p) && 0 < n <= s.cfg.maxRetries
    case AtMark(o, _) =>
      && o < |s.store.view| && Current(s, o, s.store.view[o])
      && |s.calls| > 0 && s.calls[|s.calls| - 1] == Call(|s.calls|, Message(o, s.store.view[o]), true, Epoch(s))
    case AtMarkPost(o) =>
      && s.state == PostProcessing && s.store.cur.consumed == o + 1 && o < |s.store.view|
      && |s.calls| > 0 && s.calls[|s.calls| - 1] == Call(|s.calls|, Message(o, s.store.view[o]), true, Epoch(s))
    case AtDeadWrite(o, p) => Current(s, o, p)
    case AtDeadSave(o) =>
      && o < |s.store.view| && Current(s, o, s.store.view[o])
      && |s.deadIds| == |s.store.dead| > 0
      && s.deadIds[|s.deadIds| - 1] == Id(Epoch(s), o) && s.store.dead[|s.store.dead| - 1] == s.store.view[o]
    case AtSnapshot(_) => s.state == Draining && s.store.known > 0
    case AtRetain(sn, _) => s.state == Retaining && 0 < s.store.known <= |sn| && sn <= s.store.msgs
    case AtTruncate(sn, _) =>
      && s.state == Retaining && 0 < s.store.known <= |sn| && sn <= s.store.msgs
      && |s.retained| > 0 && s.retained[|s.retained| - 1] == (Epoch(s), sn)
    case AtShutdown => s.state == Stopping
    case Returned(ok) => ok <==> s.state == Stopped
    case Panicked => s.state == Idle
  }

  /** The cursor stays within the known messages and is saved unless the process has ended, requests
      are numbered, and the interaction to come is about the message the cursor stands at. */
  ghost predicate Inv(s: Sys) {
    && Valid(s.store)
    && s.store.saved.consumed <= s.store.cur.consumed <= s.store.known
    && (s.pc.Returned? || s.store.saved == s.store.cur)
    && s.reqId == |s.calls|
    && |s.deadIds| == |s.store.dead|
    && PcFits(s)
  }

  // ---------- what a step does ----------

  /** The request a step sends. */
  function RequestOf(pc: Pc): Option<Request> {
    match pc
    case AtStart => Some(Init)
    case AtSend(o, p, _) => Some(Message(o, p))
    case AtRetain(sn, _) => Some(Retain(sn))
    case AtShutdown => Some(Shutdown)
    case _ => None
  }

  /** What the loop head goes on to, once it has looked for a message. */
  ghost predicate Dispatches(s: Sys, next: Pc)
    requires Valid(s.store)
  {
    match Answered(Looked(s.store))
    case Nothing => next == AtWait || next == AtSnapshot(true)
    case Next(o, p) => next == if s.cfg.maxRetries < 0 then AtDeadWrite(o, p) else AtSend(o, p, 0)
    case Panic => next == Panicked
  }

  /** The interactions that can follow. */
  ghost predicate Follows(s: Sys, e: Event, next: Pc)
    requires Valid(s.store)
  {
    match s.pc
    case AtStart => next == if e.ok then AtHead else Returned(false)
    case AtHead => if s.stop then next == AtShutdown else if !e.ok then next == Returned(false) else Dispatches(s, next)
    case AtWait => next == if s.stop && e.ok then AtShutdown else AtHead
    case AtSend(o, p, n) =>
      next == if e.ok then AtMark(o, e.post)
              else if n < s.cfg.maxRetries then AtBackoff(o, p, n + 1)
              else AtDeadWrite(o, p)
    case AtBackoff(o, p, n) =>
      if s.stop && e.ok then next == AtHead || next == AtSnapshot(false) else next == AtSend(o, p, n)
    case AtMark(o, post) =>
      if !e.ok then next == Returned(false)
      else if post then next == AtMarkPost(o)
      else next == AtHead || next == AtSnapshot(false)
    case AtMarkPost(_) => if e.ok then next == AtHead || next == AtSnapshot(false) else next == Returned(false)
    case AtDeadWrite(o, _) => next == if e.ok then AtDeadSave(o) else Returned(false)
    case AtDeadSave(_) => if e.ok then next == AtHead || next == AtSnapshot(false) else next == Returned(false)
    case AtSnapshot(idle) => next == if e.ok then AtRetain(Snapshot(s.store), idle) else Returned(false)
    case AtRetain(sn, idle) => next == if e.ok then AtTruncate(sn, idle) else Returned(false)
    case AtTruncate(_, idle) => next == if !e.ok then Returned(false) else if idle then AtWait else AtHead
    case AtShutdown => next == Returned(true)
    case Returned(_) => next == s.pc
    case Panicked => next == s.pc
  }

  /** The states gone through in a step follow each other legally. */
  ghost predicate MovesLegally(s: Sys, r: Sys) {
    || (r.states == s.states && r.state == s.state)
    || (r.states == s.states + [r.state] && CanTransition(s.state, r.state))
    || (|r.states| == |s.states| + 2
        && var mid := r.states[|s.states|];
           r.states == s.states + [mid, r.state] && CanTransition(s.state, mid) && CanTransition(mid, r.state))
  }

  /** What is added to the histories. */
  ghost predicate Records(s: Sys, e: Event, r: Sys) {
    var truncates := s.pc.AtTruncate? && e.ok;
    var buries := s.pc.AtDeadWrite? && e.ok;
    && r.calls == s.calls + (match RequestOf(s.pc)
                             case Some(q) => [Call(s.reqId + 1, q, e.ok, Epoch(s))]
                             case None => [])
    && r.deadIds == s.deadIds + (if buries then [Id(Epoch(s), s.pc.offset)] else [])
    && r.store.dead == s.store.dead + (if buries then [s.pc.payload] else [])
    && r.retained == s.retained + (if s.pc.AtRetain? && e.ok then [(Epoch(s), s.pc.snapshot)] else [])
    && r.archive == s.archive + (if truncates then [s.store.msgs] else [])
    && r.accepted == s.accepted
    && r.stop == s.stop && r.past == s.past && r.start == s.start && r.startDead == s.startDead && r.cfg == s.cfg
  }

  /** What becomes of the store: only the loop head looks, only marking moves the cursor, and only
      truncating deletes. */
  ghost predicate Stores(s: Sys, e: Event, r: Sys)
    requires Valid(s.store)
  {
    var marks := s.pc.AtMark? || s.pc.AtDeadSave?;
    && r.sender == (if s.pc.AtTruncate? && e.ok then Detach(s.sender, Epoch(s), s.store) else s.sender)
    && if s.pc.AtTruncate? && e.ok then
      && r.store.msgs == [] && r.store.bases == [] && r.store.view == [] && r.store.known == r.store.segs == 0
      && r.store.cur == r.store.saved == CursorState(0, 0)
    else
      && r.store.msgs == s.store.msgs && r.store.bases == s.store.bases
      && r.store.cur.consumed == s.store.cur.consumed + (if marks then 1 else 0)
      && r.store.cur.postProcessed == (if s.pc.AtMarkPost? && s.pc.offset > s.store.cur.postProcessed
                                       then s.pc.offset else s.store.cur.postProcessed)
      && r.store.saved == (if (marks || s.pc.AtMarkPost?) && e.ok then r.store.cur else s.store.saved)
      && var l := if s.pc.AtHead? && !s.stop && e.ok then Looked(s.store) else s.store;
         r.store.segs == l.segs && r.store.view == l.view && r.store.known == l.known
  }

  /** After a message, and when there is none, retention begins exactly if it is due. */
  ghost predicate Checks(s: Sys, r: Sys) {
    var due := RetentionExceeded(r.store, s.cfg.opts);
    && (r.pc.AtSnapshot? ==> due)
    && (r.pc.AtHead? && (s.pc.AtBackoff? || s.pc.AtMark? || s.pc.AtMarkPost? || s.pc.AtDeadSave?) ==> !due)
    && (r.pc.AtWait? && s.pc.AtHead? ==> !due)
  }

  ghost predicate Effect(s: Sys, e: Event, r: Sys)
    requires Valid(s.store)
  {
    Follows(s, e, r.pc) && MovesLegally(s, r) && Records(s, e, r) && Stores(s, e, r) && Checks(s, r)
  }

  // ---------- what the code is made of ----------

  function Assign(s: Sys, to: State): Sys {
    s.(state := to, states := s.states + [to])
  }

  /** A transition whose error is dropped. */
  function Transition(s: Sys, to: State): Sys {
    if CanTransition(s.state, to) then Assign(s, to) else s
  }

  function Fail(s: Sys): Sys {
    s.(pc := Returned(false))
  }

  function Send(s: Sys, m: Request, ok: bool): Sys {
    s.(reqId := s.reqId + 1, calls := s.calls + [Call(s.reqId + 1, m, ok, Epoch(s))])
  }

  function ToShutdown(s: Sys): Sys {
    (if s.state != Idle && s.state != Stopping then Assign(s, Stopping) else Transition(s, Stopping))
    .(pc := AtShutdown)
  }

  /** The retention check after a message, or when there is none. */
  function CheckRetention(s: Sys, idle: bool): Sys {
    if !RetentionExceeded(s.store, s.cfg.opts) then s.(pc := if idle then AtWait else AtHead)
    else if !CanTransition(s.state, Draining) then Fail(s)
    else Assign(s, Draining).(pc := AtSnapshot(idle))
  }

  /** The end of a message: idle again, unless a retention is due. */
  function Finish(s: Sys): Sys {
    CheckRetention(Transition(s, Idle), false)
  }

  function BeginMessage(s: Sys, offset: nat, payload: Payload): Sys {
    if !CanTransition(s.state, Processing) then Fail(s)
    else Assign(s, Processing).(pc := if s.cfg.maxRetries < 0 then AtDeadWrite(offset, payload)
                                      else AtSend(offset, payload, 0))
  }

  // ---------- the steps ----------

  /** What the world does before a step. */
  function World(s: Sys, e: Event): Sys
    requires Inv(s)
  {
    s.(store := Grow(s.store, Landing(s.sender, e.sends)), sender := After(s.sender, e.sends),
       accepted := s.accepted + Accepting(s.sender, Epoch(s), |s.store.msgs|, e.sends), stop := s.stop || e.stop)
  }

  function StepStart(s: Sys, e: Event): Sys {
    if !CanTransition(s.state, Starting) then Fail(s)
    else
      var s := Send(Assign(s, Starting), Init, e.ok);
      if !e.ok then Fail(Transition(s, Failed))
      else if !CanTransition(s.state, Idle) then Fail(s)
      else Assign(s, Idle).(pc := AtHead)
  }

  function StepHead(s: Sys, e: Event): Sys
    requires Valid(s.store)
  {
    if s.stop then ToShutdown(s)
    else if s.state != Idle then s
    else if !e.ok then Fail(s)
    else Dispatch(s.(store := Looked(s.store)))
  }

  /** What follows NextUnprocessed. */
  function Dispatch(s: Sys): Sys {
    match Answered(s.store)
    case Nothing => CheckRetention(s, true)
    case Next(o, p) => BeginMessage(s, o, p)
    case Panic => s.(pc := Panicked)
  }

  function StepWait(s: Sys, e: Event): Sys {
    if s.stop && e.ok then ToShutdown(s) else s.(pc := AtHead)
  }

  function StepSend(s: Sys, e: Event): Sys
    requires s.pc.AtSend?
  {
    var AtSend(offset, payload, attempt) := s.pc;
    var s := Send(s, Message(offset, payload), e.ok);
    s.(pc := if e.ok then AtMark(offset, e.post)
             else if attempt < s.cfg.maxRetries then AtBackoff(offset, payload, attempt + 1)
             else AtDeadWrite(offset, payload))
  }

  function StepBackoff(s: Sys, e: Event): Sys
    requires s.pc.AtBackoff?
  {
    if s.stop && e.ok then Finish(s)
    else s.(pc := AtSend(s.pc.offset, s.pc.payload, s.pc.attempt))
  }

  function StepMark(s: Sys, e: Event): Sys
    requires s.pc.AtMark?
  {
    var AtMark(offset, post) := s.pc;
    var s := s.(store := MarkProcessed(s.store, offset, e.ok));
    if !e.ok then Fail(s)
    else if post then Transition(s, PostProcessing).(pc := AtMarkPost(offset))
    else Finish(s)
  }

  function StepMarkPost(s: Sys, e: Event): Sys
    requires s.pc.AtMarkPost?
  {
    var s := s.(store := MarkPostProcessed(s.store, s.pc.offset, e.ok));
    if !e.ok then Fail(s) else Finish(s)
  }

  /** A dead letter is written first, and the cursor saved in another step. */
  function StepDeadWrite(s: Sys, e: Event): Sys
    requires s.pc.AtDeadWrite?
  {
    var AtDeadWrite(offset, payload) := s.pc;
    if !e.ok then Fail(s)
    else s.(store := WriteDead(s.store, payload), deadIds := s.deadIds + [Id(Epoch(s), offset)],
            pc := AtDeadSave(offset))
  }

  function StepDeadSave(s: Sys, e: Event): Sys
    requires s.pc.AtDeadSave?
  {
    var s := s.(store := MarkProcessed(s.store, s.pc.offset, e.ok));
    if !e.ok then Fail(s) else Finish(s)
  }

  function StepSnapshot(s: Sys, e: Event): Sys
    requires Valid(s.store) && s.pc.AtSnapshot?
  {
    if !e.ok || !CanTransition(s.state, Retaining) then Fail(s)
    else Assign(s, Retaining).(pc := AtRetain(Snapshot(s.store), s.pc.idle))
  }

  function StepRetain(s: Sys, e: Event): Sys
    requires s.pc.AtRetain?
  {
    var AtRetain(snapshot, idle) := s.pc;
    var s := Send(s, Retain(snapshot), e.ok);
    if !e.ok then Fail(Transition(s, Failed))
    else s.(retained := s.retained + [(Epoch(s), snapshot)], pc := AtTruncate(snapshot, idle))
  }

  /** A truncation that fails is taken to fail before it deletes anything. */
  function StepTruncate(s: Sys, e: Event): Sys
    requires Valid(s.store) && s.pc.AtTruncate?
  {
    if !e.ok then Fail(Transition(s, Failed))
    else
      var idle := s.pc.idle;
      var s := s.(archive := s.archive + [s.store.msgs], store := Truncate(s.store, true),
                  sender := Detach(s.sender, Epoch(s), s.store));
      Transition(s, Idle).(pc := if idle then AtWait else AtHead)
  }

  function StepShutdown(s: Sys, e: Event): Sys {
    Assign(Send(s, Shutdown, e.ok), Stopped).(pc := Returned(true))
  }

  // ---------- each step keeps the invariant and has its effect ----------

  lemma WorldKeeps(s: Sys, e: Event)
    requires Inv(s)
    ensures Inv(World(s, e))
  {
    hide Grow, Append, Rolls;
  }

  lemma StartKeeps(s: Sys, e: Event)
    requires Inv(s) && s.pc.AtStart?
    ensures Inv(StepStart(s, e)) && Effect(s, e, StepStart(s, e))
  {
    hide Valid, Looked, Dispatches;
  }

  lemma HeadKeeps(s: Sys, e: Event)
    requires Inv(s) && s.pc.AtHead?
    ensures Inv(StepHead(s, e)) && Effect(s, e, StepHead(s, e))
  {
    hide Looked, Dispatch, Dispatches, Valid, RetentionExceeded;
    if !s.stop && e.ok {
      DispatchKeeps(s, s.(store := Looked(s.store)));
    }
  }

  /** The check for retention keeps the invariant of an idle manager. */
  lemma CheckKeeps(s: Sys, idle: bool)
    requires Inv(s.(pc := AtHead))
    ensures var r := CheckRetention(s, idle);
            && Inv(r) && r == s.(pc := r.pc, state := r.state, states := r.states)
            && (|| (r.pc == (if idle then AtWait else AtHead) && r.states == s.states && r.state == Idle)
                || (r.pc == AtSnapshot(idle) && r.states == s.states + [Draining] && r.state == Draining))
            && (r.pc.AtSnapshot? <==> RetentionExceeded(s.store, s.cfg.opts))
  {
    KnownWhenExceeded(s.store, s.cfg.opts);
    hide Valid, RetentionExceeded;
  }

  lemma KnownWhenExceeded(s: Store, opts: Options)
    requires Valid(s) && s.cur.consumed <= s.known
    ensures RetentionExceeded(s, opts) ==> s.known > 0
  {
  }

  lemma CursorKeepsValid(s: Store, offset: nat, ok: bool)
    requires Valid(s) && offset == s.cur.consumed
    ensures var r := MarkProcessed(s, offset, ok);
            && Valid(r) && r == s.(cur := r.cur, saved := r.saved) && r.cur.postProcessed == s.cur.postProcessed
            && r.cur.consumed == offset + 1 && r.saved == if ok then r.cur else s.saved
  {
  }

  lemma PostKeepsValid(s: Store, offset: nat, ok: bool)
    requires Valid(s)
    ensures var r := MarkPostProcessed(s, offset, ok);
            && Valid(r) && r == s.(cur := r.cur, saved := r.saved)
            && r.cur.consumed == s.cur.consumed && r.saved == (if ok then r.cur else s.saved)
            && r.cur.postProcessed == if offset > s.cur.postProcessed then offset else s.cur.postProcessed
  {
  }

  lemma DispatchKeeps(before: Sys, s: Sys)
    requires Inv(before) && before.pc.AtHead? && s == before.(store := Looked(before.store))
    ensures var r := Dispatch(s);
            && Inv(r) && Dispatches(before, r.pc) && MovesLegally(s, r) && Checks(before, r)
            && r == s.(pc := r.pc, state := r.state, states := r.states)
  {
    hide Valid, RetentionExceeded;
    var r := Dispatch(s);
    match Answered(s.store) {
      case Nothing => CheckKeeps(s, true);
      case Next(o, p) =>
      case Panic =>
    }
  }

  lemma WaitKeeps(s: Sys, e: Event)
    requires Inv(s) && s.pc.AtWait?
    ensures Inv(StepWait(s, e)) && Effect(s, e, StepWait(s, e))
  {
    hide Looked, Dispatches, Valid, RetentionExceeded;
  }

  lemma SendKeeps(s: Sys, e: Event)
    requires Inv(s) && s.pc.AtSend?
    ensures Inv(StepSend(s, e)) && Effect(s, e, StepSend(s, e))
  {
    hide Looked, Dispatches, Valid, RetentionExceeded;
  }

  /** A message in progress ends. */
  lemma FinishKeeps(s: Sys)
    requires Inv(s.(state := Idle, pc := AtHead)) && (s.state == Processing || s.state == PostProcessing)
    ensures var r := Finish(s);
            && Inv(r) && MovesLegally(s, r) && r == s.(pc := r.pc, state := r.state, states := r.states)
            && r.pc == if RetentionExceeded(s.store, s.cfg.opts) then AtSnapshot(false) else AtHead
  {
    hide Valid, CheckRetention, RetentionExceeded;
    CheckKeeps(Transition(s, Idle), false);
    assert CanTransition(s.state, Idle) && CanTransition(Idle, Draining);
  }

  lemma BackoffKeeps(s: Sys, e: Event)
    requires Inv(s) && s.pc.AtBackoff?
    ensures Inv(StepBackoff(s, e)) && Effect(s, e, StepBackoff(s, e))
  {
    hide Looked, Dispatches, Valid, RetentionExceeded, Finish;
    FinishKeeps(s);
  }

  lemma MarkKeeps(s: Sys, e: Event)
    requires Inv(s) && s.pc.AtMark?
    ensures Inv(StepMark(s, e)) && Effect(s, e, StepMark(s, e))
  {
    hide Finish, Valid, RetentionExceeded, MarkProcessed, Looked, Dispatches;
    var m := s.(store := MarkProcessed(s.store, s.pc.offset, e.ok));
    CursorKeepsValid(s.store, s.pc.offset, e.ok);
    if e.ok && !s.pc.post {
      FinishKeeps(m);
    }
  }

  lemma MarkPostKeeps(s: Sys, e: Event)
    requires Inv(s) && s.pc.AtMarkPost?
    ensures Inv(StepMarkPost(s, e)) && Effect(s, e, StepMarkPost(s, e))
  {
    hide Finish, Valid, RetentionExceeded, MarkPostProcessed, Looked, Dispatches;
    var m := s.(store := MarkPostProcessed(s.store, s.pc.offset, e.ok));
    PostKeepsValid(s.store, s.pc.offset, e.ok);
    if e.ok {
      FinishKeeps(m);
    }
  }

  lemma DeadWriteKeeps(s: Sys, e: Event)
    requires Inv(s) && s.pc.AtDeadWrite?
    ensures Inv(StepDeadWrite(s, e)) && Effect(s, e, StepDeadWrite(s, e))
  {
    hide Valid, RetentionExceeded, Looked, Dispatches;
    BuriedValid(s.store, s.pc.payload);
  }

  lemma BuriedValid(s: Store, payload: Payload)
    requires Valid(s)
    ensures Valid(WriteDead(s, payload))
  {
  }

  lemma DeadSaveKeeps(s: Sys, e: Event)
    requires Inv(s) && s.pc.AtDeadSave?
    ensures Inv(StepDeadSave(s, e)) && Effect(s, e, StepDeadSave(s, e))
  {
    hide Finish, Valid, RetentionExceeded, MarkProcessed, Looked, Dispatches;
    var m := s.(store := MarkProcessed(s.store, s.pc.offset, e.ok));
    CursorKeepsValid(s.store, s.pc.offset, e.ok);
    if e.ok {
      FinishKeeps(m);
    }
  }

  lemma SnapshotKeeps(s: Sys, e: Event)
    requires Inv(s) && s.pc.AtSnapshot?
    ensures Inv(StepSnapshot(s, e)) && Effect(s, e, StepSnapshot(s, e))
  {
    hide Valid, Snapshot, RetentionExceeded, Looked, Dispatches;
  }

  lemma RetainKeeps(s: Sys, e: Event)
    requires Inv(s) && s.pc.AtRetain?
    ensures Inv(StepRetain(s, e)) && Effect(s, e, StepRetain(s, e))
  {
    hide Looked, Dispatches, Valid, RetentionExceeded;
  }

  lemma TruncateKeeps(s: Sys, e: Event)
    requires Inv(s) && s.pc.AtTruncate?
    ensures Inv(StepTruncate(s, e)) && Effect(s, e, StepTruncate(s, e))
  {
    hide Looked, Dispatches, Valid, RetentionExceeded, Truncate;
    TruncatedIsFresh(s.store);
  }

  lemma TruncatedIsFresh(s: Store)
    ensures Truncate(s, true) == FRESH.(dead := s.dead) && Valid(Truncate(s, true))
  {
  }

  lemma ShutdownKeeps(s: Sys, e: Event)
    requires Inv(s) && s.pc.AtShutdown?
    ensures Inv(StepShutdown(s, e)) && Effect(s, e, StepShutdown(s, e))
  {
    hide Looked, Dispatches, Valid, RetentionExceeded;
  }

  /** A step once the world has acted. */
  function Proceed(s: Sys, e: Event): Sys
    requires Inv(s)
  {
    match s.pc
    case AtStart => StepStart(s, e)
    case AtHead => StepHead(s, e)
    case AtWait => StepWait(s, e)
    case AtSend(_, _, _) => StepSend(s, e)
    case AtBackoff(_, _, _) => StepBackoff(s, e)
    case AtMark(_, _) => StepMark(s, e)
    case AtMarkPost(_) => StepMarkPost(s, e)
    case AtDeadWrite(_, _) => StepDeadWrite(s, e)
    case AtDeadSave(_) => StepDeadSave(s, e)
    case AtSnapshot(_) => StepSnapshot(s, e)
    case AtRetain(_, _) => StepRetain(s, e)
    case AtTruncate(_, _) => StepTruncate(s, e)
    case AtShutdown => StepShutdown(s, e)
    case Returned(_) => s
    case Panicked => s
  }

  lemma ProceedKeeps(s: Sys, e: Event)
    requires Inv(s)
    ensures Inv(Proceed(s, e)) && Effect(s, e, Proceed(s, e))
  {
    hide Inv, Effect, StepStart, StepHead, StepWait, StepSend, StepBackoff, StepMark, StepMarkPost, StepDeadWrite,
      StepDeadSave, StepSnapshot, StepRetain, StepTruncate, StepShutdown;
    match s.pc {
      case AtStart => StartKeeps(s, e);
      case AtHead => HeadKeeps(s, e);
      case AtWait => WaitKeeps(s, e);
      case AtSend(_, _, _) => SendKeeps(s, e);
      case AtBackoff(_, _, _) => BackoffKeeps(s, e);
      case AtMark(_, _) => MarkKeeps(s, e);
      case AtMarkPost(_) => MarkPostKeeps(s, e);
      case AtDeadWrite(_, _) => DeadWriteKeeps(s, e);
      case AtDeadSave(_) => DeadSaveKeeps(s, e);
      case AtSnapshot(_) => SnapshotKeeps(s, e);
      case AtRetain(_, _) => RetainKeeps(s, e);
      case AtTruncate(_, _) => TruncateKeeps(s, e);
      case AtShutdown => ShutdownKeeps(s, e);
      case Returned(_) => EndedKeeps(s, e);
      case Panicked => EndedKeeps(s, e);
    }
  }

  lemma EndedKeeps(s: Sys, e: Event)
    requires Inv(s) && (s.pc.Returned? || s.pc.Panicked?)
    ensures Effect(s, e, s)
  {
    hide Valid, RetentionExceeded, Looked, Dispatches;
  }

  function Step(s: Sys, e: Event): (r: Sys)
    requires Inv(s)
    ensures Inv(World(s, e)) && Inv(r) && Effect(World(s, e), e, r)
  {
    WorldKeeps(s, e);
    ProceedKeeps(World(s, e), e);
    Proceed(World(s, e), e)
  }

  /** The process ends, by a crash or otherwise, and a new one, possibly with another configuration,
      starts on the disk: it knows every message there is and goes on at the saved cursor. */
  function Restart(s: Sys, cfg: Config): (r: Sys)
    requires Inv(s)
    ensures Inv(r) && Faithful(r.store) && r.store.known == |s.store.msgs| && r.store.cur == s.store.saved
  {
    s.(cfg := cfg, store := Reopened(s.store), pc := AtStart, state := Created, reqId := 0, stop := false,
       past := s.past + s.calls, calls := [], states := [Created],
       start := Id(Epoch(s), s.store.saved.consumed), startDead := |s.deadIds|)
  }

  datatype Action = Tick(event: Event) | Restarted(cfg: Config)

  function Act(s: Sys, a: Action): (r: Sys)
    requires Inv(s)
    ensures Inv(r)
  {
    match a
    case Tick(e) => Step(s, e)
    case Restarted(cfg) => Restart(s, cfg)
  }

  lemma ActTick(s: Sys, a: Action)
    requires Inv(s) && a.Tick?
    ensures Act(s, a) == Step(s, a.event) && a == Tick(a.event)
  {
  }

  /** The states of a run: a fresh directory, and the state after each action. A run ends where a
      sender begins a segment that does not belong in the directory. */
  ghost predicate IsRun(run: seq<Sys>, actions: seq<Action>) {
    && |run| == |actions| + 1
    && run[0] == Initial(run[0].cfg)
    && (forall s :: s in run ==> !s.sender.Stray?)
    && forall i {:trigger actions[i]} :: 0 <= i < |actions| ==>
         Inv(run[i]) && run[i + 1] == Act(run[i], actions[i])
  }

  /** The states that some run ends in: those of some processes one after the other, each with any
      configuration and any events, on one directory. */
  ghost predicate Reachable(s: Sys) {
    exists run, actions :: IsRun(run, actions) && run[|actions|] == s
  }

  lemma RunFits(run: seq<Sys>, actions: seq<Action>, n: nat)
    requires IsRun(run, actions) && n <= |actions|
    ensures Inv(run[n])
  {
    hide Act;
    if n > 0 {
      assert run[n] == Act(run[n - 1], actions[n - 1]);
    }
  }

  lemma ReachableFits(s: Sys)
    requires Reachable(s)
    ensures Inv(s) && !s.sender.Stray?
  {
    hide Act, Inv;
    var run, actions :| IsRun(run, actions) && run[|actions|] == s;
    RunFits(run, actions, |actions|);
  }

  lemma InitialReachable(cfg: Config)
    ensures Reachable(Initial(cfg))
  {
    assert IsRun([Initial(cfg)], []);
  }

  /** Reachable states are closed under the actions. */
  lemma ActReaches(s: Sys, a: Action)
    requires Reachable(s) && Inv(s) && !Act(s, a).sender.Stray?
    ensures Reachable(Act(s, a))
  {
    hide Act, Inv;
    var run, actions :| IsRun(run, actions) && run[|actions|] == s;
    var run', actions' := run + [Act(s, a)], actions + [a];
    forall i | 0 <= i < |actions'|
      ensures Inv(run'[i]) && run'[i + 1] == Act(run'[i], actions'[i])
    {
      if i < |actions| {
        assert actions'[i] == actions[i];
        assert run'[i] == run[i] && run'[i + 1] == run[i + 1];
      }
    }
    assert run'[0] == run[0] && run'[|actions'|] == Act(s, a);
    assert IsRun(run', actions');
  }

  /** Steps of one process on events. */
  function Ticks(s: Sys, events: seq<Event>): (r: Sys)
    requires Inv(s)
    ensures Inv(r)
    decreases |events|
  {
    if |events| == 0 then s else Ticks(Step(s, events[0]), events[1..])
  }

  lemma {:induction false} TicksAppend(s: Sys, events: seq<Event>, e: Event)
    requires Inv(s)
    ensures Ticks(s, events + [e]) == Step(Ticks(s, events), e)
    decreases |events|
  {
    hide Step, Inv;
    if |events| == 0 {
      assert events + [e] == [e];
      assert [e][1..] == [];
    } else {
      assert (events + [e])[1..] == events[1..] + [e];
      TicksAppend(Step(s, events[0]), events[1..], e);
    }
  }

  /** Only appending makes a sender stray. */
  lemma StepStrays(s: Sys, e: Event)
    requires Inv(s)
    ensures Step(s, e).sender.Stray? <==> After(s.sender, e.sends).Stray?
  {
    hide Step, Follows, MovesLegally, Records, Checks, PcFits, Valid, Grow, Looked, Accepting, Landing, After;
    assert Effect(World(s, e), e, Step(s, e));
  }

  lemma {:induction false} StrayForGood(s: Sys, events: seq<Event>)
    requires Inv(s) && s.sender.Stray?
    ensures Ticks(s, events).sender.Stray?
    decreases |events|
  {
    hide Step, Inv;
    if |events| > 0 {
      StaysStray(events[0].sends);
      StepStrays(s, events[0]);
      StrayForGood(Step(s, events[0]), events[1..]);
    }
  }

  lemma {:induction false} TicksKeepStart(s: Sys, events: seq<Event>)
    requires Inv(s)
    ensures Ticks(s, events).startDead == s.startDead && Ticks(s, events).start == s.start
    decreases |events|
  {
    hide Step, Inv;
    if |events| > 0 {
      StepKeepsStart(s, events[0]);
      TicksKeepStart(Step(s, events[0]), events[1..]);
    }
  }

  lemma StepKeepsStart(s: Sys, e: Event)
    requires Inv(s)
    ensures Step(s, e).startDead == s.startDead && Step(s, e).start == s.start
  {
    hide Step, Follows, MovesLegally, Stores, Checks, PcFits, Valid, Grow, Looked, Accepting, Landing, After;
    assert Effect(World(s, e), e, Step(s, e));
  }

  /** What a process reaches from a reachable state is reachable. */
  lemma {:induction false} TicksReach(s: Sys, events: seq<Event>)
    requires Reachable(s) && Inv(s) && !Ticks(s, events).sender.Stray?
    ensures Reachable(Ticks(s, events))
    decreases |events|
  {
    hide Step, Inv, Reachable;
    if |events| > 0 {
      if Step(s, events[0]).sender.Stray? {
        StrayForGood(Step(s, events[0]), events[1..]);
      }
      ActReaches(s, Tick(events[0]));
      TicksReach(Step(s, events[0]), events[1..]);
    }
  }
}
