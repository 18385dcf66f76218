/** Messages are sent in the order in which they were appended, without gaps. */
module Order {
  import opened Wrappers
  import opened Store
  import opened Pump
  import opened Delivery
  import Trace

  /** The last message call of some calls. */
  ghost function LastMessage(calls: seq<Call>): (last: Option<Call>)
    ensures last.Some? ==> last.value in calls && last.value.request.Message?
  {
    if |calls| == 0 then None
    else if calls[|calls| - 1].request.Message? then Some(calls[|calls| - 1])
    else LastMessage(calls[..|calls| - 1])
  }

  /** A message call continues where the one before left off: within an epoch it repeats a message
      that failed or takes the next one; it starts a later epoch at offset 0; and the first one of
      a process starts where the process found the saved cursor. */
  ghost predicate Continues(start: Id, prior: Option<Call>, c: Call)
    requires c.request.Message? && (prior.Some? ==> prior.value.request.Message?)
  {
    match prior
    case None => c.request.offset == if c.epoch == start.epoch then start.offset else 0
    case Some(p) =>
      if p.epoch == c.epoch
      then c.request.offset == p.request.offset + 1 || (c.request.offset == p.request.offset && !p.ok)
      else p.epoch < c.epoch && c.request.offset == 0
  }

  /** Every message call continues the calls before it. */
  ghost predicate InOrder(s: Sys) {
    forall j :: 0 <= j < |s.calls| && s.calls[j].request.Message? ==>
      Continues(s.start, LastMessage(s.calls[..j]), s.calls[j])
  }

  /** A call carries what was appended at its offset. */
  ghost predicate CarriesMessage(s: Sys, c: Call)
    requires c.request.Message?
  {
    IsMessage(s, Id(c.epoch, c.request.offset)) && c.request.payload == MessageAt(s, Id(c.epoch, c.request.offset))
  }

  /** All message calls, of earlier processes too, carry what was appended. */
  ghost predicate AllCarry(s: Sys) {
    forall c :: (c in s.past || c in s.calls) && c.request.Message? ==> CarriesMessage(s, c)
  }

  /** The cursor stands at the last message sent in this epoch, or behind it. (With a negative limit
      nothing is sent.) */
  ghost predicate CursorFits(s: Sys) {
    s.cfg.maxRetries >= 0 ==>
    && s.start.epoch <= Epoch(s)
    && match LastMessage(s.calls)
       case None =>
         && s.store.cur.consumed == (if s.start.epoch == Epoch(s) then s.start.offset else 0)
         && !AboutMessage(s.pc)
       case Some(c) =>
         && s.start.epoch <= c.epoch <= Epoch(s)
         && (c.epoch < Epoch(s) ==> s.store.cur.consumed == 0 && !AboutMessage(s.pc))
         && (c.epoch == Epoch(s) ==>
               || (s.store.cur.consumed == c.request.offset + 1 && !AboutMessage(s.pc))
               || (s.store.cur.consumed == c.request.offset && (!c.ok || s.pc.AtMark?)))
  }

  /** The message at the cursor has been sent. */
  predicate AboutMessage(pc: Pc) {
    pc.AtBackoff? || pc.AtMark? || pc.AtDeadWrite? || pc.AtDeadSave? || (pc.AtSend? && pc.attempt > 0)
  }

  /** A snapshot handed over ends its epoch: no message call follows in it. */
  ghost predicate RetainsClose(s: Sys) {
    && (forall i :: 0 <= i < |s.calls| ==> s.calls[i].epoch <= Epoch(s))
    && (forall i, j :: 0 <= i < j < |s.calls| ==> s.calls[i].epoch <= s.calls[j].epoch)
    && (forall i :: 0 <= i < |s.calls| && s.calls[i].request.Retain? && s.calls[i].epoch == Epoch(s) ==>
          s.pc.AtTruncate? || s.pc.Returned?)
    && (forall i, j :: 0 <= i < j < |s.calls| && s.calls[i].request.Retain? && s.calls[j].request.Message? ==>
          s.calls[i].epoch < s.calls[j].epoch)
  }

  lemma LastMessageAppend(calls: seq<Call>, c: Call)
    ensures LastMessage(calls + [c]) == if c.request.Message? then Some(c) else LastMessage(calls)
  {
    assert (calls + [c])[..|calls|] == calls;
  }

  lemma EffectCursorFits(s: Sys, e: Event, r: Sys)
    requires Inv(s) && Effect(s, e, r) && CursorFits(s)
    ensures CursorFits(r)
  {
    hide MovesLegally, LastMessage, Valid, Looked, Checks;
    if RequestOf(s.pc).Some? {
      LastMessageAppend(s.calls, Call(s.reqId + 1, RequestOf(s.pc).value, e.ok, Epoch(s)));
    } else {
      assert r.calls == s.calls;
    }
  }

  lemma EffectInOrder(s: Sys, e: Event, r: Sys)
    requires Inv(s) && Effect(s, e, r) && CursorFits(s) && InOrder(s)
    ensures InOrder(r)
  {
    hide Inv, MovesLegally, LastMessage, Follows, Continues, Valid, Stores, Checks;
    forall j | 0 <= j < |r.calls| && r.calls[j].request.Message?
      ensures Continues(r.start, LastMessage(r.calls[..j]), r.calls[j])
    {
      assert r.calls[..j] == s.calls[..j];
      if j < |s.calls| {
        assert s.calls[j] == r.calls[j];
      } else {
        assert s.calls[..j] == s.calls;
        NextContinues(s, r.calls[j]);
      }
    }
  }

  lemma NextContinues(s: Sys, c: Call)
    requires Inv(s) && CursorFits(s) && s.pc.AtSend?
    requires c.request == Message(s.pc.offset, s.pc.payload) && c.epoch == Epoch(s)
    ensures Continues(s.start, LastMessage(s.calls), c)
  {
    hide LastMessage, Valid;
  }

  lemma EffectRetainsClose(s: Sys, e: Event, r: Sys)
    requires Inv(s) && Effect(s, e, r) && RetainsClose(s)
    ensures RetainsClose(r)
  {
    hide MovesLegally, PcFits, Valid, Looked, Checks;
    if RequestOf(s.pc).None? {
      assert r.calls == s.calls;
    }
  }

  ghost predicate Ordered(s: Sys) {
    CursorFits(s) && InOrder(s) && RetainsClose(s)
  }

  lemma WorldOrdered(s: Sys, e: Event)
    requires Inv(s) && Ordered(s)
    ensures Ordered(World(s, e))
  {
    hide LastMessage, Continues, PcFits, Valid, Grow;
  }

  lemma RestartOrdered(s: Sys, cfg: Config)
    requires Inv(s)
    ensures Ordered(Restart(s, cfg))
  {
    hide Valid, PcFits;
  }

  lemma {:induction false} RunOrdered(run: seq<Sys>, actions: seq<Action>, n: nat)
    requires IsRun(run, actions) && n <= |actions|
    ensures Ordered(run[n])
  {
    hide Step, World, Restart, Inv, Effect, CursorFits, InOrder, RetainsClose;
    if n == 0 {
      InitialOrdered(run[0].cfg);
    } else {
      var s := run[n - 1];
      RunOrdered(run, actions, n - 1);
      assert run[n] == Act(run[n - 1], actions[n - 1]);
      match actions[n - 1]
      case Tick(e) =>
        var w, r := World(s, e), Step(s, e);
        WorldOrdered(s, e);
        EffectCursorFits(w, e, r);
        EffectInOrder(w, e, r);
        EffectRetainsClose(w, e, r);
      case Restarted(cfg) =>
        RestartOrdered(s, cfg);
    }
  }

  lemma ReachableOrdered(s: Sys)
    requires Reachable(s)
    ensures InOrder(s) && RetainsClose(s)
  {
    hide InOrder, RetainsClose, CursorFits, Act, Inv;
    var run, actions :| IsRun(run, actions) && run[|actions|] == s;
    RunOrdered(run, actions, |actions|);
  }

  lemma InitialOrdered(cfg: Config)
    ensures Ordered(Initial(cfg))
  {
  }

  // ---------- what the calls carry ----------

  lemma WorldCarries(s: Sys, e: Event)
    requires Inv(s) && AllCarry(s)
    ensures AllCarry(World(s, e))
  {
    hide Grow, PcFits, Valid, Handled, Retained;
    var w := World(s, e);
    forall c | (c in w.past || c in w.calls) && c.request.Message?
      ensures CarriesMessage(w, c)
    {
      assert CarriesMessage(s, c);
      WorldHandled(s, e, Id(c.epoch, c.request.offset));
    }
  }

  lemma EffectCarries(s: Sys, e: Event, r: Sys)
    requires Inv(s) && Effect(s, e, r) && AllCarry(s) && Faithful(s.store)
    ensures AllCarry(r)
  {
    hide Follows, MovesLegally, Stores, Checks, Valid, PcFits, Handled, Retained, Records;
    AddedCall(s, e, r);
    ViewBounded(s.store);
    SamePast(s, e, r);
    forall c | (c in r.past || c in r.calls) && c.request.Message?
      ensures CarriesMessage(r, c)
    {
      var id := Id(c.epoch, c.request.offset);
      assert c in s.past || c in s.calls ==> CarriesMessage(s, c);
      EffectHandled(s, e, r, id);
    }
  }

  lemma SamePast(s: Sys, e: Event, r: Sys)
    requires Records(s, e, r)
    ensures r.past == s.past
  {
  }

  lemma RestartCarries(s: Sys, cfg: Config)
    requires Inv(s) && AllCarry(s)
    ensures AllCarry(Restart(s, cfg))
  {
    hide PcFits, Valid, Handled, Retained;
    var r := Restart(s, cfg);
    forall c | (c in r.past || c in r.calls) && c.request.Message?
      ensures CarriesMessage(r, c)
    {
      assert CarriesMessage(s, c);
      RestartHandled(s, cfg, Id(c.epoch, c.request.offset));
    }
  }

  lemma {:induction false} RunCarries(run: seq<Sys>, actions: seq<Action>, n: nat)
    requires IsRun(run, actions) && n <= |actions| && LooksSafe(run, actions, n)
    ensures AllCarry(run[n])
  {
    hide Step, World, Restart, Inv, Effect, AllCarry, LooksUnsafely, Faithful;
    if n == 0 {
      NothingSentYet(run[0]);
    } else {
      var s := run[n - 1];
      RunCarries(run, actions, n - 1);
      RunFaithful(run, actions, n - 1);
      assert run[n] == Act(run[n - 1], actions[n - 1]);
      match actions[n - 1]
      case Tick(e) =>
        WorldCarries(s, e);
        WorldFaithful(s, e);
        EffectCarries(World(s, e), e, Step(s, e));
      case Restarted(cfg) =>
        RestartCarries(s, cfg);
    }
  }

  lemma NothingSentYet(s: Sys)
    requires s.past == s.calls == []
    ensures AllCarry(s)
  {
  }

  /** If every look of a run is safe, every message call carries what was appended at its offset. */
  lemma CallsCarryMessages(run: seq<Sys>, actions: seq<Action>, n: nat, c: Call)
    requires IsRun(run, actions) && n <= |actions| && LooksSafe(run, actions, n)
    requires (c in run[n].past || c in run[n].calls) && c.request.Message?
    ensures var id := Id(c.epoch, c.request.offset);
            IsMessage(run[n], id) && c.request.payload == MessageAt(run[n], id)
  {
    hide Act, Inv, LooksSafe;
    RunCarries(run, actions, n);
    assert CarriesMessage(run[n], c);
  }

  // ---------- what a reader of the calls can rely on ----------

  lemma {:induction false} OffsetsRise(s: Sys, i: nat, j: nat)
    requires InOrder(s) && RetainsClose(s) && i < j < |s.calls|
    requires s.calls[i].request.Message? && s.calls[j].request.Message? && s.calls[i].epoch == s.calls[j].epoch
    ensures s.calls[i].request.offset <= s.calls[j].request.offset
    decreases j
  {
    hide LastMessage, InOrder, RetainsClose;
    var k := LastMessageBetween(s.calls, i, j);
    CallEpochsRise(s, i, k, j);
    ContinuesAt(s, j);
    if i < k {
      OffsetsRise(s, i, k);
    }
  }

  lemma CallEpochsRise(s: Sys, i: nat, k: nat, j: nat)
    requires RetainsClose(s) && i <= k <= j < |s.calls|
    ensures s.calls[i].epoch <= s.calls[k].epoch <= s.calls[j].epoch
  {
  }

  lemma ContinuesAt(s: Sys, j: nat)
    requires InOrder(s) && j < |s.calls| && s.calls[j].request.Message?
    ensures Continues(s.start, LastMessage(s.calls[..j]), s.calls[j])
  {
  }

  lemma {:induction false} LastMessageBetween(calls: seq<Call>, i: nat, j: nat) returns (k: nat)
    requires i < j <= |calls| && calls[i].request.Message?
    ensures i <= k < j && calls[k].request.Message? && LastMessage(calls[..j]) == Some(calls[k])
    decreases j
  {
    var front := calls[..j];
    if front[j - 1].request.Message? {
      k := j - 1;
    } else {
      k := LastMessageBetween(calls, i, j - 1);
      assert front[..j - 1] == calls[..j - 1];
    }
  }

  /** The last message call before j, if none comes in between. */
  lemma {:induction false} LastBefore(calls: seq<Call>, i: int, j: nat)
    requires -1 <= i < j <= |calls| && forall k :: i < k < j ==> !calls[k].request.Message?
    requires i >= 0 ==> calls[i].request.Message?
    ensures LastMessage(calls[..j]) == if i >= 0 then Some(calls[i]) else None
    decreases j
  {
    var front := calls[..j];
    if j > 0 {
      assert front[..j - 1] == calls[..j - 1];
      if i < j - 1 {
        LastBefore(calls, i, j - 1);
      }
    }
  }

  /** The first message call of a process is for the offset at the cursor it found saved, or after a
      truncation for offset 0. */
  lemma FirstCallStarts(s: Sys, j: nat)
    requires Reachable(s)
    requires j < |s.calls| && s.calls[j].request.Message?
    requires forall k :: 0 <= k < j ==> !s.calls[k].request.Message?
    ensures s.calls[j].request.offset == if s.calls[j].epoch == s.start.epoch then s.start.offset else 0
  {
    hide LastMessage, Reachable, RetainsClose;
    ReachableOrdered(s);
    LastBefore(s.calls, -1, j);
  }

  /** From one message call of a process to its next: in the same epoch the next offset follows, or
      the same one again if the call failed; after a truncation offset 0. */
  lemma NextCallContinues(s: Sys, i: nat, j: nat)
    requires Reachable(s)
    requires i < j < |s.calls| && s.calls[i].request.Message? && s.calls[j].request.Message?
    requires forall k :: i < k < j ==> !s.calls[k].request.Message?
    ensures var a, b := s.calls[i], s.calls[j];
            if a.epoch == b.epoch
            then b.request.offset == a.request.offset + 1 || (b.request.offset == a.request.offset && !a.ok)
            else a.epoch < b.epoch && b.request.offset == 0
  {
    hide LastMessage, Reachable, RetainsClose;
    ReachableOrdered(s);
    LastBefore(s.calls, i, j);
  }

  /** Without a restart, the message calls of one epoch go up in offset, and the attempts for one
      message are contiguous: no other call comes between two message calls of an epoch. */
  lemma StrictOrder(s: Sys, i: nat, k: nat, j: nat)
    requires Reachable(s)
    requires i < k < j < |s.calls| && s.calls[i].request.Message? && s.calls[j].request.Message?
    requires s.calls[i].epoch == s.calls[j].epoch
    ensures s.calls[k].request.Message? && s.calls[k].epoch == s.calls[i].epoch
    ensures s.calls[i].request.offset <= s.calls[k].request.offset <= s.calls[j].request.offset
  {
    hide LastMessage, Inv, InOrder, Act, Reachable;
    ReachableOrdered(s);
    Trace.ReachableCallsFit(s);
    CallEpochsRise(s, i, k, j);
    assert s.calls[k].request.Message?;
    OffsetsRise(s, i, k);
    OffsetsRise(s, k, j);
  }

  /** Between two message calls of an epoch there are only message calls of it, and offsets do not go
      down. */
  ghost predicate Contiguous(calls: seq<Call>) {
    forall i, k, j :: 0 <= i < k < j < |calls| && calls[i].request.Message? && calls[j].request.Message?
                      && calls[i].epoch == calls[j].epoch ==>
      && calls[k].request.Message? && calls[k].epoch == calls[i].epoch
      && calls[i].request.offset <= calls[k].request.offset <= calls[j].request.offset
  }

  lemma CallsContiguous(s: Sys)
    requires Reachable(s)
    ensures Contiguous(s.calls)
  {
    hide Reachable;
    forall i, k, j | 0 <= i < k < j < |s.calls| && s.calls[i].request.Message? && s.calls[j].request.Message?
                     && s.calls[i].epoch == s.calls[j].epoch
      ensures s.calls[k].request.Message? && s.calls[k].epoch == s.calls[i].epoch
      ensures s.calls[i].request.offset <= s.calls[k].request.offset <= s.calls[j].request.offset
    {
      StrictOrder(s, i, k, j);
    }
  }
}
