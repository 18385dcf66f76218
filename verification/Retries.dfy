/** How often a message is tried, when it is dead-lettered, and that the pump drains the store. */
module Retries {
  import opened Store
  import opened Pump

  predicate Sends(c: Call, id: Id) {
    c.request.Message? && c.epoch == id.epoch && c.request.offset == id.offset
  }

  /** How many calls carried a message, and how many of them failed. */
  function Attempts(calls: seq<Call>, id: Id): nat {
    if |calls| == 0 then 0
    else Attempts(calls[..|calls| - 1], id) + if Sends(calls[|calls| - 1], id) then 1 else 0
  }

  function Failures(calls: seq<Call>, id: Id): nat {
    if |calls| == 0 then 0
    else Failures(calls[..|calls| - 1], id) + if Sends(calls[|calls| - 1], id) && !calls[|calls| - 1].ok then 1 else 0
  }

  lemma CountAppend(calls: seq<Call>, c: Call, id: Id)
    ensures Attempts(calls + [c], id) == Attempts(calls, id) + if Sends(c, id) then 1 else 0
    ensures Failures(calls + [c], id) == Failures(calls, id) + if Sends(c, id) && !c.ok then 1 else 0
  {
    assert (calls + [c])[..|calls|] == calls;
  }

  /** How often a process tries a message. */
  function Tries(cfg: Config): nat {
    if cfg.maxRetries < 0 then 0 else cfg.maxRetries + 1
  }

  /** The message at the cursor. */
  function AtCursor(s: Sys): Id {
    Id(Epoch(s), s.store.cur.consumed)
  }

  ghost predicate TriedInVain(s: Sys, n: int) {
    Attempts(s.calls, AtCursor(s)) == Failures(s.calls, AtCursor(s)) == n
  }

  /** The message at the cursor has been tried as often as the retry loop says, each time in vain
      unless its result is being saved; messages beyond it have not been tried. */
  ghost predicate Tried(s: Sys) {
    && (forall id: Id :: id.epoch > Epoch(s) || (id.epoch == Epoch(s) && id.offset > s.store.cur.consumed) ==>
          Attempts(s.calls, id) == 0)
    && match s.pc
       case AtSend(_, _, n) => TriedInVain(s, n)
       case AtBackoff(_, _, n) => TriedInVain(s, n)
       case AtDeadWrite(_, _) => TriedInVain(s, Tries(s.cfg))
       case AtDeadSave(_) => TriedInVain(s, Tries(s.cfg))
       case AtHead => s.stop || Attempts(s.calls, AtCursor(s)) == 0
       case AtWait => Attempts(s.calls, AtCursor(s)) == 0
       case AtMarkPost(_) => Attempts(s.calls, AtCursor(s)) == 0
       case AtSnapshot(idle) => (!idle && s.stop) || Attempts(s.calls, AtCursor(s)) == 0
       case AtRetain(_, idle) => (!idle && s.stop) || Attempts(s.calls, AtCursor(s)) == 0
       case AtTruncate(_, idle) => (!idle && s.stop) || Attempts(s.calls, AtCursor(s)) == 0
       case AtStart => s.calls == []
       case _ => true
  }

  /** No message is tried more often than allowed, and what this process has dead-lettered it has
      tried exactly that often, always in vain. */
  ghost predicate RetriesFit(s: Sys) {
    && (forall id: Id :: Attempts(s.calls, id) <= Tries(s.cfg))
    && s.startDead <= |s.deadIds|
    && (forall i :: s.startDead <= i < |s.deadIds| ==>
          Attempts(s.calls, s.deadIds[i]) == Failures(s.calls, s.deadIds[i]) == Tries(s.cfg))
  }

  lemma CallsOfEffect(s: Sys, e: Event, r: Sys, id: Id)
    requires Records(s, e, r)
    ensures Attempts(r.calls, id) ==
            Attempts(s.calls, id) + if s.pc.AtSend? && id == Id(Epoch(s), s.pc.offset) then 1 else 0
    ensures Failures(r.calls, id) ==
            Failures(s.calls, id) + if s.pc.AtSend? && id == Id(Epoch(s), s.pc.offset) && !e.ok then 1 else 0
  {
    if RequestOf(s.pc).Some? {
      CountAppend(s.calls, Call(s.reqId + 1, RequestOf(s.pc).value, e.ok, Epoch(s)), id);
    } else {
      assert r.calls == s.calls;
    }
  }

  lemma {:induction false} FailuresAreAttempts(calls: seq<Call>, id: Id)
    ensures Failures(calls, id) <= Attempts(calls, id)
  {
    if |calls| > 0 {
      FailuresAreAttempts(calls[..|calls| - 1], id);
    }
  }

  lemma EffectTried(s: Sys, e: Event, r: Sys)
    requires Inv(s) && Effect(s, e, r) && Tried(s)
    ensures Tried(r)
  {
    hide MovesLegally, Attempts, Failures, RequestOf, Valid, Looked, Snapshot;
    FailuresAreAttempts(s.calls, AtCursor(s));
    NoCallsNoAttempts(AtCursor(s));
    forall id: Id
      ensures Attempts(r.calls, id) ==
              Attempts(s.calls, id) + if s.pc.AtSend? && id == Id(Epoch(s), s.pc.offset) then 1 else 0
      ensures Failures(r.calls, id) ==
              Failures(s.calls, id) + if s.pc.AtSend? && id == Id(Epoch(s), s.pc.offset) && !e.ok then 1 else 0
    {
      CallsOfEffect(s, e, r, id);
    }
  }

  lemma EffectRetriesFit(s: Sys, e: Event, r: Sys)
    requires Inv(s) && Effect(s, e, r) && Tried(s) && RetriesFit(s)
    ensures RetriesFit(r)
  {
    hide MovesLegally, Follows, Attempts, Failures, RequestOf, Valid, Looked, Stores;
    forall id: Id
      ensures Attempts(r.calls, id) <= Tries(s.cfg)
    {
      CallsOfEffect(s, e, r, id);
    }
    forall i | r.startDead <= i < |r.deadIds|
      ensures Attempts(r.calls, r.deadIds[i]) == Failures(r.calls, r.deadIds[i]) == Tries(s.cfg)
    {
      CallsOfEffect(s, e, r, r.deadIds[i]);
      if i < |s.deadIds| {
        assert r.deadIds[i] == s.deadIds[i];
        assert Attempts(s.calls, r.deadIds[i]) == Tries(s.cfg);
      } else {
        assert r.deadIds[i] == AtCursor(s);
      }
    }
  }

  lemma NoCallsNoAttempts(id: Id)
    ensures Attempts([], id) == 0 && Failures([], id) == 0
  {
  }

  lemma WorldTried(s: Sys, e: Event)
    requires Inv(s) && Tried(s) && RetriesFit(s)
    ensures Tried(World(s, e)) && RetriesFit(World(s, e))
  {
    hide Attempts, Failures, Grow, Valid, PcFits;
  }

  lemma RestartTried(s: Sys, cfg: Config)
    requires Inv(s)
    ensures Tried(Restart(s, cfg)) && RetriesFit(Restart(s, cfg))
  {
    hide Attempts, Failures, Valid, PcFits;
    forall id: Id {
      NoCallsNoAttempts(id);
    }
  }

  lemma {:induction false} RunTried(run: seq<Sys>, actions: seq<Action>, n: nat)
    requires IsRun(run, actions) && n <= |actions|
    ensures Tried(run[n]) && RetriesFit(run[n])
  {
    hide Step, Inv, Effect, Tried, RetriesFit, World, Restart;
    if n == 0 {
      InitialTried(run[0].cfg);
    } else {
      var s := run[n - 1];
      RunTried(run, actions, n - 1);
      assert run[n] == Act(run[n - 1], actions[n - 1]);
      match actions[n - 1]
      case Tick(e) =>
        var w, r := World(s, e), Step(s, e);
        WorldTried(s, e);
        EffectTried(w, e, r);
        EffectRetriesFit(w, e, r);
      case Restarted(cfg) =>
        RestartTried(s, cfg);
    }
  }

  lemma InitialTried(cfg: Config)
    ensures Tried(Initial(cfg)) && RetriesFit(Initial(cfg))
  {
    forall id: Id {
      NoCallsNoAttempts(id);
    }
  }

  /** In every run a process sends no message more than MaxRetries + 1 times, and every message it
      writes to the dead letter file it has sent exactly so often, each time without a result. With a
      negative MaxRetries that is: never. (The configuration's zero stands for three.) */
  lemma DeadOnlyAfterRetries(s: Sys)
    requires Reachable(s)
    ensures s.startDead <= |s.deadIds| && forall id: Id :: Attempts(s.calls, id) <= Tries(s.cfg)
    ensures forall i :: s.startDead <= i < |s.deadIds| ==>
              Attempts(s.calls, s.deadIds[i]) == Failures(s.calls, s.deadIds[i]) == Tries(s.cfg)
  {
    hide Act, Inv, Attempts, Failures, Tried;
    var run, actions :| IsRun(run, actions) && run[|actions|] == s;
    RunTried(run, actions, |actions|);
  }

  lemma {:induction false} NoAttemptsNotSent(calls: seq<Call>, c: Call)
    requires c in calls && c.request.Message?
    ensures Attempts(calls, Id(c.epoch, c.request.offset)) > 0
  {
    if c != calls[|calls| - 1] {
      NoAttemptsNotSent(calls[..|calls| - 1], c);
    }
  }

  /** With a negative MaxRetries the retry loop is never entered: no message is ever sent. */
  lemma NegativeRetriesNeverSend(s: Sys, c: Call)
    requires Reachable(s) && s.cfg.maxRetries < 0 && c in s.calls
    ensures !c.request.Message?
  {
    hide Reachable, Attempts, Failures;
    DeadOnlyAfterRetries(s);
    if c.request.Message? {
      NoAttemptsNotSent(s.calls, c);
    }
  }
}
