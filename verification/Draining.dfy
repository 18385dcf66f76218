/** Left alone, the pump drains the store or panics, and what it drains was handled or retained; asked
    to stop, it returns. */
module Draining {
  import opened Store
  import opened Pump
  import opened Senders
  import opened Delivery
  import opened Ledger
  import opened Conservation

  /** Retries that the loop can make. */
  function Retried(cfg: Config): nat {
    if cfg.maxRetries < 0 then 0 else cfg.maxRetries
  }

  /** The steps that one message can take: read, sends and backoffs, then marking or dead-lettering,
      then a retention. */
  function StepsPerMessage(cfg: Config): nat {
    2 * Retried(cfg) + 7
  }

  function Undelivered(s: Sys): nat {
    if s.store.cur.consumed < |s.store.msgs| then |s.store.msgs| - s.store.cur.consumed else 0
  }

  /** How far the process is within the current message. */
  function Phase(cfg: Config, pc: Pc): int {
    match pc
    case AtStart => 1
    case AtHead => 0
    case AtWait => 1
    case AtSend(_, _, n) => -1 - 2 * n
    case AtBackoff(_, _, n) => -2 * n
    case AtMark(_, _) => -2 * Retried(cfg) - 2
    case AtDeadWrite(_, _) => -2 * Retried(cfg) - 2
    case AtDeadSave(_) => -2 * Retried(cfg) - 3
    case AtMarkPost(_) => 4
    case AtSnapshot(_) => 3
    case AtRetain(_, _) => 2
    case AtTruncate(_, _) => 1
    case AtShutdown => 0
    case Returned(_) => 0
    case Panicked => 0
  }

  /** A bound on the steps that are left until there is no message to deliver. */
  function StepsLeft(s: Sys): int {
    Undelivered(s) * StepsPerMessage(s.cfg) + Phase(s.cfg, s.pc)
  }

  /** No message is appended, no stop requested, and only the neb fails, and only messages. */
  ghost predicate Quiet(s: Sys, e: Event) {
    e.sends == [] && !e.stop && (e.ok || s.pc.AtSend?)
  }

  ghost predicate Pumping(s: Sys) {
    !s.stop && !s.pc.AtShutdown? && !s.pc.Returned? && !s.pc.Panicked?
  }

  /** The store has answered rightly, and a look would be safe. */
  ghost predicate SeesAll(s: Store)
    requires Valid(s)
  {
    Faithful(s) && Safe(s)
  }

  /** From state i to state n of a run it is quiet, and there is no restart. */
  ghost predicate QuietFrom(run: seq<Sys>, actions: seq<Action>, i: nat, n: nat)
    requires IsRun(run, actions) && i <= n <= |actions|
  {
    forall k {:trigger actions[k]} :: i <= k < n ==> actions[k].Tick? && Quiet(run[k], actions[k].event)
  }

  lemma QuietWorld(s: Sys, e: Event)
    requires Inv(s) && Quiet(s, e)
    ensures World(s, e) == s
    ensures Effect(s, e, Step(s, e))
  {
    hide Step, Effect, Grow, Valid;
  }

  lemma OneFewer(d: nat, k: nat)
    requires d > 0
    ensures d * k == (d - 1) * k + k
  {
  }

  /** What a safe look of a store that has been answered rightly finds. */
  lemma SafeLook(s: Store)
    requires Valid(s) && Faithful(s) && Safe(s) && s.cur.consumed <= s.known
    ensures var r := Looked(s);
            && Faithful(r) && Safe(r)
            && Answered(r) == if s.cur.consumed < |s.msgs|
                    then Next(s.cur.consumed, s.msgs[s.cur.consumed]) else Nothing
  {
    LookedFaithful(s);
  }

  lemma StaysPumping(s: Sys, e: Event, r: Sys)
    requires Inv(s) && Inv(r) && Effect(s, e, r) && Pumping(s) && Quiet(s, e)
    ensures Pumping(r) || (r.pc.Panicked? && !SeesAll(s.store))
    ensures SeesAll(s.store) ==> SeesAll(r.store)
  {
    hide MovesLegally, PcFits, Checks, Valid, Looked, Records, Answered;
    if SeesAll(s.store) {
      SafeLook(s.store);
    }
    assert r.stop == s.stop by {
      SameStop(s, e, r);
    }
  }

  lemma SameStop(s: Sys, e: Event, r: Sys)
    requires Records(s, e, r)
    ensures r.stop == s.stop && r.cfg == s.cfg
  {
  }

  lemma NothingFound(s: Store)
    requires Valid(s) && Answered(Looked(s)).Nothing?
    ensures s.cur.consumed >= |s.msgs|
  {
  }

  /** Either the phase gets smaller, or a message is done, or the log is truncated, or the process has
      panicked. */
  lemma PhaseShrinks(s: Sys, e: Event, r: Sys)
    requires Inv(s) && Effect(s, e, r) && Pumping(s) && Quiet(s, e) && Undelivered(s) > 0
    ensures || (Undelivered(r) == Undelivered(s) && Phase(s.cfg, r.pc) < Phase(s.cfg, s.pc))
            || (Undelivered(r) == Undelivered(s) - 1
                    && Phase(s.cfg, r.pc) < Phase(s.cfg, s.pc) + StepsPerMessage(s.cfg))
            || Undelivered(r) == 0
            || r.pc.Panicked?
  {
    hide MovesLegally, Records, Valid, Looked, Answered, Checks;
    if Answered(Looked(s.store)).Nothing? {
      NothingFound(s.store);
    }
  }

  lemma StepsLeftShrink(s: Sys, e: Event)
    requires Inv(s) && Pumping(s) && Quiet(s, e) && Undelivered(s) > 0
    ensures var r := Step(s, e); r.pc.Panicked? || (Pumping(r) && (Undelivered(r) > 0 ==> StepsLeft(r) < StepsLeft(s)))
  {
    hide Step, Inv, Effect, Phase, StepsPerMessage, Undelivered, Quiet, Pumping, SeesAll;
    QuietWorld(s, e);
    StaysPumping(s, e, Step(s, e));
    PhaseShrinks(s, e, Step(s, e));
    SameConfig(s, e, Step(s, e));
    OneFewer(Undelivered(s), StepsPerMessage(s.cfg));
  }

  lemma SameConfig(s: Sys, e: Event, r: Sys)
    requires Valid(s.store) && Effect(s, e, r)
    ensures r.cfg == s.cfg
  {
    hide Follows, MovesLegally, Stores, Checks;
  }

  lemma DrainedStays(s: Sys, e: Event)
    requires Inv(s) && Pumping(s) && Quiet(s, e) && Undelivered(s) == 0
    ensures Pumping(Step(s, e)) && Undelivered(Step(s, e)) == 0
  {
    hide Step, MovesLegally, RequestOf, Records, Checks, Valid, Looked, PcFits, SeesAll;
    QuietWorld(s, e);
    NoPanic(s.store);
    StaysPumping(s, e, Step(s, e));
  }

  lemma NoPanic(s: Store)
    requires Valid(s) && s.cur.consumed >= |s.msgs|
    ensures !Answered(Looked(s)).Panic?
  {
  }

  lemma PanicStays(s: Sys, e: Event)
    requires Inv(s) && s.pc.Panicked?
    ensures Step(s, e).pc.Panicked?
  {
    hide Grow, Landing, Accepting, After;
  }

  /** Left alone, the pump has no message left to deliver after StepsLeft steps, even if the neb fails
      every message, and then the depth is 0, or it has panicked. */
  lemma {:induction false} DrainsOrPanics(run: seq<Sys>, actions: seq<Action>, i: nat, n: nat)
    requires IsRun(run, actions) && i <= n <= |actions| && QuietFrom(run, actions, i, n)
    requires Pumping(run[i]) && n - i >= StepsLeft(run[i])
    ensures (Undelivered(run[n]) == 0 && Depth(run[n].store) == 0) || run[n].pc.Panicked?
    decreases n - i
  {
    hide Act, Step, Inv, StepsLeft, Quiet, Undelivered, Pumping;
    var s := run[i];
    RunFits(run, actions, i);
    if i == n {
      if Undelivered(s) > 0 {
        StepsLeftPositive(s);
      }
      DrainedDepth(s);
    } else {
      RunFits(run, actions, i + 1);
      QuietStep(run, actions, i, n);
      var r := run[i + 1];
      if Undelivered(s) > 0 {
        StepsLeftShrink(s, actions[i].event);
      } else {
        DrainedStays(s, actions[i].event);
      }
      if r.pc.Panicked? {
        StaysPanicked(run, actions, i + 1, n);
      } else if Undelivered(r) > 0 {
        DrainsOrPanics(run, actions, i + 1, n);
      } else {
        StaysDrained(run, actions, i + 1, n);
      }
    }
  }

  lemma {:induction false} StaysPanicked(run: seq<Sys>, actions: seq<Action>, i: nat, n: nat)
    requires IsRun(run, actions) && i <= n <= |actions| && QuietFrom(run, actions, i, n) && run[i].pc.Panicked?
    ensures run[n].pc.Panicked?
    decreases n - i
  {
    hide Act, Step, Inv, Quiet;
    if i < n {
      QuietStep(run, actions, i, n);
      PanicStays(run[i], actions[i].event);
      StaysPanicked(run, actions, i + 1, n);
    }
  }

  /** If it has been answered rightly and a look would be safe, it does not panic. */
  lemma Drains(run: seq<Sys>, actions: seq<Action>, i: nat, n: nat)
    requires IsRun(run, actions) && i <= n <= |actions| && QuietFrom(run, actions, i, n)
    requires Valid(run[i].store) && Pumping(run[i]) && SeesAll(run[i].store) && n - i >= StepsLeft(run[i])
    ensures Undelivered(run[n]) == 0 && Depth(run[n].store) == 0 && Pumping(run[n])
  {
    hide Act, Inv, Undelivered, StepsLeft, Valid, SeesAll;
    DrainsOrPanics(run, actions, i, n);
    StillPumps(run, actions, i, n);
  }

  lemma StepValid(s: Sys)
    requires Inv(s)
    ensures Valid(s.store)
  {
  }

  lemma QuietStep(run: seq<Sys>, actions: seq<Action>, i: nat, n: nat)
    requires IsRun(run, actions) && i < n <= |actions| && QuietFrom(run, actions, i, n)
    ensures Inv(run[i]) && actions[i].Tick? && Quiet(run[i], actions[i].event)
    ensures run[i + 1] == Step(run[i], actions[i].event) && QuietFrom(run, actions, i + 1, n)
  {
    hide Step, Inv, Quiet;
    assert run[i + 1] == Act(run[i], actions[i]);
  }

  lemma StepsLeftPositive(s: Sys)
    requires Inv(s) && Undelivered(s) > 0
    ensures StepsLeft(s) > 0
  {
    hide Inv, Phase, StepsPerMessage, Undelivered;
    PhaseBounded(s);
    OneFewer(Undelivered(s), StepsPerMessage(s.cfg));
    NoFewerThanNone(Undelivered(s) - 1, StepsPerMessage(s.cfg));
  }

  lemma PhaseBounded(s: Sys)
    requires Inv(s)
    ensures Phase(s.cfg, s.pc) + StepsPerMessage(s.cfg) > 0
  {
    hide Valid;
  }

  lemma NoFewerThanNone(d: nat, k: nat)
    ensures d * k >= 0
  {
  }

  lemma DrainedDepth(s: Sys)
    requires Inv(s) && Undelivered(s) == 0
    ensures Depth(s.store) == 0
  {
    hide Valid, PcFits;
    ViewBounded(s.store);
  }

  lemma {:induction false} StaysDrained(run: seq<Sys>, actions: seq<Action>, i: nat, n: nat)
    requires IsRun(run, actions) && i <= n <= |actions| && QuietFrom(run, actions, i, n)
    requires Pumping(run[i]) && Undelivered(run[i]) == 0
    ensures Undelivered(run[n]) == 0 && Depth(run[n].store) == 0
    decreases n - i
  {
    hide Act, Step, Inv, Quiet, Undelivered, Pumping;
    RunFits(run, actions, i);
    DrainedDepth(run[i]);
    if i < n {
      QuietStep(run, actions, i, n);
      RunFits(run, actions, i + 1);
      DrainedStays(run[i], actions[i].event);
      StaysDrained(run, actions, i + 1, n);
    }
  }

  // ---------- what becomes of the messages ----------

  /** Every segment is known, and a snapshot that is on its way holds every message. */
  ghost predicate AllKnown(s: Sys) {
    && s.store.segs == |s.store.bases|
    && (s.pc.AtRetain? || s.pc.AtTruncate? ==> |s.pc.snapshot| == |s.store.msgs|)
  }

  lemma StaysKnown(s: Sys, e: Event)
    requires Inv(s) && Quiet(s, e) && AllKnown(s)
    ensures AllKnown(Step(s, e)) && !Loses(s, Tick(e)) && !LooksUnsafely(s, Tick(e))
  {
    hide Step, MovesLegally, Records, Checks, Valid, PcFits, Looked;
    QuietWorld(s, e);
    SnapshotHoldsKnown(s.store);
    LookedAtAll(s.store);
  }

  lemma LookedAtAll(s: Store)
    requires Valid(s) && s.segs == |s.bases|
    ensures Looked(s).segs == |s.bases| && Safe(s)
  {
  }

  lemma {:induction false} QuietKnows(run: seq<Sys>, actions: seq<Action>, i: nat, n: nat)
    requires IsRun(run, actions) && i <= n <= |actions| && QuietFrom(run, actions, i, n) && AllKnown(run[i])
    ensures Inv(run[n]) && AllKnown(run[n])
    decreases n
  {
    hide Act, Step, Inv, Quiet, AllKnown;
    RunFits(run, actions, n);
    if i < n {
      QuietKnows(run, actions, i, n - 1);
      QuietStep(run, actions, n - 1, n);
      StaysKnown(run[n - 1], actions[n - 1].event);
    }
  }

  /** Quiet steps with every segment known look safely, and lose nothing. */
  lemma QuietIsSafe(run: seq<Sys>, actions: seq<Action>, i: nat, n: nat)
    requires IsRun(run, actions) && i <= n <= |actions| && QuietFrom(run, actions, i, n)
    requires AllKnown(run[i]) && LooksSafe(run, actions, i) && NoneLoses(run, actions, i)
    ensures LooksSafe(run, actions, n) && NoneLoses(run, actions, n)
  {
    hide Act, Step, Inv, Quiet, AllKnown, Loses, LooksUnsafely;
    forall k {:trigger actions[k]} | i <= k < n
      ensures !LooksUnsafely(run[k], actions[k]) && !Loses(run[k], actions[k])
    {
      QuietKnows(run, actions, i, k);
      StaysKnown(run[k], actions[k].event);
      assert actions[k] == Tick(actions[k].event);
    }
  }

  /** Nobody appends in quiet steps. */
  lemma QuietVanishesNothing(run: seq<Sys>, actions: seq<Action>, i: nat, n: nat)
    requires IsRun(run, actions) && i <= n <= |actions| && QuietFrom(run, actions, i, n)
    requires NoneVanishes(run, actions, i)
    ensures NoneVanishes(run, actions, n)
  {
    hide Act, Inv;
  }

  /** In a run with safe looks in which no truncation found more than its snapshot and nobody appended
      to a truncated log, a process that pumps with every segment known and is left alone has handled
      or retained every message ever appended after StepsLeft steps, even if the neb fails every
      message. */
  lemma DrainsAll(run: seq<Sys>, actions: seq<Action>, i: nat, n: nat, a: Accepted)
    requires IsRun(run, actions) && i <= n <= |actions| && QuietFrom(run, actions, i, n)
    requires LooksSafe(run, actions, i) && NoneLoses(run, actions, i) && NoneVanishes(run, actions, i)
    requires AllKnown(run[i])
    requires !run[i].stop && !run[i].pc.AtShutdown? && !run[i].pc.Returned? && !run[i].pc.Panicked?
    requires n - i >= StepsLeft(run[i]) && a in run[n].accepted
    ensures IsIn(run[n], a) && (Handled(run[n], IdOf(a)) || Retained(run[n], IdOf(a)))
  {
    hide Act, Inv, Loses, LooksUnsafely, Vanishing, Handled, Retained, Quiet, StepsLeft, Valid;
    RunFaithful(run, actions, i);
    RunFits(run, actions, i);
    StepValid(run[i]);
    LookedAtAll(run[i].store);
    QuietIsSafe(run, actions, i, n);
    QuietVanishesNothing(run, actions, i, n);
    Drains(run, actions, i, n);
    RunFits(run, actions, n);
    SavedIsCursor(run[n]);
    Conserved(run, actions, n, a);
  }

  lemma {:induction false} StillPumps(run: seq<Sys>, actions: seq<Action>, i: nat, n: nat)
    requires IsRun(run, actions) && i <= n <= |actions| && QuietFrom(run, actions, i, n)
    requires Valid(run[i].store) && Pumping(run[i]) && SeesAll(run[i].store)
    ensures Pumping(run[n])
    decreases n - i
  {
    hide Act, Step, Inv, Quiet, Valid, Effect, Pumping, SeesAll;
    if i < n {
      QuietStep(run, actions, i, n);
      RunFits(run, actions, i + 1);
      QuietWorld(run[i], actions[i].event);
      StaysPumping(run[i], actions[i].event, run[i + 1]);
      StepValid(run[i + 1]);
      StillPumps(run, actions, i + 1, n);
    }
  }

  // ---------- stopping ----------

  /** The steps to the end once a stop was requested. */
  function StepsToStop(pc: Pc): nat {
    match pc
    case AtStart => 3
    case AtHead => 2
    case AtWait => 2
    case AtSend(_, _, _) => 8
    case AtBackoff(_, _, _) => 6
    case AtMark(_, _) => 7
    case AtMarkPost(_) => 6
    case AtDeadWrite(_, _) => 7
    case AtDeadSave(_) => 6
    case AtSnapshot(_) => 5
    case AtRetain(_, _) => 4
    case AtTruncate(_, _) => 3
    case AtShutdown => 1
    case Returned(_) => 0
    case Panicked => 0
  }

  /** A stop was requested, and the process has not failed. */
  ghost predicate Stopping(s: Sys) {
    s.stop && s.pc != Returned(false) && !s.pc.Panicked?
  }

  lemma StopStep(s: Sys, e: Event)
    requires Inv(s) && Stopping(s) && (e.ok || s.pc.AtSend?)
    ensures var r := Step(s, e); Stopping(r) && (s.pc.Returned? || StepsToStop(r.pc) < StepsToStop(s.pc))
    ensures s.pc.Returned? ==> Step(s, e).pc == s.pc
  {
    hide Step, MovesLegally, Stores, Checks, Valid, PcFits, Looked, Dispatches, Grow, Landing, Accepting, After;
    WorldSamePc(s, e);
    assert Effect(World(s, e), e, Step(s, e));
  }

  /** Of the steps from i to n only message calls fail. */
  ghost predicate SoundFrom(run: seq<Sys>, actions: seq<Action>, i: nat, n: nat)
    requires IsRun(run, actions) && i <= n <= |actions|
  {
    forall k {:trigger actions[k]} :: i <= k < n ==> actions[k].Tick? && (actions[k].event.ok || run[k].pc.AtSend?)
  }

  /** Once a stop was requested, Start returns nil after at most 8 steps if only message calls fail,
      whatever is appended meanwhile. */
  lemma {:induction false} StopReturns(run: seq<Sys>, actions: seq<Action>, i: nat, n: nat)
    requires IsRun(run, actions) && i <= n <= |actions| && SoundFrom(run, actions, i, n)
    requires Stopping(run[i]) && n - i >= StepsToStop(run[i].pc)
    ensures run[n].pc == Returned(true) && StepsToStop(run[i].pc) <= 8
    decreases n - i
  {
    hide Act, Step, Inv, Stopping;
    if i == n {
      Stopped(run[i]);
    } else {
      RunFits(run, actions, i);
      assert run[i + 1] == Act(run[i], actions[i]);
      ActTick(run[i], actions[i]);
      StopStep(run[i], actions[i].event);
      if run[i].pc.Returned? {
        Stopped(run[i]);
      }
      StopReturns(run, actions, i + 1, n);
    }
  }

  lemma Stopped(s: Sys)
    requires Stopping(s) && StepsToStop(s.pc) == 0
    ensures s.pc == Returned(true)
  {
  }
}
