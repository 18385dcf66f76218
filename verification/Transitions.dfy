/** Which of the legal state changes a copt really makes. */
module Transitions {
  import opened States
  import opened Store
  import opened Senders
  import opened Pump
  import opened Delivery
  import opened Faults
  import Trace

  const FAILURE := Event([], false, false, false)
  const POST := Event([], false, true, true)
  const STOP := Event([], true, true, false)

  /** Some process makes the change. */
  ghost predicate Taken(from: State, to: State) {
    exists s: Sys, i: nat {:trigger s.states[i], Reachable(s)} ::
      Reachable(s) && i + 1 < |s.states| && s.states[i] == from && s.states[i + 1] == to
  }

  lemma TakenAt(s: Sys, i: nat)
    requires Reachable(s) && i + 1 < |s.states|
    ensures Taken(s.states[i], s.states[i + 1])
  {
  }

  /** A step that adds a state, or two. */
  lemma Adds(s: Sys, e: Event, to: State, more: seq<State>)
    requires Reachable(s) && Inv(s) && Reachable(Step(s, e)) && Step(s, e).states == s.states + [to] + more
    ensures Taken(s.state, to) && (more != [] ==> Taken(to, more[0]))
  {
    hide Step, Inv, Reachable, Taken;
    Trace.EveryChangeLegal(s);
    var r, n := Step(s, e), |s.states|;
    assert r.states[n - 1] == s.state && r.states[n] == to;
    TakenAt(r, n - 1);
    if more != [] {
      assert r.states[n + 1] == more[0];
      TakenAt(r, n);
    }
  }

  lemma NobodySends(s: Sys, e: Event)
    requires Inv(s) && e.sends == []
    ensures World(s, e) == s.(stop := s.stop || e.stop) && After(s.sender, e.sends) == s.sender
  {
    hide Grow, PcFits, Valid;
  }

  lemma Reaches(s: Sys, e: Event)
    requires Reachable(s) && Inv(s) && e.sends == []
    ensures Reachable(Step(s, e)) && Inv(Step(s, e))
  {
    hide Step, Inv, Reachable;
    ReachableFits(s);
    NobodySends(s, e);
    StepReaches(s, e);
  }

  // ---------- starting and stopping ----------

  lemma Starts(cfg: Config)
    ensures Taken(Created, Starting) && Taken(Starting, Idle) && Taken(Starting, Failed)
  {
    hide Reachable, Taken;
    var s := Initial(cfg);
    InitialReachable(cfg);
    Reaches(s, SUCCESS);
    Reaches(s, FAILURE);
    NobodySends(s, SUCCESS);
    NobodySends(s, FAILURE);
    assert Step(s, SUCCESS).states == s.states + [Starting] + [Idle];
    assert Step(s, FAILURE).states == s.states + [Starting] + [Failed];
    Adds(s, SUCCESS, Starting, [Idle]);
    Adds(s, FAILURE, Starting, [Failed]);
  }

  lemma Stops(cfg: Config)
    ensures Taken(Idle, Stopping) && Taken(Stopping, Stopped)
  {
    hide Reachable, Taken, Step;
    var s := Step(Initial(cfg), SUCCESS);
    Started(cfg);
    ReachableFits(s);
    var r := Step(s, STOP);
    Reaches(s, STOP);
    StopAtHead(s);
    Adds(s, STOP, Stopping, []);
    Reaches(r, SUCCESS);
    ShutsDown(r);
    Adds(r, SUCCESS, Stopped, []);
  }

  lemma StopAtHead(s: Sys)
    requires Inv(s) && s.pc == AtHead
    ensures s.state == Idle && Step(s, STOP).states == s.states + [Stopping] + [] && Step(s, STOP).pc == AtShutdown
  {
    hide Valid, Effect;
    NobodySends(s, STOP);
  }

  lemma ShutsDown(s: Sys)
    requires Inv(s) && s.pc == AtShutdown
    ensures s.state == Stopping && Step(s, SUCCESS).states == s.states + [Stopped] + []
  {
    hide Valid, Effect;
    NobodySends(s, SUCCESS);
  }

  // ---------- a message ----------

  /** The first message of a fresh directory is looked at, and sent with a given outcome. */
  lemma FirstSent(cfg: Config, e: Event) returns (looked: Sys, sent: Sys)
    requires cfg.maxRetries >= 0 && e.sends == [] && e.ok
    ensures Reachable(looked) && Inv(looked) && looked.pc == AtSend(0, [], 0) && looked.cfg == cfg
    ensures Taken(Idle, Processing) && sent == Step(looked, e)
    ensures Reachable(sent) && Inv(sent) && sent.pc == AtMark(0, e.post) && sent.cfg == cfg
    ensures sent.store.view == [[]]
  {
    hide Reachable, Taken, Step, AtLeastOnce, Inv, FindsNew;
    InitialReachable(cfg);
    ReachableFits(Initial(cfg));
    var s := Step(Initial(cfg), SUCCESS);
    Started(cfg);
    ReachableFits(s);
    NothingSaved(s);
    FirstLook(s);
    SendsOne(s.sender, []);
    Found1(s, FIRST);
    FirstStore(s);
    looked := Step(s, FIRST);
    StepReaches(s, FIRST);
    ReachableFits(looked);
    BeginsMessage(s);
    Adds(s, FIRST, Processing, []);
    KeepsConfig(s, FIRST);
    sent := Step(looked, e);
    Reaches(looked, e);
    KeepsConfig(looked, e);
    IsSent(looked, e);
  }

  lemma BeginsMessage(s: Sys)
    requires Inv(s) && FindsNew(s, FIRST) && Step(s, FIRST).pc.AtSend?
    ensures s.state == Idle && Step(s, FIRST).states == s.states + [Processing] + []
  {
    hide Valid, Effect, Grow, Landing, Accepting, After, Looked, RetentionExceeded, AtLeastOnce;
  }

  lemma IsSent(s: Sys, e: Event)
    requires Inv(s) && s.pc == AtSend(0, [], 0) && e.sends == [] && e.ok
    ensures Step(s, e).pc == AtMark(0, e.post) && Step(s, e).store == s.store
  {
    hide Valid, Effect;
    NobodySends(s, e);
  }

  const UNLIMITED := Config(Options(0, 0, 1), 0)

  lemma NothingExceeded(s: Store)
    ensures !RetentionExceeded(s, UNLIMITED.opts)
  {
  }

  lemma Marks(s: Sys)
    requires Inv(s) && s.pc.AtMark? && s.cfg == UNLIMITED
    ensures var r := Step(s, SUCCESS);
            && s.state == Processing
            && (if s.pc.post then r.states == s.states + [PostProcessing] + [] && r.pc.AtMarkPost?
                else r.states == s.states + [Idle] + [])
  {
    hide Valid, Effect, RetentionExceeded, MarkProcessed;
    QuietStep(s);
    NothingExceeded(MarkProcessed(s.store, s.pc.offset, true));
  }

  lemma PostMarks(s: Sys)
    requires Inv(s) && s.pc.AtMarkPost? && s.cfg == UNLIMITED
    ensures s.state == PostProcessing && Step(s, SUCCESS).states == s.states + [Idle] + []
  {
    hide Valid, Effect, RetentionExceeded, MarkPostProcessed;
    QuietStep(s);
    NothingExceeded(MarkPostProcessed(s.store, s.pc.offset, true));
  }

  lemma Processes()
    ensures Taken(Idle, Processing) && Taken(Processing, Idle)
    ensures Taken(Processing, PostProcessing) && Taken(PostProcessing, Idle)
  {
    hide Reachable, Taken, Step, Inv;
    var _, s := FirstSent(UNLIMITED, SUCCESS);
    SuccessReaches(s);
    Marks(s);
    Adds(s, SUCCESS, Idle, []);
    var _, p := FirstSent(UNLIMITED, POST);
    SuccessReaches(p);
    Marks(p);
    Adds(p, SUCCESS, PostProcessing, []);
    var r := Step(p, SUCCESS);
    ReachableFits(r);
    KeepsConfig(p, SUCCESS);
    SuccessReaches(r);
    PostMarks(r);
    Adds(r, SUCCESS, Idle, []);
  }

  // ---------- a retention ----------

  lemma DrainsAfter(s: Sys)
    requires Inv(s) && s.pc.AtMark? && !s.pc.post && Step(s, SUCCESS).pc.AtSnapshot?
    ensures s.state == Processing && Step(s, SUCCESS).states == s.states + [Idle] + [Draining]
  {
    hide Valid, Effect, RetentionExceeded, MarkProcessed;
    QuietStep(s);
  }

  lemma Snapshots(s: Sys)
    requires Inv(s) && s.pc.AtSnapshot?
    ensures s.state == Draining && Step(s, SUCCESS).states == s.states + [Retaining] + []
    ensures Step(s, SUCCESS).pc.AtRetain?
  {
    hide Valid, Effect, Snapshot;
    QuietStep(s);
  }

  lemma RetainEnds(s: Sys)
    requires Inv(s) && s.pc.AtRetain?
    ensures s.state == Retaining && Step(s, FAILURE).states == s.states + [Failed] + []
    ensures Step(s, SUCCESS).pc.AtTruncate?
  {
    hide Valid, Effect;
    QuietStep(s);
    NobodySends(s, FAILURE);
  }

  lemma TruncateEnds(s: Sys)
    requires Inv(s) && s.pc.AtTruncate?
    ensures s.state == Retaining && Step(s, SUCCESS).states == s.states + [Idle] + []
  {
    hide Valid, Effect, Truncate, Detach;
    QuietStep(s);
  }

  lemma Retains()
    ensures Taken(Idle, Draining) && Taken(Draining, Retaining)
    ensures Taken(Retaining, Failed) && Taken(Retaining, Idle)
  {
    hide Reachable, Taken, Step, Inv, RetentionExceeded, AtLeastOnce;
    var cfg := Config(Options(0, 1, SIZE), 3);
    var _, m := FirstSent(cfg, SUCCESS);
    SuccessReaches(m);
    var s := Step(m, SUCCESS);
    ReachableFits(s);
    KeepsConfig(m, SUCCESS);
    Marked3(m);
    SizeExceeded(s);
    MarkedThenChecked(m);
    DrainsAfter(m);
    Adds(m, SUCCESS, Idle, [Draining]);
    Snapshots(s);
    SuccessReaches(s);
    Adds(s, SUCCESS, Retaining, []);
    var r := Step(s, SUCCESS);
    ReachableFits(r);
    RetainEnds(r);
    Reaches(r, FAILURE);
    Adds(r, FAILURE, Failed, []);
    SuccessReaches(r);
    var u := Step(r, SUCCESS);
    ReachableFits(u);
    TruncateEnds(u);
    SuccessReaches(u);
    Adds(u, SUCCESS, Idle, []);
  }

  // ---------- the table ----------

  lemma OnlyLegal(from: State, to: State)
    requires Taken(from, to)
    ensures CanTransition(from, to)
  {
    hide Reachable, CanTransition;
    var s: Sys, i: nat {:trigger s.states[i]} :|
      Reachable(s) && i + 1 < |s.states| && s.states[i] == from && s.states[i + 1] == to;
    Trace.EveryChangeLegal(s);
  }

  /** The table of legal changes lists those that some process makes, and that of a failed copt that
      starts again; every other change is refused. */
  lemma TableIsTaken(from: State, to: State)
    ensures CanTransition(from, to) <==> Taken(from, to) || (from == Failed && to == Starting)
  {
    hide Taken;
    Starts(UNLIMITED);
    Stops(UNLIMITED);
    Processes();
    Retains();
    if Taken(from, to) {
      OnlyLegal(from, to);
    }
  }
}
