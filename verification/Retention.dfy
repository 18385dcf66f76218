/** When retention is due: the bound on the cursor, and that retentions do not repeat. */
module Retention {
  import opened Store
  import opened Pump

  function Max(a: int, b: int): int {
    if a < b then b else a
  }

  /** Where the cursor may stand when a message is begun: at the configured limit, or where the
      process found it. */
  function Limit(s: Sys): int {
    Max(s.cfg.opts.maxMessages, s.start.offset)
  }

  /** A message is begun at or below the limit, and after it retention is checked. */
  ghost predicate Bounded(s: Sys) {
    s.cfg.opts.maxMessages > 0 ==>
      if s.pc.AtMarkPost? || s.pc.AtSnapshot? || s.pc.AtRetain? || s.pc.AtTruncate? || s.pc.Returned?
      then s.store.cur.consumed <= Limit(s) + 1
      else s.store.cur.consumed <= Limit(s)
  }

  lemma StepBounded(s: Sys, e: Event)
    requires Inv(s) && Bounded(s)
    ensures Bounded(Step(s, e)) && Step(s, e).start == s.start && Step(s, e).cfg == s.cfg
  {
    hide Step, MovesLegally, Valid, Looked, PcFits, Grow;
    assert Effect(World(s, e), e, Step(s, e));
  }

  function Restarts(actions: seq<Action>): nat {
    if |actions| == 0 then 0
    else Restarts(actions[..|actions| - 1]) + if actions[|actions| - 1].Restarted? then 1 else 0
  }

  /** Every process of the run has a MaxMessages, and none of them a larger one. */
  ghost predicate LimitedBy(run: seq<Sys>, n: nat, bound: int)
    requires n < |run|
  {
    forall k :: 0 <= k <= n ==> 0 < run[k].cfg.opts.maxMessages <= bound
  }

  lemma {:induction false} RunBounded(run: seq<Sys>, actions: seq<Action>, n: nat)
    requires IsRun(run, actions) && n <= |actions|
    ensures Bounded(run[n])
    ensures forall bound :: LimitedBy(run, n, bound) ==> run[n].start.offset <= bound + Restarts(actions[..n])
  {
    hide Act, Inv, Bounded;
    if n == 0 {
      FirstBounded(run[0]);
    } else {
      var s, a := run[n - 1], actions[n - 1];
      RunBounded(run, actions, n - 1);
      RunFits(run, actions, n - 1);
      assert run[n] == Act(s, a);
      assert actions[..n][..n - 1] == actions[..n - 1];
      forall bound | LimitedBy(run, n, bound)
        ensures LimitedBy(run, n - 1, bound) && s.cfg.opts.maxMessages <= bound
      {
      }
      ActBounded(s, a);
    }
  }

  lemma FirstBounded(s: Sys)
    requires s == Initial(s.cfg)
    ensures Bounded(s) && s.start.offset == 0
  {
  }

  lemma ActBounded(s: Sys, a: Action)
    requires Inv(s) && Bounded(s)
    ensures var r := Act(s, a);
            && Bounded(r)
            && (a.Tick? ==> r.start == s.start)
            && (a.Restarted? && s.cfg.opts.maxMessages > 0 ==> r.start.offset <= Limit(s) + 1)
  {
    hide Step, PcFits, Valid;
    if a.Tick? {
      StepBounded(s, a.event);
    }
  }

  /** A process that finds the cursor within MaxMessages never takes it further than one beyond, and
      has it within at every loop head. */
  lemma ProcessBound(s: Sys)
    requires Reachable(s) && 0 < s.cfg.opts.maxMessages && s.start.offset <= s.cfg.opts.maxMessages
    ensures s.store.cur.consumed <= s.cfg.opts.maxMessages + if s.pc.AtHead? then 0 else 1
  {
    hide Act, Inv;
    var run, actions :| IsRun(run, actions) && run[|actions|] == s;
    RunBounded(run, actions, |actions|);
  }

  /** Over any run the cursor exceeds the largest MaxMessages by no more than one, and by one more for
      every restart, and at the pump's loop head by no more than the restarts. */
  lemma CursorBound(run: seq<Sys>, actions: seq<Action>, n: nat, bound: int)
    requires IsRun(run, actions) && n <= |actions| && LimitedBy(run, n, bound)
    ensures run[n].store.cur.consumed <= bound + Restarts(actions[..n]) + if run[n].pc.AtHead? then 0 else 1
  {
    hide Act, Inv;
    RunBounded(run, actions, n);
  }

  ghost predicate EpochsNonEmpty(s: Sys) {
    forall e :: 0 <= e < Epoch(s) ==> s.archive[e] != []
  }

  /** A truncation ends an epoch that has messages. */
  lemma StepEndsNonEmpty(s: Sys, e: Event)
    requires Inv(s) && EpochsNonEmpty(s)
    ensures EpochsNonEmpty(Step(s, e))
  {
    hide Step, Follows, MovesLegally, RequestOf, Valid, Looked, Grow;
    var w := World(s, e);
    assert Effect(w, e, Step(s, e));
    assert w.pc.AtTruncate? ==> w.store.msgs != [];
  }

  lemma {:induction false} RunEndsNonEmpty(run: seq<Sys>, actions: seq<Action>, n: nat)
    requires IsRun(run, actions) && n <= |actions|
    ensures EpochsNonEmpty(run[n])
  {
    hide Step, Effect, Inv;
    if n > 0 {
      RunEndsNonEmpty(run, actions, n - 1);
      assert run[n] == Act(run[n - 1], actions[n - 1]);
      if actions[n - 1].Tick? {
        StepEndsNonEmpty(run[n - 1], actions[n - 1].event);
      }
    }
  }

  /** Every retention that completes has deleted some message: between two of them at least one
      message was appended. */
  lemma RetentionsDoNotRepeat(s: Sys)
    requires Reachable(s)
    ensures EpochsNonEmpty(s)
  {
    hide Act, Inv, EpochsNonEmpty;
    var run, actions :| IsRun(run, actions) && run[|actions|] == s;
    RunEndsNonEmpty(run, actions, |actions|);
  }
}
