/** The states a process goes through and the requests it sends. */
module Trace {
  import opened Store
  import opened States
  import opened Pump

  // ---------- states ----------

  ghost predicate StatesLegal(s: Sys) {
    |s.states| > 0 && s.states[0] == Created && s.states[|s.states| - 1] == s.state && Legal(s.states)
  }

  lemma EffectLegal(s: Sys, r: Sys)
    requires MovesLegally(s, r) && StatesLegal(s)
    ensures StatesLegal(r)
  {
    hide CanTransition;
  }

  lemma {:induction false} RunLegal(run: seq<Sys>, actions: seq<Action>, n: nat)
    requires IsRun(run, actions) && n <= |actions|
    ensures StatesLegal(run[n])
  {
    hide Step, Inv, Follows, Records, Stores, MovesLegally;
    if n > 0 {
      var s := run[n - 1];
      RunLegal(run, actions, n - 1);
      assert run[n] == Act(run[n - 1], actions[n - 1]);
      if actions[n - 1].Tick? {
        EffectLegal(World(s, actions[n - 1].event), run[n]);
      }
    }
  }

  /** In every run every assignment to the state, checked or not, is a legal change. */
  lemma EveryChangeLegal(s: Sys)
    requires Reachable(s)
    ensures StatesLegal(s)
  {
    hide Act, Inv, StatesLegal;
    var run, actions :| IsRun(run, actions) && run[|actions|] == s;
    RunLegal(run, actions, |actions|);
  }

  // ---------- the language of the calls ----------

  /** The calls are numbered from 1, begin with the only init, and end with a shutdown exactly when
      the manager has returned without error. */
  ghost predicate CallsFit(s: Sys) {
    && (forall i :: 0 <= i < |s.calls| ==> s.calls[i].id == i + 1)
    && (|s.calls| == 0 <==> s.pc == AtStart)
    && (|s.calls| > 0 ==> s.calls[0].request == Init)
    && (|s.calls| > 0 && !s.pc.Returned? ==> s.calls[0].ok)
    && (|s.calls| > 1 ==> s.calls[0].ok)
    && (forall i :: 0 < i < |s.calls| ==> !s.calls[i].request.Init?)
    && (forall i :: 0 < i < |s.calls| && s.calls[i].request.Shutdown? ==> i == |s.calls| - 1)
    && (s.pc == Returned(true) <==> |s.calls| > 1 && s.calls[|s.calls| - 1].request == Shutdown)
  }

  lemma EffectCallsFit(s: Sys, e: Event, r: Sys)
    requires Inv(s) && Effect(s, e, r) && CallsFit(s)
    ensures CallsFit(r)
  {
    hide MovesLegally, PcFits, Valid, Looked, Stores;
    if RequestOf(s.pc).None? {
      assert r.calls == s.calls;
    }
  }

  lemma ActCallsFit(s: Sys, a: Action)
    requires Inv(s) && CallsFit(s)
    ensures CallsFit(Act(s, a))
  {
    hide Step, Effect, PcFits, Valid, Grow;
    if a.Tick? {
      EffectCallsFit(World(s, a.event), a.event, Act(s, a));
    }
  }

  lemma {:induction false} RunCallsFit(run: seq<Sys>, actions: seq<Action>, n: nat)
    requires IsRun(run, actions) && n <= |actions|
    ensures CallsFit(run[n])
  {
    hide Act, Inv;
    RunFits(run, actions, n);
    if n > 0 {
      RunCallsFit(run, actions, n - 1);
      assert run[n] == Act(run[n - 1], actions[n - 1]);
      ActCallsFit(run[n - 1], actions[n - 1]);
    }
  }

  lemma ReachableCallsFit(s: Sys)
    requires Reachable(s)
    ensures CallsFit(s)
  {
    hide Act, Inv, CallsFit;
    var run, actions :| IsRun(run, actions) && run[|actions|] == s;
    RunCallsFit(run, actions, |actions|);
  }

  /** init (message | retain)* shutdown, with a successful init. */
  ghost predicate CompleteTrace(calls: seq<Call>) {
    && |calls| >= 2
    && calls[0].request == Init && calls[0].ok
    && calls[|calls| - 1].request == Shutdown
    && forall i :: 0 < i < |calls| - 1 ==> calls[i].request.Message? || calls[i].request.Retain?
  }

  /** Start returns nil exactly when the process has sent a complete trace, and then it is stopped;
      in every other case it has sent no shutdown. */
  lemma CallTrace(s: Sys)
    requires Reachable(s)
    ensures s.pc == Returned(true) <==> CompleteTrace(s.calls)
    ensures s.pc == Returned(true) <==> s.state == Stopped
    ensures s.pc != Returned(true) ==> forall c :: c in s.calls ==> c.request != Shutdown
    ensures forall i :: 0 <= i < |s.calls| ==> s.calls[i].id == i + 1 && (s.calls[i].request == Init <==> i == 0)
  {
    hide Reachable;
    ReachableFits(s);
    ReachableCallsFit(s);
  }
}
