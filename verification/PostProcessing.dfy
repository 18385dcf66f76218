/** The highest post-processed offset: what the cursor says about it at the end of any run. */
module PostProcessing {
  import opened Store
  import opened Senders
  import opened Pump
  import opened Delivery

  /** Saving that a message was post-processed succeeds. */
  ghost predicate RecordsPost(s: Sys, a: Action) {
    a.Tick? && a.event.ok && s.pc.AtMarkPost?
  }

  function Higher(a: nat, b: nat): nat {
    if a < b then b else a
  }

  /** The highest offset for which that happened in the epoch that state n is in, and 0 if for none. */
  ghost function Highest(run: seq<Sys>, actions: seq<Action>, n: nat): nat
    requires IsRun(run, actions) && n <= |actions|
  {
    if n == 0 || Epoch(run[n]) != Epoch(run[n - 1]) then 0
    else if RecordsPost(run[n - 1], actions[n - 1]) then Higher(Highest(run, actions, n - 1), run[n - 1].pc.offset)
    else Highest(run, actions, n - 1)
  }

  lemma ActPost(s: Sys, a: Action)
    requires Inv(s)
    ensures var r := Act(s, a);
            && r.store.saved.postProcessed ==
               (if Epoch(r) != Epoch(s) then 0
                else if RecordsPost(s, a) then Higher(s.store.saved.postProcessed, s.pc.offset)
                else s.store.saved.postProcessed)
            && (RecordsPost(s, a) ==> Epoch(r) == Epoch(s))
  {
    hide Step, Follows, MovesLegally, Records, Checks, Valid, Looked, Grow, Landing, Accepting, After;
    match a
    case Tick(e) =>
      WorldSamePc(s, e);
      assert Effect(World(s, e), e, Step(s, e));
      StoreGrows(World(s, e), e, Step(s, e));
    case Restarted(cfg) =>
  }

  /** What is saved is that offset, whatever crashes there were. */
  lemma {:induction false} SavedIsHighest(run: seq<Sys>, actions: seq<Action>, n: nat)
    requires IsRun(run, actions) && n <= |actions|
    ensures run[n].store.saved.postProcessed == Highest(run, actions, n)
  {
    hide Act, Inv, RecordsPost;
    if n > 0 {
      SavedIsHighest(run, actions, n - 1);
      RunFits(run, actions, n - 1);
      assert run[n] == Act(run[n - 1], actions[n - 1]);
      ActPost(run[n - 1], actions[n - 1]);
    }
  }

  /** It is recorded only of the message just passed, which the neb has acknowledged with the request
      for post-processing. */
  lemma OnlyIfAsked(run: seq<Sys>, actions: seq<Action>, n: nat)
    requires IsRun(run, actions) && n <= |actions| && run[n].pc.AtMarkPost?
    ensures var s := run[n];
            && s.store.cur.consumed == s.pc.offset + 1 && |s.calls| > 0 && s.calls[|s.calls| - 1].ok
            && s.calls[|s.calls| - 1].request.Message? && s.calls[|s.calls| - 1].request.offset == s.pc.offset
    ensures n >= 2 && actions[n - 2].Tick? && actions[n - 2].event.ok && actions[n - 2].event.post
            && run[n - 2].pc.AtSend? && run[n - 2].pc.offset == run[n].pc.offset
  {
    hide Act, Inv;
    RunFits(run, actions, n);
    PostCall(run[n]);
    StartsAtStart(run, actions);
    assert run[n] == Act(run[n - 1], actions[n - 1]);
    RunFits(run, actions, n - 1);
    BeforePost(run[n - 1], actions[n - 1]);
    assert run[n - 1] == Act(run[n - 2], actions[n - 2]);
    RunFits(run, actions, n - 2);
    BeforeMark(run[n - 2], actions[n - 2]);
  }

  lemma PostCall(s: Sys)
    requires Inv(s) && s.pc.AtMarkPost?
    ensures s.store.cur.consumed == s.pc.offset + 1 && |s.calls| > 0 && s.calls[|s.calls| - 1].ok
    ensures s.calls[|s.calls| - 1].request.Message? && s.calls[|s.calls| - 1].request.offset == s.pc.offset
  {
    hide Valid;
  }

  lemma StartsAtStart(run: seq<Sys>, actions: seq<Action>)
    requires IsRun(run, actions)
    ensures run[0].pc.AtStart?
  {
  }

  lemma BeforePost(s: Sys, a: Action)
    requires Inv(s) && Act(s, a).pc.AtMarkPost?
    ensures s.pc == AtMark(Act(s, a).pc.offset, true)
  {
    hide Step, MovesLegally, Records, Stores, Checks, Valid, Looked, Grow, Landing, Accepting, After;
    if a.Tick? {
      WorldSamePc(s, a.event);
      assert Effect(World(s, a.event), a.event, Step(s, a.event));
    }
  }

  lemma BeforeMark(s: Sys, a: Action)
    requires Inv(s) && Act(s, a).pc.AtMark?
    ensures a.Tick? && a.event.ok && s.pc.AtSend?
    ensures Act(s, a).pc == AtMark(s.pc.offset, a.event.post)
  {
    hide Step, MovesLegally, Records, Stores, Checks, Valid, Looked, Grow, Landing, Accepting, After;
    if a.Tick? {
      WorldSamePc(s, a.event);
      assert Effect(World(s, a.event), a.event, Step(s, a.event));
    }
  }
}
