/** What appending has returned, and where in the log it is: every message is there under the offset
    that was returned for it, but for those appended to a log that had been truncated since. */
module Ledger {
  import opened Store
  import opened Senders
  import opened Pump
  import opened Delivery

  function IdOf(a: Accepted): Id {
    Id(a.epoch, a.offset)
  }

  /** The message is, or was, in the directory, under the offset that was returned for it. */
  ghost predicate IsIn(s: Sys, a: Accepted) {
    IsMessage(s, IdOf(a)) && MessageAt(s, IdOf(a)) == a.payload
  }

  /** The offset is one behind the messages of an epoch that has ended. */
  ghost predicate Gone(s: Sys, a: Accepted) {
    a.epoch < Epoch(s) && a.offset >= |s.archive[a.epoch]|
  }

  ghost predicate NoneGone(s: Sys) {
    forall a :: a in s.accepted ==> !Gone(s, a)
  }

  /** The messages are those for which appending returned an offset; the others are gone, and a sender
      whose log was truncated continues their numbers. */
  ghost predicate Recorded(s: Sys) {
    && (forall id: Id :: IsMessage(s, id) ==> Accepted(id.epoch, id.offset, MessageAt(s, id)) in s.accepted)
    && (forall a :: a in s.accepted ==> IsIn(s, a) || Gone(s, a))
    && (s.sender.Detached? ==>
          s.sender.epoch < Epoch(s) && s.sender.next >= |s.archive[s.sender.epoch]|)
  }

  // ---------- what one sender is told ----------

  lemma {:induction false} LandingIsAccepted(t: Sender, epoch: nat, n: nat, sends: seq<Sending>, k: nat)
    requires k < |Landing(t, sends)|
    ensures Accepted(epoch, n + k, Landing(t, sends)[k].payload) in Accepting(t, epoch, n, sends)
    decreases |sends|
  {
    var before := sends[..|sends| - 1];
    if k < |Landing(t, before)| {
      LandingIsAccepted(t, epoch, n, before, k);
    }
  }

  /** A sender remains detached only while it appends. */
  lemma {:induction false} DetachedAfter(t: Sender, sends: seq<Sending>)
    requires After(t, sends).Detached?
    ensures t.Detached? && After(t, sends).epoch == t.epoch && After(t, sends).next >= t.next
    ensures |sends| > 0 ==> sends[0].Appends?
    decreases |sends|
  {
    if |sends| > 0 {
      DetachedAfter(t, sends[..|sends| - 1]);
    }
  }

  /** An offset that is returned is that of a message in the directory, or continues the numbers of a
      log that was truncated. */
  lemma {:induction false} AcceptedIs(t: Sender, epoch: nat, n: nat, sends: seq<Sending>, a: Accepted)
    requires a in Accepting(t, epoch, n, sends)
    ensures || (&& n <= a.offset < n + |Landing(t, sends)| && a.epoch == epoch
                && a.payload == Landing(t, sends)[a.offset - n].payload)
            || (Vanishes(t, sends) && a.epoch == t.epoch && a.offset >= t.next)
    decreases |sends|
  {
    var before, last := sends[..|sends| - 1], sends[|sends| - 1];
    if a in Accepting(t, epoch, n, before) {
      AcceptedIs(t, epoch, n, before, a);
    } else if After(t, before).Detached? {
      DetachedAfter(t, before);
      assert sends[0] == if |before| > 0 then before[0] else last;
    }
  }

  lemma {:induction false} VanishingIsAccepted(t: Sender, epoch: nat, n: nat, sends: seq<Sending>)
    requires Vanishes(t, sends)
    ensures Accepted(t.epoch, t.next, sends[0].payload) in Accepting(t, epoch, n, sends)
    decreases |sends|
  {
    if |sends| > 1 {
      VanishingIsAccepted(t, epoch, n, sends[..|sends| - 1]);
    } else {
      assert sends[..0] == [];
    }
  }

  lemma {:induction false} PayloadAt(appends: seq<Appended>, k: nat)
    requires k < |appends|
    ensures Payloads(appends)[k] == appends[k].payload
    decreases |appends|
  {
    if k < |appends| - 1 {
      PayloadAt(appends[..|appends| - 1], k);
    }
  }

  // ---------- the records are kept ----------

  ghost predicate Vanishing(s: Sys, a: Action) {
    a.Tick? && Vanishes(s.sender, a.event.sends)
  }

  lemma NewlyAccepted(s: Sys, e: Event, a: Accepted)
    requires Inv(s) && Recorded(s) && a in Accepting(s.sender, Epoch(s), |s.store.msgs|, e.sends)
    ensures var w := World(s, e);
            if Gone(w, a) then Vanishes(s.sender, e.sends) else IsIn(w, a)
  {
    hide Valid, PcFits, Grow, Landing, Accepting, After;
    var n := |s.store.msgs|;
    AcceptedIs(s.sender, Epoch(s), n, e.sends, a);
    if a.epoch == Epoch(s) {
      PayloadAt(Landing(s.sender, e.sends), a.offset - n);
    }
  }

  lemma WorldRecords(s: Sys, e: Event)
    requires Inv(s) && Recorded(s)
    ensures var w := World(s, e);
            Recorded(w) && Epoch(w) == Epoch(s) && (NoneGone(w) <==> NoneGone(s) && !Vanishes(s.sender, e.sends))
  {
    hide Valid, PcFits, Grow, Landing, Accepting, After, Vanishes;
    var w, t, n, sends := World(s, e), s.sender, |s.store.msgs|, e.sends;
    var landing, accepting := Landing(t, sends), Accepting(t, Epoch(s), n, sends);
    assert w.store.msgs == s.store.msgs + Payloads(landing) && w.accepted == s.accepted + accepting;
    forall id: Id | IsMessage(w, id)
      ensures Accepted(id.epoch, id.offset, MessageAt(w, id)) in w.accepted
    {
      if IsMessage(s, id) {
        assert Accepted(id.epoch, id.offset, MessageAt(s, id)) in s.accepted;
      } else {
        LandingIsAccepted(t, Epoch(s), n, sends, id.offset - n);
        PayloadAt(landing, id.offset - n);
      }
    }
    forall a | a in accepting
      ensures if Gone(w, a) then Vanishes(t, sends) else IsIn(w, a)
    {
      NewlyAccepted(s, e, a);
    }
    forall a | a in s.accepted
      ensures IsIn(w, a) || Gone(w, a)
      ensures Gone(w, a) <==> Gone(s, a)
    {
    }
    if Vanishes(t, sends) {
      VanishingIsAccepted(t, Epoch(s), n, sends);
      OneGone(s, w, e);
    }
    if w.sender.Detached? {
      DetachedAfter(t, sends);
    }
  }

  lemma OneGone(s: Sys, w: Sys, e: Event)
    requires Recorded(s) && Vanishes(s.sender, e.sends) && w.archive == s.archive
    requires Accepted(s.sender.epoch, s.sender.next, e.sends[0].payload) in w.accepted
    ensures !NoneGone(w)
  {
  }

  lemma EffectRecords(s: Sys, e: Event, r: Sys)
    requires Inv(s) && Effect(s, e, r) && Recorded(s)
    ensures Recorded(r) && (NoneGone(r) <==> NoneGone(s))
  {
    hide Follows, MovesLegally, Checks, Valid, PcFits, Looked;
    StoreGrows(s, e, r);
    if Epoch(r) > Epoch(s) {
      assert r.archive == s.archive + [s.store.msgs];
    }
    assert forall id: Id :: IsMessage(s, id) <==> IsMessage(r, id);
  }

  lemma RestartRecords(s: Sys, cfg: Config)
    requires Inv(s) && Recorded(s)
    ensures Recorded(Restart(s, cfg)) && (NoneGone(Restart(s, cfg)) <==> NoneGone(s))
  {
    hide Valid, PcFits;
    assert forall id: Id :: IsMessage(s, id) <==> IsMessage(Restart(s, cfg), id);
  }

  lemma ActRecords(s: Sys, a: Action)
    requires Inv(s) && Recorded(s)
    ensures Recorded(Act(s, a)) && (NoneGone(Act(s, a)) <==> NoneGone(s) && !Vanishing(s, a))
  {
    hide Step, World, Restart, Inv, Effect, Recorded, NoneGone, Vanishes;
    match a
    case Tick(e) =>
      WorldRecords(s, e);
      EffectRecords(World(s, e), e, Step(s, e));
    case Restarted(cfg) =>
      RestartRecords(s, cfg);
  }

  /** Nobody appends to a log that has been truncated since it was opened. */
  ghost predicate NoneVanishes(run: seq<Sys>, actions: seq<Action>, n: nat)
    requires IsRun(run, actions) && n <= |actions|
  {
    forall k {:trigger actions[k]} :: 0 <= k < n ==> !Vanishing(run[k], actions[k])
  }

  /** Each message is in the directory under the offset that appending returned, and the other way
      round, exactly when nobody appends to a log that has been truncated since it was opened. */
  lemma {:induction false} RunRecords(run: seq<Sys>, actions: seq<Action>, n: nat)
    requires IsRun(run, actions) && n <= |actions|
    ensures Recorded(run[n]) && (NoneGone(run[n]) <==> NoneVanishes(run, actions, n))
  {
    hide Act, Inv, Vanishing;
    if n > 0 {
      RunRecords(run, actions, n - 1);
      RunFits(run, actions, n - 1);
      assert run[n] == Act(run[n - 1], actions[n - 1]);
      ActRecords(run[n - 1], actions[n - 1]);
    }
  }
}
