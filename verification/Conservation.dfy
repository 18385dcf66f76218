/** Conservation across retention: what was appended is in the log, or was handled, or handed over in
    a snapshot, exactly when no truncation finds more on disk than its snapshot holds, and nothing is
    appended to a log that has been truncated since it was opened. */
module Conservation {
  import opened Store
  import opened Senders
  import opened Pump
  import opened Delivery
  import opened Ledger

  /** Every message for which appending returned an offset is in the log under that offset, or was
      handled or retained. */
  ghost predicate Kept(s: Sys) {
    forall a :: a in s.accepted ==>
      IsIn(s, a) && (a.epoch == Epoch(s) || Handled(s, IdOf(a)) || Retained(s, IdOf(a)))
  }

  /** Every message of an ended epoch, so every one that was deleted, was handled or retained. */
  ghost predicate DeletedKept(s: Sys) {
    forall id: Id :: id.epoch < Epoch(s) && IsMessage(s, id) ==> Handled(s, id) || Retained(s, id)
  }

  /** Of the messages of an epoch that is being truncated, those in the snapshot are retained, and
      the first one behind it is neither handled nor retained. */
  lemma SnapshotDecides(s: Sys, id: Id)
    requires Inv(s) && History(s) && s.pc.AtTruncate? && IsMessage(s, id) && id.epoch == Epoch(s)
    ensures id.offset < |s.pc.snapshot| ==> Retained(s, id)
    ensures id.offset >= |s.pc.snapshot| ==> !Handled(s, id) && !Retained(s, id)
  {
    hide Valid, CallsAnswered, DeadAnswered;
    ViewBounded(s.store);
    if id.offset < |s.pc.snapshot| {
      assert s.retained[|s.retained| - 1] == (Epoch(s), s.pc.snapshot);
    } else if Handled(s, id) {
      HandledIsAnswered(s, id);
      assert false;
    }
  }

  /** A step other than a truncation leaves ended epochs alone. */
  lemma EffectKept(s: Sys, e: Event, r: Sys)
    requires Inv(s) && Effect(s, e, r) && Epoch(r) == Epoch(s)
    ensures DeletedKept(r) <==> DeletedKept(s)
  {
    hide Follows, MovesLegally, Valid, Looked, Stores, Handled, Retained, PcFits;
    forall id: Id | id.epoch < Epoch(s) && IsMessage(s, id)
      ensures Handled(r, id) || Retained(r, id) <==> Handled(s, id) || Retained(s, id)
    {
      EffectHandled(s, e, r, id);
    }
    assert forall id: Id :: id.epoch < Epoch(s) ==> (IsMessage(s, id) <==> IsMessage(r, id));
  }

  lemma TruncateKept(s: Sys, e: Event, r: Sys)
    requires Inv(s) && History(s) && Effect(s, e, r) && s.pc.AtTruncate? && e.ok
    ensures DeletedKept(r) <==> DeletedKept(s) && |s.store.msgs| <= |s.pc.snapshot|
  {
    hide Follows, MovesLegally, Valid, Handled, Retained, PcFits, History;
    assert r.archive == s.archive + [s.store.msgs];
    forall id: Id | IsMessage(s, id)
      ensures IsMessage(r, id) && (Handled(r, id) || Retained(r, id) <==> Handled(s, id) || Retained(s, id))
    {
      SameHandled(s, r, id);
    }
    assert forall id: Id :: id.epoch < Epoch(r) ==> (IsMessage(s, id) <==> IsMessage(r, id));
    forall o: nat | o < |s.store.msgs|
      ensures IsMessage(s, Id(Epoch(s), o))
      ensures Handled(s, Id(Epoch(s), o)) || Retained(s, Id(Epoch(s), o)) <==> o < |s.pc.snapshot|
    {
      SnapshotDecides(s, Id(Epoch(s), o));
    }
    if |s.store.msgs| > |s.pc.snapshot| {
      assert IsMessage(s, Id(Epoch(s), |s.pc.snapshot|));
    }
  }

  lemma WorldKept(s: Sys, e: Event)
    requires Inv(s)
    ensures DeletedKept(World(s, e)) <==> DeletedKept(s)
  {
    hide Handled, Retained, Grow, PcFits, Valid;
    var w := World(s, e);
    assert w.archive == s.archive;
    forall id: Id | id.epoch < Epoch(s) && IsMessage(s, id)
      ensures Handled(w, id) || Retained(w, id) <==> Handled(s, id) || Retained(s, id)
    {
      WorldHandled(s, e, id);
    }
    assert forall id: Id :: id.epoch < Epoch(s) ==> (IsMessage(s, id) <==> IsMessage(w, id));
  }

  lemma RestartKept(s: Sys, cfg: Config)
    requires Inv(s)
    ensures DeletedKept(Restart(s, cfg)) <==> DeletedKept(s)
  {
    hide Handled, Retained, PcFits, Valid;
    var r := Restart(s, cfg);
    assert r.archive == s.archive;
    forall id: Id | id.epoch < Epoch(s) && IsMessage(s, id)
      ensures Handled(r, id) || Retained(r, id) <==> Handled(s, id) || Retained(s, id)
    {
      RestartHandled(s, cfg, id);
    }
    assert forall id: Id :: id.epoch < Epoch(s) ==> (IsMessage(s, id) <==> IsMessage(r, id));
  }

  lemma ActKept(s: Sys, a: Action)
    requires Inv(s) && History(s)
    ensures DeletedKept(Act(s, a)) <==> DeletedKept(s) && !Loses(s, a)
  {
    hide Step, World, Restart, Inv, Effect, History, DeletedKept;
    match a
    case Tick(e) =>
      var w, r := World(s, e), Step(s, e);
      WorldHistory(s, e);
      WorldKept(s, e);
      WorldSamePc(s, e);
      StoreGrows(w, e, r);
      if Epoch(r) == Epoch(w) {
        EffectKept(w, e, r);
      } else {
        TruncateKept(w, e, r);
      }
    case Restarted(cfg) =>
      RestartKept(s, cfg);
  }

  /** No truncation finds more than its snapshot. */
  ghost predicate NoneLoses(run: seq<Sys>, actions: seq<Action>, n: nat)
    requires IsRun(run, actions) && n <= |actions|
  {
    forall k {:trigger actions[k]} :: 0 <= k < n ==> !Loses(run[k], actions[k])
  }

  /** Every message that was deleted was handled or retained exactly when no truncation that succeeded
      found more messages on disk than its snapshot holds. */
  lemma {:induction false} DeletedExactly(run: seq<Sys>, actions: seq<Action>, n: nat)
    requires IsRun(run, actions) && n <= |actions|
    ensures DeletedKept(run[n]) <==> NoneLoses(run, actions, n)
  {
    hide Act, Inv, Loses, DeletedKept, History;
    if n == 0 {
      NoEpochYet(run[0]);
    } else {
      DeletedExactly(run, actions, n - 1);
      RunHistory(run, actions, n - 1);
      assert run[n] == Act(run[n - 1], actions[n - 1]);
      ActKept(run[n - 1], actions[n - 1]);
    }
  }

  lemma NoEpochYet(s: Sys)
    requires Epoch(s) == 0
    ensures DeletedKept(s)
  {
  }

  lemma KeptSplits(s: Sys)
    requires Recorded(s)
    ensures Kept(s) <==> DeletedKept(s) && NoneGone(s)
  {
    hide Handled, Retained;
    if Kept(s) {
      forall id: Id | id.epoch < Epoch(s) && IsMessage(s, id)
        ensures Handled(s, id) || Retained(s, id)
      {
        var a := Accepted(id.epoch, id.offset, MessageAt(s, id));
        assert a in s.accepted && IdOf(a) == id;
      }
    }
  }

  /** Every message that was ever appended, with an offset returned for it, is in the log under that
      offset, or was handled or retained, exactly when no truncation that succeeded found more messages
      on disk than its snapshot holds, and none was appended to a log that had been truncated since
      it was opened. */
  lemma NothingLost(run: seq<Sys>, actions: seq<Action>, n: nat)
    requires IsRun(run, actions) && n <= |actions|
    ensures Kept(run[n]) <==> NoneLoses(run, actions, n) && NoneVanishes(run, actions, n)
  {
    hide Act, Inv, Loses, Vanishing, Kept, Recorded, NoneGone, DeletedKept;
    DeletedExactly(run, actions, n);
    RunRecords(run, actions, n);
    KeptSplits(run[n]);
  }

  // ---------- the same in terms of what other processes do ----------

  lemma BeforeTruncate(s: Sys, a: Action)
    requires Inv(s) && Act(s, a).pc.AtTruncate?
    ensures a.Tick? && s.pc.AtRetain? && s.pc.snapshot == Act(s, a).pc.snapshot
    ensures Act(s, a).store.msgs == s.store.msgs + Payloads(Landing(s.sender, a.event.sends))
  {
    hide Grow, Valid, MovesLegally, PcFits, Looked;
    if a.Tick? {
      assert Effect(World(s, a.event), a.event, Step(s, a.event));
    }
  }

  lemma BeforeRetain(s: Sys, a: Action)
    requires Inv(s) && Act(s, a).pc.AtRetain?
    ensures a.Tick? && s.pc.AtSnapshot?
    ensures var w := World(s, a.event);
            && Valid(w.store) && Act(s, a).pc.snapshot == Snapshot(w.store)
            && Act(s, a).store.msgs == w.store.msgs
  {
    hide Grow, Valid, MovesLegally, PcFits, Looked, Snapshot;
    if a.Tick? {
      assert Effect(World(s, a.event), a.event, Step(s, a.event));
    }
  }

  /** A truncation comes two steps after its snapshot, and loses messages exactly when the snapshot
      was taken with a segment unknown, or messages were appended in the two steps. */
  lemma LosesByEvents(run: seq<Sys>, actions: seq<Action>, k: nat)
    requires IsRun(run, actions) && k < |actions|
    requires run[k].pc.AtTruncate? && actions[k].Tick? && actions[k].event.ok
    ensures k >= 2 && actions[k - 1].Tick? && actions[k - 2].Tick? && run[k - 2].pc.AtSnapshot?
    ensures var taken := World(run[k - 2], actions[k - 2].event).store;
            Loses(run[k], actions[k]) <==>
              || taken.segs < |taken.bases|
              || Landing(run[k - 1].sender, actions[k - 1].event.sends) != []
              || Landing(run[k].sender, actions[k].event.sends) != []
  {
    hide Act, World, Grow, Valid, PcFits, Snapshot, Inv;
    RunFits(run, actions, k);
    NotAtFirst(run, actions);
    assert run[k] == Act(run[k - 1], actions[k - 1]);
    BeforeTruncate(run[k - 1], actions[k - 1]);
    assert k >= 2;
    assert run[k - 1] == Act(run[k - 2], actions[k - 2]);
    BeforeRetain(run[k - 2], actions[k - 2]);
    WorldAppends(run[k], actions[k].event);
    SnapshotHoldsKnown(World(run[k - 2], actions[k - 2].event).store);
  }

  lemma NotAtFirst(run: seq<Sys>, actions: seq<Action>)
    requires IsRun(run, actions)
    ensures run[0].pc.AtStart?
  {
  }

  lemma WorldAppends(s: Sys, e: Event)
    requires Inv(s)
    ensures World(s, e).store.msgs == s.store.msgs + Payloads(Landing(s.sender, e.sends))
  {
    hide Grow, PcFits;
  }

  lemma SnapshotHoldsKnown(s: Store)
    requires Valid(s)
    ensures |Snapshot(s)| <= |s.msgs| && (|Snapshot(s)| == |s.msgs| <==> s.segs == |s.bases|)
    ensures s.segs <= |s.bases|
  {
  }

  /** If every look is safe and no truncation finds more than its snapshot, every message that was in
      the log is still to be delivered, or was handled, or is in a snapshot that the neb took over. */
  lemma MessageConserved(run: seq<Sys>, actions: seq<Action>, n: nat, id: Id)
    requires IsRun(run, actions) && n <= |actions| && LooksSafe(run, actions, n) && NoneLoses(run, actions, n)
    requires IsMessage(run[n], id)
    ensures || (id.epoch == Epoch(run[n]) && id.offset >= run[n].store.saved.consumed)
            || Handled(run[n], id)
            || Retained(run[n], id)
  {
    hide Act, Inv, Loses, LooksSafe, Handled, Retained;
    DeletedExactly(run, actions, n);
    if id.epoch == Epoch(run[n]) && id.offset < run[n].store.saved.consumed {
      AtLeastOnceDelivery(run, actions, n, id.offset);
    }
  }

  /** If also nobody appends to a log that has been truncated since it was opened, this holds of every
      message ever appended, under the offset that was returned for it. */
  lemma Conserved(run: seq<Sys>, actions: seq<Action>, n: nat, a: Accepted)
    requires IsRun(run, actions) && n <= |actions| && LooksSafe(run, actions, n) && NoneLoses(run, actions, n)
    requires NoneVanishes(run, actions, n) && a in run[n].accepted
    ensures IsIn(run[n], a)
    ensures || (a.epoch == Epoch(run[n]) && a.offset >= run[n].store.saved.consumed)
            || Handled(run[n], IdOf(a))
            || Retained(run[n], IdOf(a))
  {
    hide Act, Inv, Loses, Vanishing, LooksSafe, Handled, Retained, IsRun;
    RunRecords(run, actions, n);
    MessageConserved(run, actions, n, IdOf(a));
  }
}
