/** Whole runs: at-least-once delivery, and conservation across retention, each with the exact
    condition under which the code provides it. */
module Delivery {
  import opened Store
  import opened Pump

  /** The messages of an epoch. */
  function MessagesOf(s: Sys, epoch: nat): seq<Payload>
    requires epoch <= Epoch(s)
  {
    if epoch < Epoch(s) then s.archive[epoch] else s.store.msgs
  }

  ghost predicate IsMessage(s: Sys, id: Id) {
    id.epoch <= Epoch(s) && id.offset < |MessagesOf(s, id.epoch)|
  }

  function MessageAt(s: Sys, id: Id): Payload
    requires IsMessage(s, id)
  {
    MessagesOf(s, id.epoch)[id.offset]
  }

  /** Some process sent the message, with its offset and payload, and got a result. */
  ghost predicate Acked(s: Sys, id: Id)
    requires IsMessage(s, id)
  {
    exists c :: (c in s.past || c in s.calls) && c.ok && c.epoch == id.epoch
                && c.request == Message(id.offset, MessageAt(s, id))
  }

  /** The message is in the dead letter file. */
  ghost predicate Dead(s: Sys, id: Id)
    requires IsMessage(s, id)
  {
    exists i :: 0 <= i < |s.deadIds| && i < |s.store.dead|
                && s.deadIds[i] == id && s.store.dead[i] == MessageAt(s, id)
  }

  ghost predicate Handled(s: Sys, id: Id)
    requires IsMessage(s, id)
  {
    Acked(s, id) || Dead(s, id)
  }

  /** The message is in a snapshot that the neb has taken over. */
  ghost predicate Retained(s: Sys, id: Id)
    requires IsMessage(s, id)
  {
    exists i :: 0 <= i < |s.retained| && s.retained[i].0 == id.epoch
                && id.offset < |s.retained[i].1| && s.retained[i].1[id.offset] == MessageAt(s, id)
  }

  /** Every message below the saved cursor has been acknowledged or dead-lettered. */
  ghost predicate AtLeastOnce(s: Sys) {
    forall o: nat :: o < s.store.saved.consumed && IsMessage(s, Id(Epoch(s), o)) ==> Handled(s, Id(Epoch(s), o))
  }

  // ---------- the events that matter ----------

  /** The cursor is saved past a message that the store has answered wrongly. */
  ghost predicate Skips(s: Sys, a: Action) {
    && a.Tick? && a.event.ok && (s.pc.AtMark? || s.pc.AtDeadSave?)
    && s.pc.offset < |s.store.view| && s.pc.offset < |s.store.msgs|
    && s.store.view[s.pc.offset] != s.store.msgs[s.pc.offset]
  }

  /** A caught-up pump looks at the disk when the last segment it knows has grown and a segment has
      been added. */
  ghost predicate LooksUnsafely(s: Sys, a: Action)
    requires Inv(s)
  {
    && a.Tick? && a.event.ok && s.pc.AtHead?
    && var w := World(s, a.event);
       Valid(w.store) && !w.stop && w.store.cur.consumed >= w.store.known && !Safe(w.store)
  }

  ghost predicate LooksSafe(run: seq<Sys>, actions: seq<Action>, n: nat)
    requires IsRun(run, actions) && n <= |actions|
  {
    forall k {:trigger actions[k]} :: 0 <= k < n ==> !LooksUnsafely(run[k], actions[k])
  }

  /** A truncation succeeds that finds more messages on disk than its snapshot holds. */
  ghost predicate Loses(s: Sys, a: Action)
    requires Inv(s)
  {
    a.Tick? && a.event.ok && s.pc.AtTruncate? && |s.pc.snapshot| < |World(s, a.event).store.msgs|
  }

  // ---------- what a step adds to the histories ----------

  /** A step changes nothing about a message unless it sends, buries or retains it. */
  lemma EffectHandled(s: Sys, e: Event, r: Sys, id: Id)
    requires Inv(s) && Effect(s, e, r) && IsMessage(s, id)
    ensures IsMessage(r, id) && MessageAt(r, id) == MessageAt(s, id)
    ensures Handled(s, id) ==> Handled(r, id)
    ensures id != Id(Epoch(s), s.store.cur.consumed) ==> (Handled(r, id) ==> Handled(s, id))
    ensures Retained(s, id) ==> Retained(r, id)
    ensures id.epoch < Epoch(s) ==> (Retained(r, id) ==> Retained(s, id))
  {
    hide Follows, MovesLegally, Valid, Looked;
    AddedCall(s, e, r);
    if Acked(s, id) {
      var c :| (c in s.past || c in s.calls) && c.ok && c.epoch == id.epoch
               && c.request == Message(id.offset, MessageAt(s, id));
      assert c in r.past || c in r.calls;
    }
    if Dead(s, id) {
      var i :| 0 <= i < |s.deadIds| && i < |s.store.dead| && s.deadIds[i] == id
               && s.store.dead[i] == MessageAt(s, id);
      assert r.deadIds[i] == id && r.store.dead[i] == MessageAt(r, id);
    }
    if Retained(s, id) {
      var i :| 0 <= i < |s.retained| && s.retained[i].0 == id.epoch
               && id.offset < |s.retained[i].1| && s.retained[i].1[id.offset] == MessageAt(s, id);
      assert r.retained[i] == s.retained[i];
    }
  }

  /** A call that a step adds is about the message at the cursor, if about any. */
  lemma AddedCall(s: Sys, e: Event, r: Sys)
    requires Inv(s) && Effect(s, e, r)
    ensures s.calls <= r.calls && s.deadIds <= r.deadIds && s.store.dead <= r.store.dead && s.retained <= r.retained
    ensures forall c :: c in r.calls && c !in s.calls && c.request.Message? ==>
              c.epoch == Epoch(s) && c.request.offset == s.store.cur.consumed < |s.store.view|
              && c.request.payload == s.store.view[s.store.cur.consumed]
    ensures forall i :: |s.deadIds| <= i < |r.deadIds| ==>
              r.deadIds[i] == Id(Epoch(s), s.store.cur.consumed) && s.store.cur.consumed < |s.store.view|
              && i < |r.store.dead| && r.store.dead[i] == s.store.view[s.store.cur.consumed]
    ensures forall i :: |s.retained| <= i < |r.retained| ==>
              s.pc.AtRetain? && r.retained[i] == (Epoch(s), s.pc.snapshot)
  {
    hide Follows, MovesLegally, Valid, Looked, Stores;
  }

  lemma SameHandled(s: Sys, r: Sys, id: Id)
    requires IsMessage(s, id) && IsMessage(r, id) && MessageAt(r, id) == MessageAt(s, id)
    requires forall c :: (c in s.past || c in s.calls) <==> (c in r.past || c in r.calls)
    requires r.deadIds == s.deadIds && r.store.dead == s.store.dead && r.retained == s.retained
    ensures Handled(r, id) <==> Handled(s, id)
    ensures Retained(r, id) <==> Retained(s, id)
  {
  }

  // ---------- what the histories have to do with the store ----------

  /** The messages that a snapshot of this epoch can hold. */
  function Covered(s: Sys): nat {
    if s.pc.AtRetain? || s.pc.AtTruncate? then |s.pc.snapshot|
    else if s.pc.Returned? || s.pc.Panicked? then |s.store.msgs|
    else End(s.store, s.store.segs)
  }

  /** What was sent or buried in this epoch is what the store answers: for this process as sent, for
      earlier ones, after which everything was read anew, as it is on disk. */
  ghost predicate CallsAnswered(s: Sys) {
    var view, msgs := s.store.view, s.store.msgs;
    && (forall c :: c in s.past || c in s.calls ==> c.epoch <= Epoch(s))
    && (forall c :: c in s.past && c.request.Message? && c.epoch == Epoch(s) ==>
          c.request.offset < |view| && c.request.offset < |msgs| && view[c.request.offset] == msgs[c.request.offset])
    && (forall c :: c in s.calls && c.request.Message? && c.epoch == Epoch(s) ==>
          c.request.offset < |view| && view[c.request.offset] == c.request.payload)
  }

  ghost predicate DeadAnswered(s: Sys) {
    var view, msgs := s.store.view, s.store.msgs;
    && |s.deadIds| == |s.store.dead| && s.startDead <= |s.deadIds|
    && forall i :: 0 <= i < |s.deadIds| ==>
         && s.deadIds[i].epoch <= Epoch(s)
         && (s.deadIds[i].epoch == Epoch(s) ==>
               && s.deadIds[i].offset < |view|
               && (i < s.startDead ==>
                     s.deadIds[i].offset < |msgs| && view[s.deadIds[i].offset] == msgs[s.deadIds[i].offset])
               && (i >= s.startDead ==> view[s.deadIds[i].offset] == s.store.dead[i]))
  }

  ghost predicate RetainedCovered(s: Sys) {
    forall i :: 0 <= i < |s.retained| ==>
      && s.retained[i].0 <= Epoch(s)
      && (s.retained[i].0 == Epoch(s) ==> |s.retained[i].1| <= Covered(s) <= |s.store.msgs|)
  }

  ghost predicate History(s: Sys) {
    CallsAnswered(s) && DeadAnswered(s) && RetainedCovered(s)
  }

  lemma ViewBounded(s: Store)
    requires Valid(s)
    ensures |s.view| <= s.known <= |s.msgs| && End(s, s.segs) <= |s.msgs|
  {
  }

  lemma WorldHistory(s: Sys, e: Event)
    requires Inv(s) && History(s)
    ensures History(World(s, e))
  {
    hide Valid, Grow, PcFits;
    ViewBounded(s.store);
    ViewBounded(World(s, e).store);
  }

  lemma EffectCalls(s: Sys, e: Event, r: Sys)
    requires Inv(s) && Effect(s, e, r) && CallsAnswered(s)
    ensures CallsAnswered(r)
  {
    hide Follows, MovesLegally, Valid, Looked, PcFits;
    AddedCall(s, e, r);
    StoreGrows(s, e, r);
    assert forall c :: c in r.calls && c !in s.calls ==> c.epoch == Epoch(s);
  }

  lemma StoreGrows(s: Sys, e: Event, r: Sys)
    requires Inv(s) && Effect(s, e, r)
    ensures Epoch(s) <= Epoch(r) <= Epoch(s) + 1
    ensures Epoch(r) == Epoch(s) ==> s.store.view <= r.store.view && r.store.msgs == s.store.msgs
                                     && End(s.store, s.store.segs) <= End(r.store, r.store.segs)
    ensures Epoch(r) == Epoch(s) <==> !(s.pc.AtTruncate? && e.ok)
    ensures Epoch(r) > Epoch(s) ==> r.store.saved.consumed == 0
  {
    hide Follows, MovesLegally, Valid;
  }

  lemma EffectDead(s: Sys, e: Event, r: Sys)
    requires Inv(s) && Effect(s, e, r) && DeadAnswered(s)
    ensures DeadAnswered(r)
  {
    hide Follows, MovesLegally, Valid, Looked, PcFits, Stores;
    AddedCall(s, e, r);
    StoreGrows(s, e, r);
    assert forall i :: 0 <= i < |s.deadIds| ==> r.deadIds[i] == s.deadIds[i] && r.store.dead[i] == s.store.dead[i];
  }

  lemma EffectRetained(s: Sys, e: Event, r: Sys)
    requires Inv(s) && Inv(r) && Effect(s, e, r) && RetainedCovered(s)
    ensures RetainedCovered(r)
  {
    hide MovesLegally, Valid, Looked, Stores;
    AddedCall(s, e, r);
    StoreGrows(s, e, r);
    ViewBounded(s.store);
    ViewBounded(r.store);
    assert forall i :: 0 <= i < |s.retained| ==> r.retained[i] == s.retained[i];
  }

  lemma RestartHistory(s: Sys, cfg: Config)
    requires Inv(s) && History(s)
    ensures History(Restart(s, cfg))
  {
    hide PcFits, Valid;
    ViewBounded(s.store);
    var r := Restart(s, cfg);
    assert r.store.view == s.store.msgs;
    assert End(r.store, r.store.segs) <= |r.store.msgs| by {
      ViewBounded(r.store);
    }
    AllCovered(s);
  }

  lemma AllCovered(s: Sys)
    requires Inv(s)
    ensures Covered(s) <= |s.store.msgs| == End(Reopened(s.store), |s.store.bases|)
  {
  }

  lemma ActHistory(s: Sys, a: Action)
    requires Inv(s) && History(s)
    ensures History(Act(s, a))
  {
    hide Step, World, Restart, Inv, Effect, CallsAnswered, DeadAnswered, RetainedCovered;
    match a
    case Tick(e) =>
      var w, r := World(s, e), Step(s, e);
      WorldHistory(s, e);
      EffectCalls(w, e, r);
      EffectDead(w, e, r);
      EffectRetained(w, e, r);
    case Restarted(cfg) =>
      RestartHistory(s, cfg);
  }

  lemma {:induction false} RunHistory(run: seq<Sys>, actions: seq<Action>, n: nat)
    requires IsRun(run, actions) && n <= |actions|
    ensures Inv(run[n]) && History(run[n])
  {
    hide Act, Inv;
    RunFits(run, actions, n);
    if n > 0 {
      RunHistory(run, actions, n - 1);
      assert run[n] == Act(run[n - 1], actions[n - 1]);
      ActHistory(run[n - 1], actions[n - 1]);
    }
  }

  // ---------- at-least-once delivery, exactly ----------

  /** Marking leaves the message at the cursor handled exactly if it is the one that was sent. */
  lemma MarkedIsHandled(s: Sys)
    requires Inv(s) && History(s) && (s.pc.AtMark? || s.pc.AtDeadSave?)
    ensures var id := Id(Epoch(s), s.store.cur.consumed);
            && id.offset == s.pc.offset < |s.store.view| && IsMessage(s, id)
            && (Handled(s, id) <==> s.store.view[id.offset] == MessageAt(s, id))
  {
    hide Valid, RetainedCovered;
    ViewBounded(s.store);
    var id := Id(Epoch(s), s.store.cur.consumed);
    var p := MessageAt(s, id);
    if s.store.view[id.offset] == p {
      if s.pc.AtMark? {
        assert s.calls[|s.calls| - 1] in s.calls;
        assert Acked(s, id);
      } else {
        assert s.deadIds[|s.deadIds| - 1] == id;
        assert Dead(s, id);
      }
    }
    if Handled(s, id) {
      HandledIsAnswered(s, id);
    }
  }

  lemma HandledIsAnswered(s: Sys, id: Id)
    requires History(s) && IsMessage(s, id) && id.epoch == Epoch(s) && Handled(s, id)
    ensures id.offset < |s.store.view| && s.store.view[id.offset] == MessageAt(s, id)
  {
    hide RetainedCovered;
    if Acked(s, id) {
      var c :| (c in s.past || c in s.calls) && c.ok && c.epoch == id.epoch
               && c.request == Message(id.offset, MessageAt(s, id));
      assert c in s.past || c in s.calls;
    } else {
      var i :| 0 <= i < |s.deadIds| && i < |s.store.dead| && s.deadIds[i] == id
               && s.store.dead[i] == MessageAt(s, id);
      assert s.deadIds[i].epoch == Epoch(s);
    }
  }

  lemma EffectDelivers(s: Sys, e: Event, r: Sys)
    requires Inv(s) && Inv(r) && History(s) && Effect(s, e, r) && Epoch(r) == Epoch(s)
    ensures AtLeastOnce(r) <==> AtLeastOnce(s) && !Skips(s, Tick(e))
  {
    hide Follows, MovesLegally, Valid, Looked, Records, History, Handled, Retained, PcFits;
    ViewBounded(s.store);
    ViewBounded(r.store);
    StoreGrows(s, e, r);
    var n := s.store.saved.consumed;
    forall o: nat | o < n
      ensures IsMessage(s, Id(Epoch(s), o)) && IsMessage(r, Id(Epoch(s), o))
      ensures Handled(r, Id(Epoch(s), o)) <==> Handled(s, Id(Epoch(s), o))
    {
      EffectHandled(s, e, r, Id(Epoch(s), o));
    }
    if e.ok && (s.pc.AtMark? || s.pc.AtDeadSave?) {
      MarkedIsHandled(s);
      SavedIsCursor(s);
      MarkHandlesNothingElse(s, e, r);
    } else {
      assert r.store.saved.consumed == n;
    }
  }

  lemma SavedIsCursor(s: Sys)
    requires Inv(s) && !s.pc.Returned?
    ensures s.store.saved == s.store.cur
  {
  }

  lemma MarkHandlesNothingElse(s: Sys, e: Event, r: Sys)
    requires Inv(s) && Effect(s, e, r) && (s.pc.AtMark? || s.pc.AtDeadSave?)
    requires IsMessage(s, Id(Epoch(s), s.store.cur.consumed))
    ensures var id := Id(Epoch(s), s.store.cur.consumed);
            IsMessage(r, id) && MessageAt(r, id) == MessageAt(s, id) && (Handled(r, id) <==> Handled(s, id))
  {
    hide Follows, MovesLegally, Valid, Looked, PcFits;
    SameHandled(s, r, Id(Epoch(s), s.store.cur.consumed));
  }

  lemma WorldHandled(s: Sys, e: Event, id: Id)
    requires Inv(s) && IsMessage(s, id)
    ensures var w := World(s, e);
            && IsMessage(w, id) && MessageAt(w, id) == MessageAt(s, id)
            && (Handled(w, id) <==> Handled(s, id)) && (Retained(w, id) <==> Retained(s, id))
  {
    hide Valid, Grow, PcFits;
    SameHandled(s, World(s, e), id);
  }

  lemma WorldDelivers(s: Sys, e: Event)
    requires Inv(s)
    ensures AtLeastOnce(World(s, e)) <==> AtLeastOnce(s)
    ensures Skips(World(s, e), Tick(e)) <==> Skips(s, Tick(e))
  {
    hide Grow, Handled, PcFits, Valid;
    ViewBounded(s.store);
    var w := World(s, e);
    assert Epoch(w) == Epoch(s) && w.store.saved == s.store.saved;
    forall o: nat | o < s.store.saved.consumed
      ensures IsMessage(s, Id(Epoch(s), o)) && IsMessage(w, Id(Epoch(s), o))
      ensures Handled(w, Id(Epoch(s), o)) <==> Handled(s, Id(Epoch(s), o))
    {
      WorldHandled(s, e, Id(Epoch(s), o));
    }
  }

  lemma RestartHandled(s: Sys, cfg: Config, id: Id)
    requires Inv(s) && IsMessage(s, id)
    ensures var r := Restart(s, cfg);
            && IsMessage(r, id) && MessageAt(r, id) == MessageAt(s, id)
            && (Handled(r, id) <==> Handled(s, id)) && (Retained(r, id) <==> Retained(s, id))
  {
    hide Valid, PcFits;
    SameHandled(s, Restart(s, cfg), id);
  }

  lemma RestartDelivers(s: Sys, cfg: Config)
    requires Inv(s)
    ensures AtLeastOnce(Restart(s, cfg)) <==> AtLeastOnce(s)
  {
    hide Handled, PcFits, Valid;
    ViewBounded(s.store);
    var r := Restart(s, cfg);
    forall o: nat | o < s.store.saved.consumed
      ensures IsMessage(s, Id(Epoch(s), o)) && IsMessage(r, Id(Epoch(s), o))
      ensures Handled(r, Id(Epoch(s), o)) <==> Handled(s, Id(Epoch(s), o))
    {
      RestartHandled(s, cfg, Id(Epoch(s), o));
    }
  }

  lemma ActDelivers(s: Sys, a: Action)
    requires Inv(s) && History(s)
    ensures var r := Act(s, a);
            && Epoch(s) <= Epoch(r)
            && (Epoch(r) == Epoch(s) ==> (AtLeastOnce(r) <==> AtLeastOnce(s) && !Skips(s, a)))
            && (Epoch(r) > Epoch(s) ==> AtLeastOnce(r))
  {
    hide Step, World, Restart, Inv, Effect, History, AtLeastOnce, Skips;
    match a
    case Tick(e) =>
      var w, r := World(s, e), Step(s, e);
      WorldHistory(s, e);
      WorldDelivers(s, e);
      WorldSameEpoch(s, e);
      StoreGrows(w, e, r);
      if Epoch(r) == Epoch(s) {
        EffectDelivers(w, e, r);
      } else {
        NothingSaved(r);
      }
    case Restarted(cfg) =>
      RestartDelivers(s, cfg);
      RestartSkipsNothing(s, cfg);
  }

  lemma WorldSameEpoch(s: Sys, e: Event)
    requires Inv(s)
    ensures Epoch(World(s, e)) == Epoch(s) && (History(s) ==> History(World(s, e)))
  {
    hide Inv, History;
    if History(s) {
      WorldHistory(s, e);
    }
  }

  lemma NothingSaved(s: Sys)
    requires s.store.saved.consumed == 0
    ensures AtLeastOnce(s)
  {
  }

  lemma RestartSkipsNothing(s: Sys, cfg: Config)
    requires Inv(s)
    ensures Epoch(Restart(s, cfg)) == Epoch(s) && !Skips(s, Restarted(cfg))
  {
  }

  lemma {:induction false} EpochsRise(run: seq<Sys>, actions: seq<Action>, k: nat, n: nat)
    requires IsRun(run, actions) && k <= n <= |actions|
    ensures Epoch(run[k]) <= Epoch(run[n])
    decreases n
  {
    hide Act, Inv, Skips, AtLeastOnce;
    if k < n {
      EpochsRise(run, actions, k, n - 1);
      RunHistory(run, actions, n - 1);
      assert run[n] == Act(run[n - 1], actions[n - 1]);
      ActDelivers(run[n - 1], actions[n - 1]);
    }
  }

  /** In every run, with any crashes and restarts, every message below the saved cursor was sent with
      its offset and payload and acknowledged, or is in the dead letter file, exactly when in this
      epoch the cursor was never saved past a message that the store had answered wrongly. */
  lemma {:induction false} DeliveredExactly(run: seq<Sys>, actions: seq<Action>, n: nat)
    requires IsRun(run, actions) && n <= |actions|
    ensures AtLeastOnce(run[n]) <==>
            forall k {:trigger actions[k]} ::
              0 <= k < n && Epoch(run[k]) == Epoch(run[n]) ==> !Skips(run[k], actions[k])
  {
    hide Act, Inv, Skips, AtLeastOnce, History;
    if n == 0 {
      NothingSaved(run[0]);
    } else {
      var s, r, a := run[n - 1], run[n], actions[n - 1];
      DeliveredExactly(run, actions, n - 1);
      RunHistory(run, actions, n - 1);
      assert r == Act(s, a);
      ActDelivers(s, a);
      forall k | 0 <= k < n
        ensures Epoch(run[k]) <= Epoch(s)
      {
        EpochsRise(run, actions, k, n - 1);
      }
    }
  }

  // ---------- when looks are safe ----------

  lemma WorldFaithful(s: Sys, e: Event)
    requires Inv(s) && Faithful(s.store)
    ensures Faithful(World(s, e).store) && Valid(World(s, e).store)
  {
    hide Grow, PcFits;
  }

  lemma LookedFaithful(s: Store)
    requires Valid(s) && Faithful(s) && s.cur.consumed <= s.known
    ensures Faithful(Looked(s)) <==> s.cur.consumed < s.known || Safe(s)
  {
    hide Valid;
    if s.cur.consumed >= s.known {
      LookedAtKnown(s);
    }
  }

  lemma LookedAtKnown(s: Store)
    requires Valid(s) && Faithful(s)
    ensures Faithful(Look(s)) <==> Safe(s)
  {
    if Safe(s) {
      assert s.msgs[..s.known] + s.msgs[s.known..] == s.msgs;
      assert s.msgs[..|s.msgs|] == s.msgs;
    } else {
      assert |Look(s).view| < |s.msgs|;
    }
  }

  lemma ActFaithful(s: Sys, a: Action)
    requires Inv(s) && Faithful(s.store)
    ensures Faithful(Act(s, a).store) <==> !LooksUnsafely(s, a)
  {
    hide Restart, World, Valid, Looked, PcFits, Records, MovesLegally, Follows, Safe, Found;
    if a.Tick? {
      var e := a.event;
      var w, r := World(s, e), Step(s, e);
      WorldFaithful(s, e);
      WorldSamePc(s, e);
      assert Inv(w) && Effect(w, e, r);
      LookedFaithful(w.store);
    }
  }

  lemma WorldSamePc(s: Sys, e: Event)
    requires Inv(s)
    ensures World(s, e).pc == s.pc && World(s, e).stop == (s.stop || e.stop)
  {
  }

  lemma {:induction false} RunFaithful(run: seq<Sys>, actions: seq<Action>, n: nat)
    requires IsRun(run, actions) && n <= |actions| && LooksSafe(run, actions, n)
    ensures Faithful(run[n].store)
  {
    hide Act, Inv, LooksUnsafely;
    if n > 0 {
      RunFaithful(run, actions, n - 1);
      assert run[n] == Act(run[n - 1], actions[n - 1]);
      ActFaithful(run[n - 1], actions[n - 1]);
    }
  }

  /** The store has answered rightly at every moment of a run exactly when all its looks were safe. */
  lemma FaithfulExactly(run: seq<Sys>, actions: seq<Action>, n: nat)
    requires IsRun(run, actions) && n <= |actions|
    ensures LooksSafe(run, actions, n) <==> forall k :: 0 <= k <= n ==> Faithful(run[k].store)
  {
    hide Act, Inv, LooksUnsafely, Faithful;
    if LooksSafe(run, actions, n) {
      forall k | 0 <= k <= n
        ensures Faithful(run[k].store)
      {
        RunFaithful(run, actions, k);
      }
    }
    if forall k :: 0 <= k <= n ==> Faithful(run[k].store) {
      forall k | 0 <= k < n
        ensures !LooksUnsafely(run[k], actions[k])
      {
        assert run[k + 1] == Act(run[k], actions[k]);
        ActFaithful(run[k], actions[k]);
      }
    }
  }

  /** If every look of a run is safe, every message below the saved cursor was sent with its offset
      and payload and acknowledged, or is in the dead letter file, whatever crashes there were. */
  lemma AtLeastOnceDelivery(run: seq<Sys>, actions: seq<Action>, n: nat, offset: nat)
    requires IsRun(run, actions) && n <= |actions| && LooksSafe(run, actions, n)
    requires offset < run[n].store.saved.consumed
    ensures var id := Id(Epoch(run[n]), offset); IsMessage(run[n], id) && Handled(run[n], id)
  {
    hide Act, LooksUnsafely, Handled, Valid;
    forall k | 0 <= k < n
      ensures !Skips(run[k], actions[k])
    {
      RunFaithful(run, actions, k);
    }
    DeliveredExactly(run, actions, n);
    RunFits(run, actions, n);
    ViewBounded(run[n].store);
  }
}
