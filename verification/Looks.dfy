/** At-least-once delivery in terms of the looks of a run, for messages that differ from each other:
    it fails exactly if a process saves its cursor beyond what it knew before a look that missed
    messages. */
module Looks {
  import opened Store
  import opened Senders
  import opened Pump
  import opened Delivery

  ghost predicate Distinct(msgs: seq<Payload>) {
    forall i, j :: 0 <= i < j < |msgs| ==> msgs[i] != msgs[j]
  }

  /** No restart from state k to state j. */
  ghost predicate SameProcess(actions: seq<Action>, k: nat, j: nat)
    requires k <= j <= |actions|
  {
    forall i {:trigger actions[i]} :: k <= i < j ==> actions[i].Tick?
  }

  /** In one process and epoch: a look at k that misses messages, and at j a cursor saved beyond those
      known before. */
  ghost predicate Passes(run: seq<Sys>, actions: seq<Action>, k: nat, j: nat)
    requires IsRun(run, actions) && k < j <= |actions|
  {
    && LooksUnsafely(run[k], actions[k]) && SameProcess(actions, k, j)
    && Epoch(run[j]) == Epoch(run[k]) && run[j].store.saved.consumed > run[k].store.known
  }

  // ---------- one step ----------

  /** Within an epoch a process forgets nothing, and it moves the saved cursor when it marks. */
  lemma TickKeeps(s: Sys, e: Event)
    requires Inv(s) && Epoch(Step(s, e)) == Epoch(s)
    ensures var r := Step(s, e);
            && s.store.view <= r.store.view && s.store.msgs <= r.store.msgs
            && (if e.ok && (s.pc.AtMark? || s.pc.AtDeadSave?)
                then s.store.saved.consumed == s.pc.offset && r.store.saved.consumed == s.pc.offset + 1
                else r.store.saved.consumed == s.store.saved.consumed)
  {
    hide Step, Follows, MovesLegally, Records, Checks, Valid, Looked, Grow, Landing, Accepting, After;
    var w := World(s, e);
    assert Effect(w, e, Step(s, e));
    StoreGrows(w, e, Step(s, e));
  }

  /** What the process has consumed, it could answer. */
  ghost predicate CursorInView(s: Sys) {
    s.store.saved.consumed <= s.store.cur.consumed <= |s.store.view|
  }

  lemma ActInView(s: Sys, a: Action)
    requires Inv(s) && CursorInView(s)
    ensures CursorInView(Act(s, a))
  {
    hide Step, Follows, MovesLegally, Records, Checks, Valid, Grow, Landing, Accepting, After;
    match a
    case Tick(e) =>
      assert Effect(World(s, e), e, Step(s, e));
    case Restarted(cfg) =>
      ViewBounded(s.store);
  }

  lemma {:induction false} RunInView(run: seq<Sys>, actions: seq<Action>, n: nat)
    requires IsRun(run, actions) && n <= |actions|
    ensures Inv(run[n]) && CursorInView(run[n])
  {
    hide Act, Inv;
    RunFits(run, actions, n);
    if n > 0 {
      RunInView(run, actions, n - 1);
      assert run[n] == Act(run[n - 1], actions[n - 1]);
      ActInView(run[n - 1], actions[n - 1]);
    }
  }

  /** A look that misses messages gives, for the first offset that was not known, a message further
      on. */
  lemma LookMisses(s: Sys, e: Event)
    requires Inv(s) && CursorInView(s) && LooksUnsafely(s, Tick(e))
    ensures var r, known := Step(s, e), s.store.known;
            && Epoch(r) == Epoch(s) && r.store.saved.consumed == s.store.saved.consumed == known
            && known < |r.store.view| && known < |r.store.msgs|
            && exists f :: known < f < |r.store.msgs| && r.store.view[known] == r.store.msgs[f]
  {
    hide Step, Follows, MovesLegally, Records, Checks, Grow, Landing, Accepting, After;
    var w := World(s, e);
    assert Effect(w, e, Step(s, e));
    WorldSamePc(s, e);
    StoreGrows(w, e, Step(s, e));
    var f := Found(w.store);
    assert Step(s, e).store.view[s.store.known] == w.store.msgs[f];
  }

  // ---------- from a look to a skipped message ----------

  /** The message at an offset is answered wrongly. */
  ghost predicate Wrong(s: Sys, o: nat) {
    o < |s.store.view| && o < |s.store.msgs| && s.store.view[o] != s.store.msgs[o]
  }

  lemma WrongStays(s: Sys, e: Event, o: nat)
    requires Inv(s) && Wrong(s, o) && s.store.saved.consumed == o && !Skips(s, Tick(e))
    requires Epoch(Step(s, e)) == Epoch(s)
    ensures Wrong(Step(s, e), o) && Step(s, e).store.saved.consumed == o
  {
    hide Step, Inv;
    TickKeeps(s, e);
  }

  lemma {:induction false} CursorStays(run: seq<Sys>, actions: seq<Action>, k: nat, j: nat, o: nat)
    requires IsRun(run, actions) && k <= j <= |actions| && SameProcess(actions, k, j)
    requires Epoch(run[j]) == Epoch(run[k])
    requires Wrong(run[k], o) && run[k].store.saved.consumed == o
    requires forall i {:trigger actions[i]} :: k <= i < j ==> !Skips(run[i], actions[i])
    ensures run[j].store.saved.consumed == o && Wrong(run[j], o)
    decreases j
  {
    hide Act, Inv, Step, Wrong, Skips;
    if k < j {
      EpochsRise(run, actions, k, j - 1);
      EpochsRise(run, actions, j - 1, j);
      CursorStays(run, actions, k, j - 1, o);
      RunFits(run, actions, j - 1);
      assert actions[j - 1].Tick? && run[j] == Act(run[j - 1], actions[j - 1]);
      ActTick(run[j - 1], actions[j - 1]);
      WrongStays(run[j - 1], actions[j - 1].event, o);
    }
  }

  /** A cursor that passes what a look found known skips a message. */
  lemma PassingSkips(run: seq<Sys>, actions: seq<Action>, k: nat, j: nat)
    requires IsRun(run, actions) && k < j <= |actions| && Passes(run, actions, k, j)
    requires Distinct(run[j].store.msgs)
    ensures exists i {:trigger actions[i]} ::
              k < i < j && Epoch(run[i]) == Epoch(run[j]) && Skips(run[i], actions[i])
  {
    hide Act, Inv, Step, Skips;
    var known := run[k].store.known;
    RunInView(run, actions, k);
    assert actions[k].Tick? && run[k + 1] == Act(run[k], actions[k]);
    ActTick(run[k], actions[k]);
    LookMisses(run[k], actions[k].event);
    EpochsRise(run, actions, k + 1, j);
    MessagesGrow(run, actions, k + 1, j);
    if forall i {:trigger actions[i]} :: k < i < j ==> !Skips(run[i], actions[i]) {
      CursorStays(run, actions, k + 1, j, known);
      assert false;
    }
    var i :| k < i < j && Skips(run[i], actions[i]);
    EpochsRise(run, actions, k, i);
    EpochsRise(run, actions, i, j);
  }

  lemma {:induction false} MessagesGrow(run: seq<Sys>, actions: seq<Action>, k: nat, j: nat)
    requires IsRun(run, actions) && k <= j <= |actions| && Epoch(run[j]) == Epoch(run[k])
    ensures run[k].store.msgs <= run[j].store.msgs
    decreases j
  {
    hide Act, Inv;
    if k < j {
      EpochsRise(run, actions, k, j - 1);
      EpochsRise(run, actions, j - 1, j);
      MessagesGrow(run, actions, k, j - 1);
      RunFits(run, actions, j - 1);
      assert run[j] == Act(run[j - 1], actions[j - 1]);
      ActGrows(run[j - 1], actions[j - 1]);
    }
  }

  lemma ActGrows(s: Sys, a: Action)
    requires Inv(s) && Epoch(Act(s, a)) == Epoch(s)
    ensures s.store.msgs <= Act(s, a).store.msgs
  {
    hide Step, Inv;
    if a.Tick? {
      TickKeeps(s, a.event);
    } else {
      RestartMessages(s, a.cfg);
    }
  }

  lemma RestartMessages(s: Sys, cfg: Config)
    requires Inv(s)
    ensures Restart(s, cfg).store.msgs == s.store.msgs
  {
  }

  // ---------- from a skipped message to a look ----------

  /** Of a store that answers wrongly: the look, of the same process and epoch, before which it still
      answered rightly. */
  ghost predicate MisledAt(run: seq<Sys>, actions: seq<Action>, k: nat, n: nat)
    requires IsRun(run, actions) && k < n <= |actions|
  {
    && LooksUnsafely(run[k], actions[k]) && Faithful(run[k].store) && SameProcess(actions, k, n)
    && Epoch(run[n]) == Epoch(run[k])
  }

  lemma ActUnfaithful(s: Sys, a: Action)
    requires Inv(s) && !Faithful(Act(s, a).store)
    ensures a.Tick? && Epoch(Act(s, a)) == Epoch(s)
    ensures Faithful(s.store) ==> LooksUnsafely(s, a)
  {
    hide Step, Follows, MovesLegally, Records, Checks, Valid, Looked, Grow, Landing, Accepting, After, LooksUnsafely;
    if Faithful(s.store) {
      ActFaithful(s, a);
    }
    if a.Tick? {
      assert Effect(World(s, a.event), a.event, Step(s, a.event));
      StoreGrows(World(s, a.event), a.event, Step(s, a.event));
    }
  }

  lemma {:induction false} WhoMisled(run: seq<Sys>, actions: seq<Action>, n: nat) returns (k: nat)
    requires IsRun(run, actions) && n <= |actions| && !Faithful(run[n].store)
    ensures k < n && MisledAt(run, actions, k, n)
  {
    hide Act, Inv, Faithful, LooksUnsafely;
    if n == 0 {
      FirstFaithful(run[0]);
    }
    var s, a := run[n - 1], actions[n - 1];
    RunFits(run, actions, n - 1);
    assert run[n] == Act(s, a);
    ActUnfaithful(s, a);
    if Faithful(s.store) {
      return n - 1;
    }
    k := WhoMisled(run, actions, n - 1);
  }

  lemma FirstFaithful(s: Sys)
    requires s == Initial(s.cfg)
    ensures Faithful(s.store)
  {
  }

  /** A process that skips a message has passed what a look found known. */
  lemma SkippingPasses(run: seq<Sys>, actions: seq<Action>, i: nat) returns (k: nat)
    requires IsRun(run, actions) && i < |actions| && Skips(run[i], actions[i])
    ensures k < i && Passes(run, actions, k, i + 1) && Epoch(run[k]) == Epoch(run[i])
  {
    hide Act, Inv, LooksUnsafely, Step;
    WrongIsUnfaithful(run[i], run[i].pc.offset);
    k := WhoMisled(run, actions, i);
    RunFits(run, actions, i);
    assert run[i + 1] == Act(run[i], actions[i]);
    ActTick(run[i], actions[i]);
    MarksStayInEpoch(run[i], actions[i].event);
    TickKeeps(run[i], actions[i].event);
    RightBelow(run, actions, k, i);
  }

  lemma WrongIsUnfaithful(s: Sys, o: nat)
    requires Wrong(s, o)
    ensures !Faithful(s.store)
  {
  }

  lemma MarksStayInEpoch(s: Sys, e: Event)
    requires Inv(s) && (s.pc.AtMark? || s.pc.AtDeadSave?)
    ensures Epoch(Step(s, e)) == Epoch(s)
  {
    hide Step, Follows, MovesLegally, Records, Checks, Valid, Looked, Grow, Landing, Accepting, After;
    assert Effect(World(s, e), e, Step(s, e));
    StoreGrows(World(s, e), e, Step(s, e));
  }

  /** What it knew before the look it goes on answering rightly. */
  lemma {:induction false} RightBelow(run: seq<Sys>, actions: seq<Action>, k: nat, n: nat)
    requires IsRun(run, actions) && k <= n <= |actions| && Faithful(run[k].store) && SameProcess(actions, k, n)
    requires Epoch(run[n]) == Epoch(run[k])
    ensures run[k].store.view <= run[n].store.view && run[k].store.view <= run[n].store.msgs
    decreases n
  {
    hide Act, Inv, Step;
    if k < n {
      EpochsRise(run, actions, k, n - 1);
      EpochsRise(run, actions, n - 1, n);
      RightBelow(run, actions, k, n - 1);
      RunFits(run, actions, n - 1);
      assert actions[n - 1].Tick? && run[n] == Act(run[n - 1], actions[n - 1]);
      ActTick(run[n - 1], actions[n - 1]);
      TickKeeps(run[n - 1], actions[n - 1].event);
    }
  }

  // ---------- the theorem ----------

  /** If the messages of the epoch differ from each other: every message below the saved cursor was
      sent and acknowledged, or is in the dead letter file, exactly if no process has, in this epoch,
      saved its cursor beyond what it knew before a look that missed messages. */
  lemma DeliveredByLooks(run: seq<Sys>, actions: seq<Action>, n: nat)
    requires IsRun(run, actions) && n <= |actions| && Distinct(run[n].store.msgs)
    ensures AtLeastOnce(run[n]) <==>
            !exists k, j :: 0 <= k < j <= n && Epoch(run[k]) == Epoch(run[n]) && Passes(run, actions, k, j)
  {
    hide Act, Inv, Skips, AtLeastOnce, Passes;
    DeliveredExactly(run, actions, n);
    if k, j :| 0 <= k < j <= n && Epoch(run[k]) == Epoch(run[n]) && Passes(run, actions, k, j) {
      EpochsRise(run, actions, k, j);
      EpochsRise(run, actions, j, n);
      MessagesGrow(run, actions, j, n);
      PassingSkips(run, actions, k, j);
    }
    if i :| 0 <= i < n && Epoch(run[i]) == Epoch(run[n]) && Skips(run[i], actions[i]) {
      var k := SkippingPasses(run, actions, i);
      assert Passes(run, actions, k, i + 1);
    }
  }
}
