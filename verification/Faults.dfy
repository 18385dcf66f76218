/** Runs in which the code loses sight of a message: by a look that is not safe, by a truncation that
    finds more than its snapshot, and by a sender whose log is truncated. */
module Faults {
  import opened Store
  import opened Senders
  import opened Pump
  import opened Delivery
  import opened Ledger
  import opened Conservation
  import Packing

  /** An interaction that succeeds while nothing else happens. */
  const SUCCESS := Event([], false, true, false)

  lemma QuietStep(s: Sys)
    requires Inv(s)
    ensures World(s, SUCCESS) == s && Effect(s, SUCCESS, Step(s, SUCCESS))
    ensures After(s.sender, SUCCESS.sends) == s.sender
  {
    hide Effect, Grow, PcFits, Valid;
  }

  /** A pump at its loop head that looks, has been answered rightly so far, and finds something. */
  ghost predicate FindsNew(s: Sys, e: Event)
    requires Inv(s)
  {
    var w := World(s, e);
    && s.pc.AtHead? && Faithful(s.store) && AtLeastOnce(s) && s.cfg.maxRetries >= 0
    && e.ok && !w.stop && Valid(w.store)
    && w.store.cur.consumed == w.store.known < |w.store.msgs|
  }

  /** The message is sent, the neb acknowledges it and the cursor is saved. */
  function Deliver(s: Sys, e: Event): (r: Sys)
    requires Inv(s)
    ensures Inv(r)
  {
    Step(Step(Step(s, e), SUCCESS), SUCCESS)
  }

  /** A look of the run decides: after the message it finds is delivered, every message below the
      saved cursor has been handled exactly if the look was safe, or the first message of the new
      segments happened to be the one that was due. */
  lemma LookDecidesDelivery(s: Sys, e: Event)
    requires Reachable(s) && Inv(s) && FindsNew(s, e) && !After(s.sender, e.sends).Stray?
    ensures var w, r := World(s, e).store, Deliver(s, e);
            && Reachable(r) && r.store.saved.consumed == w.known + 1
            && (AtLeastOnce(r) <==> Safe(w) || w.msgs[Found(w)] == w.msgs[w.known])
  {
    hide Step, Inv, Effect, AtLeastOnce, History, Skips, Reachable, Grow, Faithful, Found;
    var w := World(s, e);
    var r1 := Step(s, e);
    var r2 := Step(r1, SUCCESS);
    StepReaches(s, e);
    SuccessReaches(r1);
    SuccessReaches(r2);
    ReachableHistory(s);
    ReachableHistory(r1);
    ReachableHistory(r2);
    Found1(s, e);
    Sent2(r1);
    Marked3(r2);
    ActDelivers(s, Tick(e));
    ActDelivers(r1, Tick(SUCCESS));
    ActDelivers(r2, Tick(SUCCESS));
    LookDecides(w.store);
    SkipsAnswer(r2);
  }

  lemma StepReaches(s: Sys, e: Event)
    requires Reachable(s) && Inv(s) && !After(s.sender, e.sends).Stray?
    ensures Reachable(Step(s, e))
  {
    hide Step, Inv, Reachable;
    StepStrays(s, e);
    ActReaches(s, Tick(e));
  }

  lemma SuccessReaches(s: Sys)
    requires Reachable(s) && Inv(s)
    ensures Reachable(Step(s, SUCCESS))
  {
    hide Step, Inv, Reachable;
    ReachableFits(s);
    QuietStep(s);
    StepReaches(s, SUCCESS);
  }

  lemma ReachableRecorded(s: Sys)
    requires Reachable(s)
    ensures Recorded(s)
  {
    hide Act, Inv, Recorded, NoneGone;
    var run, actions :| IsRun(run, actions) && run[|actions|] == s;
    RunRecords(run, actions, |actions|);
  }

  lemma ReachableHistory(s: Sys)
    requires Reachable(s)
    ensures Inv(s) && History(s)
  {
    hide Act, Inv, History;
    var run, actions :| IsRun(run, actions) && run[|actions|] == s;
    RunHistory(run, actions, |actions|);
  }

  lemma Found1(s: Sys, e: Event)
    requires Inv(s) && FindsNew(s, e)
    ensures var w, r := World(s, e).store, Step(s, e);
            && Faithful(w) && Epoch(r) == Epoch(s) && !Skips(s, Tick(e))
            && r.store.msgs == w.msgs && r.store.view == Look(w).view
            && w.known < |r.store.view| && Answered(Look(w)) == Next(w.known, r.store.view[w.known])
            && r.pc == AtSend(w.known, r.store.view[w.known], 0)
  {
    hide Valid, PcFits, MovesLegally, Grow, AtLeastOnce;
    WorldFaithful(s, e);
    WorldSamePc(s, e);
    var w := World(s, e);
    assert Effect(w, e, Step(s, e));
    LookDecides(w.store);
  }

  lemma Sent2(s: Sys)
    requires Inv(s) && s.pc.AtSend?
    ensures var r := Step(s, SUCCESS);
            && r.pc == AtMark(s.pc.offset, false) && Epoch(r) == Epoch(s) && !Skips(s, Tick(SUCCESS))
            && r.store.msgs == s.store.msgs && r.store.view == s.store.view
  {
    hide Valid, PcFits, MovesLegally, Looked;
    QuietStep(s);
  }

  lemma Marked3(s: Sys)
    requires Inv(s) && s.pc.AtMark?
    ensures var r := Step(s, SUCCESS);
            && Epoch(r) == Epoch(s) && r.store.saved.consumed == s.pc.offset + 1
            && r.store.msgs == s.store.msgs && r.store.view == s.store.view && r.store.known == s.store.known
            && r.store.segs == s.store.segs && r.store.bases == s.store.bases
            && r.stop == s.stop && r.cfg == s.cfg && r.archive == s.archive
  {
    hide Valid, MovesLegally, Looked;
    QuietStep(s);
  }

  lemma SkipsAnswer(s: Sys)
    requires Inv(s) && s.pc.AtMark?
    ensures s.pc.offset < |s.store.view| && s.pc.offset < |s.store.msgs|
    ensures Skips(s, Tick(SUCCESS)) <==> s.store.view[s.pc.offset] != s.store.msgs[s.pc.offset]
  {
    hide Valid;
    ViewBounded(s.store);
  }

  // ---------- two runs ----------

  /** The size of segments by default. */
  const SIZE := 1048576

  const FIRST := Event([Opens(SIZE), Appends([])], false, true, false)

  /** A sender that opens its log and appends one message. */
  lemma SendsOne(t: Sender, p: Payload)
    requires !t.Stray?
    ensures var sends := [Opens(SIZE), Appends(p)];
            After(t, sends) == Attached(SIZE) && Landing(t, sends) == [Appended(SIZE, p)]
  {
    var sends := [Opens(SIZE), Appends(p)];
    assert sends[..1] == [Opens(SIZE)] && [Opens(SIZE)][..0] == [];
    assert After(t, [Opens(SIZE)]) == Attached(SIZE);
    assert Landing(t, [Opens(SIZE)]) == [];
  }

  lemma GrowsByOne(s: Store, a: Appended)
    requires Valid(s)
    ensures Grow(s, [a]) == Append(s, a)
  {
    hide Append, Valid;
    assert [a][..0] == [];
  }

  lemma FirstAppended(s: Store, t: Sender)
    requires s.msgs == [] && s.bases == [] && Valid(s) && !t.Stray?
    ensures Grow(s, Landing(t, FIRST.sends)) == s.(msgs := [[]], bases := [0])
  {
    SendsOne(t, []);
    GrowsByOne(s, Appended(SIZE, []));
  }

  lemma Started(cfg: Config)
    ensures var s := Step(Initial(cfg), SUCCESS);
            && Reachable(Initial(cfg)) && Reachable(s)
            && s.pc == AtHead && s.store == FRESH && s.cfg == cfg && !s.stop && s.archive == []
  {
    InitialReachable(cfg);
    SuccessReaches(Initial(cfg));
    QuietStep(Initial(cfg));
  }

  /** After a message the pump goes on, unless retention is due. */
  lemma MarkedThenChecked(s: Sys)
    requires Inv(s) && s.pc.AtMark? && !s.pc.post
    ensures var r := Step(s, SUCCESS);
            r.pc == if RetentionExceeded(r.store, s.cfg.opts) then AtSnapshot(false) else AtHead
  {
    hide Valid, Effect, RetentionExceeded;
    QuietStep(s);
  }

  lemma KeepsConfig(s: Sys, e: Event)
    requires Inv(s)
    ensures Step(s, e).cfg == s.cfg && Step(s, e).stop == (s.stop || e.stop)
  {
    hide Follows, MovesLegally, Stores, PcFits, Valid, Grow;
    assert Effect(World(s, e), e, Step(s, e));
  }

  /** A first message, empty, is appended to a fresh directory and delivered. */
  lemma FirstDelivered(cfg: Config) returns (s: Sys)
    requires cfg.maxRetries >= 0
    ensures Reachable(s) && Inv(s) && AtLeastOnce(s) && s.cfg == cfg && !s.stop && s.archive == []
    ensures s.store.msgs == [[]] && s.store.bases == [0] && s.store.segs == s.store.known == 1 && s.store.view == [[]]
    ensures s.store.cur.consumed == 1 && s.store.saved == s.store.cur
    ensures s.pc == if RetentionExceeded(s.store, cfg.opts) then AtSnapshot(false) else AtHead
    ensures s.sender == Attached(SIZE)
  {
    hide Step, Inv, Effect, Reachable, AtLeastOnce, RetentionExceeded, FindsNew, Safe, Deliver;
    InitialReachable(cfg);
    ReachableFits(Initial(cfg));
    var s1 := Step(Initial(cfg), SUCCESS);
    Started(cfg);
    ReachableFits(s1);
    NothingSaved(s1);
    FirstLook(s1);
    SendsOne(s1.sender, []);
    LookDecidesDelivery(s1, FIRST);
    s := Deliver(s1, FIRST);
    FirstStored(s1);
  }

  lemma FirstStored(s: Sys)
    requires Inv(s) && !s.sender.Stray? && s.pc == AtHead && s.store == FRESH && !s.stop && s.cfg.maxRetries >= 0
    ensures var r := Deliver(s, FIRST);
            && r.store.msgs == [[]] && r.store.bases == [0] && r.store.segs == r.store.known == 1
            && r.store.view == [[]] && r.store.cur == r.store.saved && r.archive == s.archive
            && r.cfg == s.cfg && r.stop == s.stop && r.sender == Attached(SIZE)
            && r.pc == if RetentionExceeded(r.store, s.cfg.opts) then AtSnapshot(false) else AtHead
  {
    hide Step, Inv, Effect, AtLeastOnce, RetentionExceeded, FindsNew;
    NothingSaved(s);
    FirstLook(s);
    Found1(s, FIRST);
    FirstStore(s);
    var s2 := Step(s, FIRST);
    Sent2(s2);
    QuietStore(s2);
    var s3 := Step(s2, SUCCESS);
    Marked3(s3);
    MarkedThenChecked(s3);
    KeepsConfig(s, FIRST);
    KeepsConfig(s2, SUCCESS);
    KeepsSender(s, FIRST);
    KeepsSender(s2, SUCCESS);
    KeepsSender(s3, SUCCESS);
    SendsOne(s.sender, []);
    CursorSaved(Step(s3, SUCCESS));
  }

  lemma KeepsSender(s: Sys, e: Event)
    requires Inv(s) && !s.pc.AtTruncate?
    ensures Step(s, e).sender == After(s.sender, e.sends)
    ensures e == SUCCESS ==> Step(s, e).sender == s.sender
  {
    hide Step, Follows, MovesLegally, Records, Checks, PcFits, Valid, Grow, Looked, Accepting, Landing;
    assert Effect(World(s, e), e, Step(s, e));
  }

  lemma FirstLook(s: Sys)
    requires Inv(s) && !s.sender.Stray? && s.pc == AtHead && s.store == FRESH && !s.stop
    requires s.cfg.maxRetries >= 0 && AtLeastOnce(s)
    ensures FindsNew(s, FIRST) && Safe(World(s, FIRST).store)
    ensures World(s, FIRST).store == FRESH.(msgs := [[]], bases := [0])
  {
    FirstAppended(s.store, s.sender);
  }

  lemma FirstStore(s: Sys)
    requires Inv(s) && !s.sender.Stray? && s.pc == AtHead && s.store == FRESH && !s.stop && s.cfg.maxRetries >= 0
    ensures var r := Step(s, FIRST);
            && r.store.msgs == [[]] && r.store.bases == [0] && r.store.segs == r.store.known == 1
            && r.store.view == [[]] && r.archive == s.archive
  {
    hide Step, Follows, MovesLegally, PcFits, Valid, Grow, AtLeastOnce, Landing, Accepting, After;
    NothingSaved(s);
    FirstLook(s);
    WorldSamePc(s, FIRST);
    var w := World(s, FIRST);
    assert Effect(w, FIRST, Step(s, FIRST));
    assert w.store.msgs[0..] == [[]];
  }

  lemma QuietStore(s: Sys)
    requires Inv(s) && !s.pc.AtHead? && !s.pc.AtTruncate?
    ensures var r := Step(s, SUCCESS);
            && r.store.bases == s.store.bases && r.store.segs == s.store.segs && r.store.known == s.store.known
            && r.archive == s.archive
  {
    hide Valid, PcFits, MovesLegally, Looked, Follows;
    QuietStep(s);
  }

  lemma CursorSaved(s: Sys)
    requires Inv(s) && !s.pc.Returned?
    ensures s.store.cur == s.store.saved
  {
  }

  lemma BytesOfOne(m: Payload)
    ensures Packing.Bytes([m]) == 8 + |m|
  {
    assert [m][..0] == [];
  }

  /** A message that fills a segment behind an empty one. */
  function Filler(): (p: Payload)
    ensures |p| == SIZE - 16 && p[0] == 1
  {
    seq(SIZE - 16, i => 1)
  }

  /** Another process appends two messages, of which the first fills the last segment. */
  function Two(): Event {
    Event([Opens(SIZE), Appends(Filler()), Appends([2])], false, true, false)
  }

  lemma SendsTwo(t: Sender)
    requires !t.Stray?
    ensures var sends := Two().sends;
            && After(t, sends) == Attached(SIZE)
            && Landing(t, sends) == [Appended(SIZE, Filler()), Appended(SIZE, [2])]
  {
    hide Filler;
    assert Two().sends[..2] == [Opens(SIZE), Appends(Filler())];
    SendsOne(t, Filler());
  }

  lemma TwoAppended(s: Store, t: Sender)
    requires Valid(s) && s.msgs == [[]] && s.bases == [0] && !t.Stray?
    ensures Grow(s, Landing(t, Two().sends)) == s.(msgs := [[], Filler(), [2]], bases := [0, 2])
  {
    hide Valid, Append, Filler;
    SendsTwo(t);
    var two := [Appended(SIZE, Filler()), Appended(SIZE, [2])];
    assert two[..1] == [two[0]];
    GrowsByOne(s, two[0]);
    JoinsFirst(s);
    Rolled(Append(s, two[0]));
    assert Grow(s, two) == Append(Grow(s, two[..1]), two[1]);
  }

  lemma JoinsFirst(s: Store)
    requires Valid(s) && s.msgs == [[]] && s.bases == [0]
    ensures Append(s, Appended(SIZE, Filler())) == s.(msgs := [[], Filler()])
  {
    hide Valid, Filler;
    assert s.msgs[0..] == s.msgs;
    BytesOfOne([]);
  }

  lemma Rolled(s: Store)
    requires Valid(s) && s.msgs == [[], Filler()] && s.bases == [0]
    ensures Append(s, Appended(SIZE, [2])) == s.(msgs := [[], Filler(), [2]], bases := [0, 2])
  {
    hide Valid, Filler;
    assert s.msgs[0..] == s.msgs && s.msgs == [[]] + [Filler()];
    BytesOfOne([]);
    BytesOfOne(Filler());
    Packing.BytesConcat([[]], [Filler()]);
  }

  /** A run in which a message below the saved cursor is neither acknowledged nor dead: of the
      messages 0, 1 and 2 the second, which another process appended just before the third. */
  lemma MessageSkipped() returns (s: Sys)
    ensures Reachable(s) && s.store.msgs == [[], Filler(), [2]] && s.store.saved.consumed == 2
    ensures IsMessage(s, Id(0, 1)) && !Handled(s, Id(0, 1))
  {
    hide Step, Inv, Effect, Reachable, History, AtLeastOnce, Filler;
    var before := FirstDelivered(Config(Options(0, 0, SIZE), 3));
    NoRetention(before);
    TwoLook(before);
    SendsTwo(before.sender);
    LookDecidesDelivery(before, Two());
    s := Deliver(before, Two());
    ReachableHistory(before);
    var r1 := Step(before, Two());
    var r2 := Step(r1, SUCCESS);
    Found1(before, Two());
    Sent2(r1);
    Marked3(r2);
    FirstStays(before, r1, r2, s);
  }

  lemma NoRetention(s: Sys)
    requires s.cfg.opts == Options(0, 0, SIZE)
    ensures !RetentionExceeded(s.store, s.cfg.opts)
  {
  }

  lemma TwoLook(s: Sys)
    requires Inv(s) && !s.sender.Stray? && s.pc == AtHead && !s.stop && s.cfg.maxRetries >= 0 && AtLeastOnce(s)
    requires s.store.msgs == [[]] && s.store.bases == [0] && s.store.segs == s.store.known == 1 && s.store.view == [[]]
    requires s.store.cur.consumed == 1
    ensures FindsNew(s, Two())
    ensures var w := World(s, Two()).store;
            !Safe(w) && w.known == 1 && w.msgs == [[], Filler(), [2]] && w.msgs[Found(w)] != w.msgs[w.known]
  {
    hide AtLeastOnce, Filler;
    TwoAppended(s.store, s.sender);
    assert s.store.msgs[..1] == [[]];
  }

  /** What was handled stays handled, so it is the second message that was not. */
  lemma FirstStays(s: Sys, r1: Sys, r2: Sys, r: Sys)
    requires Inv(s) && Inv(r1) && Inv(r2) && Inv(r) && AtLeastOnce(s) && s.store.saved.consumed >= 1
    requires s.pc == AtHead && s.archive == []
    requires r1 == Step(s, Two()) && r2 == Step(r1, SUCCESS) && r == Step(r2, SUCCESS)
    requires !AtLeastOnce(r) && r.store.saved.consumed == 2 && Epoch(r) == 0 && |r.store.msgs| == 3
    ensures IsMessage(r, Id(0, 1)) && !Handled(r, Id(0, 1))
  {
    hide Handled, Valid, PcFits, Effect, Step, Grow;
    var id := Id(0, 0);
    ViewBounded(s.store);
    StaysHandled(s, Two(), id);
    StaysHandled(r1, SUCCESS, id);
    StaysHandled(r2, SUCCESS, id);
    assert Handled(s, id);
  }

  lemma StaysHandled(s: Sys, e: Event, id: Id)
    requires Inv(s) && IsMessage(s, id)
    ensures IsMessage(Step(s, e), id) && (Handled(s, id) ==> Handled(Step(s, e), id))
  {
    hide Handled, Inv, Effect, Step, World;
    WorldHandled(s, e, id);
    EffectHandled(World(s, e), e, Step(s, e), id);
  }

  /** A pump with one message, delivered, at a truncation whose snapshot holds it. */
  lemma FirstRetained() returns (s: Sys)
    ensures Reachable(s) && Inv(s) && s.pc.AtTruncate? && !s.pc.idle && s.store.msgs == [[]]
    ensures |s.pc.snapshot| <= 1
    ensures s.sender == Attached(SIZE) && s.archive == [] && s.store.bases != []
  {
    hide Step, Inv, Effect, Reachable, AtLeastOnce;
    var s1 := FirstDelivered(Config(Options(0, 1, SIZE), 3));
    SizeExceeded(s1);
    Retaining1(s1);
    var s2 := Step(s1, SUCCESS);
    SuccessReaches(s1);
    SuccessReaches(s2);
    KeepsSender(s1, SUCCESS);
    KeepsSender(s2, SUCCESS);
    QuietStore(s1);
    QuietStore(s2);
    s := Step(s2, SUCCESS);
  }

  /** A run in which a message is deleted that was never sent, buried or retained: it was appended
      between the snapshot and the truncation. */
  lemma MessageLost() returns (s: Sys)
    ensures Reachable(s) && NoneGone(s) && !Kept(s)
  {
    hide Step, Inv, Effect, Reachable, History, Kept, Loses, DeletedKept, Recorded, NoneGone, Vanishes;
    var before := FirstRetained();
    var late := Event([Appends([1])], false, true, false);
    ReachableHistory(before);
    ReachableRecorded(before);
    NoEpochNoneGone(before);
    LateAppend(before);
    StepReaches(before, late);
    ActKept(before, Tick(late));
    ActRecords(before, Tick(late));
    LateAppendLoses(before, late);
    s := Step(before, late);
    KeptSplits(s);
  }

  /** A run in which all looks are answered rightly and everything deleted was handled or retained,
      and yet a message is lost: a sender goes on appending to the log that was truncated. */
  lemma MessageVanished() returns (s: Sys)
    ensures Reachable(s) && Faithful(s.store) && AtLeastOnce(s) && DeletedKept(s) && !Kept(s)
  {
    hide Step, Inv, Effect, Reachable, History, AtLeastOnce, Faithful, Kept, Loses, DeletedKept, Recorded, NoneGone,
      Vanishes;
    var before := FirstRetained();
    var after := Step(before, SUCCESS);
    var late := Event([Appends([1])], false, true, false);
    SuccessReaches(before);
    ReachableHistory(before);
    ReachableHistory(after);
    ReachableRecorded(after);
    TruncatedAway(before);
    StillAppends(after);
    StepReaches(after, late);
    ReachableFits(Step(after, late));
    NoEpochYet(before);
    ActKept(before, Tick(SUCCESS));
    ActKept(after, Tick(late));
    ActRecords(after, Tick(late));
    HeadLosesNothing(after, late);
    s := Step(after, late);
    NothingSaved(s);
    KeptSplits(s);
  }

  lemma TruncatedAway(s: Sys)
    requires Inv(s) && s.pc.AtTruncate? && !s.pc.idle && s.store.msgs == [[]] && |s.pc.snapshot| <= 1
    requires s.sender == Attached(SIZE) && s.store.bases != [] && s.archive == []
    ensures var r := Step(s, SUCCESS);
            && !Loses(s, Tick(SUCCESS)) && r.pc == AtHead && r.sender.Detached? && r.sender.filled < SIZE
            && r.sender.segmentSize == SIZE && r.store.msgs == [] && r.store.saved.consumed == 0
  {
    hide Step, MovesLegally, Records, Checks, Looked;
    QuietStep(s);
    BytesOfOne([]);
    assert s.store.msgs[0..] == [[]];
  }

  /** The log is empty, and the message does not get into it. */
  lemma StillAppends(s: Sys)
    requires Inv(s) && s.pc == AtHead && s.sender.Detached? && s.sender.filled < s.sender.segmentSize
    requires s.store.msgs == [] && s.store.saved.consumed == 0
    ensures var e := Event([Appends([1])], false, true, false); var r := Step(s, e);
            && !After(s.sender, e.sends).Stray? && Vanishing(s, Tick(e))
            && Faithful(r.store) && r.store.saved.consumed == 0
  {
    hide Step, Follows, MovesLegally, Records, Checks, Looked, PcFits, Landing, Accepting, After, Valid, Grow;
    var e := Event([Appends([1])], false, true, false);
    GoesOn(s.sender);
    WorldAppends(s, e);
    assert Effect(World(s, e), e, Step(s, e));
    ViewBounded(Step(s, e).store);
  }

  lemma GoesOn(t: Sender)
    requires t.Detached? && t.filled < t.segmentSize
    ensures var sends := [Appends([1])];
            After(t, sends).Detached? && Landing(t, sends) == [] && Vanishes(t, sends)
  {
    assert [Appends([1])][..0] == [];
  }

  lemma HeadLosesNothing(s: Sys, e: Event)
    requires Inv(s) && s.pc == AtHead
    ensures !Loses(s, Tick(e))
  {
  }

  lemma SizeExceeded(s: Sys)
    requires s.cfg.opts == Options(0, 1, SIZE) && s.store.view == [[]]
    ensures RetentionExceeded(s.store, s.cfg.opts)
  {
    BytesOfOne([]);
  }

  lemma Retaining1(s: Sys)
    requires Inv(s) && s.pc.AtSnapshot?
    ensures var r := Step(s, SUCCESS);
            && r.pc == AtRetain(Snapshot(s.store), s.pc.idle) && r.store.msgs == s.store.msgs
            && Step(r, SUCCESS).pc == AtTruncate(r.pc.snapshot, s.pc.idle)
                    && Step(r, SUCCESS).store.msgs == r.store.msgs
  {
    hide Valid, PcFits, MovesLegally, Looked, Records;
    QuietStep(s);
    QuietStep(Step(s, SUCCESS));
  }

  lemma NoEpochNoneGone(s: Sys)
    requires s.archive == []
    ensures NoneGone(s)
  {
  }

  lemma LateAppend(s: Sys)
    requires s.sender == Attached(SIZE)
    ensures var sends := [Appends([1])];
            After(s.sender, sends) == s.sender && Landing(s.sender, sends) != [] && !Vanishes(s.sender, sends)
  {
    assert [Appends([1])][..0] == [];
  }

  lemma LateAppendLoses(s: Sys, e: Event)
    requires Inv(s) && s.pc.AtTruncate? && e.ok && Landing(s.sender, e.sends) != []
    ensures Loses(s, Tick(e))
  {
    hide Valid, World, Landing;
    WorldAppends(s, e);
  }
}
