/** The manager over a transport that has timed out once: no request of this process succeeds any more,
    and it buries every message that it passes (pkg/lifecycle/manager.go, pkg/transport/stdio.go). */
module Outage {
  import opened Store
  import opened Senders
  import opened Pump
  import opened Delivery
  import T = Transport

  /** From state i to state n, without a restart, each request goes over the transport; links[k] is
      the transport in state i + k. */
  ghost predicate Linked(run: seq<Sys>, actions: seq<Action>, links: seq<T.Link>, i: nat, n: nat)
    requires IsRun(run, actions) && i <= n <= |actions| && |links| == n - i + 1
  {
    forall k {:trigger actions[k]} :: i <= k < n ==>
      && actions[k].Tick?
      && if RequestOf(run[k].pc).Some? then Sends(links[k - i], links[k - i + 1], actions[k].event.ok)
         else links[k - i + 1] == links[k - i]
  }

  /** A request that is sent turns the one link into the other, and succeeds if there is a response and
      that is no error. */
  ghost predicate Sends(l: T.Link, r: T.Link, ok: bool) {
    exists req, m :: var (after, out) := T.Sent(l, req, m); r == after && (ok <==> out.Got? && out.response.ok)
  }

  lemma BrokenFails(l: T.Link, r: T.Link, ok: bool)
    requires l.broken && Sends(l, r, ok)
    ensures r.broken && !ok
  {
    var req, m :| var (after, out) := T.Sent(l, req, m); r == after && (ok <==> out.Got? && out.response.ok);
    T.ActSilent(l, T.Sending(req, m));
  }

  lemma {:induction false} StaysBroken(run: seq<Sys>, actions: seq<Action>, links: seq<T.Link>, i: nat, n: nat, k: nat)
    requires IsRun(run, actions) && i <= k <= n <= |actions| && |links| == n - i + 1
    requires Linked(run, actions, links, i, n) && links[0].broken
    ensures links[k - i].broken
    decreases k
  {
    hide Act, Inv, Sends;
    if i < k {
      StaysBroken(run, actions, links, i, n, k - 1);
      assert actions[k - 1].Tick?;
      if RequestOf(run[k - 1].pc).Some? {
        BrokenFails(links[k - 1 - i], links[k - i], actions[k - 1].event.ok);
      }
    }
  }

  /** Nothing that the neb has done for this process is left to be recorded. */
  ghost predicate Failing(s: Sys) {
    !s.pc.AtMark? && !s.pc.AtMarkPost? && !s.pc.AtTruncate?
  }

  lemma FailedStep(s: Sys, e: Event)
    requires Inv(s) && Failing(s) && (RequestOf(s.pc).Some? ==> !e.ok)
    ensures var r := Step(s, e);
            && Failing(r) && Epoch(r) == Epoch(s) && s.calls <= r.calls && s.deadIds <= r.deadIds
            && r.retained == s.retained && (forall c :: c in r.calls[|s.calls|..] ==> !c.ok)
            && s.store.cur.consumed <= r.store.cur.consumed <= s.store.cur.consumed + 1
            && (r.store.cur.consumed > s.store.cur.consumed ==> Id(Epoch(s), s.store.cur.consumed) in r.deadIds)
  {
    hide Step, MovesLegally, Checks, Valid, Looked, Grow, Landing, Accepting, After;
    WorldSamePc(s, e);
    assert Effect(World(s, e), e, Step(s, e));
    if s.pc.AtDeadSave? {
      assert s.deadIds[|s.deadIds| - 1] == Id(Epoch(s), s.store.cur.consumed);
    }
  }

  /** What a process has done since state i of a run: no call has succeeded, and every message it has
      passed is among the dead letters. */
  ghost predicate Buries(s: Sys, r: Sys) {
    && Epoch(r) == Epoch(s) && r.retained == s.retained && s.calls <= r.calls && s.deadIds <= r.deadIds
    && s.store.cur.consumed <= r.store.cur.consumed
    && (forall c :: c in r.calls[|s.calls|..] ==> !c.ok)
    && (forall o: nat :: s.store.cur.consumed <= o < r.store.cur.consumed ==> Id(Epoch(s), o) in r.deadIds)
  }

  lemma BuriesOneMore(s: Sys, r: Sys, e: Event)
    requires Inv(r) && Failing(r) && Buries(s, r) && (RequestOf(r.pc).Some? ==> !e.ok)
    ensures Buries(s, Step(r, e)) && Failing(Step(r, e))
  {
    hide Step, Inv, Failing;
    FailedStep(r, e);
    var t := Step(r, e);
    assert t.calls[|s.calls|..] == r.calls[|s.calls|..] + t.calls[|r.calls|..];
  }

  lemma LinkFails(run: seq<Sys>, actions: seq<Action>, links: seq<T.Link>, i: nat, n: nat, k: nat)
    requires IsRun(run, actions) && i <= k < n <= |actions| && |links| == n - i + 1
    requires Linked(run, actions, links, i, n) && links[0].broken
    ensures actions[k].Tick? && (RequestOf(run[k].pc).Some? ==> !actions[k].event.ok)
  {
    hide Act, Inv, Sends, RequestOf;
    StaysBroken(run, actions, links, i, n, k);
    assert actions[k].Tick?;
    if RequestOf(run[k].pc).Some? {
      BrokenFails(links[k - i], links[k - i + 1], actions[k].event.ok);
    }
  }

  /** Once the transport has timed out, no request of this process succeeds, nothing is retained or
      truncated any more, and every message that it passes is among the dead letters. */
  lemma {:induction false} OutageBuries(run: seq<Sys>, actions: seq<Action>, links: seq<T.Link>, i: nat, n: nat, k: nat)
    requires IsRun(run, actions) && i <= k <= n <= |actions| && |links| == n - i + 1
    requires Linked(run, actions, links, i, n) && links[0].broken && Failing(run[i])
    ensures Buries(run[i], run[k]) && Failing(run[k])
    decreases k
  {
    hide Act, Inv, Step, Sends, Failing, RequestOf, Linked, Buries;
    if i == k {
      BuriesNone(run[i]);
    } else {
      OutageBuries(run, actions, links, i, n, k - 1);
      LinkFails(run, actions, links, i, n, k - 1);
      RunFits(run, actions, k - 1);
      assert run[k] == Act(run[k - 1], actions[k - 1]);
      ActTick(run[k - 1], actions[k - 1]);
      BuriesOneMore(run[i], run[k - 1], actions[k - 1].event);
    }
  }

  lemma BuriesNone(s: Sys)
    ensures Buries(s, s)
  {
  }
}
