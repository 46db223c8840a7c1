/** What a dispatch does to the open counts, and which instances it tries. */
module DispatchLaws {
  import opened Wrappers
  import opened Pool
  import opened PoolInvariant
  import opened World
  import opened Lifecycle
  import opened Backoff
  import opened Dispatch

  // ---------------------------------------------------------------- open counts

  /** The opens counted at an instance; a freed one has none. */
  function OpenOf(s: State, p: Ptr): int {
    if p in s.heap then s.heap[p].inFlight else 0
  }

  ghost function TotalOver(s: State, ps: set<Ptr>): int
    decreases |ps|
  {
    if ps == {} then 0 else var p :| p in ps; OpenOf(s, p) + TotalOver(s, ps - {p})
  }

  /** The opens of all allocated instances together. */
  ghost function TotalOpen(s: State): int {
    TotalOver(s, s.heap.Keys)
  }

  function AllHolding(reqs: map<nat, Request>): set<nat> {
    set r | r in reqs && reqs[r].holds
  }

  function HoldingIn(reqs: map<nat, Request>, ps: set<Ptr>): set<nat> {
    set r | r in reqs && reqs[r].holds && reqs[r].target.Some? && reqs[r].target.value in ps
  }

  lemma OpenIsHolders(s: State, reqs: map<nat, Request>, p: Ptr)
    requires Held(s.heap, reqs)
    ensures OpenOf(s, p) == |Holders(reqs, p)|
  {
    if p !in s.heap {
      assert Holders(reqs, p) == {};
    }
  }

  lemma {:induction false} TotalOverIsHolding(s: State, reqs: map<nat, Request>, ps: set<Ptr>)
    requires Held(s.heap, reqs)
    ensures TotalOver(s, ps) == |HoldingIn(reqs, ps)|
    decreases |ps|
  {
    if ps == {} {
      assert HoldingIn(reqs, ps) == {};
    } else {
      var p :| p in ps && TotalOver(s, ps) == OpenOf(s, p) + TotalOver(s, ps - {p});
      TotalOverIsHolding(s, reqs, ps - {p});
      OpenIsHolders(s, reqs, p);
      assert HoldingIn(reqs, ps) == HoldingIn(reqs, ps - {p}) + Holders(reqs, p);
      assert HoldingIn(reqs, ps - {p}) !! Holders(reqs, p);
    }
  }

  /** In every reachable state the total open count is the number of requests that hold an instance. */
  lemma TotalIsHolding(w: World)
    requires Inv(w)
    ensures TotalOpen(w.pool) == |AllHolding(w.reqs)|
  {
    TotalOverIsHolding(w.pool, w.reqs, w.pool.heap.Keys);
    assert HoldingIn(w.reqs, w.pool.heap.Keys) == AllHolding(w.reqs);
  }

  /** Nobody else finds or lets go meanwhile; reloads and the passing of time are allowed. */
  ghost predicate Undisturbed(events: seq<Event>) {
    forall i :: 0 <= i < |events| && events[i].Other? ==> events[i].action.Tick? || events[i].action.Load? || events[i].action.Refused?
  }

  ghost predicate SameOthers(reqs: map<nat, Request>, reqs': map<nat, Request>, r: nat) {
    forall x :: x != r ==> (x in reqs <==> x in reqs') && (x in reqs ==> reqs'[x] == reqs[x])
  }

  /** A step of the request itself, or one that is about no request. */
  predicate ConcernsOnly(a: Action, r: nat) {
    match a
    case FindAny(s) => s == r
    case FindNamed(s) => s == r
    case Connected(s) => s == r
    case Finished(s) => s == r
    case NotResponding(s) => s == r
    case Tick(_) => true
    case Load(_, _) => true
    case Refused(_, _) => true
    case _ => false
  }

  lemma StepSameOthers(w: World, a: Action, r: nat)
    requires Protocol(w, a) && MemorySafe(w, a) && ConcernsOnly(a, r)
    ensures SameOthers(w.reqs, Step(w, a).reqs, r)
  {
  }

  lemma NextSameOthers(w: World, c: Control, r: nat, e: Event)
    requires Ready(w, c, r) && Allowed(w, c, r, e)
    requires e.Other? ==> e.action.Tick? || e.action.Load? || e.action.Refused?
    ensures SameOthers(w.reqs, Next(w, c, r, e).0.reqs, r)
  {
    ActionIsAllowed(w, c, r, e);
    InvIsMemorySafe(w, ActionOf(w, c, r, e));
    StepSameOthers(w, ActionOf(w, c, r, e), r);
  }

  lemma {:induction false} OthersUntouched(w: World, c: Control, r: nat, events: seq<Event>)
    requires Ready(w, c, r) && AllowedRun(w, c, r, events) && Undisturbed(events)
    ensures SameOthers(w.reqs, Trace(w, c, r, events).0.reqs, r)
    decreases |events|
  {
    if events != [] {
      var next := Next(w, c, r, events[0]);
      NextSameOthers(w, c, r, events[0]);
      OthersUntouched(next.0, next.1, r, events[1..]);
    }
  }

  lemma HoldersWithOneMore(reqs: map<nat, Request>, reqs': map<nat, Request>, r: nat, p: Ptr)
    requires r in reqs && !reqs[r].holds && r in reqs' && SameOthers(reqs, reqs', r)
    ensures |Holders(reqs', p)| == |Holders(reqs, p)| + (if reqs'[r].holds && reqs'[r].target == Some(p) then 1 else 0)
  {
    if reqs'[r].holds && reqs'[r].target == Some(p) {
      assert Holders(reqs', p) == Holders(reqs, p) + {r};
    } else {
      assert Holders(reqs', p) == Holders(reqs, p);
    }
  }

  lemma OneMoreHolding(reqs: map<nat, Request>, reqs': map<nat, Request>, r: nat)
    requires r in reqs && !reqs[r].holds && r in reqs' && SameOthers(reqs, reqs', r)
    ensures |AllHolding(reqs')| == |AllHolding(reqs)| + (if reqs'[r].holds then 1 else 0)
  {
    if reqs'[r].holds {
      assert AllHolding(reqs') == AllHolding(reqs) + {r};
    } else {
      assert AllHolding(reqs') == AllHolding(reqs);
    }
  }

  /**
   Conservation: a dispatch nobody else interferes with changes the open count of one instance at most,
   by one, and of none when an application has answered or the last find has failed.
   */
  lemma {:induction false} DispatchConserves(w: World, r: nat, events: seq<Event>, p: Ptr)
    requires Inv(w) && Waiting(w, r) && AllowedRun(w, START, r, events) && Undisturbed(events)
    ensures var (w', c) := Trace(w, START, r, events);
            && var kept := if Holding(w', r) then w'.reqs[r].target else None;
            && OpenOf(w'.pool, p) == OpenOf(w.pool, p) + (if kept == Some(p) then 1 else 0)
            && TotalOpen(w'.pool) == TotalOpen(w.pool) + (if kept.Some? then 1 else 0)
            && (c.phase.Done? && (c.reply.value.FromApp? || !c.found) ==> kept == None)
  {
    var (w', c) := Trace(w, START, r, events);
    OthersUntouched(w, START, r, events);
    HoldersWithOneMore(w.reqs, w'.reqs, r, p);
    OneMoreHolding(w.reqs, w'.reqs, r);
    OpenIsHolders(w.pool, w.reqs, p);
    OpenIsHolders(w'.pool, w'.reqs, p);
    TotalIsHolding(w);
    TotalIsHolding(w');
    if c.phase.Done? {
      WhatIsLeft(w, r, events);
    }
  }

  // ---------------------------------------------------------------- distinct failures

  /** An event that reloads nothing and connects nobody else to an instance that has failed here. */
  ghost predicate Calm(w: World, c: Control, e: Event) {
    e.Other? ==> !e.action.Load? && forall p :: p in c.failed ==> LeavesAlone(w, e.action, p)
  }

  ghost predicate CalmRun(w: World, c: Control, r: nat, events: seq<Event>)
    requires Ready(w, c, r) && AllowedRun(w, c, r, events)
    decreases |events|
  {
    events == [] ||
    (Calm(w, c, events[0]) && CalmRun(Next(w, c, r, events[0]).0, Next(w, c, r, events[0]).1, r, events[1..]))
  }

  ghost predicate NoRepeats(failed: seq<Ptr>) {
    forall i, j :: 0 <= i < j < |failed| ==> failed[i] != failed[j]
  }

  /** The failed instances are distinct, resting, and none of them is the one held. */
  ghost predicate Apart(w: World, c: Control, r: nat, since: nat) {
    && NoRepeats(c.failed)
    && (forall p :: p in c.failed ==> Resting(w.pool, p, since + APP_CONNECT_RETRY_DELAY))
    && (Holding(w, r) && w.reqs[r].target.Some? ==> w.reqs[r].target.value !in c.failed)
  }

  lemma ActionLeavesAlone(w: World, c: Control, r: nat, e: Event, since: nat, p: Ptr)
    requires Follows(w, c, r) && HoldsAllocated(w.pool.heap, w.reqs) && Allowed(w, c, r, e)
    requires Apart(w, c, r, since) && Calm(w, c, e) && p in c.failed
    ensures LeavesAlone(w, ActionOf(w, c, r, e), p)
  {
  }

  /** The step leaves the instances that have failed at rest. */
  lemma FailedStayResting(w: World, c: Control, r: nat, e: Event, since: nat, p: Ptr)
    requires Ready(w, c, r) && Allowed(w, c, r, e) && Apart(w, c, r, since) && Calm(w, c, e)
    requires since <= w.clock <= since + APP_CONNECT_RETRY_DELAY && p in c.failed
    ensures Resting(Next(w, c, r, e).0.pool, p, since + APP_CONNECT_RETRY_DELAY)
  {
    ActionIsAllowed(w, c, r, e);
    ActionLeavesAlone(w, c, r, e, since, p);
    InvIsMemorySafe(w, ActionOf(w, c, r, e));
    StepKeepsResting(w, ActionOf(w, c, r, e), p, since);
  }

  /** The instance that has just failed rests as well. */
  lemma FailureRests(w: World, r: nat, since: nat)
    requires Inv(w) && Holding(w, r) && since <= w.clock && MemorySafe(w, NotResponding(r))
    ensures Resting(Step(w, NotResponding(r)).pool, w.reqs[r].target.value, since + APP_CONNECT_RETRY_DELAY)
  {
    ReleaseStep(w, NotResponding(r));
    LetGoHeap(w.pool, w.reqs[r].target.value, Released(w, NotResponding(r)));
  }

  /** Looking for another instance passes over those that have failed. */
  lemma ReselectionAvoids(w: World, r: nat, since: nat, p: Ptr)
    requires Inv(w) && Waiting(w, r) && MemorySafe(w, FindAny(r))
    requires w.clock <= since + APP_CONNECT_RETRY_DELAY && Resting(w.pool, p, since + APP_CONNECT_RETRY_DELAY)
    ensures var w' := Step(w, FindAny(r)); Holding(w', r) ==> w'.reqs[r].target != Some(p)
  {
    RestingIsNotPicked(w.pool, w.reqs[r], w.clock, p, since + APP_CONNECT_RETRY_DELAY);
  }

  lemma FailureStep(w: World, c: Control, r: nat, input: Input)
    requires Ready(w, c, r) && Allowed(w, c, r, Own(input))
    requires c.phase.Trying? && GoesOn(c) && !input.ok
    ensures Holding(w, r) && w.reqs[r].target.Some? && MemorySafe(w, NotResponding(r))
    ensures var n := Next(w, c, r, Own(input));
            n.0 == Step(w, NotResponding(r)) && !Holding(n.0, r) && n.1.failed == c.failed + [w.reqs[r].target.value]
  {
    InvIsMemorySafe(w, NotResponding(r));
  }

  lemma StillNoRepeats(failed: seq<Ptr>, p: Ptr)
    requires NoRepeats(failed) && p !in failed
    ensures NoRepeats(failed + [p])
  {
  }

  /** A failed connection adds the instance that was held, which is new to the list. */
  lemma FailureKeepsApart(w: World, c: Control, r: nat, input: Input, since: nat)
    requires Ready(w, c, r) && Allowed(w, c, r, Own(input)) && Apart(w, c, r, since)
    requires since <= w.clock <= since + APP_CONNECT_RETRY_DELAY
    requires c.phase.Trying? && GoesOn(c) && !input.ok
    ensures var n := Next(w, c, r, Own(input)); Apart(n.0, n.1, r, since)
  {
    var n := Next(w, c, r, Own(input));
    FailureStep(w, c, r, input);
    StillNoRepeats(c.failed, w.reqs[r].target.value);
    FailureRests(w, r, since);
    forall q | q in n.1.failed ensures Resting(n.0.pool, q, since + APP_CONNECT_RETRY_DELAY) {
      if q in c.failed {
        FailedStayResting(w, c, r, Own(input), since, q);
      }
    }
  }

  lemma ReselectionKeepsApart(w: World, c: Control, r: nat, input: Input, since: nat)
    requires Ready(w, c, r) && Allowed(w, c, r, Own(input)) && Apart(w, c, r, since)
    requires since <= w.clock <= since + APP_CONNECT_RETRY_DELAY
    requires c.phase.Reselecting? && c.attempts > 0
    ensures var n := Next(w, c, r, Own(input)); Apart(n.0, n.1, r, since)
  {
    var n := Next(w, c, r, Own(input));
    InvIsMemorySafe(w, FindAny(r));
    forall q | q in c.failed
      ensures Resting(n.0.pool, q, since + APP_CONNECT_RETRY_DELAY) && (Holding(n.0, r) ==> n.0.reqs[r].target != Some(q))
    {
      FailedStayResting(w, c, r, Own(input), since, q);
      ReselectionAvoids(w, r, since, q);
    }
  }

  lemma QuietActionKeepsTarget(w: World, a: Action, r: nat)
    requires r in w.reqs && Protocol(w, a) && MemorySafe(w, a)
    requires a == Finished(r) || a == Connected(r) || a == Tick(0) || a.Refused?
    ensures var w' := Step(w, a); Holding(w', r) ==> Holding(w, r) && w'.reqs[r].target == w.reqs[r].target
  {
  }

  lemma OwnStepsKeepTarget(w: World, c: Control, r: nat, input: Input)
    requires Ready(w, c, r) && Allowed(w, c, r, Own(input))
    requires !(c.phase.Trying? && GoesOn(c) && !input.ok) && !(c.phase.Reselecting? && c.attempts > 0) && !c.phase.Finding?
    ensures var n := Next(w, c, r, Own(input));
            n.1.failed == c.failed && (Holding(n.0, r) ==> Holding(w, r) && n.0.reqs[r].target == w.reqs[r].target)
  {
    var a := Act(w, c, r, input);
    ActionIsAllowed(w, c, r, Own(input));
    InvIsMemorySafe(w, a);
    QuietActionKeepsTarget(w, a, r);
  }

  /** In every other step the request keeps its instance or lets go of it. */
  lemma OtherStepsKeepTarget(w: World, c: Control, r: nat, e: Event)
    requires Ready(w, c, r) && Allowed(w, c, r, e)
    requires e.Own? ==> !(c.phase.Trying? && GoesOn(c) && !e.input.ok) && !(c.phase.Reselecting? && c.attempts > 0) && !c.phase.Finding?
    ensures var n := Next(w, c, r, e);
            n.1.failed == c.failed && (Holding(n.0, r) ==> Holding(w, r) && n.0.reqs[r].target == w.reqs[r].target)
  {
    if e.Other? {
      ActionIsAllowed(w, c, r, e);
      InvIsMemorySafe(w, e.action);
      OthersLeaveRequest(w, e.action, r);
    } else {
      OwnStepsKeepTarget(w, c, r, e.input);
    }
  }

  lemma StepKeepsApart(w: World, c: Control, r: nat, e: Event, since: nat)
    requires Ready(w, c, r) && Allowed(w, c, r, e) && Calm(w, c, e) && Apart(w, c, r, since)
    requires since <= w.clock <= since + APP_CONNECT_RETRY_DELAY
    ensures var n := Next(w, c, r, e); Apart(n.0, n.1, r, since)
  {
    var n := Next(w, c, r, e);
    if e.Own? && c.phase.Finding? {
      assert Counted(c) && Replies(c);
      assert c.failed == [] && n.1.failed == [];
    } else if e.Own? && c.phase.Trying? && GoesOn(c) && !e.input.ok {
      FailureKeepsApart(w, c, r, e.input, since);
    } else if e.Own? && c.phase.Reselecting? && c.attempts > 0 {
      ReselectionKeepsApart(w, c, r, e.input, since);
    } else {
      OtherStepsKeepTarget(w, c, r, e);
      forall q | q in c.failed ensures Resting(n.0.pool, q, since + APP_CONNECT_RETRY_DELAY) {
        FailedStayResting(w, c, r, e, since, q);
      }
    }
  }

  lemma NextClock(w: World, c: Control, r: nat, e: Event)
    requires Ready(w, c, r) && Allowed(w, c, r, e)
    ensures Next(w, c, r, e).0.clock >= w.clock
  {
    ActionIsAllowed(w, c, r, e);
    InvIsMemorySafe(w, ActionOf(w, c, r, e));
  }

  lemma {:induction false} TraceClock(w: World, c: Control, r: nat, events: seq<Event>)
    requires Ready(w, c, r) && AllowedRun(w, c, r, events)
    ensures Trace(w, c, r, events).0.clock >= w.clock
    decreases |events|
  {
    if events != [] {
      NextClock(w, c, r, events[0]);
      TraceClock(Next(w, c, r, events[0]).0, Next(w, c, r, events[0]).1, r, events[1..]);
    }
  }

  lemma {:induction false} RunKeepsApart(w: World, c: Control, r: nat, events: seq<Event>, since: nat)
    requires Ready(w, c, r) && AllowedRun(w, c, r, events) && CalmRun(w, c, r, events) && Apart(w, c, r, since)
    requires since <= w.clock && Trace(w, c, r, events).0.clock <= since + APP_CONNECT_RETRY_DELAY
    ensures Apart(Trace(w, c, r, events).0, Trace(w, c, r, events).1, r, since)
    decreases |events|
  {
    if events != [] {
      var next := Next(w, c, r, events[0]);
      TraceClock(w, c, r, events);
      NextClock(w, c, r, events[0]);
      StepKeepsApart(w, c, r, events[0], since);
      RunKeepsApart(next.0, next.1, r, events[1..], since);
    }
  }

  /**
   While the retry delay lasts and nobody reloads or connects to an instance that has failed, a
   dispatch does not fail to connect to the same instance twice.
   */
  lemma {:induction false} FailuresAreDistinct(w: World, r: nat, events: seq<Event>)
    requires Inv(w) && Waiting(w, r) && AllowedRun(w, START, r, events) && CalmRun(w, START, r, events)
    requires Trace(w, START, r, events).0.clock <= w.clock + APP_CONNECT_RETRY_DELAY
    ensures NoRepeats(Trace(w, START, r, events).1.failed)
  {
    RunKeepsApart(w, START, r, events, w.clock);
  }
}
