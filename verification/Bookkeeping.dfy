/** The counters of an instance record add up over any run: picked, handled, failed, still open. */
module Bookkeeping {
  import opened Wrappers
  import opened Pool
  import opened Config
  import opened PoolInvariant
  import opened FindLaws
  import opened World
  import opened Lifecycle
  import opened Backoff

  /** The changes of the counters uOpenedRequestsNb, uHandledRequestsNb and uNotRespondingRequestsNb. */
  datatype Tally = Tally(picked: nat, handled: nat, failed: nat)

  function Plus(a: Tally, b: Tally): Tally {
    Tally(a.picked + b.picked, a.handled + b.handled, a.failed + b.failed)
  }

  /** What one action means for the instance at p, told by who holds what and not by the counters. */
  ghost function TallyOf(w: World, a: Action, p: Ptr): Tally
    requires Protocol(w, a) && MemorySafe(w, a)
  {
    var w' := Step(w, a);
    if a.FindAny? || a.FindNamed? then Tally(if Holding(w', a.r) && w'.reqs[a.r].target == Some(p) then 1 else 0, 0, 0)
    else if a.Finished? then Tally(0, if w.reqs[a.r].target == Some(p) then 1 else 0, 0)
    else if a.NotResponding? then Tally(0, 0, if w.reqs[a.r].target == Some(p) then 1 else 0)
    else Tally(0, 0, 0)
  }

  ghost function Total(w: World, actions: seq<Action>, p: Ptr): Tally
    requires Disciplined(w, actions)
    decreases |actions|
  {
    if actions == [] || !MemorySafe(w, actions[0]) then Tally(0, 0, 0)
    else Plus(TallyOf(w, actions[0], p), Total(Step(w, actions[0]), actions[1..], p))
  }

  /** The record has moved by a tally. */
  predicate Moved(before: Instance, after: Instance, t: Tally) {
    && after.inFlight == before.inFlight + t.picked - t.handled - t.failed
    && after.handled == before.handled + t.handled
    && after.notResponding == before.notResponding + t.failed
  }

  lemma EffectMoves(s: State, s': State, picked: Option<Ptr>, now: nat, p: Ptr)
    requires FindEffect(s, s', picked, now) && p in s.heap
    ensures p in s'.heap && Moved(s.heap[p], s'.heap[p], Tally(if picked == Some(p) then 1 else 0, 0, 0))
  {
  }

  lemma FindTally(w: World, a: Action, p: Ptr)
    requires Protocol(w, a) && MemorySafe(w, a) && (a.FindAny? || a.FindNamed?)
    ensures TallyOf(w, a, p) == Tally(if Outcome(w, a) == Some(p) then 1 else 0, 0, 0)
  {
  }

  lemma FindMoves(w: World, a: Action, p: Ptr)
    requires Inv(w) && Protocol(w, a) && MemorySafe(w, a) && (a.FindAny? || a.FindNamed?) && p in w.pool.heap
    ensures p in Step(w, a).pool.heap && Moved(w.pool.heap[p], Step(w, a).pool.heap[p], TallyOf(w, a, p))
  {
    FindTally(w, a, p);
    FindStepEffect(w, a);
    EffectMoves(w.pool, Step(w, a).pool, Outcome(w, a), w.clock, p);
  }

  lemma ReleaseMoves(w: World, a: Action, p: Ptr)
    requires Inv(w) && Protocol(w, a) && MemorySafe(w, a) && (a.Finished? || a.NotResponding?)
    requires p in w.pool.heap && p in Step(w, a).pool.heap
    ensures Moved(w.pool.heap[p], Step(w, a).pool.heap[p], TallyOf(w, a, p))
  {
    ReleaseStep(w, a);
    LetGoHeap(w.pool, w.reqs[a.r].target.value, Released(w, a));
  }

  lemma ConnectionMoves(w: World, a: Action, p: Ptr)
    requires Inv(w) && Protocol(w, a) && MemorySafe(w, a) && a.Connected? && p in w.pool.heap
    ensures p in Step(w, a).pool.heap && Moved(w.pool.heap[p], Step(w, a).pool.heap[p], TallyOf(w, a, p))
  {
  }

  lemma OtherMoves(w: World, a: Action, p: Ptr)
    requires Inv(w) && Protocol(w, a) && MemorySafe(w, a)
    requires a.Arrive? || a.Depart? || a.Refused? || a.Tick?
    requires p in w.pool.heap
    ensures p in Step(w, a).pool.heap && Moved(w.pool.heap[p], Step(w, a).pool.heap[p], TallyOf(w, a, p))
  {
  }

  lemma StepMoves(w: World, a: Action, p: Ptr)
    requires Inv(w) && Protocol(w, a) && MemorySafe(w, a) && !a.Load? && p in w.pool.heap && p in Step(w, a).pool.heap
    ensures Moved(w.pool.heap[p], Step(w, a).pool.heap[p], TallyOf(w, a, p))
  {
    if a.FindAny? || a.FindNamed? {
      FindMoves(w, a, p);
    } else if a.Finished? || a.NotResponding? {
      ReleaseMoves(w, a, p);
    } else if a.Connected? {
      ConnectionMoves(w, a, p);
    } else {
      OtherMoves(w, a, p);
    }
  }

  /** Without a reload nothing is allocated. */
  lemma StepAllocatesNothing(w: World, a: Action)
    requires Inv(w) && Protocol(w, a) && MemorySafe(w, a) && !a.Load?
    ensures Step(w, a).pool.heap.Keys <= w.pool.heap.Keys
  {
    if a.FindAny? || a.FindNamed? {
      FindStepEffect(w, a);
    } else if a.Finished? || a.NotResponding? {
      ReleaseStep(w, a);
      LetGoHeap(w.pool, w.reqs[a.r].target.value, Released(w, a));
    }
  }

  lemma {:induction false} RunAllocatesNothing(w: World, actions: seq<Action>, p: Ptr)
    requires Inv(w) && Disciplined(w, actions) && Run(w, actions).Some? && p in Run(w, actions).value.pool.heap
    requires forall i :: 0 <= i < |actions| ==> !actions[i].Load?
    ensures p in w.pool.heap
    decreases |actions|
  {
    if actions != [] {
      StepKeepsInv(w, actions[0]);
      StepAllocatesNothing(w, actions[0]);
      RunAllocatesNothing(Step(w, actions[0]), actions[1..], p);
    }
  }

  lemma MovedTwice(a: Instance, b: Instance, c: Instance, t: Tally, u: Tally)
    requires Moved(a, b, t) && Moved(b, c, u)
    ensures Moved(a, c, Plus(t, u))
  {
  }

  /**
   Between two reloads the counters of an instance keep exact books: handled counts its stops, not
   responding its marks, and what is open is what was picked and has been neither stopped nor marked.
   */
  lemma {:induction false} BooksBalance(w: World, actions: seq<Action>, p: Ptr)
    requires Inv(w) && Disciplined(w, actions) && Run(w, actions).Some? && p in Run(w, actions).value.pool.heap
    requires forall i :: 0 <= i < |actions| ==> !actions[i].Load?
    ensures p in w.pool.heap && Moved(w.pool.heap[p], Run(w, actions).value.pool.heap[p], Total(w, actions, p))
    decreases |actions|
  {
    if actions != [] {
      var w' := Step(w, actions[0]);
      StepKeepsInv(w, actions[0]);
      BooksBalance(w', actions[1..], p);
      RunAllocatesNothing(w, actions, p);
      StepMoves(w, actions[0], p);
      MovedTwice(w.pool.heap[p], w'.pool.heap[p], Run(w', actions[1..]).value.pool.heap[p],
                 TallyOf(w, actions[0], p), Total(w', actions[1..], p));
    }
  }
}
