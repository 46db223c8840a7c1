/** The pool together with the requests in flight and the clock, and its atomic steps. */
module World {
  import opened Wrappers
  import opened CStrings
  import opened SlotTables
  import opened Pool
  import opened Config
  import opened PoolInvariant
  import opened FindLaws

  datatype World = World(pool: State, reqs: map<nat, Request>, clock: nat)

  ghost predicate Inv(w: World) {
    PoolInv(w.pool, {}, {}) && Held(w.pool.heap, w.reqs)
  }

  /** Request r holds an instance: a find has counted it there and neither a stop nor a mark has followed. */
  ghost predicate Holding(w: World, r: nat) {
    r in w.reqs && w.reqs[r].holds
  }

  ghost predicate Waiting(w: World, r: nat) {
    r in w.reqs && !w.reqs[r].holds
  }

  // ---------------------------------------------------------------- one request changes

  lemma HoldersAfterFind(reqs: map<nat, Request>, r: nat, req: Request, p: Ptr)
    requires r in reqs && !reqs[r].holds
    ensures |Holders(reqs[r := req], p)| == |Holders(reqs, p)| + (if req.holds && req.target == Some(p) then 1 else 0)
  {
    var before, after := Holders(reqs, p), Holders(reqs[r := req], p);
    if req.holds && req.target == Some(p) {
      assert after == before + {r};
    } else {
      assert after == before;
    }
  }

  lemma HoldersAfterRelease(reqs: map<nat, Request>, r: nat, req: Request, p: Ptr)
    requires r in reqs && reqs[r].holds && !req.holds
    ensures |Holders(reqs[r := req], p)| == |Holders(reqs, p)| - (if reqs[r].target == Some(p) then 1 else 0)
  {
    var before, after := Holders(reqs, p), Holders(reqs[r := req], p);
    if reqs[r].target == Some(p) {
      assert before == after + {r};
    } else {
      assert after == before;
    }
  }

  lemma HeldAfterFind(heap: map<Ptr, Instance>, heap': map<Ptr, Instance>, reqs: map<nat, Request>, r: nat, req: Request)
    requires Held(heap, reqs) && r in reqs && !reqs[r].holds
    requires heap'.Keys == heap.Keys
    requires forall p :: p in heap ==> heap'[p].inFlight == heap[p].inFlight + (if req.holds && req.target == Some(p) then 1 else 0)
    requires req.holds ==> req.target.Some? && req.target.value in heap
    ensures Held(heap', reqs[r := req])
  {
    forall p | p in heap' ensures heap'[p].inFlight == |Holders(reqs[r := req], p)| {
      HoldersAfterFind(reqs, r, req, p);
    }
  }

  lemma HeldAfterRelease(heap: map<Ptr, Instance>, heap': map<Ptr, Instance>, reqs: map<nat, Request>, r: nat, req: Request, p: Ptr)
    requires Held(heap, reqs) && r in reqs && reqs[r].holds && reqs[r].target == Some(p) && !req.holds
    requires heap'.Keys == heap.Keys || (heap'.Keys == heap.Keys - {p} && heap[p].inFlight == 1)
    requires forall q :: q in heap' ==> heap'[q].inFlight == heap[q].inFlight - (if q == p then 1 else 0)
    ensures Held(heap', reqs[r := req]) && heap[p].inFlight >= 1
  {
    var reqs' := reqs[r := req];
    forall q | q in heap' ensures heap'[q].inFlight == |Holders(reqs', q)| {
      HoldersAfterRelease(reqs, r, req, q);
    }
    assert r in Holders(reqs, p);
    HoldersAfterRelease(reqs, r, req, p);
    forall x | x in reqs' && reqs'[x].holds ensures reqs'[x].target.Some? && reqs'[x].target.value in heap' {
      assert x in reqs && reqs[x].holds;
      assert reqs'[x].target == Some(p) ==> x in Holders(reqs', p);
    }
  }

  // ---------------------------------------------------------------- finding

  /** A find changes no count but that of the instance it picked. */
  ghost predicate CountsOne(s: State, s': State, req: Request, req': Request) {
    && SameShape(s, s')
    && (forall p :: p in s.heap ==> s'.heap[p].inFlight == s.heap[p].inFlight + (if req'.holds && req'.target == Some(p) then 1 else 0))
    && (req'.holds ==> req'.target.Some? && req'.target.value in s.heap)
  }

  lemma EffectCountsOne(s: State, s': State, req: Request, req': Request, now: nat)
    requires FindEffect(s, s', if req'.holds then req'.target else None, now)
    requires req'.holds ==> req'.target.Some? && req'.target.value in s.heap
    ensures CountsOne(s, s', req, req')
  {
  }

  lemma FindAppCountsOne(s: State, req: Request, now: nat)
    requires Sound(s) && !req.holds
    ensures CountsOne(s, FindApp(s, req, now).0, req, FindApp(s, req, now).1)
  {
    FindAppEffect(s, req, now);
    EffectCountsOne(s, FindApp(s, req, now).0, req, FindApp(s, req, now).1, now);
  }

  lemma FindInstanceCountsOne(s: State, req: Request, now: nat)
    requires Sound(s) && !req.holds
    ensures CountsOne(s, FindInstance(s, req, now).0, req, FindInstance(s, req, now).1)
  {
    FindInstanceEffect(s, req, now);
    EffectCountsOne(s, FindInstance(s, req, now).0, req, FindInstance(s, req, now).1, now);
  }

  lemma FindKeepsInv(w: World, r: nat, s': State, req': Request)
    requires Inv(w) && Waiting(w, r) && CountsOne(w.pool, s', w.reqs[r], req')
    ensures Inv(w.(pool := s', reqs := w.reqs[r := req']))
  {
    HeldAfterFind(w.pool.heap, s'.heap, w.reqs, r, req');
    assert forall p :: p in w.pool.heap ==> s'.heap[p].inFlight >= w.pool.heap[p].inFlight;
    ShapeKeepsInv(w.pool, s', {});
  }

  // ---------------------------------------------------------------- letting go

  lemma LetGoKeepsPool(s: State, p: Ptr, inst: Instance)
    requires PoolInv(s, {}, {}) && p in s.heap
    requires inst.app == s.heap[p].app && inst.num == s.heap[p].num && inst.valid == s.heap[p].valid && inst.inFlight >= 0
    ensures PoolInv(LetGo(s, p, inst), {}, {})
  {
    var updated := Update(s, p, inst);
    assert SameShape(s, updated);
    if inst.valid || inst.inFlight > 0 {
      assert inst.valid ==> Linked(s, p);
      ShapeKeepsInv(s, updated, {});
    } else {
      ShapeKeepsInv(s, updated, {p});
      FreeKeepsInv(updated, p);
    }
  }

  /** After a release the instance is either still counted right, or gone with nobody holding it. */
  lemma ReleaseKeepsInv(w: World, r: nat, inst: Instance, req': Request)
    requires Inv(w) && Holding(w, r) && !req'.holds
    requires var before := w.pool.heap[w.reqs[r].target.value];
             inst.app == before.app && inst.num == before.num && inst.valid == before.valid && inst.inFlight == before.inFlight - 1
    ensures Inv(w.(pool := LetGo(w.pool, w.reqs[r].target.value, inst), reqs := w.reqs[r := req']))
    ensures inst.inFlight >= 0
  {
    var p := w.reqs[r].target.value;
    var s' := LetGo(w.pool, p, inst);
    LetGoHeap(w.pool, p, inst);
    HeldAfterRelease(w.pool.heap, s'.heap, w.reqs, r, req', p);
    LetGoKeepsPool(w.pool, p, inst);
  }

  lemma LetGoHeap(s: State, p: Ptr, inst: Instance)
    requires p in s.heap && inst.app in s.apps
    ensures LetGo(s, p, inst).heap == if !inst.valid && inst.inFlight == 0 then s.heap - {p} else s.heap[p := inst]
  {
  }
}
