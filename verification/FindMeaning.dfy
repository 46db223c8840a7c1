/** What a find does, told by the records it meets and not by the search. */
module FindMeaning {
  import opened Wrappers
  import opened CStrings
  import opened SlotTables
  import opened Pool
  import opened FindLaws

  // ---------------------------------------------------------------- who may serve

  /** A refusal of the instance is on record and its time is not over. */
  ghost predicate InForce(refusals: Table<Refusal>, name: string, num: int, now: nat) {
    var entry := Lookup(refusals.slots, RefusalKey(name, num));
    entry.Some? && entry.value.refused && now <= entry.value.until
  }

  /** Configured, alive or past its retry time, and not refusing unless the request belongs to a session. */
  ghost predicate MayServe(s: State, p: Ptr, name: string, hasHandlerKey: bool, now: nat) {
    && p in s.heap && s.heap[p].valid
    && (s.heap[p].retry == 0 || now > s.heap[p].retry)
    && (hasHandlerKey || !InForce(s.refusals, name, s.heap[p].num, now))
  }

  lemma EligibleIff(s: State, p: Ptr, name: string, hasHandlerKey: bool, now: nat)
    ensures MayServe(s, p, name, hasHandlerKey, now) <==> p in s.heap && Eligible(s, p, name, hasHandlerKey, now)
  {
  }

  // ---------------------------------------------------------------- which one it is

  /** The instances of an application in the order of their slots, beginning behind the last index. */
  ghost function Round(app: App): seq<Ptr> {
    var order := Order(app.table.slots);
    if order == [] then []
    else
      var first := (app.lastIndex + 1) % |order|;
      order[first..] + order[..first]
  }

  lemma RoundIsCycle(app: App, j: nat)
    requires j < |Order(app.table.slots)|
    ensures |Round(app)| == |Order(app.table.slots)| && Round(app)[j] == InCycle(Order(app.table.slots), app.lastIndex, j)
  {
    var order := Order(app.table.slots);
    var first := (app.lastIndex + 1) % |order|;
    ModOfSum(app.lastIndex + 1, j, |order|);
    ModSmall(first + j, |order|);
  }

  /** The first of the round that may serve; none if none of them may. */
  ghost predicate FirstToServe(s: State, app: App, name: string, hasHandlerKey: bool, now: nat, target: Option<Ptr>) {
    match target
    case None => forall i :: 0 <= i < |Round(app)| ==> !MayServe(s, Round(app)[i], name, hasHandlerKey, now)
    case Some(p) =>
      exists k :: 0 <= k < |Round(app)| && Round(app)[k] == p && MayServe(s, p, name, hasHandlerKey, now)
                  && forall j :: 0 <= j < k ==> !MayServe(s, Round(app)[j], name, hasHandlerKey, now)
  }

  /** The instance of that number: it must be configured and not refuse; whether it is alive is not asked. */
  ghost predicate NamedServes(s: State, p: Ptr, name: string, hasHandlerKey: bool, now: nat) {
    && p in s.heap && s.heap[p].valid
    && (hasHandlerKey || !InForce(s.refusals, name, s.heap[p].num, now))
  }

  /** What a find of any instance is to end with. */
  ghost predicate AnyTarget(s: State, req: Request, now: nat, target: Option<Ptr>) {
    match Lookup(s.registry.slots, req.name)
    case None => target == None
    case Some(a) => a in s.apps && FirstToServe(s, s.apps[a], req.name, req.hasHandlerKey, now, target)
  }

  /** What a find by number is to end with; only an unknown number may lead to another instance. */
  ghost predicate NamedTarget(s: State, req: Request, now: nat, target: Option<Ptr>) {
    match Lookup(s.registry.slots, req.name)
    case None => target == None
    case Some(a) =>
      a in s.apps &&
      match Lookup(s.apps[a].table.slots, ToDec(req.instance))
      case Some(p) => target == if NamedServes(s, p, req.name, req.hasHandlerKey, now) then Some(p) else None
      case None =>
        if s.apps[a].switchToKnown then FirstToServe(s, s.apps[a], req.name, req.hasHandlerKey, now, target) else target == None
  }

  ghost function Result(req: Request): Option<Ptr> {
    if req.holds then req.target else None
  }

  /** The request carries number, host and port of the instance it has been given. */
  ghost predicate Addressed(s: State, req: Request) {
    req.holds ==>
      && req.target.Some? && req.target.value in s.heap
      && req.instance == s.heap[req.target.value].num
      && req.host == s.heap[req.target.value].host && req.port == s.heap[req.target.value].port
  }

  lemma PickIsFirst(s: State, a: AppPtr, name: string, hasHandlerKey: bool, now: nat)
    requires a in s.apps && Allocated(s.heap, Order(s.apps[a].table.slots))
    ensures FirstToServe(s, s.apps[a], name, hasHandlerKey, now,
                         Pick(s, Order(s.apps[a].table.slots), s.apps[a].lastIndex, name, hasHandlerKey, now))
  {
    var app := s.apps[a];
    var order, last := Order(app.table.slots), app.lastIndex;
    var k := FirstEligible(s, order, last, 0, name, hasHandlerKey, now);
    forall j | 0 <= j < k ensures !MayServe(s, Round(app)[j], name, hasHandlerKey, now) {
      RoundIsCycle(app, j);
      assert !Eligible(s, InCycle(order, last, j), name, hasHandlerKey, now);
    }
    if k < |order| {
      RoundIsCycle(app, k);
      assert Round(app)[k] == InCycle(order, last, k);
    }
  }

  /** Round robin, as a client sees it: who gets the request, and where it is then sent. */
  lemma AnyFindMeets(s: State, req: Request, now: nat)
    requires Sound(s) && !req.holds
    ensures AnyTarget(s, req, now, Result(FindApp(s, req, now).1))
    ensures Addressed(s, FindApp(s, req, now).1)
  {
    match Lookup(s.registry.slots, req.name)
    case None =>
    case Some(a) =>
      FindAppIsPick(s, req, now, a);
      PickIsFirst(s, a, req.name, req.hasHandlerKey, now);
  }

  /** The same for a find by number. */
  lemma NamedFindMeets(s: State, req: Request, now: nat)
    requires Sound(s) && !req.holds
    ensures NamedTarget(s, req, now, Result(FindInstance(s, req, now).1))
    ensures Addressed(s, FindInstance(s, req, now).1)
  {
    match Lookup(s.registry.slots, req.name)
    case None =>
    case Some(a) =>
      NamedFind(s, req, now, a);
      AnyFindMeets(s, req, now);
  }

  // ---------------------------------------------------------------- what it leaves behind

  /** The instance found has one open request more, and if it was found round robin it counts as alive. */
  lemma FoundIsCounted(s: State, req: Request, now: nat)
    requires Sound(s) && !req.holds && FindApp(s, req, now).1.holds
    ensures var (s', req') := FindApp(s, req, now);
            && req'.target.Some? && req'.target.value in s.heap && req'.target.value in s'.heap
            && s'.heap[req'.target.value] ==
                 s.heap[req'.target.value].(retry := 0, inFlight := s.heap[req'.target.value].inFlight + 1)
  {
    match Lookup(s.registry.slots, req.name)
    case None =>
    case Some(a) =>
      FindAppIsPick(s, req, now, a);
      PickIsTried(s, a, Order(s.apps[a].table.slots), req.name, req.hasHandlerKey, now);
  }

  lemma PickIsTried(s: State, a: AppPtr, order: seq<Ptr>, name: string, hasHandlerKey: bool, now: nat)
    requires a in s.apps && Allocated(s.heap, order)
    requires Pick(s, order, s.apps[a].lastIndex, name, hasHandlerKey, now).Some?
    ensures var p := Pick(s, order, s.apps[a].lastIndex, name, hasHandlerKey, now).value;
            Search(s, a, order, name, hasHandlerKey, now).heap[p] == s.heap[p].(retry := 0, inFlight := s.heap[p].inFlight + 1)
  {
    var last := s.apps[a].lastIndex;
    var k := FirstEligible(s, order, last, 0, name, hasHandlerKey, now);
    assert Tried(order, last, k + 1)[k] == InCycle(order, last, k);
  }
}
