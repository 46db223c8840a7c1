/** What a dispatch does to the pool, told by the records it touches: where it goes first, and what each outcome leaves. */
module DispatchMeaning {
  import opened Wrappers
  import opened CStrings
  import opened SlotTables
  import opened Pool
  import opened Config
  import opened PoolInvariant
  import opened FindLaws
  import opened FindMeaning
  import opened World
  import opened Lifecycle
  import opened Dispatch
  import HttpText

  // ---------------------------------------------------------------- the first instance

  /** What the first find is to end with: a positive number asks for that instance, any other for any. */
  ghost predicate Wanted(s: State, req: Request, now: nat, target: Option<Ptr>) {
    if req.instance > 0 then NamedTarget(s, req, now, target) else AnyTarget(s, req, now, target)
  }

  /** The instance held when the dispatch opens its first connection. */
  ghost function FirstTarget(w: World, c: Control, r: nat, events: seq<Event>): Option<Ptr>
    requires Ready(w, c, r) && AllowedRun(w, c, r, events)
    decreases |events|
  {
    if events == [] then None
    else
      var next := Next(w, c, r, events[0]);
      if next.1.opens > c.opens then w.reqs[r].target else FirstTarget(next.0, next.1, r, events[1..])
  }

  /** The request ends up with what a find of that kind is to end with, and is addressed to it. */
  ghost predicate FoundAny(w: World, w': World, r: nat) {
    && r in w.reqs && r in w'.reqs
    && AnyTarget(w.pool, w.reqs[r], w.clock, Result(w'.reqs[r])) && Addressed(w.pool, w'.reqs[r])
  }

  ghost predicate FoundWanted(w: World, w': World, r: nat) {
    && r in w.reqs && r in w'.reqs
    && Wanted(w.pool, w.reqs[r], w.clock, Result(w'.reqs[r])) && Addressed(w.pool, w'.reqs[r])
  }

  lemma FindAnyFinds(w: World, r: nat)
    requires Sound(w.pool) && Waiting(w, r)
    ensures FoundAny(w, Step(w, FindAny(r)), r)
  {
    AnyFindMeets(w.pool, w.reqs[r], w.clock);
    assert Step(w, FindAny(r)).reqs[r] == FindApp(w.pool, w.reqs[r], w.clock).1;
  }

  lemma FindNamedFinds(w: World, r: nat)
    requires Sound(w.pool) && Waiting(w, r) && w.reqs[r].instance > 0
    ensures FoundWanted(w, Step(w, FindNamed(r)), r)
  {
    NamedFindMeets(w.pool, w.reqs[r], w.clock);
    assert Step(w, FindNamed(r)).reqs[r] == FindInstance(w.pool, w.reqs[r], w.clock).1;
  }

  lemma FirstFindStep(w: World, r: nat, input: Input)
    requires Inv(w) && Waiting(w, r) && Ready(w, START, r) && Allowed(w, START, r, Own(input))
    ensures var n := Next(w, START, r, Own(input));
            && n.0 == Step(w, if w.reqs[r].instance > 0 then FindNamed(r) else FindAny(r))
            && n.1 == START.(phase := Checking, found := n.0.reqs[r].holds)
  {
  }

  lemma FirstFind(w: World, r: nat, input: Input)
    requires Inv(w) && Waiting(w, r) && Ready(w, START, r) && Allowed(w, START, r, Own(input))
    ensures FoundWanted(w, Next(w, START, r, Own(input)).0, r)
  {
    FirstFindStep(w, r, input);
    if w.reqs[r].instance > 0 {
      FindNamedFinds(w, r);
    } else {
      FindAnyFinds(w, r);
    }
  }

  lemma {:induction false} DoneStays(w: World, c: Control, r: nat, events: seq<Event>)
    requires Ready(w, c, r) && AllowedRun(w, c, r, events) && c.phase.Done?
    ensures Trace(w, c, r, events).1 == c && FirstTarget(w, c, r, events) == None
    decreases |events|
  {
    if events != [] {
      DoneStays(Next(w, c, r, events[0]).0, c, r, events[1..]);
    }
  }

  /** The step after which a dispatch that has found something is either over or about to connect. */
  lemma Checked(w: World, c: Control, r: nat, input: Input)
    requires Ready(w, c, r) && Allowed(w, c, r, Own(input)) && c.phase.Checking?
    ensures Next(w, c, r, Own(input)).0.reqs == w.reqs && Next(w, c, r, Own(input)).0.pool == w.pool
    ensures c.found ==>
              && HoldsLive(w, r) && w.pool.heap[w.reqs[r].target.value].app in w.pool.apps
              && var until := w.pool.apps[w.pool.heap[w.reqs[r].target.value].app].unavailableUntil;
                 Next(w, c, r, Own(input)).1 ==
                   if until > w.clock then c.(phase := Done, reply := Some(ServiceUnavailable(until))) else c.(phase := Trying)
    ensures !c.found ==> Next(w, c, r, Own(input)).1 == c.(phase := Trying)
  {
  }

  /** Nothing found means nothing opened, and the configuration dump as the answer. */
  lemma NothingToTry(w: World, c: Control, r: nat, input: Input)
    requires Ready(w, c, r) && Allowed(w, c, r, Own(input)) && c.phase.Trying? && c.opens == 0 && !c.found
    ensures var c' := Next(w, c, r, Own(input)).1; c'.phase.Done? && c'.reply == Some(ConfigDump) && c'.opens == 0
  {
  }

  lemma SomethingToTry(w: World, c: Control, r: nat, input: Input)
    requires Ready(w, c, r) && Allowed(w, c, r, Own(input)) && c.phase.Trying? && c.opens == 0 && c.found
    ensures GoesOn(c) && HoldsLive(w, r) && Next(w, c, r, Own(input)).1.opens == 1
  {
  }

  /** Before its first open a dispatch keeps the instance it has found; without one it ends with the dump page. */
  ghost predicate GoesThere(w: World, c: Control, r: nat, events: seq<Event>, target: Option<Ptr>)
    requires Ready(w, c, r) && AllowedRun(w, c, r, events)
  {
    var first, end := FirstTarget(w, c, r, events), Trace(w, c, r, events).1;
    && (first.Some? ==> first == target)
    && (target.None? && end.phase.Done? ==> end.reply == Some(ConfigDump) && end.opens == 0)
    && (target.Some? && end.phase.Done? ==> first == target || (end.reply.Some? && end.reply.value.ServiceUnavailable?))
  }

  lemma {:induction false} UntilFirstOpen(w: World, c: Control, r: nat, events: seq<Event>)
    requires Ready(w, c, r) && AllowedRun(w, c, r, events)
    requires c.opens == 0 && (c.phase.Checking? || c.phase.Trying?)
    ensures GoesThere(w, c, r, events, Result(w.reqs[r]))
    decreases |events|
  {
    if events != [] {
      var e := events[0];
      var next := Next(w, c, r, e);
      if e.Other? {
        OtherLeaves(w, c, r, e.action);
        UntilFirstOpen(next.0, next.1, r, events[1..]);
      } else if c.phase.Checking? {
        Checked(w, c, r, e.input);
        if next.1.phase.Done? {
          DoneStays(next.0, next.1, r, events[1..]);
        } else {
          UntilFirstOpen(next.0, next.1, r, events[1..]);
        }
      } else if c.found {
        SomethingToTry(w, c, r, e.input);
      } else {
        NothingToTry(w, c, r, e.input);
        DoneStays(next.0, next.1, r, events[1..]);
      }
    }
  }

  lemma OtherLeaves(w: World, c: Control, r: nat, a: Action)
    requires Ready(w, c, r) && Allowed(w, c, r, Other(a))
    ensures Next(w, c, r, Other(a)).1 == c
    ensures r in Next(w, c, r, Other(a)).0.reqs && Next(w, c, r, Other(a)).0.reqs[r] == w.reqs[r]
  {
    ActionIsAllowed(w, c, r, Other(a));
    InvIsMemorySafe(w, a);
    OthersLeaveRequest(w, a, r);
  }

  /**
   A dispatch that starts at w goes first to the instance its request wants in the pool of that moment,
   whatever happens between its steps, and it does go there unless the application is unavailable. If
   there is no such instance, nothing is opened and the client gets the dump page.
   */
  lemma FirstOpenIsWanted(w: World, r: nat, events: seq<Event>) returns (target: Option<Ptr>)
    requires Inv(w) && Waiting(w, r) && AllowedRun(w, START, r, events) && events != [] && events[0].Own?
    ensures Wanted(w.pool, w.reqs[r], w.clock, target)
    ensures GoesThere(w, START, r, events, target)
  {
    var next := Next(w, START, r, events[0]);
    FirstFindStep(w, r, events[0].input);
    FirstFind(w, r, events[0].input);
    target := Result(next.0.reqs[r]);
    UntilFirstOpen(next.0, next.1, r, events[1..]);
    GoesThereFromNext(w, START, r, events, target);
  }

  lemma {:induction false} GoesThereFromNext(w: World, c: Control, r: nat, events: seq<Event>, target: Option<Ptr>)
    requires Ready(w, c, r) && AllowedRun(w, c, r, events) && events != []
    requires var next := Next(w, c, r, events[0]); next.1.opens <= c.opens && GoesThere(next.0, next.1, r, events[1..], target)
    ensures GoesThere(w, c, r, events, target)
  {
  }

  /** A request for an instance that is configured and does not refuse it goes to that instance and no other. */
  lemma {:induction false} NumberIsKept(w: World, r: nat, events: seq<Event>, a: AppPtr, p: Ptr)
    requires Inv(w) && Waiting(w, r) && AllowedRun(w, START, r, events) && events != [] && events[0].Own?
    requires var req := w.reqs[r];
             && req.instance > 0 && Lookup(w.pool.registry.slots, req.name) == Some(a) && a in w.pool.apps
             && Lookup(w.pool.apps[a].table.slots, ToDec(req.instance)) == Some(p)
             && NamedServes(w.pool, p, req.name, req.hasHandlerKey, w.clock)
    ensures GoesThere(w, START, r, events, Some(p))
  {
    var target := FirstOpenIsWanted(w, r, events);
  }

  /** A number that is unknown where no other instance may take its place, refused or no longer configured: the dump page. */
  lemma {:induction false} NumberNotServed(w: World, r: nat, events: seq<Event>)
    requires Inv(w) && Waiting(w, r) && AllowedRun(w, START, r, events) && events != [] && events[0].Own?
    requires w.reqs[r].instance > 0 && NamedTarget(w.pool, w.reqs[r], w.clock, None)
    requires Trace(w, START, r, events).1.phase.Done?
    ensures Trace(w, START, r, events).1.reply == Some(ConfigDump) && FirstTarget(w, START, r, events) == None
  {
    var target := FirstOpenIsWanted(w, r, events);
    OneTarget(w.pool, w.reqs[r], w.clock, target);
  }

  /** What is wanted is determined by the pool. */
  lemma OneTarget(s: State, req: Request, now: nat, target: Option<Ptr>)
    requires NamedTarget(s, req, now, None) && NamedTarget(s, req, now, target)
    ensures target == None
  {
  }

  // ---------------------------------------------------------------- how long it tries

  /** A dispatch that ends without an answer has used up its ten attempts or has found no instance any more. */
  ghost predicate TriedEnough(c: Control) {
    c.phase.Done? && c.reply == Some(NoResponse) ==> !c.found || c.opens + |c.failed| >= 10
  }

  lemma AdvanceTriesEnough(c: Control, seen: View, input: Input)
    requires Dispatch.Counted(c) && Replies(c) && TriedEnough(c) && !c.phase.Done?
    requires c.phase.Receiving? ==> HttpText.ReadableBytes(input.bytes)
    ensures TriedEnough(Advance(c, seen, input))
  {
  }

  lemma StepTriesEnough(w: World, c: Control, r: nat, e: Event)
    requires Ready(w, c, r) && Allowed(w, c, r, e) && TriedEnough(c)
    ensures TriedEnough(Next(w, c, r, e).1)
  {
    if e.Own? {
      AdvanceTriesEnough(c, Seen(w, Next(w, c, r, e).0, r), e.input);
    }
  }

  lemma {:induction false} RunTriesEnough(w: World, c: Control, r: nat, events: seq<Event>)
    requires Ready(w, c, r) && AllowedRun(w, c, r, events) && TriedEnough(c)
    ensures TriedEnough(Trace(w, c, r, events).1)
    decreases |events|
  {
    if events != [] {
      StepTriesEnough(w, c, r, events[0]);
      RunTriesEnough(Next(w, c, r, events[0]).0, Next(w, c, r, events[0]).1, r, events[1..]);
    }
  }

  lemma {:induction false} GivesUpLate(w: World, r: nat, events: seq<Event>)
    requires Inv(w) && Waiting(w, r) && AllowedRun(w, START, r, events)
    ensures TriedEnough(Trace(w, START, r, events).1)
  {
    RunTriesEnough(w, START, r, events);
  }

  // ---------------------------------------------------------------- what each step leaves

  /** The world after the record at p has been changed. */
  ghost function WithRecord(w: World, p: Ptr, inst: Instance): World {
    w.(pool := w.pool.(heap := w.pool.heap[p := inst]))
  }

  ghost predicate Revives(w: World, w': World, r: nat) {
    && HoldsLive(w, r)
    && var p := w.reqs[r].target.value; w' == WithRecord(w, p, w.pool.heap[p].(retry := 0))
  }

  lemma StartRevives(w: World, r: nat)
    requires Sound(w.pool) && HoldsLive(w, r)
    ensures Revives(w, Step(w, Connected(r)), r)
  {
    assert Step(w, Connected(r)) == w.(pool := Start(w.pool, w.reqs[r].target.value));
  }

  lemma ConnectionStep(w: World, c: Control, r: nat, input: Input)
    requires Ready(w, c, r) && Allowed(w, c, r, Own(input)) && c.phase.Trying? && GoesOn(c) && input.ok
    ensures HoldsLive(w, r) && MemorySafe(w, Connected(r)) && Next(w, c, r, Own(input)).0 == Step(w, Connected(r))
  {
    assert HoldsLive(w, r);
  }

  /** A connection that works makes its instance alive at once and changes nothing else. */
  lemma ConnectionRevives(w: World, c: Control, r: nat, input: Input)
    requires Ready(w, c, r) && Allowed(w, c, r, Own(input)) && c.phase.Trying? && GoesOn(c) && input.ok
    ensures Revives(w, Next(w, c, r, Own(input)).0, r)
  {
    ConnectionStep(w, c, r, input);
    StartRevives(w, r);
  }

  /** So a connected instance that is configured may serve the next request of a session without waiting. */
  lemma RevivedMayServe(w: World, p: Ptr, name: string, now: nat)
    requires p in w.pool.heap && w.pool.heap[p].valid
    ensures MayServe(WithRecord(w, p, w.pool.heap[p].(retry := 0)).pool, p, name, true, now)
  {
  }

  /** All that a stop or a mark may change: the record of the instance, or its presence if it is idle and not configured. */
  ghost predicate LetsGo(w: World, w': World, r: nat, inst: Instance)
    requires HoldsLive(w, r)
  {
    var p := w.reqs[r].target.value;
    && Waiting(w', r)
    && (p in w'.pool.heap <==> inst.valid || inst.inFlight > 0)
    && (p in w'.pool.heap ==> w'.pool.heap[p] == inst)
    && (forall q :: q in w.pool.heap && q != p ==> q in w'.pool.heap && w'.pool.heap[q] == w.pool.heap[q])
    && w'.pool.refusals == w.pool.refusals && w'.clock == w.clock
  }

  lemma ReleaseLetsGo(w: World, r: nat, a: Action)
    requires Inv(w) && HoldsLive(w, r) && (a == Finished(r) || a == NotResponding(r))
    ensures LetsGo(w, Step(w, a), r, Released(w, a))
  {
    var p := w.reqs[r].target.value;
    CountIsHolders(w, p);
    ReleaseStep(w, a);
    LetGoHeap(w.pool, p, Released(w, a));
  }

  ghost predicate Marks(w: World, w': World, r: nat) {
    && HoldsLive(w, r)
    && var inst := w.pool.heap[w.reqs[r].target.value];
       LetsGo(w, w', r, inst.(inFlight := inst.inFlight - 1, notResponding := inst.notResponding + 1, retry := w.clock + 3))
  }

  ghost predicate Handles(w: World, w': World, r: nat) {
    && HoldsLive(w, r)
    && var inst := w.pool.heap[w.reqs[r].target.value]; LetsGo(w, w', r, inst.(inFlight := inst.inFlight - 1, handled := inst.handled + 1))
  }

  lemma MarkMarks(w: World, r: nat)
    requires Inv(w) && HoldsLive(w, r)
    ensures Marks(w, Step(w, NotResponding(r)), r)
  {
    ReleaseLetsGo(w, r, NotResponding(r));
  }

  lemma StopHandles(w: World, r: nat)
    requires Inv(w) && HoldsLive(w, r)
    ensures Handles(w, Step(w, Finished(r)), r)
  {
    ReleaseLetsGo(w, r, Finished(r));
  }

  lemma FailureStep(w: World, c: Control, r: nat, input: Input)
    requires Ready(w, c, r) && Allowed(w, c, r, Own(input)) && c.phase.Trying? && GoesOn(c) && !input.ok
    ensures HoldsLive(w, r) && MemorySafe(w, NotResponding(r)) && Next(w, c, r, Own(input)).0 == Step(w, NotResponding(r))
  {
    assert HoldsLive(w, r);
  }

  lemma AnswerStep(w: World, c: Control, r: nat, input: Input)
    requires Ready(w, c, r) && Allowed(w, c, r, Own(input)) && c.phase.Receiving?
    ensures HoldsLive(w, r) && MemorySafe(w, Finished(r)) && Next(w, c, r, Own(input)).0 == Step(w, Finished(r))
    ensures var c' := Next(w, c, r, Own(input)).1;
            && c'.answer == Some(HttpText.ReadResponse(input.bytes, input.errorPage))
            && c'.reply == Some(FromApp(HttpText.ReadResponse(input.bytes, input.errorPage)))
  {
    assert HoldsLive(w, r);
  }

  /** A connection that fails: one open request less, one failure more, and three seconds before the next try. */
  lemma FailureMarks(w: World, c: Control, r: nat, input: Input)
    requires Ready(w, c, r) && Allowed(w, c, r, Own(input)) && c.phase.Trying? && GoesOn(c) && !input.ok
    ensures Marks(w, Next(w, c, r, Own(input)).0, r)
  {
    FailureStep(w, c, r, input);
    MarkMarks(w, r);
  }

  /** A response that has been read: one open request less, one handled more, and the reply is what the bytes say. */
  lemma AnswerIsHandled(w: World, c: Control, r: nat, input: Input)
    requires Ready(w, c, r) && Allowed(w, c, r, Own(input)) && c.phase.Receiving?
    ensures Handles(w, Next(w, c, r, Own(input)).0, r)
    ensures Next(w, c, r, Own(input)).1.reply == Some(FromApp(HttpText.ReadResponse(input.bytes, input.errorPage)))
  {
    AnswerStep(w, c, r, input);
    StopHandles(w, r);
  }

  /** When the request has been sent, its name and number are remembered for a refusal; when that fails the instance stays held. */
  lemma SentUnderNumber(w: World, c: Control, r: nat, input: Input)
    requires Ready(w, c, r) && Allowed(w, c, r, Own(input)) && c.phase.Sending?
    ensures Next(w, c, r, Own(input)).0 == w
    ensures var c' := Next(w, c, r, Own(input)).1;
            if input.ok then c'.name == w.reqs[r].name && c'.num == w.reqs[r].instance && c'.phase.Receiving?
            else c'.down && c'.phase.Trying? && c'.reply.None?
  {
    IdleStep(w);
  }

  lemma IdleStep(w: World)
    requires Sound(w.pool)
    ensures Step(w, Tick(0)) == w
  {
  }

  /** A response says that its instance takes no new sessions. */
  ghost predicate SaysRefusing(response: HttpText.Response) {
    var value := Lookup(response.headers.slots, "x-gsweb-refusing-redirection");
    value.Some? && |value.value| >= 3 && value.value[..3] == "YES"
  }

  lemma SaysRefusingIff(response: HttpText.Response)
    ensures SaysRefusing(response) <==> RefusesSessions(response)
  {
  }

  /** The instance refuses up to ten seconds from now and no longer. */
  ghost predicate RefusesForTen(w: World, w': World, name: string, num: int) {
    && w'.pool.heap == w.pool.heap && w'.reqs == w.reqs
    && forall t: nat :: InForce(w'.pool.refusals, name, num, t) <==> t <= w.clock + 10
  }

  lemma RefusedForTen(w: World, name: string, num: CInt)
    requires Sound(w.pool)
    ensures RefusesForTen(w, Step(w, Refused(name, num)), name, num)
  {
    var s, key, info := w.pool, RefusalKey(name, num), Refusal(true, w.clock + 10);
    if Lookup(s.refusals.slots, key).Some? {
      LookupAfterSetValue(s.refusals, key, info, key);
    } else {
      LookupAfterAdd(s.refusals, key, info, key);
    }
  }

  lemma NotingStep(w: World, c: Control, r: nat, input: Input)
    requires Ready(w, c, r) && Allowed(w, c, r, Own(input)) && c.phase.Noting?
    ensures c.answer.Some?
    ensures Next(w, c, r, Own(input)).0 == Step(w, if SaysRefusing(c.answer.value) then Refused(c.name, c.num) else Tick(0))
  {
    assert Replies(c);
    SaysRefusingIff(c.answer.value);
  }

  /** Then the instance it came from refuses for ten seconds; any other response changes nothing. */
  lemma RefusalIsNoted(w: World, c: Control, r: nat, input: Input)
    requires Ready(w, c, r) && Allowed(w, c, r, Own(input)) && c.phase.Noting?
    ensures c.answer.Some?
    ensures if SaysRefusing(c.answer.value) then RefusesForTen(w, Next(w, c, r, Own(input)).0, c.name, c.num)
            else Next(w, c, r, Own(input)).0 == w
  {
    NotingStep(w, c, r, input);
    RefusedForTen(w, c.name, c.num);
    IdleStep(w);
  }

  lemma ReselectionStep(w: World, c: Control, r: nat, input: Input)
    requires Ready(w, c, r) && Allowed(w, c, r, Own(input)) && c.phase.Reselecting?
    ensures Waiting(w, r)
    ensures Next(w, c, r, Own(input)).0 == Step(w, if c.attempts > 0 then FindAny(r) else Tick(0))
  {
  }

  /** After a failed connection any instance will do, while an attempt is left. */
  lemma ReselectionTakesAny(w: World, c: Control, r: nat, input: Input)
    requires Ready(w, c, r) && Allowed(w, c, r, Own(input)) && c.phase.Reselecting?
    ensures if c.attempts > 0 then FoundAny(w, Next(w, c, r, Own(input)).0, r) else Next(w, c, r, Own(input)).0 == w
  {
    ReselectionStep(w, c, r, input);
    FindAnyFinds(w, r);
    IdleStep(w);
  }
}
