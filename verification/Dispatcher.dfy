/** GSWAppRequest_SendAppRequestToApp as a loop over the real pool: each of its runs is a run of the dispatch program. */
module Dispatcher {
  import opened Wrappers
  import opened CStrings
  import opened SlotTables
  import opened Pool
  import opened World
  import opened Lifecycle
  import opened Dispatch
  import opened LoadBalancer
  import opened FindMeaning
  import opened DispatchMeaning
  import HttpText

  /** What the outside delivers to one step, and how many seconds pass before it. */
  datatype Moment = Moment(delay: nat, input: Input)

  /** A dispatch of request r that began in world w: the events so far, and where they have led. */
  datatype Progress = Progress(w: World, r: nat, events: seq<Event>, now: World, c: Control)

  /** Only steps of the request itself and the passing of time. */
  ghost predicate OnlyOwn(events: seq<Event>) {
    forall i :: 0 <= i < |events| ==> events[i].Own? || events[i].action.Tick?
  }

  ghost predicate IsRun(p: Progress) {
    && Ready(p.w, START, p.r) && AllowedRun(p.w, START, p.r, p.events) && OnlyOwn(p.events)
    && Trace(p.w, START, p.r, p.events) == (p.now, p.c)
  }

  /** IsRun, to be looked into only where a proof considers it: whole runs are of no concern to single steps. */
  ghost predicate Underway(p: Progress) {
    forall i {:trigger Look(i)} :: Look(i) ==> IsRun(p)
  }

  lemma {:induction false} TraceExtends(w: World, c: Control, r: nat, events: seq<Event>, e: Event)
    requires Ready(w, c, r) && AllowedRun(w, c, r, events)
    requires Allowed(Trace(w, c, r, events).0, Trace(w, c, r, events).1, r, e)
    ensures AllowedRun(w, c, r, events + [e])
    ensures Trace(w, c, r, events + [e]) == Next(Trace(w, c, r, events).0, Trace(w, c, r, events).1, r, e)
    decreases |events|
  {
    if events == [] {
      assert [e][1..] == [];
    } else {
      var next := Next(w, c, r, events[0]);
      assert (events + [e])[1..] == events[1..] + [e];
      TraceExtends(next.0, next.1, r, events[1..], e);
    }
  }

  lemma RunExtends(p: Progress, e: Event) returns (p': Progress)
    requires Underway(p) && Allowed(p.now, p.c, p.r, e) && (e.Own? || e.action.Tick?)
    ensures Ready(p.now, p.c, p.r)
    ensures Underway(p') && p'.r == p.r && p'.w == p.w && (p'.now, p'.c) == Next(p.now, p.c, p.r, e)
  {
    assert Look(0);
    TraceExtends(p.w, START, p.r, p.events, e);
    p' := Progress(p.w, p.r, p.events + [e], Next(p.now, p.c, p.r, e).0, Next(p.now, p.c, p.r, e).1);
    assert IsRun(p');
  }

  function Later(w: World, seconds: nat): World {
    w.(clock := w.clock + seconds)
  }

  lemma TimePasses(p: Progress, seconds: nat) returns (p': Progress)
    requires Underway(p)
    ensures Underway(p') && p'.r == p.r && p'.w == p.w && p'.c == p.c && p'.now == Later(p.now, seconds)
  {
    p' := RunExtends(p, Other(Tick(seconds)));
  }

  /** The step the dispatch takes next, on the world and on the variables. */
  lemma OwnStep(p: Progress, input: Input) returns (p': Progress)
    requires Underway(p) && !p.c.phase.Done? && (p.c.phase.Receiving? ==> HttpText.ReadableBytes(input.bytes))
    ensures Underway(p') && p'.r == p.r && p'.w == p.w
    ensures Ready(p.now, p.c, p.r)
    ensures var a := Act(p.now, p.c, p.r, input);
            && Protocol(p.now, a) && MemorySafe(p.now, a) && p'.now == Step(p.now, a) && p.r in p'.now.reqs
            && p'.c == Advance(p.c, Seen(p.now, p'.now, p.r), input) && p'.now.clock == p.now.clock
  {
    p' := RunExtends(p, Own(input));
    var a := Act(p.now, p.c, p.r, input);
    ActionIsAllowed(p.now, p.c, p.r, Own(input));
    InvIsMemorySafe(p.now, a);
    ClockOfOwnStep(p.now, a, p.r);
  }

  lemma ClockOfOwnStep(w: World, a: Action, r: nat)
    requires Protocol(w, a) && MemorySafe(w, a)
    requires a == Tick(0) || a.Refused? || a == FindAny(r) || a == FindNamed(r) || a == Connected(r) || a == Finished(r) || a == NotResponding(r)
    ensures Step(w, a).clock == w.clock
  {
  }

  // ---------------------------------------------------------------- the steps on the real pool

  ghost predicate Represents(adaptor: Adaptor, req: AppRequest, w: World, r: nat)
    reads adaptor, req
  {
    adaptor.State() == w.pool && r in w.reqs && req.State() == w.reqs[r]
  }

  /** Pool, request and time are where the run is. */
  ghost predicate Here(adaptor: Adaptor, req: AppRequest, clock: nat, p: Progress)
    reads adaptor, req
  {
    Underway(p) && Represents(adaptor, req, p.now, p.r) && p.now.clock == clock
  }

  ghost predicate SameDispatch(p: Progress, p': Progress) {
    p'.w == p.w && p'.r == p.r
  }

  method Wait(adaptor: Adaptor, req: AppRequest, clock: nat, seconds: nat, ghost p: Progress) returns (clock': nat, ghost p': Progress)
    requires Here(adaptor, req, clock, p)
    ensures Here(adaptor, req, clock', p') && SameDispatch(p, p') && p'.c == p.c
  {
    clock' := clock + seconds;
    p' := TimePasses(p, seconds);
  }

  /** The first find: a positive instance number asks for that instance. */
  method Find(adaptor: Adaptor, req: AppRequest, now: nat, ghost p: Progress) returns (found: bool, ghost p': Progress)
    requires Here(adaptor, req, now, p) && p.c.phase.Finding?
    modifies adaptor, req
    ensures Here(adaptor, req, now, p') && SameDispatch(p, p')
    ensures p'.c == p.c.(phase := Checking, found := found)
    ensures Wanted(old(adaptor.State()), old(req.State()), now, Result(req.State())) && found == req.holds
  {
    p' := OwnStep(p, Input(true, [], []));
    if req.instance > 0 {
      NamedFindMeets(adaptor.State(), req.State(), now);
      found := adaptor.FindInstance(req, now);
    } else {
      AnyFindMeets(adaptor.State(), req.State(), now);
      found := adaptor.FindApp(req, now);
    }
  }

  /** Another find after a failed connection. */
  method Reselect(adaptor: Adaptor, req: AppRequest, attempts: int, found: bool, now: nat, ghost p: Progress)
    returns (found': bool, attempts': int, ghost p': Progress)
    requires Here(adaptor, req, now, p) && p.c.phase.Reselecting? && p.c.attempts == attempts && p.c.found == found
    modifies adaptor, req
    ensures Here(adaptor, req, now, p') && SameDispatch(p, p')
    ensures attempts' == attempts - 1 && p'.c == p.c.(phase := Trying, attempts := attempts', found := found')
  {
    p' := OwnStep(p, Input(true, [], []));
    found' := found;
    if attempts > 0 {
      found' := adaptor.FindApp(req, now);
    }
    attempts' := attempts - 1;
  }

  /** The instance answers the connection, or it does not and is marked. */
  method Connect(adaptor: Adaptor, req: AppRequest, input: Input, now: nat, ghost p: Progress) returns (ghost p': Progress)
    requires Here(adaptor, req, now, p) && p.c.phase.Trying? && GoesOn(p.c)
    modifies adaptor, req
    ensures Here(adaptor, req, now, p') && SameDispatch(p, p')
    ensures p'.c.phase == (if input.ok then Sending else Reselecting) && p'.c.attempts == p.c.attempts - 1
    ensures p'.c.found && p'.c.reply == None && p'.c.down == !input.ok
  {
    p' := OwnStep(p, input);
    assert HoldsLive(p.now, p.r);
    if input.ok {
      adaptor.StartAppRequest(req);
    } else {
      adaptor.MarkNotResponding(req, now);
    }
  }

  /** The request is sent; this does not concern the pool. */
  method Send(adaptor: Adaptor, req: AppRequest, input: Input, now: nat, ghost p: Progress) returns (sent: bool, ghost p': Progress)
    requires Here(adaptor, req, now, p) && p.c.phase.Sending?
    ensures Here(adaptor, req, now, p') && SameDispatch(p, p') && sent == input.ok
    ensures p'.c == if sent then p.c.(phase := Receiving, name := req.name, num := req.instance) else p.c.(phase := Trying, down := true)
  {
    sent := input.ok;
    p' := OwnStep(p, input);
  }

  /** The response is read, and the instance is let go of. */
  method Receive(adaptor: Adaptor, req: AppRequest, input: Input, now: nat, ghost p: Progress)
    returns (response: HttpText.Response, ghost p': Progress)
    requires Here(adaptor, req, now, p) && p.c.phase.Receiving? && HttpText.ReadableBytes(input.bytes)
    modifies adaptor, req
    ensures Here(adaptor, req, now, p') && SameDispatch(p, p')
    ensures p'.c == p.c.(phase := Noting, reply := Some(FromApp(response)), answer := Some(response))
  {
    p' := OwnStep(p, input);
    response := HttpText.ReadResponse(input.bytes, input.errorPage);
    assert HoldsLive(p.now, p.r);
    adaptor.StopAppRequest(req);
  }

  /** An application that refuses new sessions is noted under the name and number the request was sent to. */
  method Note(adaptor: Adaptor, req: AppRequest, response: HttpText.Response, name: string, num: CInt, now: nat, ghost p: Progress)
    returns (ghost p': Progress)
    requires Here(adaptor, req, now, p) && p.c.phase.Noting? && p.c.answer == Some(response) && p.c.name == name && p.c.num == num
    modifies adaptor
    ensures Here(adaptor, req, now, p') && SameDispatch(p, p') && p'.c == p.c.(phase := Trying)
  {
    p' := OwnStep(p, Input(true, [], []));
    var value := Lookup(response.headers.slots, "x-gsweb-refusing-redirection");
    if value.Some? && "YES" <= value.value {
      adaptor.SetAppInfo(name, num, true, now);
    }
  }

  /** Until when the application of the instance found is unavailable, if that time has not come yet. */
  ghost function Availability(adaptor: Adaptor, req: AppRequest, now: nat): Option<nat>
    reads adaptor, req
  {
    if req.target.Some? && req.target.value in adaptor.heap && adaptor.heap[req.target.value].app in adaptor.apps then
      var app := adaptor.apps[adaptor.heap[req.target.value].app];
      if app.unavailableUntil > now then Some(app.unavailableUntil) else None
    else None
  }

  /** Until when the application found is unavailable, if it is. */
  method Check(adaptor: Adaptor, req: AppRequest, found: bool, now: nat, ghost p: Progress) returns (until: Option<nat>, ghost p': Progress)
    requires Here(adaptor, req, now, p) && p.c.phase.Checking? && p.c.found == found
    ensures Here(adaptor, req, now, p') && SameDispatch(p, p')
    ensures p'.c == if until.Some? then p.c.(phase := Done, reply := Some(ServiceUnavailable(until.value))) else p.c.(phase := Trying)
    ensures if found then until == Availability(adaptor, req, now) else until == None
  {
    p' := OwnStep(p, Input(true, [], []));
    until := None;
    if found {
      assert HoldsLive(p.now, p.r);
      var app := adaptor.apps[adaptor.heap[req.target.value].app];
      if app.unavailableUntil > 0 && app.unavailableUntil > now {
        until := Some(app.unavailableUntil);
      }
    }
  }

  /** The page for a dispatch whose loop has ended. */
  method Conclude(adaptor: Adaptor, req: AppRequest, down: bool, reply: Option<Reply>, now: nat, ghost p: Progress)
    returns (result: Reply, ghost p': Progress)
    requires Here(adaptor, req, now, p) && p.c.phase.Trying? && !GoesOn(p.c) && p.c.down == down && p.c.reply == reply
    ensures Here(adaptor, req, now, p') && SameDispatch(p, p') && p'.c == p.c.(phase := Done, reply := Some(result))
    ensures result == if down then NoResponse else reply.GetOr(ConfigDump)
  {
    p' := OwnStep(p, Input(true, [], []));
    var shown := reply;
    if down {
      shown := Some(NoResponse);
    }
    if shown.None? {
      shown := Some(ConfigDump);
    }
    result := shown.value;
  }

  // ---------------------------------------------------------------- the loop

  /** One turn: connect, and either send, receive and note a refusal, or look for another instance. */
  method Attempt(adaptor: Adaptor, req: AppRequest, net: nat -> Moment, k: nat, clock: nat, attempts: int, ghost p: Progress)
    returns (attempts': int, found: bool, down: bool, reply: Option<Reply>, k': nat, clock': nat, ghost p': Progress)
    requires forall i :: HttpText.ReadableBytes(net(i).input.bytes)
    requires Here(adaptor, req, clock, p) && p.c.phase.Trying? && GoesOn(p.c) && p.c.attempts == attempts
    modifies adaptor, req
    ensures Here(adaptor, req, clock', p') && SameDispatch(p, p') && attempts' < attempts
    ensures p'.c.phase.Trying? && p'.c.attempts == attempts' && p'.c.found == found && p'.c.down == down && p'.c.reply == reply
  {
    found, down, reply := true, false, None;
    attempts' := attempts - 1;
    clock', p' := Wait(adaptor, req, clock, net(k).delay, p);
    p' := Connect(adaptor, req, net(k).input, clock', p');
    var ok := net(k).input.ok;
    k' := k + 1;
    clock', p' := Wait(adaptor, req, clock', net(k').delay, p');
    if ok {
      var sent;
      var name, num := req.name, req.instance;
      sent, p' := Send(adaptor, req, net(k').input, clock', p');
      if !sent {
        down := true;
      } else {
        k' := k' + 1;
        clock', p' := Wait(adaptor, req, clock', net(k').delay, p');
        var response;
        response, p' := Receive(adaptor, req, net(k').input, clock', p');
        reply := Some(FromApp(response));
        p' := Note(adaptor, req, response, name, num, clock', p');
      }
    } else {
      down := true;
      found, attempts', p' := Reselect(adaptor, req, attempts', true, clock', p');
    }
    k' := k' + 1;
  }

  /** The dispatch from its first find on. */
  method Work(adaptor: Adaptor, req: AppRequest, net: nat -> Moment, start: nat, ghost p: Progress)
    returns (reply: Reply, ghost p': Progress)
    requires forall i :: HttpText.ReadableBytes(net(i).input.bytes)
    requires Here(adaptor, req, start, p) && p.c == START
    modifies adaptor, req
    ensures exists now :: Here(adaptor, req, now, p')
    ensures SameDispatch(p, p') && p'.c.phase.Done? && p'.c.reply == Some(reply)
  {
    var clock, k := start, 0;
    clock, p' := Wait(adaptor, req, clock, net(k).delay, p);
    var found;
    found, p' := Find(adaptor, req, clock, p');
    k := k + 1;
    clock, p' := Wait(adaptor, req, clock, net(k).delay, p');
    var until;
    until, p' := Check(adaptor, req, found, clock, p');
    k := k + 1;
    if until.Some? {
      reply := ServiceUnavailable(until.value);
    } else {
      var attempts: int, down, response: Option<Reply> := APP_CONNECT_RETRIES_NB, false, None;
      while response.None? && found && attempts > 0
        invariant Here(adaptor, req, clock, p') && SameDispatch(p, p')
        invariant p'.c.phase.Trying? && p'.c.attempts == attempts && p'.c.found == found && p'.c.down == down && p'.c.reply == response
        decreases attempts
      {
        attempts, found, down, response, k, clock, p' := Attempt(adaptor, req, net, k, clock, attempts, p');
      }
      clock, p' := Wait(adaptor, req, clock, net(k).delay, p');
      reply, p' := Conclude(adaptor, req, down, response, clock, p');
    }
    assert Here(adaptor, req, clock, p');
  }

  /**
   GSWAppRequest_SendAppRequestToApp. What it does to pool and request, and what it answers, is what some
   run of the dispatch program does with nobody else in between.
   */
  method SendAppRequestToApp(adaptor: Adaptor, req: AppRequest, net: nat -> Moment, start: nat, ghost w: World, ghost r: nat)
    returns (reply: Reply, ghost events: seq<Event>)
    requires forall i :: HttpText.ReadableBytes(net(i).input.bytes)
    requires Inv(w) && Waiting(w, r) && Represents(adaptor, req, w, r) && w.clock == start
    modifies adaptor, req
    ensures AllowedRun(w, START, r, events) && OnlyOwn(events)
    ensures var (w', c) := Trace(w, START, r, events);
            Represents(adaptor, req, w', r) && c.phase.Done? && c.reply == Some(reply)
  {
    ghost var p := Begun(w, r);
    reply, p := Work(adaptor, req, net, start, p);
    EndsAs(p);
    events := p.events;
  }

  lemma Begun(w: World, r: nat) returns (p: Progress)
    requires Inv(w) && Waiting(w, r)
    ensures Underway(p) && p == Progress(w, r, [], w, START)
  {
    p := Progress(w, r, [], w, START);
    assert IsRun(p);
  }

  lemma EndsAs(p: Progress)
    requires Underway(p)
    ensures IsRun(p)
  {
    assert Look(0);
  }
}
