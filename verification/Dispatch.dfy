/**
 Dispatching one request to an application: find, open, send, receive, try again. The dispatch is a
 program whose steps interleave freely with what all other requests, reloads and the clock do.
 */
module Dispatch {
  import opened Wrappers
  import opened CStrings
  import opened SlotTables
  import opened Pool
  import opened Config
  import opened PoolInvariant
  import opened World
  import opened Lifecycle
  import opened Backoff
  import HttpText

  const APP_CONNECT_RETRIES_NB: nat := 10

  /** The response given to the client. */
  datatype Reply = FromApp(response: HttpText.Response) | ServiceUnavailable(until: nat) | NoResponse | ConfigDump

  /** Where the dispatch is: about to do what the name says. */
  datatype Phase = Finding | Checking | Trying | Sending | Receiving | Noting | Reselecting | Done

  /** The variables of GSWAppRequest_SendAppRequestToApp, and below them what has happened so far. */
  datatype Control = Control(
    phase: Phase,
    attempts: int,              // iAttemptsRemaining
    found: bool,                // fAppFound
    down: bool,                 // fAppNotResponding
    reply: Option<Reply>,       // pHTTPResponse
    name: string, num: CInt,    // appName, appInstance
    opens: nat,
    failed: seq<Ptr>,           // the instances whose connection failed
    answer: Option<HttpText.Response>)   // what an application has answered

  const START := Control(Finding, APP_CONNECT_RETRIES_NB, false, false, None, "", 0, 0, [], None)

  /** What the network delivers: whether an open or a send works, and the bytes received. */
  datatype Input = Input(ok: bool, bytes: seq<char>, errorPage: string)

  /** One step of the dispatch, or of anybody else. */
  datatype Event = Own(input: Input) | Other(action: Action)

  // ---------------------------------------------------------------- the program

  /** The loop condition. */
  predicate GoesOn(c: Control) {
    c.reply.None? && c.found && c.attempts > 0
  }

  /** The application of the instance found is unavailable now. */
  ghost predicate IsUnavailable(w: World, r: nat)
    requires HoldsLive(w, r) && Sound(w.pool)
  {
    var app := w.pool.apps[w.pool.heap[w.reqs[r].target.value].app];
    app.unavailableUntil > 0 && app.unavailableUntil > w.clock
  }

  /** The application refuses new sessions. */
  predicate RefusesSessions(response: HttpText.Response) {
    match Lookup(response.headers.slots, "x-gsweb-refusing-redirection")
    case None => false
    case Some(value) => "YES" <= value
  }

  /** What the dispatch does to the pool in its next step; nothing in the steps that only compute. */
  ghost function Act(w: World, c: Control, r: nat, input: Input): Action {
    match c.phase
    case Finding => if r in w.reqs && w.reqs[r].instance > 0 then FindNamed(r) else FindAny(r)
    case Trying => if !GoesOn(c) then Tick(0) else if input.ok then Connected(r) else NotResponding(r)
    case Receiving => Finished(r)
    case Noting => if c.answer.Some? && RefusesSessions(c.answer.value) then Refused(c.name, c.num) else Tick(0)
    case Reselecting => if c.attempts > 0 then FindAny(r) else Tick(0)
    case _ => Tick(0)
  }

  /** What remains to be done once the loop is over. */
  function Finish(c: Control): Control {
    var reply := if c.down then Some(NoResponse) else c.reply;
    c.(phase := Done, reply := Some(reply.GetOr(ConfigDump)))
  }

  /** What a step sees of the world: before it the instance the request holds, after it whether it holds one. */
  datatype View = View(unavailable: Option<nat>, target: Ptr, name: string, num: CInt, holds: bool)

  ghost function Seen(w: World, w': World, r: nat): View
    requires r in w.reqs && r in w'.reqs && Sound(w.pool)
  {
    var req := w.reqs[r];
    View(if HoldsLive(w, r) && IsUnavailable(w, r) then Some(w.pool.apps[w.pool.heap[req.target.value].app].unavailableUntil) else None,
         req.target.GetOr(0), req.name, req.instance, w'.reqs[r].holds)
  }

  /** The variables after a step. */
  function Advance(c: Control, seen: View, input: Input): Control
    requires c.phase.Receiving? ==> HttpText.ReadableBytes(input.bytes)
  {
    match c.phase
    case Finding => c.(phase := Checking, found := seen.holds)
    case Checking =>
      if c.found && seen.unavailable.Some? then c.(phase := Done, reply := Some(ServiceUnavailable(seen.unavailable.value)))
      else c.(phase := Trying)
    case Trying =>
      if !GoesOn(c) then Finish(c)
      else
        var tried := c.(attempts := c.attempts - 1, down := !input.ok, opens := c.opens + 1);
        if input.ok then tried.(phase := Sending) else tried.(phase := Reselecting, failed := c.failed + [seen.target])
    case Sending =>
      if input.ok then c.(phase := Receiving, name := seen.name, num := seen.num) else c.(phase := Trying, down := true)
    case Receiving =>
      var response := HttpText.ReadResponse(input.bytes, input.errorPage);
      c.(phase := Noting, reply := Some(FromApp(response)), answer := Some(response))
    case Noting => c.(phase := Trying)
    case Reselecting => c.(phase := Trying, attempts := c.attempts - 1, found := if c.attempts > 0 then seen.holds else c.found)
    case Done => c
  }

  // ---------------------------------------------------------------- what holds between any two steps

  /** Whether the request is counted at an instance. */
  predicate HoldsWhen(c: Control) {
    match c.phase
    case Finding => false
    case Checking => c.found
    case Trying => c.found && c.reply.None? && c.attempts >= 0
    case Sending => true
    case Receiving => true
    case Noting => false
    case Reselecting => false
    case Done => c.reply.Some? && (c.reply.value.ServiceUnavailable? || (c.reply.value.NoResponse? && c.found && c.attempts >= 0))
  }

  /** An open costs one attempt and a failed connection a second one. */
  ghost predicate Counted(c: Control) {
    && |c.failed| <= c.opens <= 10
    && (if c.phase.Reselecting? then c.failed != [] && c.attempts >= 0 && c.attempts == 11 - c.opens - |c.failed|
        else c.attempts >= -1 && c.attempts == 10 - c.opens - |c.failed|)
    && (c.phase.Sending? || c.phase.Receiving? || c.phase.Noting? ==> c.attempts >= 0)
  }

  /** An answer stays the reply; without one the flags tell which page is shown. */
  ghost predicate Replies(c: Control) {
    && (c.answer.Some? ==> c.reply == Some(FromApp(c.answer.value)) && !c.down && c.opens > 0)
    && (c.answer.None? && !c.phase.Done? ==> c.reply.None?)
    && (c.phase.Finding? || c.phase.Checking? ==> c.opens == 0 && !c.down && c.answer.None?)
    && (c.phase.Trying? && c.answer.None? ==> (c.down <==> c.opens > 0))
    && (c.phase.Sending? || c.phase.Receiving? ==> c.found && !c.down && c.answer.None? && c.opens > 0)
    && (c.phase.Reselecting? ==> c.down && c.answer.None?)
    && (c.phase.Noting? ==> c.answer.Some?)
    && (c.phase.Done? ==> c.reply.Some? && (c.reply.value.FromApp? <==> c.answer.Some?)
                          && (c.reply.value.ServiceUnavailable? ==> c.opens == 0 && c.found)
                          && (c.reply.value.ConfigDump? ==> c.opens == 0 && !c.found)
                          && (c.reply.value.NoResponse? ==> c.opens > 0))
  }

  ghost predicate Follows(w: World, c: Control, r: nat) {
    r in w.reqs && w.reqs[r].holds == HoldsWhen(c) && Counted(c) && Replies(c)
  }

  ghost predicate Ready(w: World, c: Control, r: nat) {
    Inv(w) && Follows(w, c, r)
  }

  /** The action is not taken on behalf of the request. */
  predicate NotBy(a: Action, r: nat) {
    match a
    case Arrive(s, _, _, _) => s != r
    case Depart(s) => s != r
    case FindAny(s) => s != r
    case FindNamed(s) => s != r
    case Connected(s) => s != r
    case Finished(s) => s != r
    case NotResponding(s) => s != r
    case _ => true
  }

  ghost predicate Allowed(w: World, c: Control, r: nat, e: Event) {
    match e
    case Own(input) => !c.phase.Done? && (c.phase.Receiving? ==> HttpText.ReadableBytes(input.bytes))
    case Other(a) => Protocol(w, a) && CanonicalAction(a) && NotBy(a, r)
  }

  ghost function ActionOf(w: World, c: Control, r: nat, e: Event): Action {
    match e
    case Own(input) => Act(w, c, r, input)
    case Other(a) => a
  }

  lemma OwnActionIsAllowed(w: World, c: Control, r: nat, input: Input)
    requires Follows(w, c, r) && !c.phase.Done?
    ensures Protocol(w, Act(w, c, r, input)) && !Act(w, c, r, input).Load?
  {
    match c.phase
    case Finding => assert Waiting(w, r);
    case Trying => assert GoesOn(c) ==> Holding(w, r);
    case Receiving => assert Holding(w, r);
    case Reselecting => assert Waiting(w, r);
    case _ =>
  }

  /** The dispatch only does what its client discipline allows. */
  lemma ActionIsAllowed(w: World, c: Control, r: nat, e: Event)
    requires Follows(w, c, r) && Allowed(w, c, r, e)
    ensures Protocol(w, ActionOf(w, c, r, e)) && CanonicalAction(ActionOf(w, c, r, e))
  {
    if e.Own? {
      OwnActionIsAllowed(w, c, r, e.input);
    }
  }

  lemma OthersLeaveRequest(w: World, a: Action, r: nat)
    requires r in w.reqs && Protocol(w, a) && MemorySafe(w, a) && NotBy(a, r)
    ensures r in Step(w, a).reqs && Step(w, a).reqs[r] == w.reqs[r]
  {
  }

  /** Only finds make the request hold an instance, only its stop and its mark end that. */
  lemma OwnAction(w: World, a: Action, r: nat)
    requires r in w.reqs && Protocol(w, a) && MemorySafe(w, a)
    requires a == Finished(r) || a == NotResponding(r) || a == Connected(r) || a == Tick(0) || a.Refused?
    ensures r in Step(w, a).reqs
    ensures Step(w, a).reqs[r].holds == (if a.Finished? || a.NotResponding? then false else w.reqs[r].holds)
  {
  }

  /** Whether the request holds an instance after the step, where that is certain. */
  predicate HoldsAfter(c: Control, input: Input, holds: bool) {
    if c.phase.Finding? || (c.phase.Reselecting? && c.attempts > 0) then true
    else if c.phase.Receiving? || (c.phase.Trying? && GoesOn(c) && !input.ok) then !holds
    else holds == HoldsWhen(c)
  }

  lemma StepHolds(w: World, c: Control, r: nat, input: Input)
    requires Follows(w, c, r)
    requires var a := Act(w, c, r, input); Protocol(w, a) && MemorySafe(w, a)
    ensures var w' := Step(w, Act(w, c, r, input)); r in w'.reqs && HoldsAfter(c, input, w'.reqs[r].holds)
  {
    var a := Act(w, c, r, input);
    if !a.FindAny? && !a.FindNamed? {
      OwnAction(w, a, r);
    }
  }

  lemma AdvanceKeeps(c: Control, seen: View, input: Input)
    requires Counted(c) && Replies(c) && HoldsAfter(c, input, seen.holds)
    requires !c.phase.Done? && (c.phase.Receiving? ==> HttpText.ReadableBytes(input.bytes))
    ensures var c' := Advance(c, seen, input); Counted(c') && Replies(c') && seen.holds == HoldsWhen(c')
  {
  }

  ghost function Next(w: World, c: Control, r: nat, e: Event): (n: (World, Control))
    requires Ready(w, c, r) && Allowed(w, c, r, e)
    ensures Ready(n.0, n.1, r)
  {
    var a := ActionOf(w, c, r, e);
    ActionIsAllowed(w, c, r, e);
    StepKeepsInv(w, a);
    var w' := Step(w, a);
    if e.Own? then
      StepHolds(w, c, r, e.input);
      AdvanceKeeps(c, Seen(w, w', r), e.input);
      (w', Advance(c, Seen(w, w', r), e.input))
    else
      OthersLeaveRequest(w, a, r);
      (w', c)
  }

  // ---------------------------------------------------------------- whole dispatches

  ghost predicate AllowedRun(w: World, c: Control, r: nat, events: seq<Event>)
    requires Ready(w, c, r)
    decreases |events|
  {
    events == [] ||
    (Allowed(w, c, r, events[0]) && AllowedRun(Next(w, c, r, events[0]).0, Next(w, c, r, events[0]).1, r, events[1..]))
  }

  /** The dispatch and everything that happens meanwhile, in order. The invariant holds throughout. */
  ghost function Trace(w: World, c: Control, r: nat, events: seq<Event>): (n: (World, Control))
    requires Ready(w, c, r) && AllowedRun(w, c, r, events)
    ensures Ready(n.0, n.1, r)
    decreases |events|
  {
    if events == [] then (w, c)
    else Trace(Next(w, c, r, events[0]).0, Next(w, c, r, events[0]).1, r, events[1..])
  }

  function OwnSteps(events: seq<Event>): nat {
    if events == [] then 0 else (if events[0].Own? then 1 else 0) + OwnSteps(events[1..])
  }

  /** The number of steps that may still be taken. */
  function Remaining(c: Control): nat {
    var n: nat := if c.attempts > 0 then c.attempts else 0;
    match c.phase
    case Finding => 25
    case Checking => 24
    case Trying => if c.reply.Some? then 1 else 2 * n + 3
    case Sending => 2 * n + 4
    case Receiving => 3
    case Noting => 2
    case Reselecting => if c.attempts > 0 then 2 * n + 2 else 4
    case Done => 0
  }

  lemma StepsRunOut(c: Control, seen: View, input: Input)
    requires Counted(c) && Replies(c) && !c.phase.Done?
    requires c.phase.Receiving? ==> HttpText.ReadableBytes(input.bytes)
    ensures Remaining(Advance(c, seen, input)) < Remaining(c)
  {
  }

  lemma {:induction false} OwnStepsAreBounded(w: World, c: Control, r: nat, events: seq<Event>)
    requires Ready(w, c, r) && AllowedRun(w, c, r, events)
    ensures OwnSteps(events) + Remaining(Trace(w, c, r, events).1) <= Remaining(c)
    decreases |events|
  {
    if events != [] {
      var next := Next(w, c, r, events[0]);
      if events[0].Own? {
        StepsRunOut(c, Seen(w, next.0, r), events[0].input);
      }
      OwnStepsAreBounded(next.0, next.1, r, events[1..]);
    }
  }

  /**
   The dispatch comes to an end after at most 25 steps of its own, whatever happens in between: at most
   ten opens, at most five of which are failed connections. When it ends there is a response.
   */
  lemma {:induction false} DispatchIsBounded(w: World, r: nat, events: seq<Event>)
    requires Inv(w) && Waiting(w, r) && AllowedRun(w, START, r, events)
    ensures var (w', c) := Trace(w, START, r, events);
            && Inv(w') && OwnSteps(events) <= 25
            && |c.failed| <= c.opens <= APP_CONNECT_RETRIES_NB && |c.failed| <= 5
            && (OwnSteps(events) == 25 ==> c.phase.Done?)
            && (c.phase.Done? ==> c.reply.Some?)
  {
    OwnStepsAreBounded(w, START, r, events);
    var c := Trace(w, START, r, events).1;
    assert Counted(c) && Replies(c);
  }

  /** A response read from an application is the one the client gets, no error page takes its place. */
  lemma {:induction false} AnswerIsKept(w: World, c: Control, r: nat, events: seq<Event>)
    requires Ready(w, c, r) && AllowedRun(w, c, r, events) && c.answer.Some?
    ensures var c' := Trace(w, c, r, events).1; c'.answer == c.answer && c'.reply == Some(FromApp(c.answer.value))
    decreases |events|
  {
    if events != [] {
      var next := Next(w, c, r, events[0]);
      AnswerIsKept(next.0, next.1, r, events[1..]);
    }
  }

  /** Exactly when the request is still counted after the dispatch is over, and which page it got if no answer. */
  lemma {:induction false} WhatIsLeft(w: World, r: nat, events: seq<Event>)
    requires Inv(w) && Waiting(w, r) && AllowedRun(w, START, r, events)
    requires Trace(w, START, r, events).1.phase.Done?
    ensures var (w', c) := Trace(w, START, r, events);
            && (Holding(w', r) <==> || c.reply.value.ServiceUnavailable?
                                    || (c.reply.value.NoResponse? && c.found && c.opens + |c.failed| <= APP_CONNECT_RETRIES_NB))
            && (c.reply.value.FromApp? || !c.found ==> Waiting(w', r))
            && (c.reply.value.ConfigDump? <==> c.opens == 0 && !c.found)
            && (Holding(w', r) ==> w'.reqs[r].target.Some? && w'.reqs[r].target.value in w'.pool.heap)
  {
    var (w', c) := Trace(w, START, r, events);
    assert Counted(c) && Replies(c) && w'.reqs[r].holds == HoldsWhen(c);
  }
}
