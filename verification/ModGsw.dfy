/** The Apache 2 module's choice of an instance, from load records that all server processes share. */
module ModGsw {
  import opened Wrappers
  import opened CStrings

  const FIVE_MINUTES: int := 300 * 1000000   // apr_time_t counts microseconds
  const UINT32_MAX: nat := 0xFFFF_FFFF

  type Load = x: nat | x <= UINT32_MAX

  /** gsw_app_conf: one configured instance, and where its record is. */
  datatype AppConf = AppConf(name: string, host: string, number: nat, port: nat, index: nat)

  /** exipc_data */
  datatype Record = Record(lastResponse: int, lastRequest: int, load: Load, unreachable: bool, refusing: bool)

  type Confs = seq<AppConf>
  type Memory = seq<Record>

  // ---------------------------------------------------------------- writes to the shared records

  function MarkedUnreachable(r: Record, now: int): Record {
    r.(lastRequest := now, unreachable := true)
  }

  function MarkedRefusing(r: Record, now: int): Record {
    r.(lastRequest := now, refusing := true)
  }

  function Updated(r: Record, request: int, response: int, load: Load): Record {
    r.(lastRequest := request, lastResponse := response, load := load, unreachable := false)
  }

  class SharedMemory {
    const records: array<Record>

    /** init_shared_mem */
    constructor (count: nat)
      ensures fresh(records) && records.Length == count
      ensures forall i :: 0 <= i < count ==> records[i].load == 0 && !records[i].unreachable && !records[i].refusing
    {
      records := new Record[count](_ => Record(0, 0, 0, false, false));
    }

    /** mark_unreachable */
    method MarkUnreachable(app: AppConf, now: int)
      requires app.index < records.Length
      modifies records
      ensures records[..] == old(records[..])[app.index := MarkedUnreachable(old(records[app.index]), now)]
      ensures records[app.index] == old(records[app.index]).(lastRequest := now, unreachable := true)
    {
      records[app.index] := records[app.index].(lastRequest := now);
      records[app.index] := records[app.index].(unreachable := true);
    }

    /** mark_refusing */
    method MarkRefusing(app: AppConf, now: int)
      requires app.index < records.Length
      modifies records
      ensures records[..] == old(records[..])[app.index := MarkedRefusing(old(records[app.index]), now)]
      ensures records[app.index] == old(records[app.index]).(lastRequest := now, refusing := true)
    {
      records[app.index] := records[app.index].(lastRequest := now);
      records[app.index] := records[app.index].(refusing := true);
    }

    /** update_app_statistics */
    method UpdateStatistics(app: AppConf, request: int, response: int, load: Load)
      requires app.index < records.Length
      modifies records
      ensures records[..] == old(records[..])[app.index := Updated(old(records[app.index]), request, response, load)]
      ensures records[app.index].refusing == old(records[app.index].refusing)
      ensures records[app.index] == Record(response, request, load, false, records[app.index].refusing)
    {
      records[app.index] := records[app.index].(lastRequest := request);
      records[app.index] := records[app.index].(lastResponse := response);
      records[app.index] := records[app.index].(load := load);
      records[app.index] := records[app.index].(unreachable := false);
    }

    /** read_shared_mem: a private copy, or nothing when it cannot be made. */
    method Read(available: bool) returns (mem: array?<Record>)
      ensures mem == null <==> !available || records.Length == 0
      ensures mem != null ==> fresh(mem) && mem[..] == records[..]
    {
      if !available || records.Length == 0 {
        return null;
      }
      mem := new Record[records.Length];
      forall i | 0 <= i < records.Length {
        mem[i] := records[i];
      }
    }
  }

  // ---------------------------------------------------------------- the choice

  predicate Matching(confs: Confs, name: string, i: nat)
    requires i < |confs|
  {
    SameKey(confs[i].name, name)
  }

  /** Still inside the five minutes that follow the record's last request. */
  predicate Recent(r: Record, now: int) {
    r.lastRequest >= now - FIVE_MINUTES
  }

  /** What the scan counts as online: neither flag is set, or both have run out. */
  predicate Online(r: Record, now: int) {
    !Recent(r, now) || (!r.unreachable && !r.refusing)
  }

  predicate Eligible(confs: Confs, mem: Memory, name: string, now: int, i: nat)
    requires i < |confs| <= |mem|
  {
    Matching(confs, name, i) && Online(mem[i], now)
  }

  /** The last of the least loaded eligible instances among the first n. */
  function LeastLoaded(confs: Confs, mem: Memory, name: string, now: int, n: nat): (r: Option<nat>)
    requires n <= |confs| <= |mem|
    ensures r.None? <==> forall i: nat :: i < n ==> !Eligible(confs, mem, name, now, i)
    ensures r.Some? ==> r.value < n && Eligible(confs, mem, name, now, r.value)
    ensures r.Some? ==> forall i: nat :: i < n && Eligible(confs, mem, name, now, i) ==>
                          mem[r.value].load < mem[i].load || (mem[r.value].load == mem[i].load && i <= r.value)
  {
    if n == 0 then None
    else
      var best := LeastLoaded(confs, mem, name, now, n - 1);
      if Eligible(confs, mem, name, now, n - 1) && (best.None? || mem[n - 1].load <= mem[best.value].load)
      then Some(n - 1) else best
  }

  /** The only configured instance is tried even though it is known to be unreachable. */
  predicate LoneUnreachable(confs: Confs, mem: Memory, name: string, now: int)
    requires |confs| <= |mem|
  {
    |confs| == 1 && Matching(confs, name, 0) && !Online(mem[0], now) && mem[0].unreachable
  }

  /** The configuration index of the instance chosen. */
  function Choice(confs: Confs, mem: Memory, name: string, now: int): Option<nat>
    requires |confs| <= |mem|
  {
    match LeastLoaded(confs, mem, name, now, |confs|)
    case Some(i) => Some(i)
    case None => if LoneUnreachable(confs, mem, name, now) then Some(0) else None
  }

  /** Configured under that name, and either unmarked or without a request for more than 300 seconds. */
  ghost predicate Candidate(confs: Confs, mem: Memory, name: string, now: int, i: nat)
    requires |confs| <= |mem|
  {
    && i < |confs| && SameKey(confs[i].name, name)
    && (mem[i].lastRequest < now - 300 * 1000000 || (!mem[i].unreachable && !mem[i].refusing))
  }

  /** The only configured instance, marked unreachable less than 300 seconds ago. */
  ghost predicate LastResort(confs: Confs, mem: Memory, name: string, now: int)
    requires |confs| <= |mem|
  {
    |confs| == 1 && SameKey(confs[0].name, name) && mem[0].lastRequest >= now - 300 * 1000000 && mem[0].unreachable
  }

  /** No candidate has less load, nor as much load and a higher index. */
  ghost predicate NoneBetter(confs: Confs, mem: Memory, name: string, now: int, i: nat)
    requires |confs| <= |mem| && i < |confs|
  {
    forall j: nat {:trigger Candidate(confs, mem, name, now, j)} :: Candidate(confs, mem, name, now, j) ==>
      mem[i].load < mem[j].load || (mem[i].load == mem[j].load && j <= i)
  }

  /** What the choice of i means, without the scan. */
  ghost predicate IsChoice(confs: Confs, mem: Memory, name: string, now: int, i: nat)
    requires |confs| <= |mem|
  {
    && i < |confs|
    && (LastResort(confs, mem, name, now) || Candidate(confs, mem, name, now, i))
    && NoneBetter(confs, mem, name, now, i)
  }

  lemma CandidateIff(confs: Confs, mem: Memory, name: string, now: int)
    requires |confs| <= |mem|
    ensures forall i: nat {:trigger Candidate(confs, mem, name, now, i)} :: i < |confs| ==>
              (Candidate(confs, mem, name, now, i) <==> Eligible(confs, mem, name, now, i))
    ensures LastResort(confs, mem, name, now) <==> LoneUnreachable(confs, mem, name, now)
  {
  }

  /** Minimum load, the highest index on ties; nothing exactly when there is nothing to choose. */
  lemma ChoiceIsLeastLoaded(confs: Confs, mem: Memory, name: string, now: int)
    requires |confs| <= |mem|
    ensures var r := Choice(confs, mem, name, now);
            && (forall i: nat :: r == Some(i) <==> IsChoice(confs, mem, name, now, i))
            && (r.None? <==> (forall i: nat :: i < |confs| ==> !Candidate(confs, mem, name, now, i)) && !LastResort(confs, mem, name, now))
  {
    var r := Choice(confs, mem, name, now);
    CandidateIff(confs, mem, name, now);
    forall i: nat ensures r == Some(i) <==> IsChoice(confs, mem, name, now, i) {
      ChosenIff(confs, mem, name, now, i);
    }
  }

  lemma ChosenIff(confs: Confs, mem: Memory, name: string, now: int, i: nat)
    requires |confs| <= |mem|
    ensures Choice(confs, mem, name, now) == Some(i) <==> IsChoice(confs, mem, name, now, i)
  {
    CandidateIff(confs, mem, name, now);
    if LoneUnreachable(confs, mem, name, now) {
      assert !Eligible(confs, mem, name, now, 0);
    }
    if IsChoice(confs, mem, name, now, i) && Candidate(confs, mem, name, now, i) {
      assert Eligible(confs, mem, name, now, i);
      var best := LeastLoaded(confs, mem, name, now, |confs|).value;
      assert Candidate(confs, mem, name, now, best);
    }
    if Choice(confs, mem, name, now) == Some(i) {
      forall j: nat | Candidate(confs, mem, name, now, j) ensures mem[i].load < mem[j].load || (mem[i].load == mem[j].load && j <= i) {
        assert Eligible(confs, mem, name, now, j);
      }
    }
  }

  /** The loop of find_app_by_name, on its private copy of the records. */
  method Scan(confs: Confs, mem: array<Record>, name: string, now: int) returns (lastIndex: int, lastUnreachable: int)
    requires |confs| <= mem.Length
    modifies mem
    ensures lastIndex == match LeastLoaded(confs, old(mem[..]), name, now, |confs|) case None => -1 case Some(i) => i
    ensures lastUnreachable == if LoneUnreachable(confs, old(mem[..]), name, now) then 0 else -1
  {
    ghost var records := mem[..];
    var lastLoad := UINT32_MAX;
    lastIndex, lastUnreachable := -1, -1;
    var i: nat := 0;
    while i < |confs|
      invariant i <= |confs|
      invariant forall k :: i <= k < |confs| ==> mem[k] == records[k]
      invariant var best := LeastLoaded(confs, records, name, now, i);
                if best.None? then lastIndex == -1 && lastLoad == UINT32_MAX
                else lastIndex == best.value && lastLoad == records[best.value].load
      invariant lastUnreachable == (if i == 1 && LoneUnreachable(confs, records, name, now) then 0 else -1)
    {
      if SameKey(confs[i].name, name) {
        if mem[i].lastRequest < now - FIVE_MINUTES {
          mem[i] := mem[i].(unreachable := false);
          mem[i] := mem[i].(refusing := false);
        }
        if !mem[i].unreachable && !mem[i].refusing {
          if mem[i].load <= lastLoad {
            lastIndex := i;
            lastLoad := mem[i].load;
          }
        } else if |confs| == 1 {
          if mem[i].unreachable {
            lastUnreachable := i;
          }
        }
      }
      i := i + 1;
    }
  }

  /** find_app_by_name. The scan resets expired flags in its private copy only. */
  method FindAppByName(name: Option<string>, table: Option<Confs>, shared: SharedMemory, available: bool, now: int)
    returns (r: Option<AppConf>)
    requires table.Some? ==> |table.value| <= shared.records.Length
    ensures shared.records[..] == old(shared.records[..])
    ensures name.None? || name.value == "" || table.None? || table.value == [] || !available ==> r == None
    ensures name.Some? && name.value != "" && table.Some? && table.value != [] && available ==>
              var choice := Choice(table.value, shared.records[..], name.value, now);
              (r.None? <==> choice.None?) && (choice.Some? ==> r == Some(table.value[choice.value]))
  {
    if name.None? || |name.value| == 0 || table.None? || |table.value| == 0 {
      return None;
    }
    var confs := table.value;
    var mem := shared.Read(available);
    if mem == null {
      return None;
    }
    var lastIndex, lastUnreachable := Scan(confs, mem, name.value, now);
    if lastIndex >= 0 {
      return Some(confs[lastIndex]);
    }
    if lastUnreachable >= 0 {
      return Some(confs[lastUnreachable]);
    }
    return None;
  }

  // ---------------------------------------------------------------- backoff over runs

  /** A write to the shared records, by any process. */
  datatype Event =
    | Unreachable(index: nat, now: int)
    | Refusing(index: nat, now: int)
    | Update(index: nat, request: int, response: int, load: Load)

  function Written(r: Record, e: Event): Record {
    match e
    case Unreachable(_, now) => MarkedUnreachable(r, now)
    case Refusing(_, now) => MarkedRefusing(r, now)
    case Update(_, request, response, load) => Updated(r, request, response, load)
  }

  function Write(mem: Memory, e: Event): (r: Memory)
    ensures |r| == |mem|
  {
    if e.index < |mem| then mem[e.index := Written(mem[e.index], e)] else mem
  }

  function Run(mem: Memory, events: seq<Event>): (r: Memory)
    ensures |r| == |mem|
    decreases |events|
  {
    if events == [] then mem else Run(Write(mem, events[0]), events[1..])
  }

  /** An instance with its flag still in force is chosen only if it is the lone one, and unreachable. */
  lemma OfflineIsNotChosen(confs: Confs, mem: Memory, name: string, now: int, i: nat)
    requires i < |confs| <= |mem|
    requires Recent(mem[i], now) && (mem[i].unreachable || mem[i].refusing)
    ensures Choice(confs, mem, name, now) == Some(i) ==> |confs| == 1 && mem[i].unreachable
  {
    assert !Eligible(confs, mem, name, now, i);
  }

  /** No event updates this record, and the ones that mark it do so no earlier than since. */
  ghost predicate NoUpdate(events: seq<Event>, i: nat, since: int) {
    forall k :: 0 <= k < |events| && events[k].index == i ==> !events[k].Update? && events[k].now >= since
  }

  lemma {:induction false} StaysUnreachable(mem: Memory, events: seq<Event>, i: nat, since: int)
    requires i < |mem| && mem[i].unreachable && mem[i].lastRequest >= since
    requires NoUpdate(events, i, since)
    ensures Run(mem, events)[i].unreachable && Run(mem, events)[i].lastRequest >= since
    decreases |events|
  {
    if events != [] {
      assert events[0].index == i ==> !events[0].Update? && events[0].now >= since;
      StaysUnreachable(Write(mem, events[0]), events[1..], i, since);
    }
  }

  /**
   Once marked unreachable, an instance whose record is at its own index is not chosen for five
   minutes, whatever else happens short of an update of its record, unless it is the only instance.
   */
  lemma {:induction false} UnreachableIsAvoided(confs: Confs, mem: Memory, i: nat, marked: int, events: seq<Event>, name: string, now: int)
    requires i < |confs| <= |mem| && confs[i].index == i
    requires NoUpdate(events, i, marked) && now <= marked + FIVE_MINUTES
    ensures var later := Run(Write(mem, Unreachable(confs[i].index, marked)), events);
            |confs| != 1 ==> Choice(confs, later, name, now) != Some(i)
  {
    var start := Write(mem, Unreachable(i, marked));
    StaysUnreachable(start, events, i, marked);
    OfflineIsNotChosen(confs, Run(start, events), name, now, i);
  }

  ghost predicate NothingOlder(events: seq<Event>, i: nat, since: int) {
    forall k :: 0 <= k < |events| && events[k].index == i ==>
      (if events[k].Update? then events[k].request else events[k].now) >= since
  }

  lemma {:induction false} StaysRefusing(mem: Memory, events: seq<Event>, i: nat, since: int)
    requires i < |mem| && mem[i].refusing && mem[i].lastRequest >= since
    requires NothingOlder(events, i, since)
    ensures Run(mem, events)[i].refusing && Run(mem, events)[i].lastRequest >= since
    decreases |events|
  {
    if events != [] {
      assert events[0].index == i ==> (if events[0].Update? then events[0].request else events[0].now) >= since;
      StaysRefusing(Write(mem, events[0]), events[1..], i, since);
    }
  }

  /** A refusal is not lifted by an update, so it is respected even then; it has no lone-instance exception of its own. */
  lemma {:induction false} RefusalIsKept(confs: Confs, mem: Memory, i: nat, marked: int, events: seq<Event>, name: string, now: int)
    requires i < |confs| <= |mem| && confs[i].index == i
    requires NothingOlder(events, i, marked) && now <= marked + FIVE_MINUTES
    ensures var later := Run(Write(mem, Refusing(confs[i].index, marked)), events);
            Choice(confs, later, name, now) == Some(i) ==> |confs| == 1 && later[i].unreachable
  {
    var start := Write(mem, Refusing(i, marked));
    StaysRefusing(start, events, i, marked);
    OfflineIsNotChosen(confs, Run(start, events), name, now, i);
  }

  // ---------------------------------------------------------------- marks end

  lemma {:induction false} RecordLeftAlone(mem: Memory, events: seq<Event>, i: nat)
    requires i < |mem| && forall k :: 0 <= k < |events| ==> events[k].index != i
    ensures Run(mem, events)[i] == mem[i]
    decreases |events|
  {
    if events != [] {
      assert events[0].index != i;
      RecordLeftAlone(Write(mem, events[0]), events[1..], i);
    }
  }

  /**
   A mark of either kind ends: 300 seconds after it, however other records are written meanwhile, the
   instance is chosen again exactly when no candidate is better.
   */
  lemma {:induction false} MarkEnds(confs: Confs, mem: Memory, i: nat, mark: Event, events: seq<Event>, name: string, now: int)
    requires i < |confs| <= |mem| && SameKey(confs[i].name, name)
    requires !mark.Update? && mark.index == i && now > mark.now + 300 * 1000000
    requires forall k :: 0 <= k < |events| ==> events[k].index != i
    ensures var later := Run(Write(mem, mark), events);
            && later[i].load == mem[i].load
            && Candidate(confs, later, name, now, i)
            && (Choice(confs, later, name, now) == Some(i) <==> NoneBetter(confs, later, name, now, i))
  {
    RecordLeftAlone(Write(mem, mark), events, i);
    ChosenIff(confs, Run(Write(mem, mark), events), name, now, i);
  }

  /** An update makes an instance that has not refused a candidate at once, with the load it reports. */
  lemma {:induction false} UpdateEndsUnreachable(confs: Confs, mem: Memory, i: nat, update: Event, events: seq<Event>, name: string, now: int)
    requires i < |confs| <= |mem| && SameKey(confs[i].name, name)
    requires update.Update? && update.index == i && !mem[i].refusing
    requires forall k :: 0 <= k < |events| ==> events[k].index != i
    ensures var later := Run(Write(mem, update), events);
            && later[i].load == update.load
            && Candidate(confs, later, name, now, i)
            && (Choice(confs, later, name, now) == Some(i) <==> NoneBetter(confs, later, name, now, i))
  {
    RecordLeftAlone(Write(mem, update), events, i);
    ChosenIff(confs, Run(Write(mem, update), events), name, now, i);
  }

  // ---------------------------------------------------------------- the index must be the position

  /** Marking conf i keeps it from being chosen at once, whatever the records hold. */
  ghost predicate MarkProtects(confs: Confs, size: nat, i: nat)
    requires i < |confs| <= size
  {
    forall mem: Memory, now: int :: |mem| == size ==>
      Choice(confs, Write(mem, Unreachable(confs[i].index, now)), confs[i].name, now) != Some(i)
  }

  /** Records in which only the instance at position i is online. */
  function OnlyOnline(size: nat, i: nat): (mem: Memory)
    ensures |mem| == size
    ensures forall k :: 0 <= k < size ==> mem[k] == Record(0, 0, 0, k != i, false)
  {
    seq(size, k => Record(0, 0, 0, k != i, false))
  }

  /** The scan reads the record at the conf's position; a mark reaches it exactly when that is the conf's index. */
  lemma MarkProtectsIff(confs: Confs, size: nat, i: nat)
    requires i < |confs| <= size && |confs| > 1
    ensures MarkProtects(confs, size, i) <==> confs[i].index == i
  {
    if confs[i].index == i {
      forall mem: Memory, now: int | |mem| == size
        ensures Choice(confs, Write(mem, Unreachable(confs[i].index, now)), confs[i].name, now) != Some(i)
      {
        UnreachableIsAvoided(confs, mem, i, now, [], confs[i].name, now);
      }
    } else {
      var mem := OnlyOnline(size, i);
      var after := Write(mem, Unreachable(confs[i].index, 0));
      assert after[i] == mem[i];
      assert Eligible(confs, after, confs[i].name, 0, i);
      forall j: nat | j < |confs| && j != i ensures !Eligible(confs, after, confs[i].name, 0, j) {
        assert after[j].unreachable && after[j].lastRequest == 0;
      }
      assert Choice(confs, after, confs[i].name, 0) == Some(i);
    }
  }
}
