/** What the alarm facility promises, stated on plain values: the list of registered alarms,
    their deadlines, and the history of callbacks. alt_tick and its companions are proved
    against these functions in module AlarmClock. */
module AlarmSpec {
  import opened LList
  import opened Arithmetic

  /** The fields of alt_alarm beside its list links. */
  datatype AlarmData = AlarmData(time: nat, callback: int, context: int)

  type Alarm = Node<AlarmData>

  /** A call that a callback makes back into the alarm facility. */
  datatype Call =
    | Start(alarm: Alarm, nticks: u32, callback: int, context: int)
    | Stop(alarm: Alarm)

  /** What one execution of a callback does, and what it returns. */
  datatype Outcome = Outcome(calls: seq<Call>, ret: u32)

  /** The outcome of the callback that a given alarm makes at a given tick. */
  type Behaviour = (Alarm, nat) -> Outcome

  datatype Firing = Firing(alarm: Alarm, tick: nat, callback: int, context: int, ret: u32)

  /** now: ticks elapsed; ring: registered alarms, newest first; known: alarms that were
      started at least once; data: the fields of every alarm structure; todo: the alarms that
      the tick in progress has not reached; log: every callback made so far. */
  datatype Sched = Sched(now: nat, rate: u32, ring: seq<Alarm>, known: set<Alarm>,
                         data: map<Alarm, AlarmData>, todo: seq<Alarm>, log: seq<Firing>)

  /** The rate can be set once. */
  ghost function SetRate(s: Sched, n: u32): Sched
  {
    if s.rate == 0 then s.(rate := n) else s
  }

  ghost function StartAlarm(s: Sched, a: Alarm, nticks: u32, callback: int, context: int): Sched
  {
    if s.rate == 0 then s
    else s.(ring := [a] + s.ring, known := s.known + {a},
            data := s.data[a := AlarmData(nticks + s.now + 1, callback, context)])
  }

  ghost function StopAlarm(s: Sched, a: Alarm): Sched
  {
    s.(ring := Without(s.ring, a), todo := Without(s.todo, a))
  }

  /** The source lets an alarm be started when it is not registered, and stopped once it has
      ever been started. A callback may not stop the alarm whose turn is next. */
  ghost predicate LegalCall(s: Sched, c: Call)
  {
    match c
    case Start(a, _, _, _) => a in s.data && (s.rate != 0 ==> a !in s.ring)
    case Stop(a) => a in s.known && (s.todo != [] ==> a != s.todo[0])
  }

  ghost function MakeCall(s: Sched, c: Call): Sched
  {
    match c
    case Start(a, n, callback, context) => StartAlarm(s, a, n, callback, context)
    case Stop(a) => StopAlarm(s, a)
  }

  ghost predicate LegalCalls(s: Sched, calls: seq<Call>)
    decreases |calls|
  {
    calls == [] || (LegalCall(s, calls[0]) && LegalCalls(MakeCall(s, calls[0]), calls[1..]))
  }

  ghost function MakeCalls(s: Sched, calls: seq<Call>): (r: Sched)
    ensures |r.todo| <= |s.todo|
    ensures r.now == s.now && r.log == s.log && r.rate == s.rate
    ensures s.data.Keys <= r.data.Keys
    decreases |calls|
  {
    if calls == [] then s else MakeCalls(MakeCall(s, calls[0]), calls[1..])
  }

  /** One expired alarm: its callback runs, then it is retired or given its next deadline. */
  ghost function Fire(s: Sched, a: Alarm, b: Behaviour): Sched
    requires a in s.data
  {
    var out := b(a, s.now);
    var fired := Firing(a, s.now, s.data[a].callback, s.data[a].context, out.ret);
    var t := MakeCalls(s, out.calls).(log := s.log + [fired]);
    if out.ret == 0 then StopAlarm(t, a)
    else t.(data := t.data[a := t.data[a].(time := t.data[a].time + out.ret)])
  }

  /** The turn of the first alarm in todo. */
  ghost function Turn(s: Sched, b: Behaviour): (r: Sched)
    requires s.todo != [] && s.todo[0] in s.data
    ensures |r.todo| < |s.todo|
  {
    var a, t := s.todo[0], s.(todo := s.todo[1..]);
    if s.data[a].time <= s.now then Fire(t, a, b) else t
  }

  ghost predicate LegalTurn(s: Sched, b: Behaviour)
    requires s.todo != []
  {
    var a, t := s.todo[0], s.(todo := s.todo[1..]);
    a in s.data && (s.data[a].time <= s.now ==> LegalCalls(t, b(a, s.now).calls))
  }

  ghost predicate LegalTurns(s: Sched, b: Behaviour)
    decreases |s.todo|
  {
    s.todo == [] || (LegalTurn(s, b) && LegalTurns(Turn(s, b), b))
  }

  ghost function Turns(s: Sched, b: Behaviour): Sched
    requires LegalTurns(s, b)
    decreases |s.todo|
  {
    if s.todo == [] then s else Turns(Turn(s, b), b)
  }

  ghost function BeginTick(s: Sched): Sched {
    s.(now := s.now + 1, todo := s.ring)
  }

  /** A whole tick: every alarm registered at entry has its turn, in list order, unless a
      callback stopped it before its turn came. */
  ghost function Tick(s: Sched, b: Behaviour): Sched
    requires LegalTurns(BeginTick(s), b)
  {
    Turns(BeginTick(s), b)
  }

  // ---- Invariants -------------------------------------------------------------------

  /** The alarms still to be visited are the tail of the ring. */
  ghost predicate Shape(s: Sched)
  {
    && Distinct(s.ring)
    && Tail(s.todo, s.ring)
    && (forall a: Alarm :: a in s.ring ==> a in s.known)
    && (forall a: Alarm :: a in s.known ==> a in s.data)
  }

  /** No registered deadline has passed, and one that is due now still has its turn to come.
      The alarms in skip are exempt from the second half: their callbacks are running. */
  ghost predicate Punctual(s: Sched, skip: set<Alarm>)
    requires Shape(s)
  {
    forall a: Alarm :: a in s.ring ==>
      s.data[a].time >= s.now && (s.data[a].time == s.now ==> a in s.todo || a in skip)
  }

  ghost predicate Inv(s: Sched)
  {
    Shape(s) && Punctual(s, {})
  }

  lemma Mentioned(s: seq<Alarm>, t: seq<Alarm>, a: Alarm)
    requires Elements(t) == Elements(s) - {a}
    ensures forall x: Alarm :: x in t <==> x in s && x != a
  {
    assert forall x: Alarm :: x in t <==> x in Elements(t);
    assert forall x: Alarm :: x in s <==> x in Elements(s);
  }

  lemma StopKeeps(s: Sched, a: Alarm, skip: set<Alarm>)
    requires Shape(s) && Punctual(s, skip + {a})
    ensures Shape(StopAlarm(s, a)) && Punctual(StopAlarm(s, a), skip)
  {
    WithoutTail<Alarm>(s.ring, s.todo, a);
    var ring, todo := Without(s.ring, a), Without(s.todo, a);
    Mentioned(s.ring, ring, a);
    Mentioned(s.todo, todo, a);
  }

  lemma CallKeeps(s: Sched, c: Call, skip: set<Alarm>)
    requires Shape(s) && Punctual(s, skip) && LegalCall(s, c)
    ensures var t := MakeCall(s, c); Shape(t) && Punctual(t, skip) && t.data.Keys == s.data.Keys
  {
    match c
    case Stop(a) => StopKeeps(s, a, skip);
    case Start(a, _, _, _) =>
      var t := MakeCall(s, c);
      assert s.rate != 0 ==> t.ring[|t.ring| - |t.todo|..] == s.ring[|s.ring| - |s.todo|..];
  }

  lemma {:induction false} CallsKeep(s: Sched, calls: seq<Call>, skip: set<Alarm>)
    requires Shape(s) && Punctual(s, skip) && LegalCalls(s, calls)
    ensures var t := MakeCalls(s, calls); Shape(t) && Punctual(t, skip) && t.data.Keys == s.data.Keys
    decreases |calls|
  {
    if calls != [] {
      CallKeeps(s, calls[0], skip);
      CallsKeep(MakeCall(s, calls[0]), calls[1..], skip);
    }
  }

  lemma {:induction false} StillKnown(s: Sched, calls: seq<Call>, a: Alarm)
    requires a in s.known
    ensures a in MakeCalls(s, calls).known
    decreases |calls|
  {
    if calls != [] { StillKnown(MakeCall(s, calls[0]), calls[1..], a); }
  }

  /** Legal calls leave the alarm whose turn is next in its place. */
  lemma {:induction false} FirstStays(s: Sched, calls: seq<Call>)
    requires LegalCalls(s, calls)
    ensures var t := MakeCalls(s, calls); (s.todo == [] <==> t.todo == []) && (s.todo != [] ==> t.todo[0] == s.todo[0])
    decreases |calls|
  {
    if calls != [] { FirstStays(MakeCall(s, calls[0]), calls[1..]); }
  }

  lemma NextStays(s: Sched, b: Behaviour)
    requires Inv(s) && s.todo != [] && LegalTurn(s, b)
    ensures var r := Turn(s, b);
      if |s.todo| == 1 then r.todo == [] else r.todo != [] && r.todo[0] == s.todo[1]
  {
    Reached(s);
    var a, t := s.todo[0], s.(todo := s.todo[1..]);
    if s.data[a].time <= s.now {
      FirstStays(t, b(a, s.now).calls);
    }
  }

  lemma TurnKeeps(s: Sched, b: Behaviour)
    requires Inv(s) && s.todo != [] && LegalTurn(s, b)
    ensures Inv(Turn(s, b)) && Turn(s, b).data.Keys == s.data.Keys && Turn(s, b).now == s.now
  {
    var a, t := s.todo[0], s.(todo := s.todo[1..]);
    Reached(s);
    if s.data[a].time <= s.now {
      var out := b(a, s.now);
      CallsKeep(t, out.calls, {a});
      if out.ret == 0 {
        var u := MakeCalls(t, out.calls).(log := Turn(s, b).log);
        StopKeeps(u, a, {});
      }
    }
  }

  lemma Reached(s: Sched)
    requires Inv(s) && s.todo != []
    ensures s.todo[0] in s.ring && s.todo[0] !in s.todo[1..]
    ensures Shape(s.(todo := s.todo[1..])) && Punctual(s.(todo := s.todo[1..]), {s.todo[0]})
  {
    var k := |s.ring| - |s.todo|;
    assert s.ring[k] == s.todo[0];
    assert s.ring[k + 1..] == s.todo[1..];
    DistinctParts(s.ring[..k + 1], s.todo[1..]);
    assert s.ring == s.ring[..k + 1] + s.todo[1..];
    assert s.ring[..k + 1][k] == s.todo[0];
  }

  lemma {:induction false} TurnsKeep(s: Sched, b: Behaviour)
    requires Inv(s) && LegalTurns(s, b)
    ensures var r := Turns(s, b); Inv(r) && r.todo == [] && r.data.Keys == s.data.Keys && r.now == s.now
    decreases |s.todo|
  {
    if s.todo != [] {
      TurnKeeps(s, b);
      TurnsKeep(Turn(s, b), b);
    }
  }

  /** Between ticks every registered deadline lies strictly in the future. */
  ghost predicate Settled(s: Sched)
  {
    Inv(s) && s.todo == [] && forall a: Alarm :: a in s.ring ==> s.data[a].time > s.now
  }

  lemma BeginKeeps(s: Sched)
    requires Settled(s)
    ensures Inv(BeginTick(s))
  {
  }

  lemma TickKeeps(s: Sched, b: Behaviour)
    requires Settled(s) && LegalTurns(BeginTick(s), b)
    ensures var r := Tick(s, b); Settled(r) && r.now == s.now + 1 && r.data.Keys == s.data.Keys
  {
    BeginKeeps(s);
    TurnsKeep(BeginTick(s), b);
  }
}
