/** Whole runs of the alarm facility: when each callback happens. */
module AlarmTiming {
  import opened Arithmetic
  import opened LList
  import opened AlarmSpec

  datatype Event =
    | Started(alarm: Alarm, nticks: u32, callback: int, context: int)
    | Stopped(alarm: Alarm)
    | Ticked
    | RateSet(n: u32)

  ghost predicate LegalEvent(s: Sched, e: Event, b: Behaviour)
  {
    match e
    case Started(a, n, callback, context) => LegalCall(s, Start(a, n, callback, context))
    case Stopped(a) => LegalCall(s, Stop(a))
    case Ticked => LegalTurns(BeginTick(s), b)
    case RateSet(_) => true
  }

  ghost function Next(s: Sched, e: Event, b: Behaviour): Sched
    requires LegalEvent(s, e, b)
  {
    match e
    case Started(a, n, callback, context) => StartAlarm(s, a, n, callback, context)
    case Stopped(a) => StopAlarm(s, a)
    case Ticked => Tick(s, b)
    case RateSet(n) => SetRate(s, n)
  }

  ghost predicate LegalRun(s: Sched, run: seq<Event>, b: Behaviour)
    decreases |run|
  {
    run == [] || (LegalEvent(s, run[0], b) && LegalRun(Next(s, run[0], b), run[1..], b))
  }

  ghost function Run(s: Sched, run: seq<Event>, b: Behaviour): Sched
    requires LegalRun(s, run, b)
    decreases |run|
  {
    if run == [] then s else Run(Next(s, run[0], b), run[1..], b)
  }

  lemma NextSettled(s: Sched, e: Event, b: Behaviour)
    requires Settled(s) && LegalEvent(s, e, b)
    ensures Settled(Next(s, e, b)) && Next(s, e, b).data.Keys == s.data.Keys
  {
    match e
    case Ticked => TickKeeps(s, b);
    case Started(a, n, callback, context) => CallKeeps(s, Start(a, n, callback, context), {});
    case Stopped(a) => CallKeeps(s, Stop(a), {});
    case RateSet(_) =>
  }

  /** Over every run of clock settings, starts, stops and ticks, between ticks each registered alarm has a
      deadline later than the tick counter. */
  lemma {:induction false} RunSettled(s: Sched, run: seq<Event>, b: Behaviour)
    requires Settled(s) && LegalRun(s, run, b)
    ensures Settled(Run(s, run, b))
    decreases |run|
  {
    if run != [] {
      NextSettled(s, run[0], b);
      RunSettled(Next(s, run[0], b), run[1..], b);
    }
  }

  // ---- One alarm through one tick -----------------------------------------------------

  /** The callbacks that alarm a made, in order. */
  ghost function Of(log: seq<Firing>, a: Alarm): seq<Firing>
  {
    if log == [] then []
    else Of(log[..|log| - 1], a) + if log[|log| - 1].alarm == a then [log[|log| - 1]] else []
  }

  ghost predicate Silent(calls: seq<Call>, a: Alarm)
  {
    forall i :: 0 <= i < |calls| ==> calls[i].alarm != a
  }

  /** No callback made since the log had n entries started or stopped a. */
  ghost predicate Quiet(log: seq<Firing>, n: nat, b: Behaviour, a: Alarm)
  {
    forall i :: n <= i < |log| ==> Silent(b(log[i].alarm, log[i].tick).calls, a)
  }

  ghost predicate Extends<A>(s: seq<A>, t: seq<A>)
  {
    |s| <= |t| && forall i :: 0 <= i < |s| ==> t[i] == s[i]
  }

  /** Callbacks are logged, and the log is never cut. */
  lemma {:induction false} TurnsLog(s: Sched, b: Behaviour)
    requires LegalTurns(s, b)
    ensures Extends(s.log, Turns(s, b).log)
    decreases |s.todo|
  {
    if s.todo != [] { TurnsLog(Turn(s, b), b); }
  }

  lemma {:induction false} RunLog(s: Sched, run: seq<Event>, b: Behaviour)
    requires LegalRun(s, run, b)
    ensures Extends(s.log, Run(s, run, b).log)
    decreases |run|
  {
    if run != [] {
      if run[0].Ticked? { TurnsLog(BeginTick(s), b); }
      RunLog(Next(s, run[0], b), run[1..], b);
    }
  }

  /** If a run was quiet, so was its beginning. */
  lemma QuietPrefix(log: seq<Firing>, log': seq<Firing>, n: nat, b: Behaviour, a: Alarm)
    requires Extends(log, log') && Quiet(log', n, b, a)
    ensures Quiet(log, n, b, a)
  {
    forall i | n <= i < |log| ensures Silent(b(log[i].alarm, log[i].tick).calls, a) {
      assert log'[i] == log[i];
    }
  }

  /** Alarm a has the same fields and standing in both states. */
  ghost predicate Same(s: Sched, t: Sched, a: Alarm)
    requires a in s.data
  {
    && a in t.data && t.data[a] == s.data[a]
    && (a in t.ring <==> a in s.ring)
    && (a in t.todo <==> a in s.todo)
  }

  lemma {:induction false} WithoutOther(s: seq<Alarm>, x: Alarm, y: Alarm)
    requires x != y
    ensures y in Without(s, x) <==> y in s
  {
    if s != [] {
      assert s == [s[0]] + s[1..];
      WithoutOther(s[1..], x, y);
    }
  }

  lemma {:induction false} SilentCalls(s: Sched, calls: seq<Call>, a: Alarm)
    requires Silent(calls, a) && a in s.data
    ensures Same(s, MakeCalls(s, calls), a)
    decreases |calls|
  {
    if calls != [] {
      if calls[0].Stop? {
        WithoutOther(s.ring, calls[0].alarm, a);
        WithoutOther(s.todo, calls[0].alarm, a);
      }
      SilentCalls(MakeCall(s, calls[0]), calls[1..], a);
    }
  }

  /** What the tick in progress still owes alarm a: one callback if its deadline is reached. */
  ghost function Shot(s: Sched, a: Alarm, b: Behaviour): seq<Firing>
    requires a in s.data
  {
    if a in s.todo && s.data[a].time <= s.now
    then [Firing(a, s.now, s.data[a].callback, s.data[a].context, b(a, s.now).ret)]
    else []
  }

  ghost function Sum(f: seq<Firing>): nat
  {
    if f == [] then 0 else Sum(f[..|f| - 1]) + f[|f| - 1].ret
  }

  /** From s to t alarm a made exactly the callbacks in f: its deadline moved by the sum of
      their results, and it is registered unless the last result was 0. */
  ghost predicate Served(s: Sched, t: Sched, a: Alarm, f: seq<Firing>)
    requires a in s.data
  {
    && Of(t.log, a) == Of(s.log, a) + f
    && a in t.data
    && t.data[a] == s.data[a].(time := s.data[a].time + Sum(f))
    && (a in t.ring <==> a in s.ring && (f == [] || f[|f| - 1].ret != 0))
  }

  lemma TurnLog(s: Sched, b: Behaviour)
    requires s.todo != [] && s.todo[0] in s.data && s.data[s.todo[0]].time <= s.now
    ensures var a, log := s.todo[0], Turn(s, b).log;
      |log| == |s.log| + 1 && log[..|s.log|] == s.log
      && log[|s.log|] == Firing(a, s.now, s.data[a].callback, s.data[a].context, b(a, s.now).ret)
  {
  }

  lemma OwnTurn(s: Sched, b: Behaviour)
    requires Inv(s) && s.todo != [] && LegalTurn(s, b) && Quiet(Turn(s, b).log, |s.log|, b, s.todo[0])
    ensures var a, r := s.todo[0], Turn(s, b); Served(s, r, a, Shot(s, a, b)) && a !in r.todo
  {
    var a, t := s.todo[0], s.(todo := s.todo[1..]);
    Reached(s);
    if s.data[a].time <= s.now {
      var calls := b(a, s.now).calls;
      TurnLog(s, b);
      SilentCalls(t, calls, a);
      CallsKeep(t, calls, {a});
      Dropped(MakeCalls(t, calls), a);
      assert Turn(s, b).log[..|s.log|] == s.log;
      assert Shot(s, a, b)[..0] == [];
    }
  }

  lemma Dropped(u: Sched, a: Alarm)
    requires Shape(u)
    ensures a !in Without(u.ring, a) && a !in Without(u.todo, a)
  {
    WithoutTail(u.ring, u.todo, a);
    assert a !in Elements(Without(u.ring, a)) && a !in Elements(Without(u.todo, a));
  }

  lemma OtherTurn(s: Sched, b: Behaviour, a: Alarm)
    requires Inv(s) && s.todo != [] && LegalTurn(s, b) && Quiet(Turn(s, b).log, |s.log|, b, a)
    requires a in s.data && a != s.todo[0]
    ensures Served(s, Turn(s, b), a, []) && Same(s, Turn(s, b), a)
  {
    var x, t := s.todo[0], s.(todo := s.todo[1..]);
    assert s.todo == [x] + t.todo;
    if s.data[x].time <= s.now {
      var out := b(x, s.now);
      TurnLog(s, b);
      SilentCalls(t, out.calls, a);
      var u := MakeCalls(t, out.calls);
      WithoutOther(u.ring, x, a);
      WithoutOther(u.todo, x, a);
      assert Turn(s, b).log[..|s.log|] == s.log;
    }
  }

  lemma Chained(s: Sched, t: Sched, u: Sched, a: Alarm, f: seq<Firing>, g: seq<Firing>)
    requires a in s.data && Served(s, t, a, f) && Served(t, u, a, g)
    requires f == [] || g == []
    ensures Served(s, u, a, f + g)
  {
    assert f == [] ==> f + g == g;
    assert g == [] ==> f + g == f;
  }

  /** The callback that one turn makes for a is the one that the tick no longer owes. */
  lemma TurnServes(s: Sched, b: Behaviour, a: Alarm) returns (f: seq<Firing>)
    requires Inv(s) && s.todo != [] && LegalTurn(s, b) && a in s.data && Quiet(Turn(s, b).log, |s.log|, b, a)
    ensures var r := Turn(s, b);
      Served(s, r, a, f) && Shot(s, a, b) == f + Shot(r, a, b) && (f == [] || Shot(r, a, b) == [])
  {
    if a == s.todo[0] {
      f := Shot(s, a, b);
      OwnTurn(s, b);
    } else {
      f := [];
      OtherTurn(s, b, a);
    }
  }

  lemma {:induction false} TurnsServe(s: Sched, b: Behaviour, a: Alarm)
    requires Inv(s) && LegalTurns(s, b) && a in s.data && Quiet(Turns(s, b).log, |s.log|, b, a)
    ensures Served(s, Turns(s, b), a, Shot(s, a, b))
    decreases |s.todo|
  {
    if s.todo != [] {
      var r := Turn(s, b);
      TurnKeeps(s, b);
      TurnsLog(r, b);
      QuietPrefix(r.log, Turns(s, b).log, |s.log|, b, a);
      var f := TurnServes(s, b, a);
      TurnsServe(r, b, a);
      Chained(s, r, Turns(s, b), a, f, Shot(r, a, b));
    }
  }

  /** What a tick owes at its beginning. */
  lemma ShotAtBegin(s: Sched, b: Behaviour, a: Alarm)
    requires Settled(s) && a in s.data
    ensures Shot(BeginTick(s), a, b)
      == if a in s.ring && s.data[a].time == s.now + 1
         then [Firing(a, s.now + 1, s.data[a].callback, s.data[a].context, b(a, s.now + 1).ret)]
         else []
  {
    assert a in s.ring ==> s.data[a].time > s.now;
  }

  /** One tick serves an alarm that no callback touches exactly once if it is registered and
      due, and not at all otherwise; it stays registered exactly if it did not return 0. */
  lemma TickServes(s: Sched, b: Behaviour, a: Alarm)
    requires Settled(s) && LegalTurns(BeginTick(s), b) && a in s.data && Quiet(Tick(s, b).log, |s.log|, b, a)
    ensures Served(s, Tick(s, b), a,
                   if a in s.ring && s.data[a].time == s.now + 1
                   then [Firing(a, s.now + 1, s.data[a].callback, s.data[a].context, b(a, s.now + 1).ret)]
                   else [])
  {
    BeginKeeps(s);
    TurnsServe(BeginTick(s), b, a);
    ShotAtBegin(s, b, a);
  }

  // ---- One alarm through a whole run --------------------------------------------------

  /** Callbacks of an alarm due first at due: each comes exactly when the results of the
      earlier ones say, and only the last may have returned 0. */
  ghost predicate OnTime(f: seq<Firing>, due: nat, callback: int, context: int)
  {
    forall k :: 0 <= k < |f| ==> OnTimeAt(f, k, due, callback, context)
  }

  ghost predicate OnTimeAt(f: seq<Firing>, k: nat, due: nat, callback: int, context: int)
    requires k < |f|
  {
    && f[k].tick == due + Sum(f[..k])
    && f[k].callback == callback && f[k].context == context
    && (k < |f| - 1 ==> f[k].ret != 0)
  }

  ghost predicate Untouched(run: seq<Event>, a: Alarm)
  {
    forall i :: 0 <= i < |run| ==> run[i].Ticked? || run[i].RateSet? || run[i].alarm != a
  }

  ghost predicate OnTrack(s: Sched, a: Alarm, before: seq<Firing>, f: seq<Firing>,
                          due: nat, callback: int, context: int)
  {
    && Settled(s) && a in s.data
    && Of(s.log, a) == before + f
    && OnTime(f, due, callback, context)
    && s.data[a] == AlarmData(due + Sum(f), callback, context)
    && (a in s.ring <==> f == [] || f[|f| - 1].ret != 0)
  }

  lemma OnTimeAppend(f: seq<Firing>, x: Firing, due: nat, callback: int, context: int)
    requires OnTime(f, due, callback, context)
    requires x.tick == due + Sum(f) && x.callback == callback && x.context == context
    requires f == [] || f[|f| - 1].ret != 0
    ensures OnTime(f + [x], due, callback, context)
    ensures Sum(f + [x]) == Sum(f) + x.ret && Sum([x]) == x.ret
  {
    var g := f + [x];
    SumAppend(f, x);
    forall k | 0 <= k < |g|
      ensures OnTimeAt(g, k, due, callback, context)
    {
      assert g[..k] == f[..k];
      if k < |f| { assert OnTimeAt(f, k, due, callback, context); }
    }
  }

  lemma SumAppend(f: seq<Firing>, x: Firing)
    ensures Sum(f + [x]) == Sum(f) + x.ret && Sum([x]) == x.ret
  {
    assert (f + [x])[..|f|] == f && [x][..0] == [];
  }

  lemma TickOnTrack(s: Sched, b: Behaviour, a: Alarm, before: seq<Firing>, f: seq<Firing>,
                    due: nat, callback: int, context: int)
    returns (g: seq<Firing>)
    requires OnTrack(s, a, before, f, due, callback, context)
    requires LegalTurns(BeginTick(s), b) && Quiet(Tick(s, b).log, |s.log|, b, a)
    ensures OnTrack(Tick(s, b), a, before, g, due, callback, context)
  {
    TickKeeps(s, b);
    TickServes(s, b, a);
    if a in s.ring && s.data[a].time == s.now + 1 {
      var shot := Firing(a, s.now + 1, callback, context, b(a, s.now + 1).ret);
      g := f + [shot];
      OnTimeAppend(f, shot, due, callback, context);
      Assoc(before, f, [shot]);
    } else {
      g := f;
      assert (before + f) + [] == before + f;
    }
  }

  lemma StepOnTrack(s: Sched, e: Event, b: Behaviour, a: Alarm, before: seq<Firing>, f: seq<Firing>,
                    due: nat, callback: int, context: int)
    returns (g: seq<Firing>)
    requires OnTrack(s, a, before, f, due, callback, context)
    requires LegalEvent(s, e, b) && Untouched([e], a) && Quiet(Next(s, e, b).log, |s.log|, b, a)
    ensures OnTrack(Next(s, e, b), a, before, g, due, callback, context)
  {
    assert [e][0] == e;
    g := f;
    match e
    case Started(_, _, _, _) => NextSettled(s, e, b);
    case Stopped(x) =>
      NextSettled(s, e, b);
      WithoutOther(s.ring, x, a);
    case RateSet(_) =>
    case Ticked => g := TickOnTrack(s, b, a, before, f, due, callback, context);
  }

  lemma {:induction false} RunOnTrack(s: Sched, run: seq<Event>, b: Behaviour, a: Alarm,
                                      before: seq<Firing>, f: seq<Firing>, due: nat, callback: int, context: int)
    returns (g: seq<Firing>)
    requires OnTrack(s, a, before, f, due, callback, context)
    requires LegalRun(s, run, b) && Untouched(run, a) && Quiet(Run(s, run, b).log, |s.log|, b, a)
    ensures OnTrack(Run(s, run, b), a, before, g, due, callback, context)
    decreases |run|
  {
    g := f;
    if run != [] {
      assert run == [run[0]] + run[1..];
      var t := Next(s, run[0], b);
      if run[0].Ticked? { TurnsLog(BeginTick(s), b); }
      RunLog(t, run[1..], b);
      QuietPrefix(t.log, Run(s, run, b).log, |s.log|, b, a);
      g := StepOnTrack(s, run[0], b, a, before, f, due, callback, context);
      NextSettled(s, run[0], b);
      g := RunOnTrack(t, run[1..], b, a, before, g, due, callback, context);
    }
  }

  /** The timing contract of alt_alarm_start. Start a at tick s.now with nticks n, then let any
      run of ticks and of starts and stops of other alarms happen. Its callbacks come at
      s.now + n + 1 and from there at the running sum of the callback's own results, without
      drift; the alarm is registered exactly as long as no result was 0, and then the next
      deadline is still to come, so no callback has been missed. */
  lemma StartedAlarmIsOnTime(s: Sched, a: Alarm, n: u32, callback: int, context: int, run: seq<Event>, b: Behaviour)
    returns (f: seq<Firing>)
    requires Settled(s) && s.rate != 0 && LegalCall(s, Start(a, n, callback, context))
    requires LegalRun(StartAlarm(s, a, n, callback, context), run, b) && Untouched(run, a)
    requires Quiet(Run(StartAlarm(s, a, n, callback, context), run, b).log, |s.log|, b, a)
    ensures var r := Run(StartAlarm(s, a, n, callback, context), run, b);
      && Of(r.log, a) == Of(s.log, a) + f
      && OnTime(f, s.now + n + 1, callback, context)
      && (a in r.ring <==> f == [] || f[|f| - 1].ret != 0)
      && (a in r.ring ==> a in r.data && r.data[a].time == s.now + n + 1 + Sum(f) > r.now)
  {
    NextSettled(s, Started(a, n, callback, context), b);
    f := RunOnTrack(StartAlarm(s, a, n, callback, context), run, b, a, Of(s.log, a), [], s.now + n + 1, callback, context);
  }

  lemma {:induction false} SumGrows(f: seq<Firing>, j: nat, k: nat, due: nat, callback: int, context: int)
    requires OnTime(f, due, callback, context) && j < k < |f|
    ensures Sum(f[..j]) < Sum(f[..k])
    decreases k
  {
    assert f[..k][..k - 1] == f[..k - 1];
    assert OnTimeAt(f, k - 1, due, callback, context);
    if j < k - 1 { SumGrows(f, j, k - 1, due, callback, context); }
  }

  /** An alarm on time makes at most one callback per tick. */
  lemma AtMostOncePerTick(f: seq<Firing>, due: nat, callback: int, context: int)
    requires OnTime(f, due, callback, context)
    ensures forall j, k :: 0 <= j < k < |f| ==> f[j].tick < f[k].tick
  {
    forall j, k | 0 <= j < k < |f| ensures f[j].tick < f[k].tick {
      SumGrows(f, j, k, due, callback, context);
      assert OnTimeAt(f, j, due, callback, context) && OnTimeAt(f, k, due, callback, context);
    }
  }
}
