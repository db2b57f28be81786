/** What stopping an alarm is worth: it leaves the list at once, and makes no callback until it
    is started again. And what a start is worth that a callback makes. */
module AlarmCalls {
  import opened Arithmetic
  import opened LList
  import opened AlarmSpec
  import opened AlarmTiming

  /** r is s with x taken out wherever it stands, the other elements in order. */
  ghost predicate TakenOut<A>(s: seq<A>, r: seq<A>, x: A)
  {
    && x !in r
    && (x !in s ==> r == s)
    && forall k :: 0 <= k < |s| && s[k] == x ==> r == s[..k] + s[k + 1..]
  }

  lemma WithoutTakesOut<A>(s: seq<A>, x: A)
    requires Distinct(s)
    ensures TakenOut(s, Without(s, x), x)
  {
    WithoutMembers(s, x);
    assert x !in Elements(Without(s, x));
    forall k | 0 <= k < |s| && s[k] == x ensures Without(s, x) == s[..k] + s[k + 1..] {
      WithoutSplit(s, k);
    }
  }

  lemma TailDistinct<A>(t: seq<A>, s: seq<A>)
    requires Distinct(s) && Tail(t, s)
    ensures Distinct(t) && forall x :: x in t ==> x in s
  {
    assert s == s[..|s| - |t|] + t;
    DistinctParts(s[..|s| - |t|], t);
  }

  /** alt_alarm_stop, made by the program or inside a callback: exactly that alarm leaves the
      list, whatever its deadline, and it is no longer to be visited in this tick. */
  lemma StopStops(s: Sched, a: Alarm)
    requires Shape(s) && LegalCall(s, Stop(a))
    ensures var r := MakeCall(s, Stop(a));
      && TakenOut(s.ring, r.ring, a) && TakenOut(s.todo, r.todo, a)
      && r.now == s.now && r.rate == s.rate && r.known == s.known && r.data == s.data && r.log == s.log
  {
    TailDistinct(s.todo, s.ring);
    WithoutTakesOut(s.ring, a);
    WithoutTakesOut(s.todo, a);
  }

  ghost predicate NoStart(calls: seq<Call>, a: Alarm)
  {
    forall i :: 0 <= i < |calls| && calls[i].Start? ==> calls[i].alarm != a
  }

  /** No callback logged after the first n starts a. */
  ghost predicate NoStarts(log: seq<Firing>, n: nat, b: Behaviour, a: Alarm)
  {
    forall i :: n <= i < |log| ==> NoStart(b(log[i].alarm, log[i].tick).calls, a)
  }

  ghost predicate NotStarted(run: seq<Event>, a: Alarm)
  {
    forall i :: 0 <= i < |run| && run[i].Started? ==> run[i].alarm != a
  }

  lemma NoStartsPrefix(log: seq<Firing>, log': seq<Firing>, n: nat, m: nat, b: Behaviour, a: Alarm)
    requires Extends(log, log') && NoStarts(log', n, b, a) && n <= m
    ensures NoStarts(log, m, b, a) && NoStarts(log', m, b, a)
  {
    forall i | n <= i < |log| ensures NoStart(b(log[i].alarm, log[i].tick).calls, a) {
      assert log'[i] == log[i];
    }
  }

  /** An alarm is off the list and out of the tick in progress. */
  ghost predicate Off(s: Sched, a: Alarm)
  {
    a !in s.ring && a !in s.todo
  }

  lemma TakenOutMembers<A>(s: seq<A>, r: seq<A>, x: A)
    requires TakenOut(s, r, x)
    ensures forall y :: y in r ==> y in s
  {
    if x in s {
      var k :| 0 <= k < |s| && s[k] == x;
      assert r == s[..k] + s[k + 1..];
    }
  }

  /** Stopping some alarm, a or another, brings none back. */
  lemma OffThroughStop(s: Sched, x: Alarm, a: Alarm)
    requires Shape(s)
    ensures Off(s, a) || x == a ==> Off(StopAlarm(s, x), a)
  {
    var r := StopAlarm(s, x);
    TailDistinct(s.todo, s.ring);
    WithoutTakesOut(s.ring, x);
    WithoutTakesOut(s.todo, x);
    TakenOutMembers(s.ring, r.ring, x);
    TakenOutMembers(s.todo, r.todo, x);
  }

  lemma {:induction false} OffThroughCalls(s: Sched, calls: seq<Call>, a: Alarm, skip: set<Alarm>)
    requires Shape(s) && Punctual(s, skip) && LegalCalls(s, calls) && NoStart(calls, a) && Off(s, a)
    ensures Off(MakeCalls(s, calls), a)
    decreases |calls|
  {
    if calls != [] {
      CallKeeps(s, calls[0], skip);
      OffThroughStop(s, calls[0].alarm, a);
      assert forall i :: 0 <= i < |calls[1..]| ==> calls[1..][i] == calls[i + 1];
      OffThroughCalls(MakeCall(s, calls[0]), calls[1..], a, skip);
    }
  }

  /** A stop among the calls of a callback, with no later start, leaves the alarm off. */
  lemma {:induction false} OffAfterStop(s: Sched, calls: seq<Call>, k: nat, a: Alarm, skip: set<Alarm>)
    requires Shape(s) && Punctual(s, skip) && LegalCalls(s, calls)
    requires k < |calls| && calls[k] == Stop(a) && NoStart(calls[k + 1..], a)
    ensures Off(MakeCalls(s, calls), a)
    decreases k
  {
    CallKeeps(s, calls[0], skip);
    var t := MakeCall(s, calls[0]);
    if k == 0 {
      OffThroughStop(s, a, a);
      OffThroughCalls(t, calls[1..], a, skip);
    } else {
      assert calls[1..][k - 1] == calls[k] && calls[1..][k..] == calls[k + 1..];
      OffAfterStop(t, calls[1..], k - 1, a, skip);
    }
  }

  /** After the callback: retirement or the next deadline brings no alarm back. */
  lemma OffThroughExpiry(s: Sched, b: Behaviour, a: Alarm)
    requires Inv(s) && s.todo != [] && LegalTurn(s, b) && s.data[s.todo[0]].time <= s.now
    requires var t := s.(todo := s.todo[1..]); Off(MakeCalls(t, b(s.todo[0], s.now).calls), a)
    ensures Off(Turn(s, b), a)
  {
    var x, t := s.todo[0], s.(todo := s.todo[1..]);
    Reached(s);
    var out := b(x, s.now);
    CallsKeep(t, out.calls, {x});
    OffThroughStop(MakeCalls(t, out.calls).(log := Turn(s, b).log), x, a);
  }

  lemma OffThroughTurn(s: Sched, b: Behaviour, a: Alarm)
    requires Inv(s) && s.todo != [] && LegalTurn(s, b) && Off(s, a) && NoStarts(Turn(s, b).log, |s.log|, b, a)
    ensures Off(Turn(s, b), a) && Of(Turn(s, b).log, a) == Of(s.log, a)
  {
    var x, t := s.todo[0], s.(todo := s.todo[1..]);
    Reached(s);
    assert x != a && Off(t, a);
    if s.data[x].time <= s.now {
      TurnLog(s, b);
      assert NoStart(b(x, s.now).calls, a);
      OffThroughCalls(t, b(x, s.now).calls, a, {x});
      OffThroughExpiry(s, b, a);
    }
  }

  lemma {:induction false} OffThroughTurns(s: Sched, b: Behaviour, a: Alarm)
    requires Inv(s) && LegalTurns(s, b) && Off(s, a) && NoStarts(Turns(s, b).log, |s.log|, b, a)
    ensures Off(Turns(s, b), a) && Of(Turns(s, b).log, a) == Of(s.log, a)
    decreases |s.todo|
  {
    if s.todo != [] {
      var r := Turn(s, b);
      TurnKeeps(s, b);
      TurnsLog(r, b);
      TurnGrowsLog(s, b);
      NoStartsPrefix(r.log, Turns(s, b).log, |s.log|, |s.log|, b, a);
      OffThroughTurn(s, b, a);
      NoStartsPrefix(r.log, Turns(s, b).log, |s.log|, |r.log|, b, a);
      OffThroughTurns(r, b, a);
    }
  }

  lemma TurnGrowsLog(s: Sched, b: Behaviour)
    requires s.todo != [] && LegalTurn(s, b)
    ensures |Turn(s, b).log| >= |s.log|
  {
  }

  /** Over any run in which nothing starts it, an alarm that is not registered makes no callback
      and is not registered at the end. */
  lemma {:induction false} OffThroughRun(s: Sched, run: seq<Event>, b: Behaviour, a: Alarm)
    requires Settled(s) && a !in s.ring && LegalRun(s, run, b)
    requires NotStarted(run, a) && NoStarts(Run(s, run, b).log, |s.log|, b, a)
    ensures var r := Run(s, run, b); a !in r.ring && Of(r.log, a) == Of(s.log, a)
    decreases |run|
  {
    if run != [] {
      var t := Next(s, run[0], b);
      NextSettled(s, run[0], b);
      NextLog(s, run[0], b);
      RunLog(t, run[1..], b);
      NoStartsPrefix(t.log, Run(s, run, b).log, |s.log|, |s.log|, b, a);
      OffThroughEvent(s, run[0], b, a);
      NoStartsPrefix(t.log, Run(s, run, b).log, |s.log|, |t.log|, b, a);
      assert forall i :: 0 <= i < |run[1..]| ==> run[1..][i] == run[i + 1];
      OffThroughRun(t, run[1..], b, a);
    }
  }

  lemma NextLog(s: Sched, e: Event, b: Behaviour)
    requires LegalEvent(s, e, b)
    ensures Extends(s.log, Next(s, e, b).log)
  {
    if e.Ticked? { TurnsLog(BeginTick(s), b); }
  }

  lemma OffThroughEvent(s: Sched, e: Event, b: Behaviour, a: Alarm)
    requires Settled(s) && a !in s.ring && LegalEvent(s, e, b)
    requires (e.Started? ==> e.alarm != a) && NoStarts(Next(s, e, b).log, |s.log|, b, a)
    ensures var r := Next(s, e, b); a !in r.ring && Of(r.log, a) == Of(s.log, a)
  {
    match e
    case Started(_, _, _, _) =>
    case RateSet(_) =>
    case Stopped(x) => OffThroughStop(s, x, a);
    case Ticked =>
      BeginKeeps(s);
      OffThroughTurns(BeginTick(s), b, a);
  }

  /** The promise of alt_alarm_stop: over any run in which neither the program nor a callback
      starts it again, a stopped alarm makes no further callback. */
  lemma StoppedAlarmIsSilent(s: Sched, a: Alarm, run: seq<Event>, b: Behaviour)
    requires Settled(s) && LegalEvent(s, Stopped(a), b) && LegalRun(s, [Stopped(a)] + run, b)
    requires NotStarted(run, a) && NoStarts(Run(s, [Stopped(a)] + run, b).log, |s.log|, b, a)
    ensures var r := Run(s, [Stopped(a)] + run, b); a !in r.ring && Of(r.log, a) == Of(s.log, a)
  {
    var t := Next(s, Stopped(a), b);
    assert ([Stopped(a)] + run)[1..] == run;
    NextSettled(s, Stopped(a), b);
    OffThroughStop(s, a, a);
    OffThroughRun(t, run, b, a);
  }

  /** The same for a stop inside a callback, its own alarm's included: the alarm makes no
      callback in the rest of that tick, nor in any run after it. */
  lemma StoppedInCallbackIsSilent(s: Sched, b: Behaviour, k: nat, a: Alarm, run: seq<Event>)
    requires Inv(s) && s.todo != [] && LegalTurns(s, b) && s.data[s.todo[0]].time <= s.now
    requires var calls := b(s.todo[0], s.now).calls;
      k < |calls| && calls[k] == Stop(a) && NoStart(calls[k + 1..], a)
    requires LegalRun(Turns(s, b), run, b) && NotStarted(run, a)
    requires NoStarts(Run(Turns(s, b), run, b).log, |Turn(s, b).log|, b, a)
    ensures var r := Run(Turns(s, b), run, b); a !in r.ring && Of(r.log, a) == Of(Turn(s, b).log, a)
  {
    var u, t := Turn(s, b), Turns(s, b);
    Reached(s);
    OffAfterStop(s.(todo := s.todo[1..]), b(s.todo[0], s.now).calls, k, a, {s.todo[0]});
    OffThroughExpiry(s, b, a);
    TurnKeeps(s, b);
    TurnsKeep(u, b);
    TurnsLog(u, b);
    RunLog(t, run, b);
    NoStartsPrefix(t.log, Run(t, run, b).log, |u.log|, |u.log|, b, a);
    OffThroughTurns(u, b, a);
    NoStartsPrefix(t.log, Run(t, run, b).log, |u.log|, |t.log|, b, a);
    OffThroughRun(t, run, b, a);
  }

  // ---- Starts inside callbacks -----------------------------------------------------------

  /** alt_alarm_start, made by the program or inside a callback: with a clock the alarm comes to
      the front of the list with its deadline, and is not visited in this tick; without one
      nothing changes. */
  lemma StartStarts(s: Sched, a: Alarm, n: u32, callback: int, context: int)
    requires Shape(s) && LegalCall(s, Start(a, n, callback, context))
    ensures var r := MakeCall(s, Start(a, n, callback, context));
      && (s.rate == 0 ==> r == s)
      && (s.rate != 0 ==>
            && r.ring == [a] + s.ring && r.todo == s.todo && a !in r.todo && a in r.known
            && r.now == s.now && r.rate == s.rate && r.log == s.log
            && r.data.Keys == s.data.Keys && r.data[a] == AlarmData(s.now + n + 1, callback, context)
            && forall x: Alarm :: x in s.data && x != a ==> r.data[x] == s.data[x])
  {
    TailDistinct(s.todo, s.ring);
  }

  /** A start among the calls of a callback stands if no later call names the alarm. */
  lemma {:induction false} OnAfterStart(s: Sched, calls: seq<Call>, k: nat, a: Alarm, n: u32, callback: int, context: int,
                                        skip: set<Alarm>)
    requires Shape(s) && Punctual(s, skip) && LegalCalls(s, calls) && s.rate != 0
    requires k < |calls| && calls[k] == Start(a, n, callback, context) && Silent(calls[k + 1..], a)
    ensures var r := MakeCalls(s, calls);
      a in r.ring && a !in r.todo && a in r.data && r.data[a] == AlarmData(s.now + n + 1, callback, context)
    decreases k
  {
    CallKeeps(s, calls[0], skip);
    var t := MakeCall(s, calls[0]);
    if k == 0 {
      StartStarts(s, a, n, callback, context);
      assert t.ring[0] == a;
      SilentCalls(t, calls[1..], a);
    } else {
      assert calls[1..][k - 1] == calls[k] && calls[1..][k..] == calls[k + 1..];
      OnAfterStart(t, calls[1..], k - 1, a, n, callback, context, skip);
    }
  }

  /** The turn in which the callback of x starts another alarm. */
  lemma StartingTurn(s: Sched, b: Behaviour, k: nat, a: Alarm, n: u32, callback: int, context: int)
    requires Inv(s) && s.rate != 0 && s.todo != [] && LegalTurn(s, b)
    requires s.data[s.todo[0]].time <= s.now && a != s.todo[0]
    requires var calls := b(s.todo[0], s.now).calls;
      k < |calls| && calls[k] == Start(a, n, callback, context) && Silent(calls[k + 1..], a)
    ensures var r := Turn(s, b);
      && a in r.ring && a !in r.todo && a in r.data && r.data[a] == AlarmData(s.now + n + 1, callback, context)
      && Of(r.log, a) == Of(s.log, a)
  {
    var x, t := s.todo[0], s.(todo := s.todo[1..]);
    var calls := b(x, s.now).calls;
    Reached(s);
    TurnLog(s, b);
    OnAfterStart(t, calls, k, a, n, callback, context, {x});
    var u := MakeCalls(t, calls);
    WithoutOther(u.ring, x, a);
    WithoutOther(u.todo, x, a);
  }

  /** An alarm started inside a callback at tick t with nticks n is on time as well: it fires
      first at t + n + 1, never in the tick of its start. */
  lemma StartedInCallbackIsOnTime(s: Sched, b: Behaviour, k: nat, a: Alarm, n: u32, callback: int, context: int,
                                  run: seq<Event>)
    returns (f: seq<Firing>)
    requires Inv(s) && s.rate != 0 && s.todo != [] && LegalTurns(s, b)
    requires s.data[s.todo[0]].time <= s.now && a != s.todo[0]
    requires var calls := b(s.todo[0], s.now).calls;
      k < |calls| && calls[k] == Start(a, n, callback, context) && Silent(calls[k + 1..], a)
    requires LegalRun(Turns(s, b), run, b) && Untouched(run, a)
    requires Quiet(Run(Turns(s, b), run, b).log, |Turn(s, b).log|, b, a)
    ensures var r := Run(Turns(s, b), run, b);
      && Of(r.log, a) == Of(s.log, a) + f
      && OnTime(f, s.now + n + 1, callback, context)
      && (a in r.ring <==> f == [] || f[|f| - 1].ret != 0)
      && (a in r.ring ==> a in r.data && r.data[a].time == s.now + n + 1 + Sum(f) > r.now)
  {
    var u, t := Turn(s, b), Turns(s, b);
    TurnsLog(u, b);
    RunLog(t, run, b);
    QuietPrefix(t.log, Run(t, run, b).log, |u.log|, b, a);
    StartingTick(s, b, k, a, n, callback, context);
    QuietLater(Run(t, run, b).log, |u.log|, |t.log|, b, a);
    f := RunOnTrack(t, run, b, a, Of(s.log, a), [], s.now + n + 1, callback, context);
  }

  /** The rest of the tick does not touch the alarm. */
  lemma StartingTick(s: Sched, b: Behaviour, k: nat, a: Alarm, n: u32, callback: int, context: int)
    requires Inv(s) && s.rate != 0 && s.todo != [] && LegalTurns(s, b)
    requires s.data[s.todo[0]].time <= s.now && a != s.todo[0]
    requires var calls := b(s.todo[0], s.now).calls;
      k < |calls| && calls[k] == Start(a, n, callback, context) && Silent(calls[k + 1..], a)
    requires Quiet(Turns(s, b).log, |Turn(s, b).log|, b, a)
    ensures OnTrack(Turns(s, b), a, Of(s.log, a), [], s.now + n + 1, callback, context)
  {
    var u := Turn(s, b);
    StartingTurn(s, b, k, a, n, callback, context);
    TurnKeeps(s, b);
    TurnsKeep(u, b);
    TurnsServe(u, b, a);
    Unserved(u, Turns(s, b), a);
    FreshOnTrack(Turns(s, b), a, Of(s.log, a), s.now + n + 1, callback, context);
  }

  /** An alarm that has made no callback since it was started. */
  lemma FreshOnTrack(t: Sched, a: Alarm, before: seq<Firing>, due: nat, callback: int, context: int)
    requires Inv(t) && t.todo == [] && a in t.data && a in t.ring && Of(t.log, a) == before
    requires t.data[a] == AlarmData(due, callback, context)
    ensures OnTrack(t, a, before, [], due, callback, context)
  {
    assert before + [] == before;
    assert Sum([]) == 0;
  }

  lemma Unserved(s: Sched, t: Sched, a: Alarm)
    requires a in s.data && a in s.ring && Served(s, t, a, [])
    ensures a in t.ring && a in t.data && t.data[a] == s.data[a] && Of(t.log, a) == Of(s.log, a)
  {
    assert Of(s.log, a) + [] == Of(s.log, a);
  }

  lemma QuietLater(log: seq<Firing>, n: nat, m: nat, b: Behaviour, a: Alarm)
    requires Quiet(log, n, b, a) && n <= m
    ensures Quiet(log, m, b, a)
  {
  }
}
