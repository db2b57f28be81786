/** alt_alarm_start, alt_alarm_stop and alt_tick over the heap: a ring of alarm structures
    that callbacks change while alt_tick is walking it. */
module AlarmClock {
  import opened Arithmetic
  import opened Errno
  import opened LList
  import opened AlarmSpec

  ghost function Fields(alarms: set<Alarm>): map<Alarm, AlarmData>
    reads alarms`data
  {
    map a | a in alarms :: a.data
  }

  class Clock {
    const list: Ring<AlarmData>        // alt_alarm_list
    var nticks: nat                    // _alt_nticks
    var rate: u32                      // _alt_tick_rate
    ghost const alarms: set<Alarm>     // the alarm structures of the program
    ghost var known: set<Alarm>        // those started at least once
    ghost var todo: seq<Alarm>
    ghost var log: seq<Firing>

    ghost predicate Valid()
      reads this, list, list.head, alarms, list.entries
    {
      && list.Valid()
      && list.head !in alarms
      && Elements(list.entries) <= known <= alarms
      && (forall a :: a in known && a !in list.entries ==> SelfLinked(a))
    }

    ghost function View(): Sched
      reads this, list, alarms`data
    {
      Sched(nticks, rate, list.entries, known, Fields(alarms), todo, log)
    }

    /** The system at reset: no alarm registered, no clock. */
    constructor (ghost structures: set<Alarm>)
      ensures Valid() && alarms == structures
      ensures nticks == 0 && rate == 0 && list.entries == [] && known == {} && todo == [] && log == []
      ensures Settled(View())
    {
      list := new Ring();
      nticks, rate := 0, 0;
      alarms := structures;
      known, todo, log := {}, [], [];
    }

    /** alt_sysclk_init: the clock driver sets the rate, once. */
    method SysclkInit(n: u32) returns (rc: int)
      requires Valid()
      modifies `rate
      ensures Valid()
      ensures rc == (if old(rate) == 0 then 0 else -1) && View() == SetRate(old(View()), n)
      ensures rate == (if old(rate) == 0 then n else old(rate))
    {
      if rate == 0 {
        rate := n;
        rc := 0;
      } else {
        rc := -1;
      }
    }

    /** An alarm off the list is put on it. */
    method Enlist(alarm: Alarm)
      requires Valid() && alarm in alarms && alarm !in list.entries
      modifies list, list.head, alarms, `known
      ensures Valid() && forall a :: a in alarms ==> a.data == old(a.data)
      ensures View() == old(View()).(ring := [alarm] + old(list.entries), known := old(known) + {alarm})
    {
      list.Insert(alarm);
      known := known + {alarm};
    }

    method AlarmStart(alarm: Node?<AlarmData>, n: u32, callback: int, context: int) returns (rc: int)
      requires Valid()
      requires alarm != null ==> LegalCall(View(), Start(alarm, n, callback, context))
      modifies list, list.head, alarms, `known
      ensures Valid()
      ensures rc == if rate == 0 then -ENOTSUP else if alarm == null then -EINVAL else 0
      ensures View() == if alarm == null then old(View()) else StartAlarm(old(View()), alarm, n, callback, context)
      ensures rc != 0 ==> View() == old(View())
      ensures rc == 0 ==> alarm != null && list.entries == [alarm] + old(list.entries)
                          && alarm.data == AlarmData(n + nticks + 1, callback, context)
    {
      if rate != 0 {
        if alarm != null {
          alarm.data := alarm.data.(callback := callback, context := context);
          var current := nticks;
          alarm.data := alarm.data.(time := n + current + 1);
          Enlist(alarm);
          return 0;
        } else {
          return -EINVAL;
        }
      } else {
        return -ENOTSUP;
      }
    }

    method AlarmStop(alarm: Alarm)
      requires Valid() && alarm in known
      modifies list, list.head, alarms, `todo
      ensures Valid() && View() == StopAlarm(old(View()), alarm)
      ensures alarm !in list.entries && SelfLinked(alarm)
    {
      DistinctParts([list.head], list.entries);
      WithoutMembers(list.entries, alarm);
      list.Remove(alarm);
      assert forall a :: a in old(list.entries) && a != alarm ==> a in Elements(list.entries);
      todo := Without(todo, alarm);
    }

    /** A callback's own calls into the facility. */
    method Perform(calls: seq<Call>)
      requires Valid() && LegalCalls(View(), calls)
      modifies list, list.head, alarms, `known, `todo
      ensures Valid() && View() == MakeCalls(old(View()), calls)
    {
      for i := 0 to |calls|
        invariant Valid() && LegalCalls(View(), calls[i..])
        invariant MakeCalls(View(), calls[i..]) == MakeCalls(old(View()), calls)
      {
        assert calls[i..][0] == calls[i] && calls[i..][1..] == calls[i + 1..];
        match calls[i] {
          case Start(a, n, callback, context) =>
            var _ := AlarmStart(a, n, callback, context);
          case Stop(a) =>
            AlarmStop(a);
        }
      }
    }

    /** After its callback an alarm is stopped, or gets a next deadline, which counts from the
        one just met and not from the present. */
    method Rearm(alarm: Alarm, ret: u32)
      requires Valid() && alarm in known
      modifies list, list.head, alarms, `todo
      ensures Valid()
      ensures var s := old(View());
        View() == if ret == 0 then StopAlarm(s, alarm)
                  else s.(data := s.data[alarm := s.data[alarm].(time := s.data[alarm].time + ret)])
    {
      if ret == 0 {
        AlarmStop(alarm);
      } else {
        alarm.data := alarm.data.(time := alarm.data.time + ret);
      }
    }

    /** The callback. */
    method CallBack(alarm: Alarm, b: Behaviour) returns (ret: u32)
      requires Valid() && alarm in known && LegalCalls(View(), b(alarm, nticks).calls)
      modifies list, list.head, alarms, `known, `todo, `log
      ensures Valid() && alarm in known && ret == b(alarm, nticks).ret
      ensures var s := old(View());
        View() == MakeCalls(s, b(alarm, nticks).calls).(
          log := s.log + [Firing(alarm, nticks, s.data[alarm].callback, s.data[alarm].context, ret)])
    {
      ghost var fired := alarm.data;
      var out := b(alarm, nticks);
      StillKnown(View(), out.calls, alarm);
      Perform(out.calls);
      log := log + [Firing(alarm, nticks, fired.callback, fired.context, out.ret)];
      ret := out.ret;
    }

    /** The part of the loop body of alt_tick that runs an expired alarm. */
    method Expire(alarm: Alarm, b: Behaviour)
      requires Valid() && alarm in known && LegalCalls(View(), b(alarm, nticks).calls)
      modifies list, list.head, alarms, `known, `todo, `log
      ensures Valid() && View() == Fire(old(View()), alarm, b)
    {
      var ret := CallBack(alarm, b);
      Rearm(alarm, ret);
    }

    method Visit(alarm: Alarm, b: Behaviour)
      requires Valid() && alarm in known && todo != [] && alarm == todo[0] && LegalTurn(View(), b)
      modifies list, list.head, alarms, `known, `todo, `log
      ensures Valid() && View() == Turn(old(View()), b)
    {
      todo := todo[1..];
      if alarm.data.time <= nticks {
        Expire(alarm, b);
      }
    }

    /** alt_tick. Saving the successor before the callback runs is enough: the callback may
        start and stop any alarms except that successor, and still every alarm registered at
        entry gets its one turn. */
    method Tick(b: Behaviour)
      requires Valid() && Settled(View()) && LegalTurns(BeginTick(View()), b)
      modifies this, list, list.head, alarms
      ensures Valid() && View() == AlarmSpec.Tick(old(View()), b)
    {
      var alarm := list.head.next;
      nticks := nticks + 1;
      todo := list.entries;
      assert View() == BeginTick(old(View()));
      while alarm != list.head
        invariant Valid() && Inv(View()) && LegalTurns(View(), b)
        invariant Turns(View(), b) == AlarmSpec.Tick(old(View()), b)
        invariant alarm == if todo == [] then list.head else todo[0]
        decreases |todo|
      {
        var next := alarm.next;
        Successor(alarm);
        TurnKeeps(View(), b);
        NextStays(View(), b);
        Visit(alarm, b);
        alarm := next;
      }
    }

    lemma Successor(alarm: Alarm)
      requires Valid() && Inv(View()) && todo != [] && alarm == todo[0]
      ensures alarm in alarms && alarm in known
      ensures alarm.next == if |todo| == 1 then list.head else todo[1]
    {
      var all, k := [list.head] + list.entries, |list.entries| - |todo|;
      assert list.entries[k] == alarm;
      assert all[k + 1].next == Cyclic(all, k + 2);
    }
  }
}
