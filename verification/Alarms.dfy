/**
 Software alarms on a 32-bit tick counter. Deadlines are kept modulo 2^32 with a flag for "not before
 the counter has wrapped"; the specification counts ticks without bound.
 */
module Alarms {
  import opened Words

  /** What a callback returns when it runs on the given (unbounded) tick: ticks to the next run, or 0. */
  type Callback = nat -> Word

  // ----- unbounded time -----

  datatype Pending = Pending(due: nat, callback: Callback)

  datatype Spec<!A> = Spec(now: nat, alarms: map<A, Pending>)

  function StartSpec<A>(s: Spec<A>, a: A, nticks: Word, callback: Callback): Spec<A> {
    s.(alarms := s.alarms[a := Pending(s.now + nticks + 1, callback)])
  }

  function StopSpec<A>(s: Spec<A>, a: A): Spec<A> {
    s.(alarms := s.alarms - {a})
  }

  /** The alarms that run on the next tick. */
  function Due<A>(s: Spec<A>): set<A> {
    set a | a in s.alarms && s.alarms[a].due == s.now + 1
  }

  /** The alarm runs on tick t and ends there. */
  predicate Ends(p: Pending, t: nat) {
    p.due == t && p.callback(t) == 0
  }

  /** What is pending after tick t: an alarm that ran is due that many ticks after t. */
  function After(p: Pending, t: nat): Pending {
    if p.due == t then Pending(t + p.callback(t), p.callback) else p
  }

  /** On a tick every alarm that is due runs; it is renewed from this tick on, or dropped. */
  function TickSpec<A>(s: Spec<A>): Spec<A> {
    Spec(s.now + 1, map a | a in s.alarms && !Ends(s.alarms[a], s.now + 1) :: After(s.alarms[a], s.now + 1))
  }

  // ----- one alarm's deadline modulo 2^32 -----

  /** After tick `now`, the stored deadline and flag stand for the future tick `due`. */
  ghost predicate Represents(now: nat, due: nat, time: nat, rollover: bool) {
    && now < due <= now + WORD
    && time == due % WORD
    && (rollover && (now + 1) % WORD != 0) == (due / WORD > (now + 1) / WORD)
  }

  /** What starting or renewing an alarm `interval` ticks ahead stores. */
  function NewTime(base: nat, interval: nat): nat {
    (base + interval) % WORD
  }

  lemma Split(x: nat, q: nat, r: nat)
    requires x == q * WORD + r && r < WORD
    ensures x / WORD == q && x % WORD == r
  {
  }

  /** Where x + k lies when it is at most one wrap away from x. */
  lemma SplitSum(x: nat, k: nat)
    requires k <= WORD
    ensures if x % WORD + k < WORD then (x + k) / WORD == x / WORD && (x + k) % WORD == x % WORD + k
            else (x + k) / WORD == x / WORD + 1 && (x + k) % WORD == x % WORD + k - WORD
  {
    if x % WORD + k < WORD {
      Split(x + k, x / WORD, x % WORD + k);
    } else {
      Split(x + k, x / WORD + 1, x % WORD + k - WORD);
    }
  }

  /**
   Storing the wrapped deadline, and flagging it if it is numerically below the counter, is exact
   for every interval but the longest, 2^32, which is exact only right before the counter wraps.
   */
  lemma ArmExact(now: nat, interval: nat)
    requires 0 < interval <= WORD
    ensures var time := NewTime(now % WORD, interval);
            Represents(now, now + interval, time, time < now % WORD) <==>
            (interval < WORD || now % WORD == WORD - 1)
  {
    SplitSum(now, 1);
    SplitSum(now, interval);
    SplitSum(now % WORD, interval);
  }

  /** The longest interval otherwise lets the alarm run on the very next tick. */
  lemma LongestIntervalAliases(now: nat)
    requires now % WORD < WORD - 1
    ensures var time := NewTime(now % WORD, WORD);
            now % WORD <= time <= (now + 1) % WORD
  {
    SplitSum(now, 1);
    SplitSum(now % WORD, WORD);
  }

  /** On the next tick, with the flag cleared at the wrap, the comparison holds exactly at the deadline. */
  lemma TickExact(now: nat, due: nat, time: nat, rollover: bool)
    requires Represents(now, due, time, rollover)
    ensures var flag := rollover && (now + 1) % WORD != 0;
            && (time <= (now + 1) % WORD && !flag <==> due == now + 1)
            && (due != now + 1 ==> Represents(now + 1, due, time, flag))
  {
    SplitSum(now, 1);
    SplitSum(now + 1, 1);
    SplitSum(now, due - now);
  }

  /** Renewing an alarm that runs now, from its own deadline. */
  lemma RenewExact(now: nat, next: Word)
    requires 0 < next
    ensures var time := (now % WORD + next) % WORD;
            Represents(now, now + next, time, time < now % WORD)
  {
    ArmExact(now, next);
  }

  // ----- the alarm list -----

  class Alarm {
    var time: Word
    var rollover: bool
    var callback: Callback
    ghost var due: nat

    constructor ()
    {
      time, rollover, callback, due := 0, false, _ => 0, 0;
    }
  }

  datatype Status = Started | NoClock | NoAlarm

  ghost predicate Distinct(list: seq<Alarm>) {
    forall i, j | 0 <= i < j < |list| :: list[i] != list[j]
  }

  lemma AppendDistinct(list: seq<Alarm>, a: Alarm)
    requires Distinct(list) && a !in list
    ensures Distinct(list + [a])
  {
  }

  lemma WithoutIndex(l: seq<Alarm>, i: nat)
    requires Distinct(l) && i < |l|
    ensures Distinct(l[..i] + l[i + 1..])
    ensures forall a :: a in l[..i] + l[i + 1..] <==> a in l && a != l[i]
  {
    var l' := l[..i] + l[i + 1..];
    forall a ensures a in l' <==> a in l && a != l[i] {
      if a in l && a != l[i] {
        var j :| 0 <= j < |l| && l[j] == a;
        assert l'[if j < i then j else j - 1] == a;
      }
    }
  }

  class Timer {
    var tickRate: Word
    var nticks: Word
    var list: seq<Alarm>
    var now: nat  // ticks since reset, which no comparison looks at; callbacks may depend on it

    constructor (tickRate: Word)
      ensures Valid() && Model() == Spec(0, map[]) && list == [] && this.tickRate == tickRate
    {
      this.tickRate, nticks, list, now := tickRate, 0, [], 0;
    }

    ghost predicate Valid()
      reads this, list
    {
      && nticks == now % WORD
      && Distinct(list)
      && forall a | a in list :: Represents(now, a.due, a.time, a.rollover)
    }

    /** The alarms listed, in unbounded time. */
    ghost function Model(): Spec<Alarm>
      reads this, list
    {
      Spec(now, map a | a in list :: Pending(a.due, a.callback))
    }

    /** Registers an alarm; it must not be listed. With the longest interval see ArmExact. */
    method Start(alarm: Alarm?, interval: Word, callback: Callback) returns (rc: Status)
      requires Valid() && alarm !in list
      modifies this`list, alarm
      ensures rc == if tickRate == 0 then NoClock else if alarm == null then NoAlarm else Started
      ensures rc != Started ==> Valid() && list == old(list) && Model() == old(Model())
      ensures alarm != null && rc == Started ==> list == [alarm] + old(list)
      ensures alarm != null && rc == Started ==> Model() == StartSpec(old(Model()), alarm, interval, callback)
      ensures alarm != null && rc == Started ==> (Valid() <==> interval < WORD - 1 || nticks == WORD - 1)
    {
      if tickRate == 0 {
        return NoClock;
      }
      if alarm == null {
        return NoAlarm;
      }
      Arm(alarm, interval, callback);
      list := [alarm] + list;
      StartDone(old(Model()), old(list), alarm, interval, callback);
      rc := Started;
    }

    lemma StartDone(s: Spec<Alarm>, before: seq<Alarm>, alarm: Alarm, interval: Word, callback: Callback)
      requires now == s.now && nticks == now % WORD && list == [alarm] + before
      requires Distinct(before) && alarm !in before
      requires forall a | a in before :: Represents(now, a.due, a.time, a.rollover)
      requires s.alarms == map a | a in before :: Pending(a.due, a.callback)
      requires Pending(alarm.due, alarm.callback) == Pending(now + interval + 1, callback)
      ensures Model() == StartSpec(s, alarm, interval, callback)
      ensures Valid() <==> Represents(now, alarm.due, alarm.time, alarm.rollover)
    {
      assert list[0] == alarm && forall j | 0 < j < |list| :: list[j] == before[j - 1];
      assert forall a :: a in list <==> a == alarm || a in before;
    }

    method Arm(alarm: Alarm, interval: Word, callback: Callback)
      requires nticks == now % WORD
      modifies alarm
      ensures alarm.callback == callback && alarm.due == now + interval + 1
      ensures Represents(now, alarm.due, alarm.time, alarm.rollover) <==> interval < WORD - 1 || nticks == WORD - 1
    {
      alarm.callback := callback;
      alarm.time := NewTime(nticks, interval + 1);
      alarm.rollover := alarm.time < nticks;
      alarm.due := now + interval + 1;
      ArmExact(now, interval + 1);
    }

    /** Unlists an alarm; harmless if it is not listed. */
    method Stop(alarm: Alarm)
      requires Valid()
      modifies this`list
      ensures Valid() && Model() == StopSpec(old(Model()), alarm)
      ensures forall a :: a in list <==> a in old(list) && a != alarm
    {
      var i := 0;
      while i < |list| && list[i] != alarm
        invariant 0 <= i <= |list| && forall j | 0 <= j < i :: list[j] != alarm
      {
        i := i + 1;
      }
      if i < |list| {
        WithoutIndex(list, i);
        Unlink(i);
      }
      StopDone(old(Model()), alarm);
    }

    lemma StopDone(s: Spec<Alarm>, alarm: Alarm)
      requires now == s.now
      requires forall a | a in list :: a in s.alarms && a != alarm && s.alarms[a] == Pending(a.due, a.callback)
      requires forall a | a in s.alarms && a != alarm :: a in list
      ensures Model() == StopSpec(s, alarm)
    {
      assert Model().alarms.Keys == StopSpec(s, alarm).alarms.Keys;
    }

    method Unlink(i: nat)
      requires i < |list|
      modifies this`list
      ensures list == old(list)[..i] + old(list)[i + 1..]
    {
      list := list[..i] + list[i + 1..];
    }

    /** What a tick does to one alarm: perhaps clears its flag, perhaps runs and renews it. */
    method Visit(alarm: Alarm) returns (ran: bool, next: Word)
      requires 0 < now && nticks == now % WORD
      requires Represents(now - 1, alarm.due, alarm.time, alarm.rollover)
      modifies alarm
      ensures ran <==> old(alarm.due) == now
      ensures ran ==> next == old(alarm.callback)(now)
      ensures ran && next == 0 <==> Ends(old(Pending(alarm.due, alarm.callback)), now)
      ensures !(ran && next == 0) ==> Visited(alarm, old(Pending(alarm.due, alarm.callback)))
    {
      TickExact(now - 1, alarm.due, alarm.time, alarm.rollover);
      if alarm.rollover && nticks == 0 {
        alarm.rollover := false;
      }
      ran, next := false, 0;
      if alarm.time <= nticks && !alarm.rollover {
        ran := true;
        next := alarm.callback(now);
        if next != 0 {
          RenewExact(now, next);
          alarm.time := (alarm.time + next) % WORD;
          if alarm.time < nticks {
            alarm.rollover := true;
          }
          alarm.due := now + next;
        }
      }
    }

    /** Alarm a, pending as p when the tick began, has not been visited. */
    ghost predicate Unvisited(a: Alarm, p: Pending)
      reads this, a
    {
      && 0 < now && Pending(a.due, a.callback) == p
      && Represents(now - 1, a.due, a.time, a.rollover)
    }

    /** Alarm a, pending as p when the tick began, has been visited and stays listed. */
    ghost predicate Visited(a: Alarm, p: Pending)
      reads this, a
    {
      && Pending(a.due, a.callback) == After(p, now)
      && Represents(now, a.due, a.time, a.rollover)
    }

    /**
     Halfway through a tick that began with alarms s0: the first i alarms listed have been visited and
     stay, `gone` have been visited and dropped, the others have not been visited.
     */
    ghost predicate Progress(s0: map<Alarm, Pending>, i: nat, gone: set<Alarm>, fired: seq<Alarm>)
      reads this, list
    {
      && 0 < now && nticks == now % WORD
      && Sorted(s0, now, list, i, gone, fired)
      && (forall j | 0 <= j < i :: Visited(list[j], s0[list[j]]))
      && (forall j | i <= j < |list| :: Unvisited(list[j], s0[list[j]]))
    }

    /** Visits alarm i of the list and leaves the list as it is. */
    method VisitAt(ghost s0: map<Alarm, Pending>, i: nat, ghost gone: set<Alarm>, ghost fired: seq<Alarm>)
      returns (ran: bool, interval: Word)
      requires Progress(s0, i, gone, fired) && i < |list|
      modifies list[i]
      ensures ran <==> s0[list[i]].due == now
      ensures ran && interval == 0 <==> Ends(s0[list[i]], now)
      ensures forall j | 0 <= j < i :: Visited(list[j], s0[list[j]])
      ensures !(ran && interval == 0) ==> Visited(list[i], s0[list[i]])
      ensures forall j | i < j < |list| :: Unvisited(list[j], s0[list[j]])
    {
      var alarm := list[i];
      assert forall j | 0 <= j < |list| && j != i :: list[j] != alarm;
      ran, interval := Visit(alarm);
    }

    /** Visits alarm i of the list, unlinks it if it has ended, and says where to go on. */
    method VisitNext(ghost s0: map<Alarm, Pending>, i: nat, ghost gone0: set<Alarm>, fired0: seq<Alarm>)
      returns (next: nat, ghost gone: set<Alarm>, fired: seq<Alarm>)
      requires Progress(s0, i, gone0, fired0) && i < |list|
      modifies this`list, list[i]
      ensures Progress(s0, next, gone, fired)
      ensures fired == fired0 || fired == fired0 + [old(list[i])]
      ensures |list| - next == old(|list|) - i - 1
      ensures forall a | a in list :: a in old(list)
    {
      var alarm := list[i];
      SortedNext(s0, now, list, i, gone0, fired0);
      var ran, interval := VisitAt(s0, i, gone0, fired0);
      fired := if ran then fired0 + [alarm] else fired0;
      if ran && interval == 0 {
        ghost var before := list;
        Unlink(i);
        next, gone := i, gone0 + {alarm};
        DropDone(s0, before, i, gone, fired);
      } else {
        next, gone := i + 1, gone0;
        KeepDone(s0, i, gone, fired);
      }
    }

    lemma KeepDone(s0: map<Alarm, Pending>, i: nat, gone: set<Alarm>, fired: seq<Alarm>)
      requires 0 < now && nticks == now % WORD && i < |list| && Sorted(s0, now, list, i + 1, gone, fired)
      requires forall j | 0 <= j <= i :: Visited(list[j], s0[list[j]])
      requires forall j | i < j < |list| :: Unvisited(list[j], s0[list[j]])
      ensures Progress(s0, i + 1, gone, fired)
    {
    }

    lemma DropDone(s0: map<Alarm, Pending>, before: seq<Alarm>, i: nat, gone: set<Alarm>, fired: seq<Alarm>)
      requires i < |before| && list == before[..i] + before[i + 1..]
      requires 0 < now && nticks == now % WORD && Sorted(s0, now, list, i, gone, fired)
      requires forall j | 0 <= j < i :: before[j] in s0 && Visited(before[j], s0[before[j]])
      requires forall j | i < j < |before| :: before[j] in s0 && Unvisited(before[j], s0[before[j]])
      ensures Progress(s0, i, gone, fired)
      ensures forall a | a in list :: a in before
    {
      assert forall j | 0 <= j < i :: list[j] == before[j];
      assert forall j | i <= j < |list| :: list[j] == before[j + 1];
    }

    /** Counts the tick; nobody has been visited yet. */
    method Advance()
      requires Valid()
      modifies this`nticks, this`now
      ensures now == old(now) + 1 && Progress(old(Model()).alarms, 0, {}, [])
    {
      nticks := (nticks + 1) % WORD;
      now := now + 1;
    }

    /** The tick interrupt: advances the counter and visits the alarms listed when it began. */
    method Tick() returns (fired: seq<Alarm>)
      requires Valid()
      modifies this`nticks, this`now, this`list, list
      ensures Valid() && Model() == TickSpec(old(Model()))
      ensures Distinct(fired) && forall a :: a in fired <==> a in Due(old(Model()))
      ensures forall a | a in list :: a in old(list)
    {
      ghost var s := Model();
      ghost var gone := {};
      Advance();
      fired := [];
      var i := 0;
      while i < |list|
        invariant 0 <= i <= |list| && now == s.now + 1
        invariant Progress(s.alarms, i, gone, fired) && Distinct(fired)
        invariant forall a | a in list :: a in old(list)
        decreases |list| - i
      {
        assert list[i] in list;
        AppendDistinct(fired, list[i]);
        i, gone, fired := VisitNext(s.alarms, i, gone, fired);
      }
      TickDone(s, gone, fired);
    }

    lemma TickDone(s: Spec<Alarm>, gone: set<Alarm>, fired: seq<Alarm>)
      requires Progress(s.alarms, |list|, gone, fired) && now == s.now + 1
      ensures Valid() && Model() == TickSpec(s)
      ensures forall a :: a in fired <==> a in Due(s)
    {
      assert Model().alarms.Keys == TickSpec(s).alarms.Keys;
    }
  }

  /** Who is where halfway through a tick; `fired` is who has run. */
  ghost predicate Sorted(s0: map<Alarm, Pending>, now: nat, list: seq<Alarm>, i: nat,
                         gone: set<Alarm>, fired: seq<Alarm>)
  {
    && i <= |list| && Distinct(list)
    && (forall a | a in s0 :: a in list || a in gone)
    && (forall a | a in gone :: a in s0 && a !in list && Ends(s0[a], now) && a in fired)
    && (forall a | a in fired :: a in s0 && s0[a].due == now)
    && (forall j | 0 <= j < |list| :: list[j] in s0)
    && (forall j | 0 <= j < i :: !Ends(s0[list[j]], now) && (s0[list[j]].due == now ==> list[j] in fired))
    && (forall j | i <= j < |list| :: list[j] !in fired)
  }

  lemma SortedNext(s0: map<Alarm, Pending>, now: nat, list: seq<Alarm>, i: nat, gone: set<Alarm>, fired: seq<Alarm>)
    requires Sorted(s0, now, list, i, gone, fired) && i < |list|
    ensures var a := list[i];
            && var fired' := if s0[a].due == now then fired + [a] else fired;
            if Ends(s0[a], now) then Sorted(s0, now, list[..i] + list[i + 1..], i, gone + {a}, fired')
            else Sorted(s0, now, list, i + 1, gone, fired')
  {
    if Ends(s0[list[i]], now) {
      SortedWithout(s0, now, list, i, gone, fired);
    }
  }

  lemma SortedWithout(s0: map<Alarm, Pending>, now: nat, list: seq<Alarm>, i: nat, gone: set<Alarm>, fired: seq<Alarm>)
    requires Sorted(s0, now, list, i, gone, fired) && i < |list| && Ends(s0[list[i]], now)
    ensures Sorted(s0, now, list[..i] + list[i + 1..], i, gone + {list[i]}, fired + [list[i]])
  {
    WithoutIndex(list, i);
  }

  // ----- whole runs -----

  datatype Step<!A> = Begin(alarm: A, interval: Word, callback: Callback) | End(alarm: A) | Elapse

  function Next<A>(s: Spec<A>, step: Step<A>): Spec<A> {
    match step
    case Begin(a, interval, callback) => StartSpec(s, a, interval, callback)
    case End(a) => StopSpec(s, a)
    case Elapse => TickSpec(s)
  }

  /** Alarms are started when not pending, and for the longest interval only right before a wrap. */
  predicate Legal<A>(s: Spec<A>, steps: seq<Step<A>>)
    decreases |steps|
  {
    steps != [] ==>
      && (steps[0].Begin? ==> steps[0].alarm !in s.alarms && (steps[0].interval < WORD - 1 || s.now % WORD == WORD - 1))
      && Legal(Next(s, steps[0]), steps[1..])
  }

  function Final<A>(s: Spec<A>, steps: seq<Step<A>>): Spec<A>
    decreases |steps|
  {
    if steps == [] then s else Final(Next(s, steps[0]), steps[1..])
  }

  /** The ticks on which alarm a runs. */
  function Runs<A>(s: Spec<A>, steps: seq<Step<A>>, a: A): seq<nat>
    decreases |steps|
  {
    if steps == [] then []
    else (if steps[0].Elapse? && a in Due(s) then [s.now + 1] else []) + Runs(Next(s, steps[0]), steps[1..], a)
  }

  /** When an alarm due on tick `due` runs, up to tick `end`: then, and each returned interval later. */
  function Schedule(due: nat, callback: Callback, end: nat): seq<nat>
    decreases end - due
  {
    if end < due then []
    else [due] + if callback(due) == 0 then [] else Schedule(due + callback(due), callback, end)
  }

  lemma {:induction false} TimeAdvances<A>(s: Spec<A>, steps: seq<Step<A>>)
    ensures s.now <= Final(s, steps).now
    decreases |steps|
  {
    if steps != [] {
      TimeAdvances(Next(s, steps[0]), steps[1..]);
    }
  }

  /**
   Whatever happens to the other alarms, an alarm that nobody starts or stops meanwhile runs exactly
   on schedule: no drift, no extra run, no missed run, and nothing after it has returned 0.
   */
  lemma {:induction false} RunsOnSchedule<A>(s: Spec<A>, steps: seq<Step<A>>, a: A)
    requires a in s.alarms && s.now < s.alarms[a].due
    requires forall i | 0 <= i < |steps| :: steps[i].Elapse? || steps[i].alarm != a
    ensures Runs(s, steps, a) == Schedule(s.alarms[a].due, s.alarms[a].callback, Final(s, steps).now)
    decreases |steps|
  {
    TimeAdvances(s, steps);
    if steps != [] {
      var p, t := s.alarms[a], Next(s, steps[0]);
      TimeAdvances(t, steps[1..]);
      if steps[0].Elapse? && Ends(p, t.now) {
        RunsNoMore(t, steps[1..], a);
      } else {
        RunsOnSchedule(t, steps[1..], a);
      }
    }
  }

  lemma {:induction false} RunsNoMore<A>(s: Spec<A>, steps: seq<Step<A>>, a: A)
    requires a !in s.alarms
    requires forall i | 0 <= i < |steps| :: steps[i].Elapse? || steps[i].alarm != a
    ensures Runs(s, steps, a) == []
    decreases |steps|
  {
    if steps != [] {
      RunsNoMore(Next(s, steps[0]), steps[1..], a);
    }
  }

  /** Started on some tick and then left alone, an alarm first runs nticks + 1 ticks later. */
  lemma StartedRunsOnSchedule<A>(s: Spec<A>, steps: seq<Step<A>>, a: A, nticks: Word, callback: Callback)
    requires forall i | 0 <= i < |steps| :: steps[i].Elapse? || steps[i].alarm != a
    ensures var all := [Begin(a, nticks, callback)] + steps;
            Runs(s, all, a) == Schedule(s.now + nticks + 1, callback, Final(s, all).now)
  {
    var all := [Begin(a, nticks, callback)] + steps;
    assert all[1..] == steps;
    RunsOnSchedule(Next(s, all[0]), steps, a);
  }

  /** Stopped and then left alone, it does not run. */
  lemma StoppedRunsNoMore<A>(s: Spec<A>, steps: seq<Step<A>>, a: A)
    requires forall i | 0 <= i < |steps| :: steps[i].Elapse? || steps[i].alarm != a
    ensures Runs(s, [End(a)] + steps, a) == []
  {
    var all := [End(a)] + steps;
    assert all[1..] == steps;
    RunsNoMore(Next(s, all[0]), steps, a);
  }

  /** A callback that always asks for the same period runs on every multiple of it after the first deadline. */
  lemma {:induction false} NoDrift(due: nat, callback: Callback, period: Word, end: nat)
    requires 0 < period && forall t :: callback(t) == period
    ensures forall i | 0 <= i < |Schedule(due, callback, end)| :: Schedule(due, callback, end)[i] == due + i * period
    ensures due + |Schedule(due, callback, end)| * period > end
    decreases end - due
  {
    if due <= end {
      NoDrift(due + period, callback, period, end);
      var rest := Schedule(due + period, callback, end);
      assert Schedule(due, callback, end) == [due] + rest;
      forall i | 0 <= i < |rest| ensures rest[i] == due + (i + 1) * period {
        OnePeriodMore(i, period);
      }
      OnePeriodMore(|rest|, period);
    }
  }

  lemma OnePeriodMore(i: nat, period: nat)
    ensures (i + 1) * period == period + i * period
  {
  }

  /** Executes the steps on the real timer; `log` is who ran, per step. */
  method Execute(t: Timer, steps: seq<Step<Alarm>>, ghost all: set<Alarm>) returns (log: seq<seq<Alarm>>)
    requires t.Valid() && t.tickRate != 0 && Legal(t.Model(), steps)
    requires forall a | a in t.list :: a in all
    requires forall i | 0 <= i < |steps| :: steps[i].Elapse? || steps[i].alarm in all
    modifies t, all
    ensures t.Valid() && t.Model() == Final(old(t.Model()), steps)
    ensures |log| == |steps| && forall i | 0 <= i < |log| :: Distinct(log[i])
    ensures forall a | a in all :: RunsIn(log, old(t.now), steps, a) == Runs(old(t.Model()), steps, a)
    decreases |steps|
  {
    if steps == [] {
      return [];
    }
    var fired := [];
    match steps[0] {
      case Begin(a, interval, callback) =>
        assert a !in t.list;
        var rc := t.Start(a, interval, callback);
      case End(a) =>
        t.Stop(a);
      case Elapse =>
        fired := t.Tick();
    }
    assert t.Model() == Next(old(t.Model()), steps[0]);
    var rest := Execute(t, steps[1..], all);
    log := [fired] + rest;
  }

  /** The ticks on which alarm a ran, according to a log that began at tick `now`. */
  function RunsIn(log: seq<seq<Alarm>>, now: nat, steps: seq<Step<Alarm>>, a: Alarm): seq<nat>
    requires |log| == |steps|
  {
    if steps == [] then []
    else
      var t := if steps[0].Elapse? then now + 1 else now;
      (if a in log[0] then [t] else []) + RunsIn(log[1..], t, steps[1..], a)
  }
}
