/** Scheduled timers over unbounded time: what src/tmr.c implements with a 16-bit clock and a linked list. */
module Timers {
  import opened Bytes

  const HALF: int := 0x8000

  /** The comparison of the source: the tick count has passed the timeout by less than half a turn. */
  predicate Expired16(tick: int, timeout: int) {
    Wrap16(tick - timeout) < HALF
  }

  /** The 16-bit comparison is right exactly when the lateness, wrapped, falls on the right half of the dial. */
  lemma ExpiredIsExact(now: int, due: int)
    ensures (Expired16(Wrap16(now), Wrap16(due)) <==> due <= now) <==>
            (due <= now ==> (now - due) % 0x1_0000 < HALF) && (now < due ==> (due - now - 1) % 0x1_0000 < HALF)
  {
    assert Wrap16(Wrap16(now) - Wrap16(due)) == (now - due) % 0x1_0000;
  }

  /** In particular for a deadline at most 32768 ticks ahead and less than 32768 ticks overdue. */
  lemma ExpiredInWindow(now: int, due: int)
    requires -HALF <= now - due < HALF
    ensures Expired16(Wrap16(now), Wrap16(due)) <==> due <= now
  {
    ExpiredIsExact(now, due);
  }

  /** A timer polled 32768 ticks late is missed. */
  lemma LateTimerMissed(due: int)
    ensures !Expired16(Wrap16(due + HALF), Wrap16(due))
  {
    assert Wrap16(Wrap16(due + HALF) - Wrap16(due)) == HALF;
  }

  // ---------------------------------------------------------------- the schedule

  /** A scheduled timer; a period of zero marks a one-shot. */
  datatype Entry<T> = Entry(key: T, id: nat, due: int, period: nat)

  predicate Distinct<T(==)>(s: seq<Entry<T>>) {
    forall i, j :: 0 <= i < j < |s| ==> s[i].key != s[j].key
  }

  /** Position of a timer in the list, or the length of the list. */
  function Find<T(==)>(s: seq<Entry<T>>, key: T): (k: nat)
    ensures k <= |s|
    ensures k < |s| ==> s[k].key == key
    ensures forall i :: 0 <= i < k ==> s[i].key != key
  {
    if s == [] || s[0].key == key then 0 else 1 + Find(s[1..], key)
  }

  function RemoveAt<T>(s: seq<Entry<T>>, k: nat): seq<Entry<T>>
    requires k < |s|
  {
    s[..k] + s[k + 1..]
  }

  function Unschedule<T(==)>(s: seq<Entry<T>>, key: T): seq<Entry<T>> {
    var k := Find(s, key);
    if k == |s| then s else RemoveAt(s, k)
  }

  function Schedule<T(==)>(s: seq<Entry<T>>, key: T, id: nat, duration: nat, periodic: bool, now: nat): seq<Entry<T>> {
    [Entry(key, id, now + duration, if periodic then duration else 0)] + Unschedule(s, key)
  }

  /** The first timer that the 16-bit clock takes for expired, or the length of the list. */
  function FirstExpired<T>(s: seq<Entry<T>>, now: nat): (k: nat)
    ensures k <= |s|
    ensures k < |s| ==> Expired16(Wrap16(now), Wrap16(s[k].due))
    ensures forall i :: 0 <= i < k ==> !Expired16(Wrap16(now), Wrap16(s[i].due))
  {
    if s == [] || Expired16(Wrap16(now), Wrap16(s[0].due)) then 0 else 1 + FirstExpired(s[1..], now)
  }

  /** One call of `tmr_process`: the new list, and the timer that was returned. */
  function Process<T>(s: seq<Entry<T>>, now: nat): (seq<Entry<T>>, Option<T>) {
    var k := FirstExpired(s, now);
    if k == |s| then (s, None)
    else if s[k].period != 0 then (s[k := s[k].(due := s[k].due + s[k].period)], Some(s[k].key))
    else (RemoveAt(s, k), Some(s[k].key))
  }

  lemma ProcessCases<T>(s: seq<Entry<T>>, now: nat)
    ensures var k := FirstExpired(s, now);
            if k == |s| then Process(s, now) == (s, None)
            else Process(s, now).1 == Some(s[k].key) && (s[k].period == 0 ==> Process(s, now).0 == RemoveAt(s, k))
                 && (s[k].period != 0 ==> Process(s, now).0 == s[k := s[k].(due := s[k].due + s[k].period)])
  {}

  /** Every timer was set at most 32767 ticks ahead and is looked at less than 32768 ticks late. */
  predicate InWindow<T>(s: seq<Entry<T>>, now: nat) {
    forall i :: 0 <= i < |s| ==> -HALF <= now - s[i].due < HALF
  }

  /** What unscheduling means: exactly the named timer goes, the others stay as they are and in order. */
  lemma UnscheduleRemovesOnlyThat<T>(s: seq<Entry<T>>, key: T)
    requires Distinct(s)
    ensures var s' := Unschedule(s, key);
            && Distinct(s')
            && (forall e :: e in s' <==> e in s && e.key != key)
            && (exists k :: 0 <= k <= |s| && s' == s[..k] + s[if k < |s| then k + 1 else k..])
  {
    var k := Find(s, key);
    var s' := Unschedule(s, key);
    forall e | e in s && e.key != key ensures e in s' {
      var i :| 0 <= i < |s| && s[i] == e;
      if i < k {
        assert s'[i] == e;
      } else if k < |s| {
        assert s'[i - 1] == e;
      }
    }
    assert s' == s[..k] + s[if k < |s| then k + 1 else k..];
  }

  /** What scheduling means: the timer is in front with its deadline, once, and the others are unchanged. */
  lemma ScheduleMovesToFront<T>(s: seq<Entry<T>>, key: T, id: nat, duration: nat, periodic: bool, now: nat)
    requires Distinct(s)
    ensures var s' := Schedule(s, key, id, duration, periodic, now);
            && Distinct(s')
            && s'[0] == Entry(key, id, now + duration, if periodic then duration else 0)
            && (forall e :: e in s'[1..] <==> e in s && e.key != key)
  {
    UnscheduleRemovesOnlyThat(s, key);
    var rest := Unschedule(s, key);
    var s' := Schedule(s, key, id, duration, periodic, now);
    assert s'[1..] == rest;
    forall j | 0 <= j < |rest| ensures rest[j].key != key {
      assert rest[j] in rest;
    }
  }

  predicate IsFirstDue<T>(s: seq<Entry<T>>, now: nat, k: nat) {
    && k < |s| && s[k].due <= now
    && forall i :: 0 <= i < k ==> now < s[i].due
  }

  /** A one-shot goes, a periodic timer moves on, and nothing else changes. */
  function Served<T>(s: seq<Entry<T>>, k: nat): seq<Entry<T>>
    requires k < |s|
  {
    if s[k].period == 0 then s[..k] + s[k + 1..] else s[k := s[k].(due := s[k].due + s[k].period)]
  }

  /**
   What processing means in true time: the first timer whose deadline has passed is returned, a one-shot
   is removed, a periodic one moves on by its period, and every other timer stays as it was.
   */
  lemma ProcessReturnsFirstDue<T>(s: seq<Entry<T>>, now: nat)
    requires Distinct(s) && InWindow(s, now)
    ensures var (s', r) := Process(s, now);
            && Distinct(s')
            && (r == None <==> Quiet(s, now))
            && (r == None ==> s' == s)
            && (r.Some? ==>
                  exists k :: 0 <= k < |s| && IsFirstDue(s, now, k) && s[k].key == r.value && s' == Served(s, k))
  {
    forall i | 0 <= i < |s| ensures Expired16(Wrap16(now), Wrap16(s[i].due)) <==> s[i].due <= now {
      ExpiredInWindow(now, s[i].due);
    }
    var k := FirstExpired(s, now);
    if k < |s| {
      assert IsFirstDue(s, now, k) && Process(s, now).0 == Served(s, k);
    }
  }

  predicate Quiet<T>(s: seq<Entry<T>>, now: nat) {
    forall i :: 0 <= i < |s| ==> now < s[i].due
  }

  // ---------------------------------------------------------------- runs

  datatype Event<T> = Tick | Poll | Set(key: T, id: nat, duration: nat, periodic: bool) | Cancel(key: T)

  datatype Clock<T> = Clock(now: nat, list: seq<Entry<T>>)

  function Apply<T(==)>(c: Clock<T>, e: Event<T>): (Clock<T>, Option<T>) {
    match e
    case Tick => (c.(now := c.now + 1), None)
    case Poll => var (list, r) := Process(c.list, c.now); (c.(list := list), r)
    case Set(key, id, duration, periodic) => (c.(list := Schedule(c.list, key, id, duration, periodic, c.now)), None)
    case Cancel(key) => (c.(list := Unschedule(c.list, key)), None)
  }

  /** The clock after a run, and the timers that polls returned, in order. */
  function Run<T(==)>(c: Clock<T>, es: seq<Event<T>>): (Clock<T>, seq<T>)
    decreases |es|
  {
    if es == [] then (c, []) else
      var (c', r) := Apply(c, es[0]);
      var rest := Run(c', es[1..]);
      (rest.0, (if r.Some? then [r.value] else []) + rest.1)
  }

  /** At every poll of the run the list is in the window of the 16-bit clock. */
  predicate NeverLate<T(==)>(c: Clock<T>, es: seq<Event<T>>)
    decreases |es|
  {
    es == [] || ((es[0].Poll? ==> InWindow(c.list, c.now)) && NeverLate(Apply(c, es[0]).0, es[1..]))
  }

  lemma ApplyKeepsDistinct<T>(c: Clock<T>, e: Event<T>)
    requires Distinct(c.list) && (e.Poll? ==> InWindow(c.list, c.now))
    ensures Distinct(Apply(c, e).0.list)
  {
    match e
    case Tick =>
    case Poll => ProcessReturnsFirstDue(c.list, c.now);
    case Set(key, id, duration, periodic) => ScheduleMovesToFront(c.list, key, id, duration, periodic, c.now);
    case Cancel(key) => UnscheduleRemovesOnlyThat(c.list, key);
  }

  function CountOf<T(==)>(s: seq<T>, key: T): nat {
    if s == [] then 0 else (if s[0] == key then 1 else 0) + CountOf(s[1..], key)
  }

  /** The run neither restarts nor cancels the timer. */
  predicate Untouched<T(==)>(es: seq<Event<T>>, key: T) {
    forall e :: e in es ==> !(e.Set? && e.key == key) && !(e.Cancel? && e.key == key)
  }

  /** A periodic timer that was started at `start` and has fired `n` times. */
  predicate Beat<T(==)>(c: Clock<T>, key: T, id: nat, start: nat, period: nat, n: nat) {
    && Distinct(c.list)
    && Entry(key, id, start + n * period + period, period) in c.list
    && start + n * period <= c.now
  }

  lemma ServedLeavesOthers<T>(s: seq<Entry<T>>, k: nat, m: nat)
    requires k < |s| && m < |s| && k != m
    ensures s[m] in Served(s, k)
  {
    if s[k].period == 0 && m > k {
      assert Served(s, k)[m - 1] == s[m];
    } else {
      assert Served(s, k)[m] == s[m];
    }
  }

  lemma PollKeepsOrAdvances<T>(s: seq<Entry<T>>, now: nat, x: Entry<T>)
    requires Distinct(s) && InWindow(s, now) && x in s && x.period != 0
    ensures var (s', r) := Process(s, now);
            if r == Some(x.key) then x.due <= now && x.(due := x.due + x.period) in s' else x in s'
  {
    ProcessReturnsFirstDue(s, now);
    var (s', r) := Process(s, now);
    var m :| 0 <= m < |s| && s[m] == x;
    if r.Some? {
      var k :| 0 <= k < |s| && IsFirstDue(s, now, k) && s[k].key == r.value && s' == Served(s, k);
      if k == m {
        assert s'[k] == x.(due := x.due + x.period);
      } else {
        ServedLeavesOthers(s, k, m);
      }
    }
  }

  lemma BeatPoll<T>(c: Clock<T>, key: T, id: nat, start: nat, period: nat, n: nat)
    requires period > 0 && Beat(c, key, id, start, period, n) && InWindow(c.list, c.now)
    ensures Beat(Apply(c, Poll).0, key, id, start, period, if Apply(c, Poll).1 == Some(key) then n + 1 else n)
  {
    ApplyKeepsDistinct(c, Poll);
    PollKeepsOrAdvances(c.list, c.now, Entry(key, id, start + n * period + period, period));
    assert (n + 1) * period == n * period + period;
  }

  lemma OthersBusinessKeeps<T>(c: Clock<T>, e: Event<T>, x: Entry<T>)
    requires Distinct(c.list) && x in c.list && !e.Poll?
    requires !(e.Set? && e.key == x.key) && !(e.Cancel? && e.key == x.key)
    ensures var c' := Apply(c, e).0;
            Distinct(c'.list) && x in c'.list && c'.now >= c.now && Apply(c, e).1 == None
  {
    match e
    case Tick =>
    case Set(other, id, duration, periodic) =>
      ScheduleMovesToFront(c.list, other, id, duration, periodic, c.now);
      assert x in Schedule(c.list, other, id, duration, periodic, c.now)[1..];
    case Cancel(other) => UnscheduleRemovesOnlyThat(c.list, other);
  }

  lemma BeatStep<T>(c: Clock<T>, e: Event<T>, key: T, id: nat, start: nat, period: nat, n: nat)
    requires period > 0 && Beat(c, key, id, start, period, n)
    requires Untouched([e], key) && (e.Poll? ==> InWindow(c.list, c.now))
    ensures Beat(Apply(c, e).0, key, id, start, period, if Apply(c, e).1 == Some(key) then n + 1 else n)
  {
    if e.Poll? {
      BeatPoll(c, key, id, start, period, n);
    } else {
      assert e in [e];
      OthersBusinessKeeps(c, e, Entry(key, id, start + n * period + period, period));
    }
  }

  lemma CountOfCons<T>(r: Option<T>, rest: seq<T>, key: T)
    ensures CountOf((if r.Some? then [r.value] else []) + rest, key) ==
            (if r == Some(key) then 1 else 0) + CountOf(rest, key)
  {
    if r.Some? {
      assert ([r.value] + rest)[1..] == rest;
    } else {
      assert [] + rest == rest;
    }
  }

  lemma {:induction false} BeatRun<T>(c: Clock<T>, es: seq<Event<T>>, key: T, id: nat, start: nat, period: nat, n: nat)
    requires period > 0 && Beat(c, key, id, start, period, n)
    requires Untouched(es, key) && NeverLate(c, es)
    ensures var (c', fired) := Run(c, es); Beat(c', key, id, start, period, n + CountOf(fired, key))
    decreases |es|
  {
    if es != [] {
      assert Untouched([es[0]], key);
      BeatStep(c, es[0], key, id, start, period, n);
      var (c', r) := Apply(c, es[0]);
      var n' := if r == Some(key) then n + 1 else n;
      BeatRun(c', es[1..], key, id, start, period, n');
      CountOfCons(r, Run(c', es[1..]).1, key);
    }
  }

  lemma MultipleIsFar(d: int, p: int)
    requires d != 0 && p > 0
    ensures d * p >= p || d * p <= -p
  {
    if d > 0 {
      assert (d - 1) * p >= 0;
    } else {
      assert (-d - 1) * p >= 0;
    }
  }

  lemma QuotientIs(x: int, p: int, n: int)
    requires p > 0 && n * p <= x < n * p + p
    ensures x / p == n
  {
    var d := x / p - n;
    assert x == (x / p) * p + x % p;
    assert d * p == (x / p) * p - n * p;
    if d != 0 {
      MultipleIsFar(d, p);
    }
  }

  /**
   Periodic timers neither drift nor lose a firing: started at `c.now`, in any run of ticks, polls and other
   timers' business, whenever nothing is left expired the timer has been returned exactly once per elapsed
   period, and its next deadline is still a whole number of periods after the start.
   */
  lemma PeriodicNeverDrifts<T>(c: Clock<T>, key: T, id: nat, period: nat, es: seq<Event<T>>)
    requires Distinct(c.list) && period > 0
    requires Untouched(es, key)
    requires NeverLate(Apply(c, Set(key, id, period, true)).0, es)
    ensures var c0 := Apply(c, Set(key, id, period, true)).0;
            var (c', fired) := Run(c0, es);
            var n := CountOf(fired, key);
            && Entry(key, id, c.now + n * period + period, period) in c'.list
            && c.now + n * period <= c'.now
            && (Quiet(c'.list, c'.now) ==> n == (c'.now - c.now) / period)
  {
    var c0 := Apply(c, Set(key, id, period, true)).0;
    ScheduleMovesToFront(c.list, key, id, period, true, c.now);
    assert c0.list[0] == Entry(key, id, c.now + 0 * period + period, period);
    BeatRun(c0, es, key, id, c.now, period, 0);
    var (c', fired) := Run(c0, es);
    var n := CountOf(fired, key);
    if Quiet(c'.list, c'.now) {
      QuotientIs(c'.now - c.now, period, n);
    }
  }
}
