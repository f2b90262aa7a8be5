/** The timers of src/net/event_loop.cpp: a list of timers and a map from identifiers to generations. */
module EventLoopTimers {
  import opened Bytes

  type uint32 = n: int | 0 <= n < 0x1_0000_0000

  const INFINITE: uint32 := 0xFFFF_FFFF

  /** Times are nanoseconds of the steady clock. */
  datatype Timer = Timer(id: nat, generation: nat, when: int, interval: int, repeat: uint32)

  /** The fields guarded by the timer mutex. */
  datatype Table = Table(timers: seq<Timer>, generations: map<nat, nat>, nextId: nat, nextGeneration: nat)

  predicate IsCurrent(generations: map<nat, nat>, t: Timer) {
    t.id in generations && generations[t.id] == t.generation
  }

  /** The least identifier from n on that no key occupies. */
  function FreeId(keys: set<nat>, n: nat): (id: nat)
    ensures n <= id && id !in keys
    ensures forall k | n <= k < id :: k in keys
    decreases |keys|
  {
    if n !in keys then n
    else
      var rest := keys - {n};
      var found := FreeId(rest, n + 1);
      assert rest <= keys;
      found
  }

  /** std::erase_if on the identifier. */
  function Without(timers: seq<Timer>, id: nat): seq<Timer> {
    if timers == [] then []
    else
      var rest := Without(timers[..|timers| - 1], id);
      if timers[|timers| - 1].id == id then rest else rest + [timers[|timers| - 1]]
  }

  datatype Added = Added(table: Table, id: nat)

  /** add_timer; identifier 0 asks for a new one. */
  function Add(s: Table, when: int, interval: int, repeat: uint32, id: nat): Added {
    if repeat == 0 then Added(s, 0)
    else
      var unused := FreeId(s.generations.Keys, if s.nextId == 0 then 1 else s.nextId);
      var chosen := if id == 0 then unused else id;
      var kept := if id == 0 then s.timers else Without(s.timers, id);
      Added(Table(kept + [Timer(chosen, s.nextGeneration, when, interval, repeat)],
                  s.generations[chosen := s.nextGeneration],
                  if id == 0 then unused + 1 else s.nextId,
                  s.nextGeneration + 1),
            chosen)
  }

  function CancelTimer(s: Table, id: nat): Table {
    if id == 0 then s else s.(generations := s.generations - {id})
  }

  /** The current timers that are due, or the current ones that are not. */
  function Select(generations: map<nat, nat>, timers: seq<Timer>, now: int, due: bool): seq<Timer> {
    if timers == [] then []
    else
      var rest := Select(generations, timers[..|timers| - 1], now, due);
      var t := timers[|timers| - 1];
      if IsCurrent(generations, t) && (t.when <= now) == due then rest + [t] else rest
  }

  /** What follows a callback: the timer is armed again or forgotten, unless it is no longer current. */
  function Settle(s: Table, t: Timer, now: int): Table {
    if !IsCurrent(s.generations, t) then s
    else
      var repeat: uint32 := if t.repeat == INFINITE || t.repeat == 0 then t.repeat else t.repeat - 1;
      if t.interval != 0 && (repeat == INFINITE || repeat > 0) then
        s.(timers := s.timers + [t.(when := now + t.interval, repeat := repeat)])
      else s.(generations := s.generations - {t.id})
  }

  class EventLoop {
    var timers: seq<Timer>
    var timerGenerations: map<nat, nat>
    var nextTimerId: nat
    var nextTimerGeneration: nat

    function View(): Table
      reads this
    {
      Table(timers, timerGenerations, nextTimerId, nextTimerGeneration)
    }

    constructor ()
      ensures View() == Table([], map[], 1, 1)
    {
      timers, timerGenerations, nextTimerId, nextTimerGeneration := [], map[], 1, 1;
    }

    method NextTimerIdLocked() returns (id: nat)
      requires nextTimerId > 0
      modifies this`nextTimerId
      ensures id == FreeId(timerGenerations.Keys, old(nextTimerId)) && nextTimerId == id + 1
    {
      id := nextTimerId;
      nextTimerId := nextTimerId + 1;
      ghost var keys := timerGenerations.Keys;
      while id == 0 || id in timerGenerations
        invariant id > 0 && nextTimerId == id + 1
        invariant FreeId(keys, id) == FreeId(timerGenerations.Keys, old(nextTimerId))
        invariant forall k | id <= k :: k in keys <==> k in timerGenerations
        decreases |keys|
      {
        keys := keys - {id};
        id := nextTimerId;
        nextTimerId := nextTimerId + 1;
      }
    }

    method EraseTimers(id: nat)
      modifies this`timers
      ensures timers == Without(old(timers), id)
    {
      var kept: seq<Timer> := [];
      for i := 0 to |timers|
        invariant timers == old(timers)
        invariant kept == Without(timers[..i], id)
      {
        assert timers[..i + 1][..i] == timers[..i];
        if timers[i].id != id {
          kept := kept + [timers[i]];
        }
      }
      assert timers[..|timers|] == timers;
      timers := kept;
    }

    method AddTimer(when: int, interval: int, repeat: uint32, timerId: nat) returns (id: nat)
      requires nextTimerId > 0
      modifies this
      ensures Added(View(), id) == Add(old(View()), when, interval, repeat, timerId)
    {
      if repeat == 0 {
        return 0;
      }
      id := timerId;
      if id == 0 {
        id := NextTimerIdLocked();
      } else {
        EraseTimers(id);
      }
      var generation := nextTimerGeneration;
      nextTimerGeneration := nextTimerGeneration + 1;
      timerGenerations := timerGenerations[id := generation];
      timers := timers + [Timer(id, generation, when, interval, repeat)];
    }

    method Cancel(id: nat)
      modifies this`timerGenerations
      ensures View() == CancelTimer(old(View()), id)
    {
      if id == 0 {
        return;
      }
      timerGenerations := timerGenerations - {id};
    }

    /** Never longer than the nearest deadline of a current timer, and longest possible in whole milliseconds. */
    method PollTimeoutMs(now: int) returns (ms: int)
      ensures 0 <= ms <= 10000
      ensures forall t | t in timers && IsCurrent(timerGenerations, t) :: ms == 0 || now + ms * 1_000_000 <= t.when
      ensures ms < 10000 ==>
                exists t | t in timers :: IsCurrent(timerGenerations, t) && t.when < now + (ms + 1) * 1_000_000
    {
      var next: Option<int> := None;
      for i := 0 to |timers|
        invariant next.None? ==> forall k | 0 <= k < i :: !IsCurrent(timerGenerations, timers[k])
        invariant next.Some? ==> forall k | 0 <= k < i && IsCurrent(timerGenerations, timers[k]) ::
                  next.value <= timers[k].when
        invariant next.Some? ==> exists t | t in timers :: IsCurrent(timerGenerations, t) && t.when == next.value
      {
        if !IsCurrent(timerGenerations, timers[i]) {
          continue;
        }
        if next.None? || timers[i].when < next.value {
          next := Some(timers[i].when);
          assert timers[i] in timers;
        }
      }
      if next.None? {
        return 10000;
      }
      if next.value <= now {
        return 0;
      }
      var millis := (next.value - now) / 1_000_000;
      ms := if millis < 10000 then millis else 10000;
    }

    /** The first lock section of run_due_timers. */
    method CollectDue(now: int) returns (expired: seq<Timer>)
      modifies this`timers
      ensures expired == Select(timerGenerations, old(timers), now, true)
      ensures timers == Select(timerGenerations, old(timers), now, false)
    {
      expired := [];
      var pending: seq<Timer> := [];
      for i := 0 to |timers|
        invariant timers == old(timers)
        invariant expired == Select(timerGenerations, timers[..i], now, true)
        invariant pending == Select(timerGenerations, timers[..i], now, false)
      {
        assert timers[..i + 1][..i] == timers[..i];
        if !IsCurrent(timerGenerations, timers[i]) {
          continue;
        }
        if timers[i].when <= now {
          expired := expired + [timers[i]];
        } else {
          pending := pending + [timers[i]];
        }
      }
      assert timers[..|timers|] == timers;
      timers := pending;
    }

    /** The lock section after the callback of an expired timer. */
    method SettleExpired(timer: Timer, now: int)
      requires timer.repeat > 0
      modifies this
      ensures View() == Settle(old(View()), timer, now)
    {
      if !IsCurrent(timerGenerations, timer) {
        return;
      }
      var repeat: uint32 := timer.repeat;
      if repeat != INFINITE {
        repeat := repeat - 1;
      }
      if timer.interval != 0 && (repeat == INFINITE || repeat > 0) {
        timers := timers + [timer.(when := now + timer.interval, repeat := repeat)];
      } else {
        timerGenerations := timerGenerations - {timer.id};
      }
    }
  }
}
