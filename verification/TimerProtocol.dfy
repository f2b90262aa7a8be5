/** Timers over whole runs of the loop, with callbacks and other threads adding and cancelling in between. */
module TimerProtocol {
  import opened Bytes
  import opened EventLoopTimers

  datatype Firing = Firing(generation: nat, when: int, at: int)

  /**
   * The table, the batch run_due_timers is working through (its head is firing from the start of its
   * callback until it is settled), and the clock. History: every timer as it was added, every
   * firing, and the generations that were cancelled or replaced.
   */
  datatype World = World(table: Table, batch: seq<Timer>, firing: bool, batchTime: int, now: int,
                         origin: map<nat, Timer>, log: seq<Firing>, dropped: set<nat>)

  datatype Event =
    | AddTimer(when: int, interval: int, repeat: uint32, id: nat)
    | Cancel(id: nat)
    | Collect
    | Fire
    | SettleHead
    | Tick(elapsed: nat)

  function Start(now: int): World { World(Table([], map[], 1, 1), [], false, now, now, map[], [], {}) }

  function CurrentOf(s: Table, id: nat): set<nat> { if id in s.generations then {s.generations[id]} else {} }

  function Next(w: World, e: Event): World {
    match e
    case AddTimer(when, interval, repeat, id) =>
      if repeat == 0 then w
      else
        var r := Add(w.table, when, interval, repeat, id);
        var g := w.table.nextGeneration;
        w.(table := r.table, origin := w.origin[g := Timer(r.id, g, when, interval, repeat)],
           dropped := w.dropped + CurrentOf(w.table, r.id))
    case Cancel(id) =>
      if id == 0 then w
      else w.(table := CancelTimer(w.table, id), dropped := w.dropped + CurrentOf(w.table, id))
    case Collect =>
      if w.batch != [] then w
      else
        var s := w.table;
        w.(batch := Select(s.generations, s.timers, w.now, true),
           table := s.(timers := Select(s.generations, s.timers, w.now, false)),
           batchTime := w.now)
    case Fire =>
      if w.batch == [] || w.firing then w
      else w.(firing := true, log := w.log + [Firing(w.batch[0].generation, w.batch[0].when, w.now)])
    case SettleHead =>
      if w.batch == [] || !w.firing then w
      else w.(table := Settle(w.table, w.batch[0], w.now), batch := w.batch[1..], firing := false)
    case Tick(elapsed) => w.(now := w.now + elapsed)
  }

  function Run(w: World, events: seq<Event>): World
    decreases |events|
  {
    if events == [] then w else Run(Next(w, events[0]), events[1..])
  }

  /** How many timers carry a generation. */
  function Carriers(timers: seq<Timer>, g: nat): nat {
    if timers == [] then 0
    else Carriers(timers[..|timers| - 1], g) + if timers[|timers| - 1].generation == g then 1 else 0
  }

  function Fires(log: seq<Firing>, g: nat): nat {
    if log == [] then 0 else Fires(log[..|log| - 1], g) + if log[|log| - 1].generation == g then 1 else 0
  }

  predicate Carries(timers: seq<Timer>, id: nat, g: nat) { exists t | t in timers :: t.id == id && t.generation == g }

  /** The firings a timer is meant to have, if that is finite. */
  function Rounds(o: Timer): Option<nat> {
    if o.interval == 0 then Some(1) else if o.repeat == INFINITE then None else Some(o.repeat)
  }

  /** Completed rounds of a generation: the firing in progress is not one yet. */
  function Spent(w: World, g: nat): int {
    Fires(w.log, g) - if w.firing && w.batch != [] && w.batch[0].generation == g then 1 else 0
  }

  /** A timer in the list or in the batch against the timer that was added. */
  predicate TimerFits(w: World, t: Timer) {
    var g := t.generation;
    && g in w.origin && t.id != 0 && t.repeat > 0
    && w.origin[g].id == t.id && w.origin[g].interval == t.interval
    && (t.interval == 0 ==> Spent(w, g) == 0)
    && if w.origin[g].repeat == INFINITE then t.repeat == INFINITE
       else t.repeat < INFINITE && Spent(w, g) + t.repeat == w.origin[g].repeat
  }

  ghost predicate Distinct(w: World) { forall g :: Carriers(w.table.timers, g) + Carriers(w.batch, g) <= 1 }

  predicate MapFits(w: World) {
    forall id | id in w.table.generations ::
      && id != 0
      && (Carries(w.table.timers, id, w.table.generations[id]) || Carries(w.batch, id, w.table.generations[id]))
  }

  predicate TimersFit(w: World) {
    (forall t | t in w.table.timers :: TimerFits(w, t)) && (forall t | t in w.batch :: TimerFits(w, t))
  }

  predicate HistoryFits(w: World) {
    && w.table.nextGeneration > 0
    && (forall g | g in w.origin :: g < w.table.nextGeneration && w.origin[g].generation == g)
    && (forall f | f in w.log :: f.generation in w.origin && f.when <= f.at)
    && (forall t | t in w.batch :: t.when <= w.batchTime) && w.batchTime <= w.now
    && (w.firing ==> w.batch != [])
  }

  predicate Bounded(w: World) {
    forall g | g in w.origin :: Rounds(w.origin[g]).Some? ==> Fires(w.log, g) <= Rounds(w.origin[g]).value
  }

  /** A timer that was neither cancelled nor replaced is still current or has had all its rounds. */
  predicate Complete(w: World) {
    forall g | g in w.origin && g !in w.dropped ::
      || (w.origin[g].id in w.table.generations && w.table.generations[w.origin[g].id] == g)
      || Rounds(w.origin[g]) == Some(Fires(w.log, g))
  }

  predicate LiveOrDropped(w: World, t: Timer) { IsCurrent(w.table.generations, t) || t.generation in w.dropped }

  /** Only cancelling and replacing make a timer stale. */
  predicate Live(w: World) {
    (forall t | t in w.table.timers :: LiveOrDropped(w, t)) && (forall t | t in w.batch :: LiveOrDropped(w, t))
  }

  ghost predicate Invariant(w: World) {
    Distinct(w) && MapFits(w) && TimersFit(w) && HistoryFits(w) && Bounded(w) && Complete(w) && Live(w)
  }

  lemma CarriersSnoc(timers: seq<Timer>, t: Timer, g: nat)
    ensures Carriers(timers + [t], g) == Carriers(timers, g) + if t.generation == g then 1 else 0
  {
    assert (timers + [t])[..|timers|] == timers;
  }

  lemma {:induction false} CarriersTail(timers: seq<Timer>, g: nat)
    requires timers != []
    ensures Carriers(timers, g) == Carriers(timers[1..], g) + if timers[0].generation == g then 1 else 0
    decreases |timers|
  {
    if |timers| > 1 {
      var init := timers[..|timers| - 1];
      CarriersTail(init, g);
      assert timers[1..][..|timers| - 2] == init[1..];
    }
  }

  lemma {:induction false} CarriersIn(timers: seq<Timer>, t: Timer)
    requires t in timers
    ensures Carriers(timers, t.generation) >= 1
    decreases |timers|
  {
    var n := |timers| - 1;
    if timers[n] != t {
      assert t in timers[..n];
      CarriersIn(timers[..n], t);
    }
  }

  lemma {:induction false} CarriersNone(timers: seq<Timer>, g: nat)
    requires forall t | t in timers :: t.generation != g
    ensures Carriers(timers, g) == 0
    decreases |timers|
  {
    if timers != [] {
      CarriersNone(timers[..|timers| - 1], g);
    }
  }

  lemma FiresSnoc(log: seq<Firing>, f: Firing, g: nat)
    ensures Fires(log + [f], g) == Fires(log, g) + if f.generation == g then 1 else 0
  {
    assert (log + [f])[..|log|] == log;
  }

  lemma {:induction false} FiresNone(log: seq<Firing>, g: nat)
    requires forall f | f in log :: f.generation != g
    ensures Fires(log, g) == 0
    decreases |log|
  {
    if log != [] {
      FiresNone(log[..|log| - 1], g);
    }
  }

  /** Erasing by identifier keeps exactly the other timers. */
  lemma {:induction false} WithoutKeeps(timers: seq<Timer>, id: nat)
    ensures forall t :: t in Without(timers, id) <==> t in timers && t.id != id
    ensures forall g :: Carriers(Without(timers, id), g) <= Carriers(timers, g)
    decreases |timers|
  {
    if timers != [] {
      var init, last := timers[..|timers| - 1], timers[|timers| - 1];
      WithoutKeeps(init, id);
      assert timers == init + [last];
      forall g ensures Carriers(Without(timers, id), g) <= Carriers(timers, g) {
        CarriersSnoc(Without(init, id), last, g);
      }
    }
  }

  lemma {:induction false} SelectMembers(generations: map<nat, nat>, timers: seq<Timer>, now: int, due: bool)
    ensures forall t :: t in Select(generations, timers, now, due) <==>
                        t in timers && IsCurrent(generations, t) && (t.when <= now) == due
    decreases |timers|
  {
    if timers != [] {
      var init, last := timers[..|timers| - 1], timers[|timers| - 1];
      SelectMembers(generations, init, now, due);
      assert timers == init + [last];
    }
  }

  lemma {:induction false} SelectParts(generations: map<nat, nat>, timers: seq<Timer>, now: int, g: nat)
    ensures Carriers(Select(generations, timers, now, true), g) + Carriers(Select(generations, timers, now, false), g)
            <= Carriers(timers, g)
    decreases |timers|
  {
    if timers != [] {
      var init, last := timers[..|timers| - 1], timers[|timers| - 1];
      SelectParts(generations, init, now, g);
      CarriersSnoc(Select(generations, init, now, true), last, g);
      CarriersSnoc(Select(generations, init, now, false), last, g);
    }
  }

  lemma CollectKeeps(w: World)
    requires Invariant(w) && w.batch == []
    ensures Invariant(Next(w, Collect))
  {
    var v := Next(w, Collect);
    var s := w.table;
    SelectMembers(s.generations, s.timers, w.now, true);
    SelectMembers(s.generations, s.timers, w.now, false);
    forall g ensures Carriers(v.table.timers, g) + Carriers(v.batch, g) <= 1 {
      SelectParts(s.generations, s.timers, w.now, g);
      assert Carriers(w.table.timers, g) + Carriers(w.batch, g) <= 1;
    }
    hide Select, Carriers, Rounds;
    assert Distinct(v);
    forall id | id in v.table.generations
      ensures id != 0 && (Carries(v.table.timers, id, v.table.generations[id])
              || Carries(v.batch, id, v.table.generations[id])) {
      var g := s.generations[id];
      assert Carries(s.timers, id, g);
      var t :| t in s.timers && t.id == id && t.generation == g;
      assert t in v.table.timers || t in v.batch;
    }
    forall t | t in v.table.timers || t in v.batch ensures TimerFits(v, t) && LiveOrDropped(v, t) {
      assert TimerFits(w, t) && LiveOrDropped(w, t);
    }
  }

  /** A generation that is not in the table's future is carried by no timer. */
  lemma FutureIsFree(w: World, g: nat)
    requires TimersFit(w) && HistoryFits(w) && g >= w.table.nextGeneration
    ensures Carriers(w.table.timers, g) == 0 && Carriers(w.batch, g) == 0 && Fires(w.log, g) == 0
  {
    forall t | t in w.table.timers || t in w.batch ensures t.generation != g {
      assert TimerFits(w, t);
    }
    CarriersNone(w.table.timers, g);
    CarriersNone(w.batch, g);
    FiresNone(w.log, g);
  }

  /** The world after a timer is added, given the list without the timers it replaces. */
  predicate AddsTo(w: World, kept: seq<Timer>, t: Timer, v: World) {
    && t.generation == w.table.nextGeneration && t.id != 0 && t.repeat > 0
    && v.table.timers == kept + [t]
    && v.table.generations == w.table.generations[t.id := t.generation]
    && v.table.nextGeneration == w.table.nextGeneration + 1
    && v.batch == w.batch && v.firing == w.firing && v.batchTime == w.batchTime && v.now == w.now && v.log == w.log
    && v.origin == w.origin[t.generation := t]
    && v.dropped == w.dropped + CurrentOf(w.table, t.id)
  }

  lemma AddCases(w: World, when: int, interval: int, repeat: uint32, id: nat) returns (kept: seq<Timer>, t: Timer)
    requires repeat > 0
    ensures AddsTo(w, kept, t, Next(w, AddTimer(when, interval, repeat, id)))
    ensures forall x | x in kept :: x in w.table.timers
    ensures forall x | x in w.table.timers && x !in kept :: x.id == t.id
    ensures forall g :: Carriers(kept, g) <= Carriers(w.table.timers, g)
  {
    var r := Add(w.table, when, interval, repeat, id);
    t := Timer(r.id, w.table.nextGeneration, when, interval, repeat);
    WithoutKeeps(w.table.timers, id);
    kept := if id == 0 then w.table.timers else Without(w.table.timers, id);
  }

  lemma AddDistinct(w: World, kept: seq<Timer>, t: Timer, v: World)
    requires Distinct(w) && TimersFit(w) && HistoryFits(w) && AddsTo(w, kept, t, v)
    requires forall g :: Carriers(kept, g) <= Carriers(w.table.timers, g)
    ensures Distinct(v)
  {
    FutureIsFree(w, t.generation);
    forall g ensures Carriers(v.table.timers, g) + Carriers(v.batch, g) <= 1 {
      CarriersSnoc(kept, t, g);
      assert Carriers(kept, g) <= Carriers(w.table.timers, g);
      assert Carriers(w.table.timers, g) + Carriers(w.batch, g) <= 1;
    }
  }

  lemma AddMap(w: World, kept: seq<Timer>, t: Timer, v: World)
    requires MapFits(w) && AddsTo(w, kept, t, v)
    requires forall x | x in w.table.timers && x !in kept :: x.id == t.id
    ensures MapFits(v)
  {
    forall id | id in v.table.generations
      ensures id != 0 && (Carries(v.table.timers, id, v.table.generations[id])
              || Carries(v.batch, id, v.table.generations[id])) {
      var g := v.table.generations[id];
      if id == t.id {
        assert t in v.table.timers;
      } else {
        assert id in w.table.generations && w.table.generations[id] == g;
        if Carries(w.table.timers, id, g) {
          var x :| x in w.table.timers && x.id == id && x.generation == g;
          assert x in v.table.timers;
        }
      }
    }
  }

  lemma AddTimers(w: World, kept: seq<Timer>, t: Timer, v: World)
    requires TimersFit(w) && HistoryFits(w) && AddsTo(w, kept, t, v)
    requires forall x | x in kept :: x in w.table.timers
    ensures TimersFit(v)
  {
    FutureIsFree(w, t.generation);
    hide Carriers, Fires;
    assert w.batch != [] ==> w.batch[0] in w.batch && TimerFits(w, w.batch[0]);
    forall x | x in v.table.timers || x in v.batch ensures TimerFits(v, x) {
      if x != t {
        assert TimerFits(w, x);
        assert Spent(v, x.generation) == Spent(w, x.generation);
      } else {
        assert Spent(v, t.generation) == 0;
      }
    }
  }

  lemma AddHistory(w: World, kept: seq<Timer>, t: Timer, v: World)
    requires MapFits(w) && TimersFit(w) && HistoryFits(w) && Bounded(w) && Complete(w) && AddsTo(w, kept, t, v)
    ensures HistoryFits(v) && Bounded(v) && Complete(v)
  {
    FutureIsFree(w, t.generation);
    hide Carriers, Fires, TimersFit, MapFits, Carries;
  }

  lemma AddLive(w: World, kept: seq<Timer>, t: Timer, v: World)
    requires Live(w) && AddsTo(w, kept, t, v)
    requires forall x | x in kept :: x in w.table.timers
    ensures Live(v)
  {
    forall x | x in v.table.timers || x in v.batch ensures LiveOrDropped(v, x) {
      if x != t {
        assert LiveOrDropped(w, x);
      }
    }
  }

  lemma AddKeeps(w: World, when: int, interval: int, repeat: uint32, id: nat)
    requires Invariant(w) && repeat > 0
    ensures Invariant(Next(w, AddTimer(when, interval, repeat, id)))
  {
    hide Distinct, MapFits, TimersFit, HistoryFits, Bounded, Complete, Live, Next, AddsTo;
    var kept, t := AddCases(w, when, interval, repeat, id);
    var v := Next(w, AddTimer(when, interval, repeat, id));
    AddDistinct(w, kept, t, v);
    AddMap(w, kept, t, v);
    AddTimers(w, kept, t, v);
    AddHistory(w, kept, t, v);
    AddLive(w, kept, t, v);
  }

  lemma CancelKeeps(w: World, id: nat)
    requires Invariant(w)
    ensures Invariant(Next(w, Cancel(id)))
  {
    hide Carriers, Fires, Rounds, Carries;
    var v := Next(w, Cancel(id));
    forall t | t in v.table.timers || t in v.batch ensures TimerFits(v, t) && LiveOrDropped(v, t) {
      assert TimerFits(w, t) && LiveOrDropped(w, t);
    }
  }

  lemma FireTimers(w: World, v: World)
    requires TimersFit(w) && HistoryFits(w) && w.batch != [] && !w.firing && v == Next(w, Fire)
    ensures TimersFit(v)
  {
    forall t | t in v.table.timers || t in v.batch ensures TimerFits(v, t) {
      assert TimerFits(w, t);
      FiresSnoc(w.log, Firing(w.batch[0].generation, w.batch[0].when, w.now), t.generation);
    }
  }

  /** A timer that is about to fire has a round left. */
  lemma RoundLeft(w: World, t: Timer)
    requires TimerFits(w, t) && !w.firing
    ensures Rounds(w.origin[t.generation]).Some? ==> Fires(w.log, t.generation) < Rounds(w.origin[t.generation]).value
  {
    hide Fires;
  }

  lemma FireCounts(w: World, g: nat)
    requires w.batch != [] && !w.firing
    ensures Fires(Next(w, Fire).log, g) == Fires(w.log, g) + if w.batch[0].generation == g then 1 else 0
  {
    FiresSnoc(w.log, Firing(w.batch[0].generation, w.batch[0].when, w.now), g);
  }

  lemma FireBounds(w: World)
    requires TimersFit(w) && Bounded(w) && Complete(w) && w.batch != [] && !w.firing
    ensures Bounded(Next(w, Fire)) && Complete(Next(w, Fire))
  {
    var head := w.batch[0];
    assert head in w.batch && TimerFits(w, head);
    RoundLeft(w, head);
    var v := Next(w, Fire);
    assert v.origin == w.origin && v.dropped == w.dropped && v.table == w.table;
    forall g | g in w.origin
      ensures Fires(v.log, g) == Fires(w.log, g) + if head.generation == g then 1 else 0 {
      FireCounts(w, g);
    }
    hide TimersFit, TimerFits, Rounds, Fires, Next;
  }

  lemma FireHistory(w: World, v: World)
    requires TimersFit(w) && HistoryFits(w) && Bounded(w) && Complete(w) && w.batch != [] && !w.firing
             && v == Next(w, Fire)
    ensures HistoryFits(v) && Bounded(v) && Complete(v)
  {
    FireBounds(w);
    assert w.batch[0] in w.batch && TimerFits(w, w.batch[0]);
    hide Bounded, Complete, Rounds, Fires;
  }

  lemma FireKeeps(w: World)
    requires Invariant(w) && w.batch != [] && !w.firing
    ensures Invariant(Next(w, Fire))
  {
    FireTimers(w, Next(w, Fire));
    FireHistory(w, Next(w, Fire));
    hide Fires, Carriers, TimersFit, HistoryFits, Bounded, Complete;
    forall t | t in w.table.timers || t in w.batch ensures LiveOrDropped(Next(w, Fire), t) {
      assert LiveOrDropped(w, t);
    }
  }

  /** The timer of the batch whose callback has returned. */
  lemma SettleDistinct(w: World, v: World)
    requires Distinct(w) && w.batch != [] && w.firing && v == Next(w, SettleHead)
    ensures Distinct(v)
    ensures Carriers(w.table.timers, w.batch[0].generation) == 0 && Carriers(w.batch[1..], w.batch[0].generation) == 0
  {
    var head := w.batch[0];
    CarriersTail(w.batch, head.generation);
    assert Carriers(w.table.timers, head.generation) + Carriers(w.batch, head.generation) <= 1;
    forall g ensures Carriers(v.table.timers, g) + Carriers(v.batch, g) <= 1 {
      CarriersTail(w.batch, g);
      assert Carriers(w.table.timers, g) + Carriers(w.batch, g) <= 1;
      if v.table.timers != w.table.timers {
        CarriersSnoc(w.table.timers, v.table.timers[|w.table.timers|], g);
      }
    }
  }

  lemma OthersCarry(w: World, head: Timer, id: nat, g: nat)
    requires w.batch != [] && head == w.batch[0] && g != head.generation
    requires Carries(w.table.timers, id, g) || Carries(w.batch, id, g)
    ensures Carries(w.table.timers, id, g) || Carries(w.batch[1..], id, g)
  {
    if Carries(w.batch, id, g) {
      var t :| t in w.batch && t.id == id && t.generation == g;
      assert t in w.batch[1..];
    }
  }

  lemma CarryOn(timers: seq<Timer>, t: Timer, id: nat, g: nat)
    ensures Carries(timers, id, g) || (t.id == id && t.generation == g) ==> Carries(timers + [t], id, g)
  {
    if Carries(timers, id, g) {
      var x :| x in timers && x.id == id && x.generation == g;
      assert x in timers + [t];
    }
    assert t in timers + [t];
  }

  lemma SettleMap(w: World, v: World)
    requires Distinct(w) && MapFits(w) && w.batch != [] && w.firing && v == Next(w, SettleHead)
    ensures MapFits(v)
  {
    hide Carriers, Carries, Distinct;
    var head := w.batch[0];
    var again := head.(when := w.now + head.interval,
      repeat := if head.repeat == INFINITE || head.repeat == 0 then head.repeat else head.repeat - 1);
    forall id | id in v.table.generations
      ensures id != 0 && (Carries(v.table.timers, id, v.table.generations[id])
              || Carries(v.batch, id, v.table.generations[id])) {
      var g := v.table.generations[id];
      assert id in w.table.generations && w.table.generations[id] == g;
      CarryOn(w.table.timers, again, id, g);
      if g != head.generation {
        OthersCarry(w, head, id, g);
      } else {
        HeadOnly(w, id, g);
      }
    }
  }

  /** Only the head of the batch carries its generation, so a map entry with it is for the head's identifier. */
  lemma HeadOnly(w: World, id: nat, g: nat)
    requires Distinct(w) && w.batch != [] && w.batch[0].generation == g
    requires Carries(w.table.timers, id, g) || Carries(w.batch, id, g)
    ensures id == w.batch[0].id
  {
    assert Carriers(w.table.timers, g) + Carriers(w.batch, g) <= 1;
    CarriersTail(w.batch, g);
    if Carries(w.table.timers, id, g) {
      var t :| t in w.table.timers && t.id == id && t.generation == g;
      CarriersIn(w.table.timers, t);
    }
    var t :| t in w.batch && t.id == id && t.generation == g;
    if t != w.batch[0] {
      assert t in w.batch[1..];
      CarriersIn(w.batch[1..], t);
    }
  }

  lemma SettleTimers(w: World, v: World)
    requires Distinct(w) && TimersFit(w) && HistoryFits(w) && w.batch != [] && w.firing && v == Next(w, SettleHead)
    ensures TimersFit(v)
  {
    SettleDistinct(w, v);
    var head := w.batch[0];
    assert TimerFits(w, head);
    forall t | t in w.table.timers || t in w.batch[1..] ensures TimerFits(v, t) {
      assert TimerFits(w, t);
      if t in w.table.timers {
        if t.generation == head.generation {
          CarriersIn(w.table.timers, t);
        }
      } else if t.generation == head.generation {
        CarriersIn(w.batch[1..], t);
      }
      SpentByOthers(w, v, t.generation);
    }
    hide Carriers, Fires, Distinct, HistoryFits;
    assert Spent(v, head.generation) == Spent(w, head.generation) + 1 by { SpentByHead(w, v); }
  }

  lemma SpentByOthers(w: World, v: World, g: nat)
    requires Distinct(w) && w.batch != [] && w.firing && v == Next(w, SettleHead) && g != w.batch[0].generation
    ensures Spent(v, g) == Spent(w, g)
  {
  }

  lemma SpentByHead(w: World, v: World)
    requires w.batch != [] && w.firing && v == Next(w, SettleHead)
    ensures Spent(v, w.batch[0].generation) == Spent(w, w.batch[0].generation) + 1
  {
  }

  lemma SettleHistory(w: World, v: World)
    requires Distinct(w) && MapFits(w) && TimersFit(w) && HistoryFits(w) && Bounded(w) && Complete(w)
    requires w.batch != [] && w.firing && v == Next(w, SettleHead)
    ensures HistoryFits(v) && Bounded(v) && Complete(v)
  {
    var head := w.batch[0];
    assert head in w.batch && TimerFits(w, head);
    hide Fires, Carriers, Carries, Distinct, TimersFit, MapFits;
  }

  lemma SettleLive(w: World, v: World)
    requires Distinct(w) && Live(w) && w.batch != [] && w.firing && v == Next(w, SettleHead)
    ensures Live(v)
  {
    SettleDistinct(w, v);
    hide Carriers, Distinct, Fires;
    var head := w.batch[0];
    forall t | t in w.table.timers || t in w.batch[1..] ensures LiveOrDropped(v, t) {
      assert LiveOrDropped(w, t);
      if t in w.table.timers {
        CarriersIn(w.table.timers, t);
      } else {
        CarriersIn(w.batch[1..], t);
      }
      assert t.generation != head.generation;
    }
  }

  lemma SettleKeeps(w: World)
    requires Invariant(w) && w.batch != [] && w.firing
    ensures Invariant(Next(w, SettleHead))
  {
    hide Distinct, MapFits, TimersFit, HistoryFits, Bounded, Complete, Live, Next;
    var v := Next(w, SettleHead);
    SettleLive(w, v);
    SettleDistinct(w, v);
    SettleMap(w, v);
    SettleTimers(w, v);
    SettleHistory(w, v);
  }

  lemma TickKeeps(w: World, elapsed: nat)
    requires Invariant(w)
    ensures Invariant(Next(w, Tick(elapsed)))
  {
    hide Carriers, Fires, Rounds, Carries;
    var v := Next(w, Tick(elapsed));
    forall t | t in v.table.timers || t in v.batch ensures TimerFits(v, t) && LiveOrDropped(v, t) {
      assert TimerFits(w, t) && LiveOrDropped(w, t);
    }
  }

  lemma StepKeeps(w: World, e: Event)
    requires Invariant(w)
    ensures Invariant(Next(w, e))
  {
    hide Invariant;
    match e
    case AddTimer(when, interval, repeat, id) => if repeat > 0 { AddKeeps(w, when, interval, repeat, id); }
    case Cancel(id) => CancelKeeps(w, id);
    case Collect => if w.batch == [] { CollectKeeps(w); }
    case Fire => if w.batch != [] && !w.firing { FireKeeps(w); }
    case SettleHead => if w.batch != [] && w.firing { SettleKeeps(w); }
    case Tick(elapsed) => TickKeeps(w, elapsed);
  }

  lemma {:induction false} RunKeeps(w: World, events: seq<Event>)
    requires Invariant(w)
    ensures Invariant(Run(w, events))
    decreases |events|
  {
    hide Invariant, Next;
    if events != [] {
      StepKeeps(w, events[0]);
      RunKeeps(Next(w, events[0]), events[1..]);
    }
  }

  lemma Reached(now: int, events: seq<Event>)
    ensures Invariant(Run(Start(now), events))
  {
    hide Run;
    RunKeeps(Start(now), events);
  }

  /**
   * The generation map matches the timers: an identifier is mapped to a generation exactly while one
   * timer, in the list or in the batch, carries both as the current one, and never two.
   */
  lemma MapMatchesTimers(now: int, events: seq<Event>, id: nat, g: nat)
    ensures var w := Run(Start(now), events);
            && Carriers(w.table.timers, g) + Carriers(w.batch, g) <= 1
            && (id in w.table.generations && w.table.generations[id] == g ==>
                  Carriers(w.table.timers, g) + Carriers(w.batch, g) == 1
                  && (Carries(w.table.timers, id, g) || Carries(w.batch, id, g)))
            && (Carries(w.table.timers, id, g) || Carries(w.batch, id, g) ==>
                  (id in w.table.generations && w.table.generations[id] == g) || g in w.dropped)
  {
    var w := Run(Start(now), events);
    Reached(now, events);
    hide Run;
    MapFacts(w, id, g);
  }

  lemma MapFacts(w: World, id: nat, g: nat)
    requires Invariant(w)
    ensures Carriers(w.table.timers, g) + Carriers(w.batch, g) <= 1
    ensures id in w.table.generations && w.table.generations[id] == g ==>
              Carriers(w.table.timers, g) + Carriers(w.batch, g) == 1
              && (Carries(w.table.timers, id, g) || Carries(w.batch, id, g))
    ensures Carries(w.table.timers, id, g) || Carries(w.batch, id, g) ==>
              (id in w.table.generations && w.table.generations[id] == g) || g in w.dropped
  {
    hide Bounded;
    assert Carriers(w.table.timers, g) + Carriers(w.batch, g) <= 1;
    if Carries(w.table.timers, id, g) {
      var t :| t in w.table.timers && t.id == id && t.generation == g;
      CarriersIn(w.table.timers, t);
      assert LiveOrDropped(w, t);
    }
    if Carries(w.batch, id, g) {
      var t :| t in w.batch && t.id == id && t.generation == g;
      CarriersIn(w.batch, t);
      assert LiveOrDropped(w, t);
    }
  }

  /** No callback runs before the deadline of its timer. */
  lemma NeverEarly(now: int, events: seq<Event>)
    ensures forall f | f in Run(Start(now), events).log :: f.when <= f.at
  {
    Reached(now, events);
    hide Run, Distinct, MapFits, TimersFit, Bounded, Complete, Live;
  }

  /**
   * A timer added with a nonzero interval and a finite repeat n fires at most n times; once no timer
   * carries it any more, and it was neither cancelled nor replaced, it has fired exactly n times.
   */
  lemma FiresAsOften(now: int, events: seq<Event>, g: nat)
    requires g in Run(Start(now), events).origin
    ensures var w := Run(Start(now), events);
            var o := w.origin[g];
            && (o.interval != 0 && o.repeat != INFINITE ==> Fires(w.log, g) <= o.repeat)
            && (o.interval == 0 ==> Fires(w.log, g) <= 1)
            && (g !in w.dropped && Carriers(w.table.timers, g) + Carriers(w.batch, g) == 0 ==>
                  if o.interval == 0 then Fires(w.log, g) == 1
                  else o.repeat != INFINITE && Fires(w.log, g) == o.repeat)
  {
    var w := Run(Start(now), events);
    Reached(now, events);
    hide Run;
    CountFacts(w, g);
  }

  lemma CountFacts(w: World, g: nat)
    requires Invariant(w) && g in w.origin
    ensures var r := Rounds(w.origin[g]);
            && (r.Some? ==> Fires(w.log, g) <= r.value)
            && (g !in w.dropped && Carriers(w.table.timers, g) + Carriers(w.batch, g) == 0 ==>
               r == Some(Fires(w.log, g)))
  {
    var o := w.origin[g];
    if o.id in w.table.generations && w.table.generations[o.id] == g {
      MapFacts(w, o.id, g);
    }
    hide TimersFit, MapFits, Distinct, HistoryFits, Live, Carriers, Fires;
  }

  /** Two identifiers are never mapped to the same generation. */
  lemma OneHolder(w: World, id: nat, g: nat)
    requires Invariant(w) && id in w.table.generations && w.table.generations[id] == g
    ensures forall other | other in w.table.generations && other != id :: w.table.generations[other] != g
  {
    hide Distinct, Bounded, Complete, Fires, Carriers;
    forall other | other in w.table.generations && w.table.generations[other] == g ensures other == id {
      SameOrigin(w, id, g);
      SameOrigin(w, other, g);
    }
  }

  lemma SameOrigin(w: World, id: nat, g: nat)
    requires MapFits(w) && TimersFit(w) && id in w.table.generations && w.table.generations[id] == g
    ensures g in w.origin && w.origin[g].id == id
  {
    if Carries(w.table.timers, id, g) {
      var t :| t in w.table.timers && t.id == id && t.generation == g;
      assert TimerFits(w, t);
    } else {
      var t :| t in w.batch && t.id == id && t.generation == g;
      assert TimerFits(w, t);
    }
  }
}
