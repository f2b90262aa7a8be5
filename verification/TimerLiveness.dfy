/**
 * A timer fires as often as it should, as long as nobody cancels or replaces it: whatever else is
 * added, replaced or cancelled meanwhile, by callbacks or other threads.
 */
module TimerLiveness {
  import opened Bytes
  import opened EventLoopTimers
  import opened TimerProtocol
  import opened TimerOutcomes

  /** One turn of the loop: what happens before the batch is collected, and until it is worked through. */
  datatype Turn = Turn(before: seq<Event>, after: seq<Event>)

  function Took(w: World, turn: Turn): World { Run(Next(Run(w, turn.before), Collect), turn.after) }

  function TookAll(w: World, turns: seq<Turn>): World
    decreases |turns|
  {
    if turns == [] then w else TookAll(Took(w, turns[0]), turns[1..])
  }

  /** The batch is collected late enough for the timer, is worked through, and the timer is not taken away. */
  predicate LongEnough(w: World, turn: Turn, g: nat, within: nat) {
    var u, v := Run(w, turn.before), Took(w, turn);
    u.batch == [] && u.now >= w.now + within && v.batch == [] && g !in v.dropped
  }

  predicate AllLongEnough(w: World, turns: seq<Turn>, g: nat, within: nat)
    decreases |turns|
  {
    turns != [] ==> LongEnough(w, turns[0], g, within) && AllLongEnough(Took(w, turns[0]), turns[1..], g, within)
  }

  function Collections(events: seq<Event>): nat {
    if events == [] then 0 else (if events[0].Collect? then 1 else 0) + Collections(events[1..])
  }

  function CollectionsIn(turns: seq<Turn>): nat {
    if turns == [] then 0
    else Collections(turns[0].before) + 1 + Collections(turns[0].after) + CollectionsIn(turns[1..])
  }

  /** A timer is current and armed, to be due within the given time. */
  predicate Armed(w: World, g: nat, within: nat) {
    exists t | t in w.table.timers ::
      t.generation == g && IsCurrent(w.table.generations, t) && t.when <= w.now + within && t.interval <= within
  }

  /** The timer is gone after as many firings as it was added for. */
  predicate Served(w: World, g: nat) { g in w.origin && Rounds(w.origin[g]) == Some(Fires(w.log, g)) }

  /** Wherever the timer is, it is due within the given time, now or once it is armed again. */
  predicate Near(w: World, g: nat, within: nat) {
    && g < w.table.nextGeneration
    && (forall t | t in w.table.timers && t.generation == g :: t.when <= w.now + within && t.interval <= within)
    && (forall t | t in w.batch && t.generation == g :: t.interval <= within)
  }

  lemma NearStays(w: World, e: Event, g: nat, within: nat)
    requires Near(w, g, within)
    ensures Near(Next(w, e), g, within)
  {
    match e
    case AddTimer(when, interval, repeat, id) =>
      WithoutKeeps(w.table.timers, id);
      hide Without, FreeId;
    case Collect =>
      SelectMembers(w.table.generations, w.table.timers, w.now, true);
      SelectMembers(w.table.generations, w.table.timers, w.now, false);
      hide Select;
    case _ =>
  }

  lemma {:induction false} NearForLong(w: World, events: seq<Event>, g: nat, within: nat)
    requires Near(w, g, within)
    ensures Near(Run(w, events), g, within)
    decreases |events|
  {
    hide Near, Next;
    if events != [] {
      NearStays(w, events[0], g, within);
      NearForLong(Next(w, events[0]), events[1..], g, within);
    }
  }

  /** There is one carrier at most, so an armed timer is near. */
  lemma ArmedIsNear(w: World, g: nat, within: nat)
    requires Invariant(w) && w.batch == [] && Armed(w, g, within)
    ensures Near(w, g, within) && g in w.origin
  {
    hide Bounded, Complete, Live, MapFits, Fires;
    var t :| t in w.table.timers && t.generation == g && t.when <= w.now + within && t.interval <= within;
    assert Carriers(w.table.timers, g) + Carriers(w.batch, g) <= 1 && TimerFits(w, t);
    forall x | x in w.table.timers && x.generation == g ensures x == t {
      OneCarrier(w.table.timers, t, x);
    }
  }

  lemma {:induction false} OneCarrier(timers: seq<Timer>, t: Timer, x: Timer)
    requires t in timers && x in timers && t.generation == x.generation && Carriers(timers, t.generation) <= 1
    ensures t == x
    decreases |timers|
  {
    var init, last := timers[..|timers| - 1], timers[|timers| - 1];
    assert timers == init + [last];
    if t in init && x in init {
      OneCarrier(init, t, x);
    } else if t in init {
      CarriersIn(init, t);
    } else if x in init {
      CarriersIn(init, x);
    }
  }

  lemma DroppedGrows(w: World, e: Event)
    ensures w.dropped <= Next(w, e).dropped
  {
    hide Add, Settle, Select;
  }

  lemma {:induction false} DroppedStay(w: World, events: seq<Event>)
    ensures w.dropped <= Run(w, events).dropped
    decreases |events|
  {
    hide Next;
    if events != [] {
      DroppedGrows(w, events[0]);
      DroppedStay(Next(w, events[0]), events[1..]);
    }
  }

  /** What is due only grows, and by one for each collection at most. */
  lemma DueGrows(w: World, e: Event, g: nat)
    requires Invariant(w)
    ensures Due(w, g) <= Due(Next(w, e), g) <= Due(w, g) + if e.Collect? then 1 else 0
  {
    match e
    case Fire => BatchConserves(w, e, g);
    case SettleHead => BatchConserves(w, e, g);
    case Collect =>
      StepKeeps(w, e);
      WaitingOnce(Next(w, e), g);
      hide Select, Fires;
      assert Carriers([], g) == 0;
    case _ =>
      hide Add, Fires, Carriers;
  }

  lemma {:induction false} DueForLong(w: World, events: seq<Event>, g: nat)
    requires Invariant(w)
    ensures Due(w, g) <= Due(Run(w, events), g) <= Due(w, g) + Collections(events)
    decreases |events|
  {
    hide Invariant, Next, Due;
    if events != [] {
      DueGrows(w, events[0], g);
      StepKeeps(w, events[0]);
      DueForLong(Next(w, events[0]), events[1..], g);
    }
  }

  /** Until it is due, an armed timer stays in the list as it is. */
  predicate Held(w: World, t: Timer, before: nat) { t in w.table.timers || Due(w, t.generation) > before }

  lemma HeldStays(w: World, e: Event, t: Timer, before: nat)
    requires Invariant(w) && Held(w, t, before) && Due(w, t.generation) >= before
    requires t.generation !in Next(w, e).dropped
    ensures Held(Next(w, e), t, before)
  {
    DueGrows(w, e, t.generation);
    DroppedGrows(w, e);
    if t in w.table.timers {
      assert LiveOrDropped(w, t);
      hide Invariant, Due;
      match e
      case AddTimer(when, interval, repeat, id) =>
        WithoutKeeps(w.table.timers, id);
        hide Without, FreeId;
      case Collect =>
        if w.batch == [] {
          CollectHolds(w, t, before);
        }
      case _ =>
    }
  }

  /** A collection leaves the timer in the list or makes it due. */
  lemma CollectHolds(w: World, t: Timer, before: nat)
    requires Invariant(w) && w.batch == [] && t in w.table.timers && IsCurrent(w.table.generations, t)
    requires Due(w, t.generation) >= before
    ensures Held(Next(w, Collect), t, before)
    ensures t.when <= w.now ==> Due(Next(w, Collect), t.generation) > before
  {
    var v := Next(w, Collect);
    SelectMembers(w.table.generations, w.table.timers, w.now, true);
    SelectMembers(w.table.generations, w.table.timers, w.now, false);
    assert !w.firing;
    hide Select, Fires, Invariant;
    if t in v.batch {
      CarriersIn(v.batch, t);
      assert Carriers([], t.generation) == 0;
    }
  }

  lemma {:induction false} HeldForLong(w: World, events: seq<Event>, t: Timer, before: nat)
    requires Invariant(w) && Held(w, t, before) && Due(w, t.generation) >= before
    requires t.generation !in Run(w, events).dropped
    ensures Held(Run(w, events), t, before)
    decreases |events|
  {
    hide Invariant, Next, Due, Held;
    if events != [] {
      DroppedStay(Next(w, events[0]), events[1..]);
      HeldStays(w, events[0], t, before);
      DueGrows(w, events[0], t.generation);
      StepKeeps(w, events[0]);
      HeldForLong(Next(w, events[0]), events[1..], t, before);
    }
  }

  /** A collection in time takes the timer, if it is not due already. */
  lemma CollectMakesDue(w: World, t: Timer, before: nat)
    requires Invariant(w) && w.batch == [] && Held(w, t, before) && Due(w, t.generation) >= before
    requires t.when <= w.now && t.generation !in w.dropped
    ensures Due(Next(w, Collect), t.generation) > before
  {
    DueGrows(w, Collect, t.generation);
    if t in w.table.timers {
      assert LiveOrDropped(w, t);
      hide Invariant, Due;
      CollectHolds(w, t, before);
    }
  }

  lemma IdleDue(w: World, g: nat)
    requires w.batch == []
    ensures Due(w, g) == Fires(w.log, g)
  {
    hide Fires;
  }

  lemma OriginStays(w: World, e: Event, g: nat)
    requires g in w.origin && g < w.table.nextGeneration
    ensures var v := Next(w, e); g in v.origin && v.origin[g] == w.origin[g] && g < v.table.nextGeneration
  {
    hide Select, FreeId, Without;
  }

  lemma {:induction false} OriginKept(w: World, events: seq<Event>, g: nat)
    requires g in w.origin && g < w.table.nextGeneration
    ensures var v := Run(w, events); g in v.origin && v.origin[g] == w.origin[g] && g < v.table.nextGeneration
    decreases |events|
  {
    hide Next;
    if events != [] {
      OriginStays(w, events[0], g);
      OriginKept(Next(w, events[0]), events[1..], g);
    }
  }

  /** Between two batches a near timer is armed, unless it is served. */
  lemma NearIsArmed(w: World, g: nat, within: nat)
    requires Invariant(w) && w.batch == [] && g in w.origin && g !in w.dropped && Near(w, g, within)
    ensures Armed(w, g, within) || Served(w, g)
  {
    hide Distinct, HistoryFits, Bounded, Live, TimersFit, Fires, Carriers, Rounds;
    var o := w.origin[g];
    if o.id in w.table.generations && w.table.generations[o.id] == g {
      assert Carries(w.table.timers, o.id, g) || Carries(w.batch, o.id, g);
      var t :| t in w.table.timers && t.id == o.id && t.generation == g;
    }
  }

  /** What a turn keeps, and how often the timer fires in it at most. */
  lemma TurnKeeps(w: World, turn: Turn, g: nat)
    requires Invariant(w) && w.batch == [] && g in w.origin && Took(w, turn).batch == []
    ensures var v := Took(w, turn);
            && Invariant(v) && g in v.origin && v.origin[g] == w.origin[g]
            && Fires(w.log, g) <= Fires(v.log, g)
                <= Fires(w.log, g) + Collections(turn.before) + 1 + Collections(turn.after)
  {
    var u := Run(w, turn.before);
    var c := Next(u, Collect);
    assert g < w.table.nextGeneration;
    IdleDue(w, g);
    IdleDue(Took(w, turn), g);
    hide Run, Next, Due, Invariant, Fires, Collections;
    OriginKept(w, turn.before, g);
    OriginStays(u, Collect, g);
    OriginKept(c, turn.after, g);
    RunKeeps(w, turn.before);
    StepKeeps(u, Collect);
    RunKeeps(c, turn.after);
    DueForLong(w, turn.before, g);
    DueGrows(u, Collect, g);
    DueForLong(c, turn.after, g);
  }

  /** A turn that is long enough fires the timer. */
  lemma TurnFires(w: World, turn: Turn, t: Timer, g: nat, within: nat)
    requires Invariant(w) && w.batch == [] && LongEnough(w, turn, g, within)
    requires t in w.table.timers && t.generation == g && t.when <= w.now + within
    ensures Fires(w.log, g) < Fires(Took(w, turn).log, g)
  {
    var f := Fires(w.log, g);
    var u := Run(w, turn.before);
    var c := Next(u, Collect);
    IdleDue(w, g);
    IdleDue(Took(w, turn), g);
    hide Run, Next, Due, Invariant, Fires;
    RunKeeps(w, turn.before);
    StepKeeps(u, Collect);
    DroppedStay(c, turn.after);
    DroppedGrows(u, Collect);
    HeldForLong(w, turn.before, t, f);
    DueForLong(w, turn.before, g);
    CollectMakesDue(u, t, f);
    DueForLong(c, turn.after, g);
  }

  /** It leaves the timer armed again, unless it is served. */
  lemma TurnRearms(w: World, turn: Turn, g: nat, within: nat)
    requires Invariant(w) && w.batch == [] && Armed(w, g, within) && LongEnough(w, turn, g, within)
    ensures Armed(Took(w, turn), g, within) || Served(Took(w, turn), g)
  {
    var u := Run(w, turn.before);
    var c := Next(u, Collect);
    hide Run, Next, Armed, Near, Invariant, Fires;
    ArmedIsNear(w, g, within);
    NearForLong(w, turn.before, g, within);
    NearStays(u, Collect, g, within);
    NearForLong(c, turn.after, g, within);
    TurnKeeps(w, turn, g);
    NearIsArmed(Took(w, turn), g, within);
  }

  lemma OneTurn(w: World, turn: Turn, g: nat, within: nat)
    requires Invariant(w) && w.batch == [] && Armed(w, g, within) && LongEnough(w, turn, g, within)
    ensures var v := Took(w, turn);
            && Invariant(v) && v.batch == [] && g in v.origin && g in w.origin && v.origin[g] == w.origin[g]
            && Fires(w.log, g) < Fires(v.log, g)
            && (Armed(v, g, within) || Served(v, g))
  {
    var t :| t in w.table.timers && t.generation == g && t.when <= w.now + within;
    hide Run, Next, Near, Invariant, Fires, Rounds, IsCurrent;
    ArmedIsNear(w, g, within);
    TurnFires(w, turn, t, g, within);
    TurnRearms(w, turn, g, within);
    TurnKeeps(w, turn, g);
  }

  /** A served timer stays served, whatever happens. */
  lemma {:induction false} ServedStays(w: World, turns: seq<Turn>, g: nat, within: nat)
    requires Invariant(w) && w.batch == [] && Served(w, g) && AllLongEnough(w, turns, g, within)
    ensures var v := TookAll(w, turns); Invariant(v) && v.batch == [] && Served(v, g) && v.origin[g] == w.origin[g]
    decreases |turns|
  {
    hide Took, Invariant, Fires, Collections;
    if turns != [] {
      var v := Took(w, turns[0]);
      EndsIdle(w, turns[0], g, within);
      TurnKeeps(w, turns[0], g);
      CountFacts(v, g);
      hide LongEnough;
      ServedStays(v, turns[1..], g, within);
    }
  }

  lemma EndsIdle(w: World, turn: Turn, g: nat, within: nat)
    requires LongEnough(w, turn, g, within)
    ensures Took(w, turn).batch == []
  {
  }

  /** Turns that are long enough fire an armed timer in each, until it has had all its rounds. */
  lemma {:induction false} TurnsFire(w: World, turns: seq<Turn>, g: nat, within: nat)
    requires Invariant(w) && w.batch == [] && Armed(w, g, within) && AllLongEnough(w, turns, g, within)
    ensures var v := TookAll(w, turns);
            && Invariant(v) && v.batch == [] && g in w.origin && g in v.origin && v.origin[g] == w.origin[g]
            && (Fires(w.log, g) + |turns| <= Fires(v.log, g) || Served(v, g))
    decreases |turns|
  {
    hide Took, Invariant, Fires, Armed, LongEnough, Near;
    if turns == [] {
      ArmedIsNear(w, g, within);
    } else {
      var v := Took(w, turns[0]);
      OneTurn(w, turns[0], g, within);
      if Armed(v, g, within) {
        TurnsFire(v, turns[1..], g, within);
      } else {
        ServedStays(v, turns[1..], g, within);
      }
    }
  }

  /** No timer fires more often than batches are collected. */
  lemma {:induction false} TurnsBound(w: World, turns: seq<Turn>, g: nat, within: nat)
    requires Invariant(w) && w.batch == [] && g in w.origin && AllLongEnough(w, turns, g, within)
    ensures Fires(TookAll(w, turns).log, g) <= Fires(w.log, g) + CollectionsIn(turns)
    decreases |turns|
  {
    hide Took, Invariant, Fires, Collections;
    if turns != [] {
      EndsIdle(w, turns[0], g, within);
      TurnKeeps(w, turns[0], g);
      hide LongEnough;
      TurnsBound(Took(w, turns[0]), turns[1..], g, within);
    }
  }

  /** Between two batches a timer that was neither cancelled nor replaced is armed, unless it is served. */
  lemma ArmedOrServed(now: int, events: seq<Event>, g: nat) returns (within: nat)
    requires var w := Run(Start(now), events); w.batch == [] && g in w.origin && g !in w.dropped
    ensures var w := Run(Start(now), events); Armed(w, g, within) || Served(w, g)
  {
    var w := Run(Start(now), events);
    Reached(now, events);
    hide Run, Distinct, HistoryFits, Bounded, Live, Fires, Carriers, Rounds;
    within := 0;
    var o := w.origin[g];
    if o.id in w.table.generations && w.table.generations[o.id] == g {
      assert Carries(w.table.timers, o.id, g) || Carries(w.batch, o.id, g);
      var t :| t in w.table.timers && t.id == o.id && t.generation == g;
      var long := if t.when - w.now >= t.interval then t.when - w.now else t.interval;
      within := if long >= 0 then long else 0;
    }
  }

  /**
   * A timer that is neither cancelled nor replaced does get its firings, whatever becomes of other
   * timers: from any reachable moment between two batches, turns of the loop that each wait as long
   * as the timer needs fire it at least once each, until it has had exactly the firings it was added
   * for; and never more often than batches are collected, so once if each turn collects only one.
   */
  lemma EveryTimerServed(now: int, events: seq<Event>, turns: seq<Turn>, g: nat, within: nat)
    requires var w := Run(Start(now), events);
             w.batch == [] && g in w.origin && Armed(w, g, within) && AllLongEnough(w, turns, g, within)
    ensures var w := Run(Start(now), events);
            var before, after := Fires(w.log, g), Fires(TookAll(w, turns).log, g);
            && after <= before + CollectionsIn(turns)
            && match Rounds(w.origin[g]) {
                 case None => before + |turns| <= after
                 case Some(n) => after <= n && (before + |turns| <= after || after == n)
               }
  {
    var w := Run(Start(now), events);
    Reached(now, events);
    hide Run, TookAll, AllLongEnough, CollectionsIn, Armed, Invariant, Fires, Rounds;
    TurnsFire(w, turns, g, within);
    TurnsBound(w, turns, g, within);
    CountFacts(TookAll(w, turns), g);
  }

  /** Such turns exist: the loop waits, collects, and works through the batch with callbacks that touch no timer. */
  function PlainTurn(w: World, wait: nat): Turn {
    var c := Next(Next(w, Tick(wait)), Collect);
    Turn([Tick(wait)], Work(|c.batch|))
  }

  lemma PlainTurnServes(w: World, g: nat, wait: nat, within: nat)
    requires Invariant(w) && w.batch == [] && g !in w.dropped && wait >= within
    ensures LongEnough(w, PlainTurn(w, wait), g, within) && CollectionsIn([PlainTurn(w, wait)]) == 1
  {
    var u := Next(w, Tick(wait));
    var c := Next(u, Collect);
    RunOne(w, Tick(wait));
    assert !w.firing && c.dropped == w.dropped;
    hide Run, Next, Select, Invariant;
    WorkEmpties(c, |c.batch|, g);
    WorkCollectsNone(|c.batch|);
    assert [PlainTurn(w, wait)][1..] == [];
  }

  lemma RunOne(w: World, e: Event)
    ensures Run(w, [e]) == Next(w, e)
    ensures e.Tick? ==> Collections([e]) == 0
  {
    hide Next;
    assert [e][1..] == [];
  }

  lemma {:induction false} WorkCollectsNone(n: nat)
    ensures Collections(Work(n)) == 0
    decreases n
  {
    if n > 0 {
      WorkCollectsNone(n - 1);
      assert Work(n)[1..] == [SettleHead] + Work(n - 1) && Work(n)[1..][1..] == Work(n - 1);
    }
  }
}
