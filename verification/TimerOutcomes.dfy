/** What becomes of a timer that is cancelled: how often it still fires. */
module TimerOutcomes {
  import opened EventLoopTimers
  import opened TimerProtocol

  /** The collected timers whose callback has not begun. */
  function Waiting(w: World): seq<Timer> { if w.firing && w.batch != [] then w.batch[1..] else w.batch }

  /** No identifier is mapped to the generation any more. */
  predicate Unmapped(w: World, g: nat) {
    g < w.table.nextGeneration && forall id | id in w.table.generations :: w.table.generations[id] != g
  }

  /** Firings so far and firings that can no longer be prevented. */
  function Due(w: World, g: nat): nat { Fires(w.log, g) + Carriers(Waiting(w), g) }

  lemma UnmappedStays(w: World, e: Event, g: nat)
    requires Unmapped(w, g)
    ensures Unmapped(Next(w, e), g)
  {
    hide FreeId, Without, Select;
  }

  /** Firing takes a timer out of the waiting ones and counts it; settling leaves both alone. */
  lemma BatchConserves(w: World, e: Event, g: nat)
    requires e.Fire? || e.SettleHead?
    ensures Due(Next(w, e), g) == Due(w, g)
  {
    if e.Fire? && w.batch != [] && !w.firing {
      FiresSnoc(w.log, Firing(w.batch[0].generation, w.batch[0].when, w.now), g);
      CarriersTail(w.batch, g);
    }
    hide Fires, Carriers, Settle;
  }

  lemma CollectsNone(w: World, g: nat)
    requires Unmapped(w, g) && w.batch == []
    ensures Carriers(Waiting(Next(w, Collect)), g) == 0
  {
    SelectMembers(w.table.generations, w.table.timers, w.now, true);
    hide Select, Carriers;
    var v := Next(w, Collect);
    assert forall t | t in Waiting(v) :: t in v.batch;
    CarriersNone(Waiting(v), g);
  }

  lemma UnmappedConserves(w: World, e: Event, g: nat)
    requires Unmapped(w, g)
    ensures Due(Next(w, e), g) == Due(w, g)
  {
    match e
    case Fire => BatchConserves(w, e, g);
    case SettleHead => BatchConserves(w, e, g);
    case Collect => if w.batch == [] { CollectsNone(w, g); }
    case _ => hide Fires, Carriers, Add;
  }

  /** Once unmapped, a timer fires as often as it waits in the batch, whatever is added or cancelled. */
  lemma {:induction false} DueStays(w: World, events: seq<Event>, g: nat)
    requires Unmapped(w, g)
    ensures Unmapped(Run(w, events), g) && Due(Run(w, events), g) == Due(w, g)
    decreases |events|
  {
    hide Unmapped, Next, Due;
    if events != [] {
      UnmappedStays(w, events[0], g);
      UnmappedConserves(w, events[0], g);
      DueStays(Next(w, events[0]), events[1..], g);
    }
  }

  /** A generation that is unmapped and not waiting; it may be the one whose callback is running. */
  predicate Dead(w: World, g: nat) { Unmapped(w, g) && Carriers(Waiting(w), g) == 0 }

  /**
   * A timer that is not current when a batch is collected never fires again, in that batch or later,
   * whatever is added or cancelled.
   */
  lemma DeadNeverFires(w: World, events: seq<Event>, g: nat)
    requires Dead(w, g)
    ensures Dead(Run(w, events), g) && Fires(Run(w, events).log, g) == Fires(w.log, g)
  {
    DueStays(w, events, g);
    FiresGrow(w, events, g);
  }

  /** The events with which run_due_timers works through n timers. */
  function Work(n: nat): seq<Event> { if n == 0 then [] else [Fire, SettleHead] + Work(n - 1) }

  lemma WorkOnce(w: World, n: nat)
    requires n > 0
    ensures Run(w, Work(n)) == Run(Next(Next(w, Fire), SettleHead), Work(n - 1))
  {
    hide Next;
    assert Work(n)[0] == Fire && Work(n)[1..] == [SettleHead] + Work(n - 1);
    var rest := [SettleHead] + Work(n - 1);
    assert rest[1..] == Work(n - 1);
    assert Run(Next(w, Fire), rest) == Run(Next(Next(w, Fire), SettleHead), rest[1..]);
  }

  /** The two steps of one timer. */
  lemma OneWorked(w: World, g: nat)
    requires !w.firing
    ensures var v := Next(Next(w, Fire), SettleHead);
            && !v.firing && v.now == w.now && v.dropped == w.dropped && Due(v, g) == Due(w, g)
            && |v.batch| == if w.batch == [] then 0 else |w.batch| - 1
  {
    BatchConserves(w, Fire, g);
    BatchConserves(Next(w, Fire), SettleHead, g);
    hide Due, Settle;
  }

  /** Working through the batch empties it, fires exactly what was waiting, and drops nothing. */
  lemma {:induction false} WorkEmpties(w: World, n: nat, g: nat)
    requires !w.firing && n >= |w.batch|
    ensures var v := Run(w, Work(n));
            v.batch == [] && !v.firing && v.now == w.now && v.dropped == w.dropped && Due(v, g) == Due(w, g)
    decreases n
  {
    if n == 0 {
      assert Run(w, Work(0)) == w;
    } else {
      WorkOnce(w, n);
      OneWorked(w, g);
      hide *;
      WorkEmpties(Next(Next(w, Fire), SettleHead), n - 1, g);
    }
  }

  /** The rest of the batch: the callback that runs, then the waiting ones. */
  function WorkThrough(w: World): seq<Event> { [SettleHead] + Work(|w.batch|) }

  lemma ThroughFires(w: World, g: nat)
    ensures Fires(Run(w, WorkThrough(w)).log, g) == Due(w, g)
  {
    BatchConserves(w, SettleHead, g);
    assert WorkThrough(w)[1..] == Work(|w.batch|);
    var v := Next(w, SettleHead);
    assert !v.firing || v.batch == [];
    IdleWork(w, g);
  }

  lemma IdleWork(w: World, g: nat)
    ensures Fires(Run(Next(w, SettleHead), Work(|w.batch|)).log, g) == Due(Next(w, SettleHead), g)
  {
    var v := Next(w, SettleHead);
    if v.firing {
      assert w.batch == [];
    } else {
      hide Due, Next, Run;
      WorkEmpties(v, |w.batch|, g);
    }
  }

  /** The world behind a cancellation. */
  lemma CancelUnmaps(w: World, id: nat)
    requires Invariant(w) && id in w.table.generations
    ensures var g, v := w.table.generations[id], Next(w, Cancel(id));
            Unmapped(v, g) && v.log == w.log && Waiting(v) == Waiting(w) && v.batch == w.batch
  {
    OneHolder(w, id, w.table.generations[id]);
    SameOrigin(w, id, w.table.generations[id]);
    hide Distinct, Bounded, Complete, Live, TimersFit, Fires, Carriers, Carries;
    assert id != 0;
  }

  lemma {:induction false} WaitingOnce(w: World, g: nat)
    requires Distinct(w)
    ensures Carriers(Waiting(w), g) <= 1
  {
    assert Carriers(w.table.timers, g) + Carriers(w.batch, g) <= 1;
    if w.batch != [] {
      CarriersTail(w.batch, g);
    }
  }

  lemma {:induction false} WaitsIff(timers: seq<Timer>, g: nat)
    ensures Carriers(timers, g) > 0 <==> exists t :: t in timers && t.generation == g
  {
    if forall t | t in timers :: t.generation != g {
      CarriersNone(timers, g);
    } else {
      var t :| t in timers && t.generation == g;
      CarriersIn(timers, t);
    }
  }

  /**
   * How often a timer still fires once it is cancelled, at any moment and from anywhere: never more
   * than it waits in the batch, which is once or not at all, and that once if the batch is worked through.
   */
  lemma CancelledFires(now: int, before: seq<Event>, id: nat, after: seq<Event>)
    requires id in Run(Start(now), before).table.generations
    ensures var w := Run(Start(now), before);
            var g, v := w.table.generations[id], Next(w, Cancel(id));
            && Carriers(Waiting(w), g) <= 1
            && Fires(w.log, g) <= Fires(Run(v, after).log, g) <= Fires(w.log, g) + Carriers(Waiting(w), g)
            && Fires(Run(v, WorkThrough(v)).log, g) == Fires(w.log, g) + Carriers(Waiting(w), g)
  {
    var w := Run(Start(now), before);
    Reached(now, before);
    var g, v := w.table.generations[id], Next(w, Cancel(id));
    hide Run, Next;
    CancelUnmaps(w, id);
    WaitingOnce(w, g);
    DueStays(v, after, g);
    FiresGrow(v, after, g);
    ThroughFires(v, g);
  }

  lemma {:induction false} FiresGrow(w: World, events: seq<Event>, g: nat)
    ensures Fires(w.log, g) <= Fires(Run(w, events).log, g)
    decreases |events|
  {
    if events != [] {
      if w.batch != [] {
        FiresSnoc(w.log, Firing(w.batch[0].generation, w.batch[0].when, w.now), g);
      }
      assert Fires(w.log, g) <= Fires(Next(w, events[0]).log, g) by { hide Add, Settle, Select, Fires; }
      hide Next, Fires;
      FiresGrow(Next(w, events[0]), events[1..], g);
    }
  }

  /**
   * Cancelling is final if and only if the timer is not waiting in a batch: in the list, or with its
   * own callback running, it never fires again; behind another callback of the batch it may.
   */
  lemma CancelledNeverFires(now: int, before: seq<Event>, id: nat)
    requires id in Run(Start(now), before).table.generations
    ensures var w := Run(Start(now), before);
            var g, v := w.table.generations[id], Next(w, Cancel(id));
            (forall after :: Fires(Run(v, after).log, g) == Fires(w.log, g)) <==>
              !exists t :: t in Waiting(w) && t.generation == g
  {
    var w := Run(Start(now), before);
    var g, v := w.table.generations[id], Next(w, Cancel(id));
    hide Run, Next, Waiting;
    WaitsIff(Waiting(w), g);
    forall after ensures Fires(w.log, g) <= Fires(Run(v, after).log, g) <= Fires(w.log, g) + Carriers(Waiting(w), g) {
      CancelledFires(now, before, id, after);
    }
    CancelledFires(now, before, id, []);
  }

  /** A cancelled timer that waits fires exactly once more when its batch is worked through, and then never again. */
  lemma CollectedFiresAnyway(now: int, before: seq<Event>, id: nat, after: seq<Event>)
    requires var w := Run(Start(now), before);
             id in w.table.generations && exists t :: t in Waiting(w) && t.generation == w.table.generations[id]
    ensures var w := Run(Start(now), before);
            var g, v := w.table.generations[id], Next(w, Cancel(id));
            var done := Run(v, WorkThrough(v));
            Fires(done.log, g) == Fires(w.log, g) + 1 && Fires(Run(done, after).log, g) == Fires(w.log, g) + 1
  {
    var w := Run(Start(now), before);
    var g, v := w.table.generations[id], Next(w, Cancel(id));
    var done := Run(v, WorkThrough(v));
    Reached(now, before);
    hide Run, Next, Waiting;
    WaitsIff(Waiting(w), g);
    CancelledFires(now, before, id, []);
    CancelUnmaps(w, id);
    DueStays(v, WorkThrough(v), g);
    DueStays(done, after, g);
    FiresGrow(done, after, g);
  }
}
