/** When timers are armed: as they were added first, and one interval after their callback returned from then on. */
module TimerSpacing {
  import opened EventLoopTimers
  import opened TimerProtocol

  /** When the last callback of each generation returned. */
  function Returned(w: World, e: Event, r: map<nat, int>): map<nat, int> {
    if e.SettleHead? && w.batch != [] && w.firing then r[w.batch[0].generation := w.now] else r
  }

  function Returns(w: World, events: seq<Event>, r: map<nat, int>): map<nat, int>
    decreases |events|
  {
    if events == [] then r else Returns(Next(w, events[0]), events[1..], Returned(w, events[0], r))
  }

  predicate DeadlineFits(w: World, r: map<nat, int>, t: Timer) {
    var g := t.generation;
    g in w.origin && t.when == if g in r then r[g] + w.origin[g].interval else w.origin[g].when
  }

  predicate Armed(w: World, r: map<nat, int>) {
    && (forall t | t in w.table.timers :: DeadlineFits(w, r, t))
    && (forall t | t in w.batch :: DeadlineFits(w, r, t))
  }

  /** The entry of the callback that is running. */
  predicate RunningEntry(w: World, k: nat) { w.firing && k == |w.log| - 1 }

  predicate Noted(w: World, r: map<nat, int>) {
    && (w.firing ==> w.log != [] && w.batch != [] && w.log[|w.log| - 1].generation == w.batch[0].generation)
    && (forall k | 0 <= k < |w.log| && !RunningEntry(w, k) ::
          w.log[k].generation in r && w.log[k].at <= r[w.log[k].generation])
    && (forall f | f in w.log :: f.at <= w.now)
    && (forall g | g in r :: exists f | f in w.log :: f.generation == g)
  }

  predicate Apart(w: World, i: nat, k: nat)
    requires i < k < |w.log|
  {
    w.log[i].generation == w.log[k].generation && w.log[i].generation in w.origin ==>
      w.log[k].when >= w.log[i].at + w.origin[w.log[i].generation].interval
  }

  predicate FirstOf(w: World, k: nat)
    requires k < |w.log|
  {
    (forall i | 0 <= i < k :: w.log[i].generation != w.log[k].generation) && w.log[k].generation in w.origin ==>
      w.log[k].when == w.origin[w.log[k].generation].when
  }

  predicate Spaced(w: World) {
    && (forall i, k | 0 <= i < k < |w.log| :: Apart(w, i, k))
    && (forall k | 0 <= k < |w.log| :: FirstOf(w, k))
  }

  ghost predicate SpacingInvariant(w: World, r: map<nat, int>) {
    Invariant(w) && Armed(w, r) && Noted(w, r) && Spaced(w)
  }

  /** A step that leaves the log and what has returned alone. */
  lemma LogStays(w: World, v: World, r: map<nat, int>)
    requires Noted(w, r) && Spaced(w)
    requires v.log == w.log && v.now >= w.now && v.firing == w.firing
    requires w.firing ==> v.batch != [] && w.batch != [] && v.batch[0] == w.batch[0]
    requires forall f | f in w.log :: f.generation in w.origin && f.generation in v.origin
                                      && v.origin[f.generation] == w.origin[f.generation]
    ensures Noted(v, r) && Spaced(v)
  {
    forall k | 0 <= k < |v.log| && !RunningEntry(v, k)
      ensures v.log[k].generation in r && v.log[k].at <= r[v.log[k].generation] {
      assert !RunningEntry(w, k);
    }
    forall i, k | 0 <= i < k < |v.log| ensures Apart(v, i, k) {
      assert Apart(w, i, k) && w.log[i] in w.log;
    }
    forall k | 0 <= k < |v.log| ensures FirstOf(v, k) {
      assert FirstOf(w, k) && w.log[k] in w.log;
    }
  }

  lemma LogHasOrigins(w: World)
    requires HistoryFits(w)
    ensures forall f | f in w.log :: f.generation in w.origin && f.generation < w.table.nextGeneration
  {
  }

  lemma AddSpaces(w: World, r: map<nat, int>, when: int, interval: int, repeat: uint32, id: nat)
    requires SpacingInvariant(w, r) && repeat > 0
    ensures Armed(Next(w, AddTimer(when, interval, repeat, id)), r)
    ensures Noted(Next(w, AddTimer(when, interval, repeat, id)), r)
    ensures Spaced(Next(w, AddTimer(when, interval, repeat, id)))
  {
    var v := Next(w, AddTimer(when, interval, repeat, id));
    LogHasOrigins(w);
    WithoutKeeps(w.table.timers, id);
    var g := w.table.nextGeneration;
    assert g !in r;
    hide Distinct, MapFits, Bounded, Complete, Live, Carriers;
    LogStays(w, v, r);
    assert v.origin == w.origin[g := v.origin[g]] && v.origin[g].when == when;
    forall t | t in v.table.timers || t in v.batch ensures DeadlineFits(v, r, t) {
      if t.generation != g {
        assert DeadlineFits(w, r, t);
      } else {
        NotYetCarried(w, t);
      }
    }
  }

  /** The generation of a timer in the list or the batch is not a future one. */
  lemma NotYetCarried(w: World, t: Timer)
    requires TimersFit(w) && HistoryFits(w)
    ensures t in w.table.timers || t in w.batch ==> t.generation < w.table.nextGeneration
  {
    if t in w.table.timers || t in w.batch {
      assert TimerFits(w, t);
    }
  }

  lemma CollectSpaces(w: World, r: map<nat, int>)
    requires SpacingInvariant(w, r) && w.batch == []
    ensures Armed(Next(w, Collect), r) && Noted(Next(w, Collect), r) && Spaced(Next(w, Collect))
  {
    var v := Next(w, Collect);
    var s := w.table;
    SelectMembers(s.generations, s.timers, w.now, true);
    SelectMembers(s.generations, s.timers, w.now, false);
    LogHasOrigins(w);
    hide Select, Distinct, MapFits, TimersFit, Bounded, Complete, Live;
    LogStays(w, v, r);
    forall t | t in v.table.timers || t in v.batch ensures DeadlineFits(v, r, t) {
      assert DeadlineFits(w, r, t);
    }
  }

  lemma FireArmed(w: World, r: map<nat, int>)
    requires Armed(w, r) && w.batch != [] && !w.firing
    ensures Armed(Next(w, Fire), r)
  {
    var v := Next(w, Fire);
    forall t | t in v.table.timers || t in v.batch ensures DeadlineFits(v, r, t) {
      assert DeadlineFits(w, r, t);
    }
  }

  lemma FireNoted(w: World, r: map<nat, int>)
    requires Noted(w, r) && w.batch != [] && !w.firing
    ensures Noted(Next(w, Fire), r)
  {
    var v := Next(w, Fire);
    forall k | 0 <= k < |v.log| && !RunningEntry(v, k)
      ensures v.log[k].generation in r && v.log[k].at <= r[v.log[k].generation] {
      assert !RunningEntry(w, k) && v.log[k] == w.log[k];
    }
    forall g | g in r ensures exists f | f in v.log :: f.generation == g {
      var f :| f in w.log && f.generation == g;
      assert f in v.log;
    }
  }

  /** The new entry against the earlier ones. */
  lemma FireApart(w: World, r: map<nat, int>, i: nat)
    requires Armed(w, r) && Noted(w, r) && w.batch != [] && !w.firing && i < |w.log|
    ensures Apart(Next(w, Fire), i, |w.log|)
  {
    var v := Next(w, Fire);
    assert w.batch[0] in w.batch && DeadlineFits(w, r, w.batch[0]);
    assert v.log[i] == w.log[i] && !RunningEntry(w, i);
  }

  lemma FireFirst(w: World, r: map<nat, int>)
    requires Armed(w, r) && Noted(w, r) && w.batch != [] && !w.firing
    ensures FirstOf(Next(w, Fire), |w.log|)
  {
    var v, head := Next(w, Fire), w.batch[0];
    assert head in w.batch && DeadlineFits(w, r, head);
    if head.generation in r {
      var f :| f in w.log && f.generation == head.generation;
      var i :| 0 <= i < |w.log| && w.log[i] == f;
      assert v.log[i] == f;
    }
  }

  lemma FireSpaced(w: World, r: map<nat, int>)
    requires Armed(w, r) && Noted(w, r) && Spaced(w) && w.batch != [] && !w.firing
    ensures Spaced(Next(w, Fire))
  {
    var v, n := Next(w, Fire), |w.log|;
    assert v.log[..n] == w.log && v.origin == w.origin;
    FireFirst(w, r);
    hide Armed, Noted, Next;
    forall i, k | 0 <= i < k < |v.log| ensures Apart(v, i, k) {
      if k == n {
        FireApart(w, r, i);
      } else {
        assert Apart(w, i, k) && v.log[..n][i] == v.log[i] && v.log[..n][k] == v.log[k];
      }
    }
    forall k | 0 <= k < |v.log| ensures FirstOf(v, k) {
      if k < n {
        EarlierFirst(w, v, k);
      }
    }
  }

  lemma EarlierFirst(w: World, v: World, k: nat)
    requires k < |w.log| <= |v.log| && v.log[..|w.log|] == w.log && v.origin == w.origin && FirstOf(w, k)
    ensures FirstOf(v, k)
  {
    assert forall i | 0 <= i <= k :: v.log[i] == v.log[..|w.log|][i] == w.log[i];
  }

  lemma FireSpaces(w: World, r: map<nat, int>)
    requires SpacingInvariant(w, r) && w.batch != [] && !w.firing
    ensures Armed(Next(w, Fire), r) && Noted(Next(w, Fire), r) && Spaced(Next(w, Fire))
  {
    hide Invariant, Armed, Noted, Spaced, Next;
    FireArmed(w, r);
    FireNoted(w, r);
    FireSpaced(w, r);
  }

  /** The head of the batch is the only carrier of its generation. */
  lemma OthersDiffer(w: World, t: Timer)
    requires Distinct(w) && w.batch != [] && w.firing && (t in w.table.timers || t in w.batch[1..])
    ensures t.generation != w.batch[0].generation
  {
    SettleDistinct(w, Next(w, SettleHead));
    if t in w.table.timers {
      CarriersIn(w.table.timers, t);
    } else {
      CarriersIn(w.batch[1..], t);
    }
  }

  lemma SettleArmed(w: World, r: map<nat, int>)
    requires Distinct(w) && TimersFit(w) && Armed(w, r) && w.batch != [] && w.firing
    ensures Armed(Next(w, SettleHead), Returned(w, SettleHead, r))
  {
    var v, s, head := Next(w, SettleHead), Returned(w, SettleHead, r), w.batch[0];
    assert head in w.batch && TimerFits(w, head);
    hide Distinct, TimersFit, TimerFits;
    forall t | t in v.table.timers || t in v.batch ensures DeadlineFits(v, s, t) {
      if t in w.table.timers || t in w.batch[1..] {
        OthersDiffer(w, t);
        assert DeadlineFits(w, r, t);
      }
    }
  }

  lemma SettleNoted(w: World, r: map<nat, int>)
    requires Noted(w, r) && w.batch != [] && w.firing
    ensures Noted(Next(w, SettleHead), Returned(w, SettleHead, r))
  {
    var v, s, head := Next(w, SettleHead), Returned(w, SettleHead, r), w.batch[0];
    assert v.log == w.log && v.now == w.now && !v.firing;
    hide Next;
    forall k | 0 <= k < |v.log| ensures v.log[k].generation in s && v.log[k].at <= s[v.log[k].generation] {
      assert v.log[k] in w.log;
      if v.log[k].generation != head.generation {
        assert !RunningEntry(w, k);
      }
    }
    forall g | g in s ensures exists f | f in v.log :: f.generation == g {
      if g == head.generation {
        assert w.log[|w.log| - 1] in v.log;
      }
    }
  }

  lemma SameLog(w: World, v: World)
    requires Spaced(w) && v.log == w.log && v.origin == w.origin
    ensures Spaced(v)
  {
    forall i, k | 0 <= i < k < |v.log| ensures Apart(v, i, k) {
      assert Apart(w, i, k);
    }
    forall k | 0 <= k < |v.log| ensures FirstOf(v, k) {
      assert FirstOf(w, k);
    }
  }

  lemma SettleSpaces(w: World, r: map<nat, int>)
    requires SpacingInvariant(w, r) && w.batch != [] && w.firing
    ensures var s := Returned(w, SettleHead, r);
            Armed(Next(w, SettleHead), s) && Noted(Next(w, SettleHead), s) && Spaced(Next(w, SettleHead))
  {
    SameLog(w, Next(w, SettleHead));
    hide Armed, Noted, Spaced, Next, Distinct, MapFits, TimersFit, HistoryFits, Bounded, Complete, Live;
    SettleArmed(w, r);
    SettleNoted(w, r);
  }

  lemma QuietSpaces(w: World, r: map<nat, int>, e: Event)
    requires SpacingInvariant(w, r) && (e.Cancel? || e.Tick?)
    ensures Armed(Next(w, e), r) && Noted(Next(w, e), r) && Spaced(Next(w, e))
  {
    var v := Next(w, e);
    LogHasOrigins(w);
    hide Invariant;
    LogStays(w, v, r);
    hide Noted, Spaced;
    forall t | t in v.table.timers || t in v.batch ensures DeadlineFits(v, r, t) {
      assert DeadlineFits(w, r, t);
    }
  }

  lemma StepSpaces(w: World, r: map<nat, int>, e: Event)
    requires SpacingInvariant(w, r)
    ensures SpacingInvariant(Next(w, e), Returned(w, e, r))
  {
    StepKeeps(w, e);
    hide Invariant, Armed, Noted, Spaced;
    match e
    case AddTimer(when, interval, repeat, id) => if repeat > 0 { AddSpaces(w, r, when, interval, repeat, id); }
    case Collect => if w.batch == [] { CollectSpaces(w, r); }
    case Fire => if w.batch != [] && !w.firing { FireSpaces(w, r); }
    case SettleHead => if w.batch != [] && w.firing { SettleSpaces(w, r); }
    case _ => QuietSpaces(w, r, e);
  }

  lemma {:induction false} RunSpaces(w: World, r: map<nat, int>, events: seq<Event>)
    requires SpacingInvariant(w, r)
    ensures SpacingInvariant(Run(w, events), Returns(w, events, r))
    decreases |events|
  {
    hide SpacingInvariant, Next, Returned;
    if events != [] {
      StepSpaces(w, r, events[0]);
      RunSpaces(Next(w, events[0]), Returned(w, events[0], r), events[1..]);
    }
  }

  lemma SpacingReached(now: int, events: seq<Event>)
    ensures SpacingInvariant(Run(Start(now), events), Returns(Start(now), events, map[]))
  {
    hide Run, Returns;
    RunSpaces(Start(now), map[], events);
  }

  /**
   * In every run a timer waits for the deadline it was added with, and after that for one interval
   * behind the moment its last callback returned: neither less nor more.
   */
  lemma DeadlineIs(now: int, events: seq<Event>, t: Timer)
    requires t in Run(Start(now), events).table.timers || t in Run(Start(now), events).batch
    ensures var w := Run(Start(now), events);
            var r := Returns(Start(now), events, map[]);
            var g := t.generation;
            g in w.origin && t.when == if g in r then r[g] + w.origin[g].interval else w.origin[g].when
  {
    SpacingReached(now, events);
    hide Run, Returns, Invariant, Noted, Spaced;
  }

  /** In every run two firings of a timer are at least its interval apart. */
  lemma FiringsSpaced(now: int, events: seq<Event>, i: nat, k: nat)
    requires i < k < |Run(Start(now), events).log|
    requires Run(Start(now), events).log[i].generation == Run(Start(now), events).log[k].generation
    ensures var w := Run(Start(now), events);
            var g := w.log[i].generation;
            g in w.origin && w.log[k].at >= w.log[i].at + w.origin[g].interval
  {
    SpacingReached(now, events);
    var w := Run(Start(now), events);
    hide Run, Returns, Distinct, MapFits, TimersFit, Bounded, Complete, Live, Armed, Noted;
    assert Apart(w, i, k) && w.log[i] in w.log && w.log[k] in w.log;
  }

  /** And the first one is not before the time the timer was added for. */
  lemma FirstFiring(now: int, events: seq<Event>, i: nat)
    requires var log := Run(Start(now), events).log;
             i < |log| && forall x | 0 <= x < i :: log[x].generation != log[i].generation
    ensures var w := Run(Start(now), events);
            w.log[i].generation in w.origin && w.log[i].at >= w.origin[w.log[i].generation].when
  {
    SpacingReached(now, events);
    var w := Run(Start(now), events);
    hide Run, Returns, Distinct, MapFits, TimersFit, Bounded, Complete, Live, Armed, Noted;
    assert FirstOf(w, i) && w.log[i] in w.log;
  }

  /**
   * What add_timer answers and changes: a timer with no firings is refused with 0. Otherwise the identifier
   * is the one asked for, or the next unoccupied one, never 0, and it stands for the new timer from then on;
   * timers of other identifiers stay as they were.
   */
  lemma AddAnswers(s: Table, when: int, interval: int, repeat: uint32, id: nat)
    ensures var r := Add(s, when, interval, repeat, id);
            && (repeat == 0 ==> r == Added(s, 0))
            && (repeat > 0 ==>
                  && r.id != 0 && (id != 0 ==> r.id == id)
                  && (id == 0 ==> r.id !in s.generations && r.id >= s.nextId && r.table.nextId == r.id + 1
                                  && forall k | 0 < k && s.nextId <= k < r.id :: k in s.generations)
                  && r.table.generations == s.generations[r.id := s.nextGeneration]
                  && IsCurrent(r.table.generations, Timer(r.id, s.nextGeneration, when, interval, repeat))
                  && forall t :: t in r.table.timers <==>
                         || t == Timer(r.id, s.nextGeneration, when, interval, repeat)
                         || (t in s.timers && (id == 0 || t.id != id)))
  {
    WithoutKeeps(s.timers, id);
    hide Without;
  }

  /** Cancelling makes an identifier stand for nothing and leaves the others alone. */
  lemma CancelAnswers(s: Table, id: nat, other: nat)
    requires id != 0
    ensures var t := CancelTimer(s, id);
            && id !in t.generations && t.timers == s.timers
            && (other != id ==> (other in t.generations <==> other in s.generations))
            && (other != id && other in s.generations ==> t.generations[other] == s.generations[other])
  {
  }

  /** A batch keeps the order of the list, and so does what stays behind. */
  lemma {:induction false} CollectKeepsOrder(generations: map<nat, nat>, timers: seq<Timer>, now: int, due: bool,
      i: nat, k: nat)
    returns (p: nat, q: nat)
    requires i < k < |Select(generations, timers, now, due)|
    ensures var chosen := Select(generations, timers, now, due);
            p < q < |timers| && timers[p] == chosen[i] && timers[q] == chosen[k]
    decreases |timers|
  {
    var init, last := timers[..|timers| - 1], timers[|timers| - 1];
    var rest := Select(generations, init, now, due);
    if k < |rest| {
      p, q := CollectKeepsOrder(generations, init, now, due, i, k);
    } else {
      SelectMembers(generations, init, now, due);
      assert rest[i] in rest;
      p :| 0 <= p < |init| && init[p] == rest[i];
      q := |timers| - 1;
    }
  }
}
