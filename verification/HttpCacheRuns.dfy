/** The client cache over any sequence of lookups, stores, revalidations and clears. */
module HttpCacheRuns {
  import opened Bytes
  import opened HttpText
  import opened HttpCaching
  import opened HttpClientCaching

  datatype Operation =
    | Lookup(scheme: Bytes, host: Bytes, request: Request, now: Instant)
    | Store(scheme: Bytes, host: Bytes, request: Request, response: Response, now: Instant)
    | Update(id: nat, response: Response, now: Instant)
    | Clear

  /** History: what was stored under an identifier. */
  datatype Stored = Stored(scheme: Bytes, host: Bytes, request: Request, response: Response)

  /** The cache; history: a count of operations, the last use and the origin of every identifier. */
  datatype World = World(cache: Cache, clock: nat, uses: map<nat, nat>, stored: map<nat, Stored>)

  const START := World(EMPTY, 0, map[], map[])

  function Next(r: Readers, o: Options, w: World, op: Operation): World {
    var v := w.(clock := w.clock + 1);
    match op
    case Lookup(scheme, host, request, now) =>
      var (c, result) := AfterLookup(r, w.cache, scheme, host, request, now);
      v.(cache := c, uses := if result.entryId.Some? then w.uses[result.entryId.value := w.clock] else w.uses)
    case Store(scheme, host, request, response, now) =>
      var id := w.cache.nextId;
      var c := AfterStore(r, o, w.cache, scheme, host, request, response, now);
      v.(cache := c, uses := w.uses[id := w.clock], stored := w.stored[id := Stored(scheme, host, request, response)])
    case Update(id, response, now) =>
      var (c, result) := After304(w.cache, id, response, now);
      v.(cache := c, uses := if result.Some? then w.uses[id := w.clock] else w.uses)
    case Clear => v.(cache := w.cache.(entries := [], totalBodyBytes := 0))
  }

  function Run(r: Readers, o: Options, w: World, ops: seq<Operation>): World
    decreases |ops|
  {
    if ops == [] then w else Run(r, o, Next(r, o, w, ops[0]), ops[1..])
  }

  /** An entry still answers for what was stored under its identifier; only header fields may have been refreshed. */
  predicate EntryFits(r: Readers, e: Entry, s: Stored) {
    && e.key == Key(s.scheme, s.host, s.request) && e.requestHeaders == s.request.headers
    && e.vary == r.vary(HttpCaching.Get(s.response.headers, Ascii("Vary"))) && !e.vary.any
    && e.response.body == s.response.body && e.response.status == 200
    && e.bodyBytes == |e.response.body| && CacheableMethod(s.request)
  }

  predicate EntriesFit(r: Readers, w: World) {
    forall e | e in w.cache.entries ::
      e.id in w.stored && e.id in w.uses && w.uses[e.id] < w.clock && e.id < w.cache.nextId
        && EntryFits(r, e, w.stored[e.id])
  }

  predicate Used(uses: map<nat, nat>, entries: seq<Entry>) { forall e | e in entries :: e.id in uses }

  /** The list runs from the most to the least recently used entry; so no identifier occurs twice. */
  predicate Ordered(uses: map<nat, nat>, entries: seq<Entry>)
    requires Used(uses, entries)
  {
    forall i, j | 0 <= i < j < |entries| :: uses[entries[i].id] > uses[entries[j].id]
  }

  predicate Invariant(r: Readers, o: Options, w: World) {
    && EntriesFit(r, w)
    && Used(w.uses, w.cache.entries) && Ordered(w.uses, w.cache.entries)
    && WithinLimits(o, w.cache.entries) && w.cache.totalBodyBytes == TotalBody(w.cache.entries)
  }

  lemma ToFrontMembers(entries: seq<Entry>, i: nat)
    requires i < |entries|
    ensures forall e :: e in ToFront(entries, i) <==> e in entries
  {
    assert entries == entries[..i] + ([entries[i]] + entries[i + 1..]);
  }

  /** Moving the used entry to the front keeps the order of last use. */
  lemma ToFrontOrdered(uses: map<nat, nat>, entries: seq<Entry>, i: nat, clock: nat)
    requires i < |entries| && Used(uses, entries) && Ordered(uses, entries)
    requires forall e | e in entries :: uses[e.id] < clock
    ensures var later := uses[entries[i].id := clock];
            Used(later, ToFront(entries, i)) && Ordered(later, ToFront(entries, i))
  {
    var later := uses[entries[i].id := clock];
    var moved := ToFront(entries, i);
    ToFrontMembers(entries, i);
    assert moved[0] == entries[i] && |moved| == |entries|;
    assert Used(later, moved);
    hide ToFront;
    forall b | 0 < b < |moved| ensures later[moved[b].id] == uses[entries[Before(i, b)].id] < clock {
      ToFrontAt(entries, i, b);
      OthersDiffer(uses, entries, i, Before(i, b));
      assert entries[Before(i, b)] in entries;
    }
    forall a, b | 0 < a < b < |moved| ensures later[moved[a].id] > later[moved[b].id] {
      assert uses[entries[Before(i, a)].id] > uses[entries[Before(i, b)].id];
    }
  }

  /** Where the entry at k came from when the one at i moved to the front. */
  function Before(i: nat, k: nat): nat
    requires k > 0
  {
    if k <= i then k - 1 else k
  }

  lemma ToFrontAt(entries: seq<Entry>, i: nat, k: nat)
    requires i < |entries| && 0 < k < |entries|
    ensures |ToFront(entries, i)| == |entries| && ToFront(entries, i)[k] == entries[Before(i, k)]
  {
  }

  lemma OthersDiffer(uses: map<nat, nat>, entries: seq<Entry>, i: nat, k: nat)
    requires i < |entries| && k < |entries| && k != i && Used(uses, entries) && Ordered(uses, entries)
    ensures entries[k].id != entries[i].id
  {
    if k < i {
      assert uses[entries[k].id] > uses[entries[i].id];
    } else {
      assert uses[entries[i].id] > uses[entries[k].id];
    }
  }

  /** The entry at i is used: it moves to the front. */
  function Touch(w: World, i: nat): World
    requires i < |w.cache.entries|
  {
    w.(cache := w.cache.(entries := ToFront(w.cache.entries, i)), clock := w.clock + 1,
       uses := w.uses[w.cache.entries[i].id := w.clock])
  }

  lemma TouchKeeps(r: Readers, o: Options, w: World, i: nat)
    requires Invariant(r, o, w) && i < |w.cache.entries|
    ensures Invariant(r, o, Touch(w, i))
  {
    hide EntryFits, TotalBody;
    ToFrontMembers(w.cache.entries, i);
    ToFrontOrdered(w.uses, w.cache.entries, i, w.clock);
    TotalToFront(w.cache.entries, i);
    SameSize(w.cache.entries, i);
    hide ToFront, Ordered;
  }

  lemma SameSize(entries: seq<Entry>, i: nat)
    requires i < |entries|
    ensures |ToFront(entries, i)| == |entries|
  {
  }

  lemma IdleKeeps(r: Readers, o: Options, w: World)
    requires Invariant(r, o, w)
    ensures Invariant(r, o, w.(clock := w.clock + 1))
  {
    hide EntryFits, TotalBody, Ordered;
  }

  lemma LookupKeeps(r: Readers, o: Options, w: World, op: Operation)
    requires Invariant(r, o, w) && op.Lookup?
    ensures Invariant(r, o, Next(r, o, w, op))
  {
    hide Key, RequestAllows, Invariant, ToFront;
    var i := Selected(w.cache.entries, Key(op.scheme, op.host, op.request), op.request.headers);
    if RequestAllows(r, op.request) && i < |w.cache.entries| {
      TouchKeeps(r, o, w, i);
    } else {
      IdleKeeps(r, o, w);
    }
  }

  lemma UpdatedFits(r: Readers, e: Entry, s: Stored, response: Response, now: Instant)
    requires EntryFits(r, e, s)
    ensures EntryFits(r, Updated(e, response, now), s)
  {
  }

  /** Refreshing an entry in place changes nothing the invariant speaks of. */
  lemma RefreshKeeps(r: Readers, o: Options, w: World, i: nat, e: Entry)
    requires Invariant(r, o, w) && i < |w.cache.entries|
    requires e.id == w.cache.entries[i].id && e.bodyBytes == w.cache.entries[i].bodyBytes
    requires e.id in w.stored ==> EntryFits(r, e, w.stored[e.id])
    ensures Invariant(r, o, w.(cache := w.cache.(entries := w.cache.entries[i := e])))
  {
    hide EntryFits, TotalBody;
    var entries := w.cache.entries[i := e];
    assert w.cache.entries[i] in w.cache.entries;
    forall x | x in entries ensures x == e || x in w.cache.entries {
    }
    TotalUpdated(w.cache.entries, i, e);
  }

  lemma UpdateKeeps(r: Readers, o: Options, w: World, op: Operation)
    requires Invariant(r, o, w) && op.Update?
    ensures Invariant(r, o, Next(r, o, w, op))
  {
    hide EntryFits, Ordered, Used, TotalBody, WithinLimits, SetHeaders;
    var i := PositionOf(w.cache.entries, op.id);
    if i < |w.cache.entries| {
      var e0 := w.cache.entries[i];
      assert e0 in w.cache.entries;
      var e := Updated(e0, op.response, op.now);
      UpdatedFits(r, e0, w.stored[e0.id], op.response, op.now);
      assert e.id == e0.id && e.bodyBytes == e0.bodyBytes;
      RefreshKeeps(r, o, w, i, e);
      hide Invariant, ToFront, Updated;
      var x := w.(cache := w.cache.(entries := w.cache.entries[i := e]));
      TouchKeeps(r, o, x, i);
      assert Next(r, o, w, op) == Touch(x, i);
    } else {
      IdleKeeps(r, o, w);
    }
  }

  lemma {:induction false} NotMatchingMembers(entries: seq<Entry>, key: Bytes, headers: seq<Field>)
    ensures forall e :: e in NotMatching(entries, key, headers) <==> e in entries && !Matches(e, key, headers)
    decreases |entries|
  {
    hide Matches;
    if entries != [] {
      var init, last := entries[..|entries| - 1], entries[|entries| - 1];
      NotMatchingMembers(init, key, headers);
      assert entries == init + [last];
    }
  }

  lemma {:induction false} NotMatchingOrdered(uses: map<nat, nat>, entries: seq<Entry>, key: Bytes, headers: seq<Field>)
    requires Used(uses, entries) && Ordered(uses, entries)
    ensures Used(uses, NotMatching(entries, key, headers)) && Ordered(uses, NotMatching(entries, key, headers))
    decreases |entries|
  {
    hide Matches, NotMatching;
    NotMatchingEnds(entries, key, headers);
    if entries != [] {
      var init, last := entries[..|entries| - 1], entries[|entries| - 1];
      NotMatchingOrdered(uses, init, key, headers);
      NotMatchingMembers(init, key, headers);
      AllMoreRecent(uses, entries, NotMatching(init, key, headers));
    }
  }

  lemma NotMatchingEnds(entries: seq<Entry>, key: Bytes, headers: seq<Field>)
    ensures var found := NotMatching(entries, key, headers);
            if entries == [] then found == []
            else
              var rest := NotMatching(entries[..|entries| - 1], key, headers);
              found == rest || found == rest + [entries[|entries| - 1]]
  {
  }

  lemma AllMoreRecent(uses: map<nat, nat>, entries: seq<Entry>, rest: seq<Entry>)
    requires entries != [] && Used(uses, entries) && Ordered(uses, entries)
    requires Used(uses, rest) && Ordered(uses, rest) && forall e | e in rest :: e in entries[..|entries| - 1]
    ensures var all := rest + [entries[|entries| - 1]]; Used(uses, all) && Ordered(uses, all)
  {
    var last := entries[|entries| - 1];
    forall k | 0 <= k < |rest| ensures uses[rest[k].id] > uses[last.id] {
      assert rest[k] in rest;
      assert rest[k] in entries[..|entries| - 1];
    }
  }

  /** enforce_limits keeps a prefix, and no longer prefix is within the limits. */
  lemma {:induction false} TrimmedLongest(o: Options, entries: seq<Entry>)
    ensures Trimmed(o, entries) <= entries && WithinLimits(o, Trimmed(o, entries))
    ensures |Trimmed(o, entries)| < |entries| ==> !WithinLimits(o, entries[..|Trimmed(o, entries)| + 1])
    decreases |entries|
  {
    if entries != [] && !WithinLimits(o, entries) {
      var init := entries[..|entries| - 1];
      TrimmedLongest(o, init);
      var k := |Trimmed(o, init)| + 1;
      assert k <= |init| ==> init[..k] == entries[..k];
      assert k == |entries| ==> entries[..k] == entries;
    }
  }

  /** The list after an accepted store, before the limits are enforced. */
  function Candidates(r: Readers, w: World, op: Operation): seq<Entry>
    requires op.Store?
  {
    var e := NewEntry(r, w.cache.nextId, op.scheme, op.host, op.request, op.response, op.now);
    [e] + NotMatching(w.cache.entries, e.key, op.request.headers)
  }

  lemma CandidatesFit(r: Readers, o: Options, w: World, op: Operation)
    requires Invariant(r, o, w) && op.Store? && Storable(r, o, op.request, op.response, op.now)
    requires !r.vary(HttpCaching.Get(op.response.headers, Ascii("Vary"))).any
    ensures var v := Next(r, o, w, op);
            var all := Candidates(r, w, op);
            && (forall e | e in all ::
                  e.id in v.stored && e.id in v.uses && v.uses[e.id] < v.clock && e.id < v.cache.nextId
                  && EntryFits(r, e, v.stored[e.id]))
            && Used(v.uses, all) && Ordered(v.uses, all)
  {
    var e := NewEntry(r, w.cache.nextId, op.scheme, op.host, op.request, op.response, op.now);
    NewEntryFits(r, o, op, w.cache.nextId);
    NotMatchingMembers(w.cache.entries, e.key, op.request.headers);
    NotMatchingOrdered(w.uses, w.cache.entries, e.key, op.request.headers);
    StoreHistory(r, o, w, op);
    hide EntryFits, NotMatching, Next, NewEntry, WithinLimits, TotalBody, Storable, Key;
    RestFits(r, w, Next(r, o, w, op), e, NotMatching(w.cache.entries, e.key, op.request.headers));
  }

  /** What an accepted store does to the history. */
  lemma StoreHistory(r: Readers, o: Options, w: World, op: Operation)
    requires op.Store? && Storable(r, o, op.request, op.response, op.now)
    ensures var v := Next(r, o, w, op);
            && v.stored == w.stored[w.cache.nextId := Stored(op.scheme, op.host, op.request, op.response)]
            && v.uses == w.uses[w.cache.nextId := w.clock] && v.clock == w.clock + 1
            && v.cache.nextId == w.cache.nextId + 1
    ensures var e := NewEntry(r, w.cache.nextId, op.scheme, op.host, op.request, op.response, op.now);
            e.id == w.cache.nextId
  {
    hide Storable, Key, Trimmed, NotMatching, TotalBody;
  }

  lemma NewEntryFits(r: Readers, o: Options, op: Operation, id: nat)
    requires op.Store? && Storable(r, o, op.request, op.response, op.now)
    requires !r.vary(HttpCaching.Get(op.response.headers, Ascii("Vary"))).any
    ensures EntryFits(r, NewEntry(r, id, op.scheme, op.host, op.request, op.response, op.now),
                      Stored(op.scheme, op.host, op.request, op.response))
  {
    assert CacheableMethod(op.request);
    hide CacheableMethod, Key, Ascii, HttpCaching.Get;
  }

  /** Entries of before, behind one with a new identifier. */
  lemma RestFits(r: Readers, w: World, v: World, e: Entry, rest: seq<Entry>)
    requires EntriesFit(r, w) && (forall x | x in rest :: x in w.cache.entries)
    requires Used(w.uses, rest) && Ordered(w.uses, rest) && e.id == w.cache.nextId && v.cache.nextId == e.id + 1
    requires v.uses == w.uses[e.id := w.clock] && v.clock == w.clock + 1
    requires e.id in v.stored && EntryFits(r, e, v.stored[e.id])
    requires forall id | id in w.stored && id != e.id :: id in v.stored && v.stored[id] == w.stored[id]
    ensures var all := [e] + rest;
            && (forall x | x in all ::
                  x.id in v.stored && x.id in v.uses && v.uses[x.id] < v.clock && x.id < v.cache.nextId
                  && EntryFits(r, x, v.stored[x.id]))
            && Used(v.uses, all) && Ordered(v.uses, all)
  {
    hide EntryFits;
    var all := [e] + rest;
    forall x | x in rest ensures x.id != e.id && v.uses[x.id] == w.uses[x.id] < w.clock {
      assert x in w.cache.entries;
    }
    forall i, j | 0 <= i < j < |all| ensures v.uses[all[i].id] > v.uses[all[j].id] {
      assert all[j] == rest[j - 1] && rest[j - 1] in rest;
      if i > 0 {
        assert all[i] == rest[i - 1] && rest[i - 1] in rest;
      }
    }
  }

  /** The invariant passes to a prefix that is within the limits. */
  lemma PrefixFits(r: Readers, o: Options, v: World, all: seq<Entry>)
    requires forall e | e in all ::
               e.id in v.stored && e.id in v.uses && v.uses[e.id] < v.clock && e.id < v.cache.nextId
               && EntryFits(r, e, v.stored[e.id])
    requires Used(v.uses, all) && Ordered(v.uses, all)
    requires v.cache.entries <= all && WithinLimits(o, v.cache.entries)
             && v.cache.totalBodyBytes == TotalBody(v.cache.entries)
    ensures Invariant(r, o, v)
  {
    hide EntryFits, WithinLimits, TotalBody;
    assert forall e | e in v.cache.entries :: e in all;
  }

  predicate Accepts(r: Readers, o: Options, op: Operation)
    requires op.Store?
  {
    Storable(r, o, op.request, op.response, op.now) && !r.vary(HttpCaching.Get(op.response.headers, Ascii("Vary"))).any
  }

  lemma StoreAccepted(r: Readers, o: Options, w: World, op: Operation)
    requires op.Store? && Accepts(r, o, op)
    ensures Next(r, o, w, op).cache.entries == Trimmed(o, Candidates(r, w, op))
  {
    hide Storable, Trimmed, NotMatching, TotalBody;
  }

  lemma StoreRefused(r: Readers, o: Options, w: World, op: Operation)
    requires Invariant(r, o, w) && op.Store? && !Accepts(r, o, op)
    ensures Invariant(r, o, Next(r, o, w, op))
  {
    hide Storable, EntryFits, TotalBody, Trimmed, NotMatching, WithinLimits;
    var v := Next(r, o, w, op);
    assert v.cache.entries == w.cache.entries && v.cache.totalBodyBytes == w.cache.totalBodyBytes;
    assert forall e | e in w.cache.entries :: e.id != w.cache.nextId;
  }

  lemma StoreKeeps(r: Readers, o: Options, w: World, op: Operation)
    requires Invariant(r, o, w) && op.Store?
    ensures Invariant(r, o, Next(r, o, w, op))
  {
    if Accepts(r, o, op) {
      CandidatesFit(r, o, w, op);
      StoreAccepted(r, o, w, op);
      StoredTotal(r, o, w, op);
      hide Next, Candidates, EntryFits, Invariant, Trimmed, TotalBody, WithinLimits, Ordered, Used, Accepts;
      TrimmedLongest(o, Candidates(r, w, op));
      PrefixFits(r, o, Next(r, o, w, op), Candidates(r, w, op));
    } else {
      StoreRefused(r, o, w, op);
    }
  }

  lemma StoredTotal(r: Readers, o: Options, w: World, op: Operation)
    requires op.Store? && w.cache.totalBodyBytes == TotalBody(w.cache.entries)
    ensures var c := Next(r, o, w, op).cache; c.totalBodyBytes == TotalBody(c.entries)
  {
  }

  lemma StepKeeps(r: Readers, o: Options, w: World, op: Operation)
    requires Invariant(r, o, w)
    ensures Invariant(r, o, Next(r, o, w, op))
  {
    match op
    case Lookup(_, _, _, _) => LookupKeeps(r, o, w, op);
    case Store(_, _, _, _, _) => StoreKeeps(r, o, w, op);
    case Update(_, _, _) => UpdateKeeps(r, o, w, op);
    case Clear =>
  }

  lemma {:induction false} RunKeeps(r: Readers, o: Options, w: World, ops: seq<Operation>)
    requires Invariant(r, o, w)
    ensures Invariant(r, o, Run(r, o, w, ops))
    decreases |ops|
  {
    hide Invariant, Next;
    if ops != [] {
      StepKeeps(r, o, w, ops[0]);
      RunKeeps(r, o, Next(r, o, w, ops[0]), ops[1..]);
    }
  }

  lemma Reached(r: Readers, o: Options, ops: seq<Operation>)
    ensures Invariant(r, o, Run(r, o, START, ops))
  {
    hide Run;
    RunKeeps(r, o, START, ops);
  }

  /** After every operation the byte count is exact, both limits hold and identifiers are distinct. */
  lemma CacheBounded(r: Readers, o: Options, ops: seq<Operation>)
    ensures var c := Run(r, o, START, ops).cache;
            && c.totalBodyBytes == TotalBody(c.entries) <= o.maxTotalBodyBytes
            && |c.entries| <= o.maxEntries
            && (forall e | e in c.entries :: e.bodyBytes == |e.response.body|)
            && (forall i, j | 0 <= i < j < |c.entries| :: c.entries[i].id != c.entries[j].id)
  {
    Reached(r, o, ops);
    hide Run, TotalBody, Key;
    var w := Run(r, o, START, ops);
    assert Ordered(w.uses, w.cache.entries);
  }

  /**
   * What a store removes: entries the new request selects, and beyond those only entries used less
   * recently than everything that stays, and only because keeping one more would break a limit.
   */
  lemma EvictsLeastRecent(r: Readers, o: Options, ops: seq<Operation>, op: Operation, gone: Entry, kept: Entry)
    requires op.Store?
    requires var w := Run(r, o, START, ops);
             && gone in w.cache.entries && gone !in Next(r, o, w, op).cache.entries
                && kept in Next(r, o, w, op).cache.entries
             && !Matches(gone, Key(op.scheme, op.host, op.request), op.request.headers)
    ensures var w := Run(r, o, START, ops);
            var v := Next(r, o, w, op);
            && gone.id in v.uses && kept.id in v.uses && v.uses[gone.id] < v.uses[kept.id]
            && Accepts(r, o, op) && |v.cache.entries| < |Candidates(r, w, op)|
            && !WithinLimits(o, Candidates(r, w, op)[..|v.cache.entries| + 1])
  {
    Reached(r, o, ops);
    hide Run;
    Evicted(r, o, Run(r, o, START, ops), op, gone, kept);
  }

  lemma Evicted(r: Readers, o: Options, w: World, op: Operation, gone: Entry, kept: Entry)
    requires Invariant(r, o, w) && op.Store? && gone in w.cache.entries
             && !Matches(gone, Key(op.scheme, op.host, op.request), op.request.headers)
    requires var v := Next(r, o, w, op); gone !in v.cache.entries && kept in v.cache.entries
    ensures var v := Next(r, o, w, op);
            && gone.id in v.uses && kept.id in v.uses && v.uses[gone.id] < v.uses[kept.id]
            && Accepts(r, o, op) && |v.cache.entries| < |Candidates(r, w, op)|
            && !WithinLimits(o, Candidates(r, w, op)[..|v.cache.entries| + 1])
  {
    hide Storable, NotMatching, Key, Matches, EntryFits, TotalBody, WithinLimits, Trimmed;
    StoreUnchanged(r, o, w, op);
    CandidatesFit(r, o, w, op);
    StoreAccepted(r, o, w, op);
    var all := Candidates(r, w, op);
    StillCandidate(r, w, op, gone);
    TrimmedLongest(o, all);
    hide Next, Candidates, EntryFits, Invariant, Trimmed, WithinLimits, Accepts, Matches, Key;
    var v := Next(r, o, w, op);
    OlderThanKept(v.uses, all, v.cache.entries, gone, kept);
  }

  lemma StoreUnchanged(r: Readers, o: Options, w: World, op: Operation)
    requires op.Store?
    ensures Accepts(r, o, op) || Next(r, o, w, op).cache.entries == w.cache.entries
  {
    hide Storable, Trimmed, NotMatching, TotalBody;
  }

  lemma StillCandidate(r: Readers, w: World, op: Operation, e: Entry)
    requires op.Store? && e in w.cache.entries && !Matches(e, Key(op.scheme, op.host, op.request), op.request.headers)
    ensures e in Candidates(r, w, op)
  {
    NotMatchingMembers(w.cache.entries, Key(op.scheme, op.host, op.request), op.request.headers);
    hide Matches, Key, NotMatching;
  }

  lemma OlderThanKept(uses: map<nat, nat>, all: seq<Entry>, entries: seq<Entry>, gone: Entry, kept: Entry)
    requires Used(uses, all) && Ordered(uses, all) && entries <= all
    requires gone in all && gone !in entries && kept in entries
    ensures uses[gone.id] < uses[kept.id] && |entries| < |all|
  {
    var i :| 0 <= i < |all| && all[i] == gone;
    var j :| 0 <= j < |entries| && entries[j] == kept;
    assert all[j] == kept;
    assert forall k | 0 <= k < |entries| :: entries[k] == all[k];
  }
}
