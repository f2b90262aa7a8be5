/** What a lookup answers after any operations: the right body, how old it may be, and what it varies on. */
module HttpCacheHits {
  import opened Bytes
  import opened DecimalText
  import opened HttpText
  import opened HttpCaching
  import opened HttpFreshness
  import opened HttpCacheKeys
  import opened HttpClientCaching
  import opened HttpCacheRuns

  /** A store followed by the same lookup selects the new entry. */
  lemma StoreThenLookup(r: Readers, o: Options, ops: seq<Operation>, op: Operation, later: Instant)
    requires op.Store? && Accepts(r, o, op) && o.maxEntries >= 1
    ensures var w := Run(r, o, START, ops);
            AfterLookup(r, Next(r, o, w, op).cache, op.scheme, op.host, op.request, later).1.entryId
              == Some(w.cache.nextId)
  {
    assert RequestAllows(r, op.request);
    hide Run, Next, Key, Accepts, RequestAllows, HttpCaching.Fresh, ForcesRevalidation;
    SelectsNewest(r, o, Run(r, o, START, ops), op, op.scheme, op.host, op.request, later);
  }

  lemma NewestStays(r: Readers, o: Options, w: World, op: Operation)
    requires op.Store? && Accepts(r, o, op) && o.maxEntries >= 1
    ensures Trimmed(o, Candidates(r, w, op)) != []
  {
    var all := Candidates(r, w, op);
    TrimmedLongest(o, all);
    hide Trimmed, NotMatching, RequestAllows, AllowsStorage, FreshnessLifetime, HasValidator;
    assert all[..1] == [all[0]];
    TotalSnoc([], all[0]);
    assert [] + [all[0]] == [all[0]];
  }

  predicate PlainOperation(op: Operation) { (op.Lookup? || op.Store?) ==> Plain(op.scheme, op.host) }

  /** Any request with the key and the fields of the one just stored is answered from the new entry. */
  lemma SelectsNewest(r: Readers, o: Options, w: World, op: Operation, scheme: Bytes, host: Bytes, request: Request,
      later: Instant)
    requires op.Store? && Accepts(r, o, op) && o.maxEntries >= 1
    requires Key(scheme, host, request) == Key(op.scheme, op.host, op.request)
    requires RequestAllows(r, request) && request.headers == op.request.headers
    ensures var e := NewEntry(r, w.cache.nextId, op.scheme, op.host, op.request, op.response, op.now);
            AfterLookup(r, Next(r, o, w, op).cache, scheme, host, request, later).1 == Answer(r, e, request, later)
  {
    var v := Next(r, o, w, op);
    var all := Candidates(r, w, op);
    StoreAccepted(r, o, w, op);
    TrimmedLongest(o, all);
    NewestStays(r, o, w, op);
    assert v.cache.entries[0] == all[0];
    hide Next, Trimmed, WithinLimits, NotMatching, Key, CacheableMethod, Answer, RequestAllows;
    assert Matches(v.cache.entries[0], Key(scheme, host, request), request.headers);
  }

  lemma ServesNewest(r: Readers, o: Options, w: World, op: Operation, scheme: Bytes, host: Bytes, request: Request,
      later: Instant)
    requires op.Store? && Accepts(r, o, op) && o.maxEntries >= 1
    requires Key(scheme, host, request) == Key(op.scheme, op.host, op.request)
    requires RequestAllows(r, request) && request.headers == op.request.headers && !ForcesRevalidation(r, request)
    requires HttpCaching.Fresh(r, op.response.headers, op.now, later)
    ensures var result := AfterLookup(r, Next(r, o, w, op).cache, scheme, host, request, later).1;
            result.state == LookupState.Fresh && result.response == Some(op.response.(source := FromCache))
  {
    hide Next, Key, Accepts, RequestAllows, HttpCaching.Fresh, ForcesRevalidation, AfterLookup;
    SelectsNewest(r, o, w, op, scheme, host, request, later);
  }

  /**
   * What the clash does: a response stored for a target that spells a request line is served, in
   * any state of the cache, to a lookup for another host whose name has spaces in it.
   */
  lemma OtherHostAnswers(r: Readers, o: Options, ops: seq<Operation>, scheme: Bytes, host: Bytes, verb: Bytes,
      a: Bytes, b: Bytes, headers: seq<Field>, response: Response, now: Instant)
    requires var request := RequestFor(verb, a + [SP] + verb + [SP] + b, headers);
             Accepts(r, o, Store(scheme, host, request, response, now)) && !ForcesRevalidation(r, request)
    requires o.maxEntries >= 1 && HttpCaching.Fresh(r, response.headers, now, now)
    ensures var op := Store(scheme, host, RequestFor(verb, a + [SP] + verb + [SP] + b, headers), response, now);
            var other := host + [SP] + verb + [SP] + a;
            var result := AfterLookup(r, Next(r, o, Run(r, o, START, ops), op).cache, scheme, other,
              RequestFor(verb, b, headers), now).1;
            other != host && result.state == LookupState.Fresh
              && result.response == Some(response.(source := FromCache))
  {
    var request := RequestFor(verb, a + [SP] + verb + [SP] + b, headers);
    var op := Store(scheme, host, request, response, now);
    SpacesClash(scheme, host, verb, a, b, headers);
    assert RequestAllows(r, RequestFor(verb, b, headers)) && !ForcesRevalidation(r, RequestFor(verb, b, headers));
    hide Run, Next, Key, Accepts, RequestAllows, HttpCaching.Fresh, ForcesRevalidation, AfterLookup;
    var other := host + [SP] + verb + [SP] + a;
    ServesNewest(r, o, Run(r, o, START, ops), op, scheme, other, RequestFor(verb, b, headers), now);
  }

  predicate AllPlain(w: World) {
    forall id | id in w.stored :: Plain(w.stored[id].scheme, w.stored[id].host)
  }

  lemma {:induction false} PlainStays(r: Readers, o: Options, w: World, ops: seq<Operation>)
    requires AllPlain(w) && forall op | op in ops :: PlainOperation(op)
    ensures AllPlain(Run(r, o, w, ops))
    decreases |ops|
  {
    hide Plain, AfterLookup, AfterStore, After304;
    if ops != [] {
      assert PlainOperation(ops[0]);
      PlainStays(r, o, Next(r, o, w, ops[0]), ops[1..]);
    }
  }

  /** All the Vary lines of a response together. */
  function VaryOf(r: Readers, values: seq<Bytes>): Vary {
    if values == [] then Vary(false, [])
    else
      var first, rest := r.vary(values[0]), VaryOf(r, values[1..]);
      Vary(first.any || rest.any, first.fields + rest.fields)
  }

  function CurrentVary(r: Readers, e: Entry): Vary { VaryOf(r, Values(e.response.headers, Ascii("Vary"))) }

  /** The response as it is now varies on nothing that the entry does not compare. */
  predicate VaryCovered(r: Readers, e: Entry) {
    && !CurrentVary(r, e).any
    && forall f | f in CurrentVary(r, e).fields :: exists g | g in e.vary.fields :: SameName(f, g)
  }

  /** The values of a field do not depend on how its name is spelled. */
  lemma {:induction false} SameValues(headers: seq<Field>, f: Bytes, g: Bytes)
    requires SameName(f, g)
    ensures Values(headers, f) == Values(headers, g)
    decreases |headers|
  {
    if headers != [] {
      SameValues(headers[1..], f, g);
    }
  }

  lemma {:induction false} OneMoreValue(headers: seq<Field>, f: Field, name: Bytes)
    ensures Values(headers + [f], name) == Values(headers, name) + if SameName(f.name, name) then [f.value] else []
    decreases |headers|
  {
    if headers == [] {
      assert [f][1..] == [] && headers + [f] == [f];
    } else {
      assert (headers + [f])[1..] == headers[1..] + [f];
      OneMoreValue(headers[1..], f, name);
    }
  }

  /**
   * Every request that the entry matches agrees with the Vary of its response as it is now, if and
   * only if that Vary is not "*" and each of its fields is one the entry compares.
   */
  lemma VaryAgreesIff(r: Readers, e: Entry)
    requires !e.vary.any
    ensures (forall current: seq<Field> | VaryMatches(e.vary, e.requestHeaders, current) ::
               VaryMatches(CurrentVary(r, e), e.requestHeaders, current))
            <==> VaryCovered(r, e)
  {
    hide CurrentVary;
    var now := CurrentVary(r, e);
    if VaryCovered(r, e) {
      forall current: seq<Field>, f | VaryMatches(e.vary, e.requestHeaders, current) && f in now.fields
        ensures Values(e.requestHeaders, f) == Values(current, f)
      {
        var g :| g in e.vary.fields && SameName(f, g);
        SameValues(e.requestHeaders, f, g);
        SameValues(current, f, g);
      }
    } else if now.any {
      assert VaryMatches(e.vary, e.requestHeaders, e.requestHeaders);
    } else {
      var f :| f in now.fields && forall g | g in e.vary.fields :: !SameName(f, g);
      Disagrees(e, f);
      var current := e.requestHeaders + [Field(f, [])];
      assert VaryMatches(e.vary, e.requestHeaders, current) && !VaryMatches(now, e.requestHeaders, current);
    }
  }

  /** Another value of a field the entry does not compare still selects it. */
  lemma Disagrees(e: Entry, f: Bytes)
    requires !e.vary.any && forall g | g in e.vary.fields :: !SameName(f, g)
    ensures var current := e.requestHeaders + [Field(f, [])];
            VaryMatches(e.vary, e.requestHeaders, current) && Values(current, f) != Values(e.requestHeaders, f)
  {
    var current := e.requestHeaders + [Field(f, [])];
    forall g | g in e.vary.fields ensures Values(e.requestHeaders, g) == Values(current, g) {
      OneMoreValue(e.requestHeaders, Field(f, []), g);
      assert Values(e.requestHeaders, g) + [] == Values(e.requestHeaders, g);
    }
    OneMoreValue(e.requestHeaders, Field(f, []), f);
  }

  /**
   * A fresh hit returns the body stored for the same scheme, host, method and target by a request
   * with the same values in every field that the response, as it was stored, varied on in its first
   * Vary line, and in every field it varies on now if the entry compares those. It is fresh in the
   * sense of section 4.2 of RFC 9111 if and only if the age does not overflow and the delay of the
   * response, sent for at `sent`, does not use up its lifetime.
   */
  lemma FreshHitSound(r: Readers, o: Options, ops: seq<Operation>, scheme: Bytes, host: Bytes, request: Request,
      now: Instant, sent: Instant)
    returns (id: nat, e: Entry)
    requires Plain(scheme, host) && forall op | op in ops :: PlainOperation(op)
    requires AfterLookup(r, Run(r, o, START, ops).cache, scheme, host, request, now).1.state == LookupState.Fresh
    ensures var w := Run(r, o, START, ops);
            var result := AfterLookup(r, w.cache, scheme, host, request, now).1;
            && result.entryId == Some(id) && id in w.stored && e in w.cache.entries && e.id == id
            && var s := w.stored[id];
            && s.scheme == scheme && s.host == host && s.request.verb == request.verb
               && s.request.target == request.target
            && (forall f | f in r.vary(HttpCaching.Get(s.response.headers, Ascii("Vary"))).fields ::
                  Values(s.request.headers, f) == Values(request.headers, f))
            && (VaryCovered(r, e) ==> VaryMatches(CurrentVary(r, e), s.request.headers, request.headers))
            && result.response == Some(e.response.(source := FromCache)) && e.response.body == s.response.body
            && !ForcesRevalidation(r, request)
            && (SameLifetime(r, e.response.headers, e.storedAt) && Fits(e.storedAt, now) ==>
                  (RfcFresh(r, e.response.headers, sent, e.storedAt, now) <==>
                   var age := Age(e.response.headers, e.storedAt, now);
                   var rfc := RfcAge(e.response.headers, sent, e.storedAt, now);
                   age <= MAX_SECONDS && !(age < FreshnessLifetime(r, e.response.headers, e.storedAt).value <= rfc)))
  {
    Reached(r, o, ops);
    PlainStays(r, o, START, ops);
    hide Run;
    var w := Run(r, o, START, ops);
    var i := Selected(w.cache.entries, Key(scheme, host, request), request.headers);
    e := w.cache.entries[i];
    id := e.id;
    assert e in w.cache.entries && EntryFits(r, e, w.stored[id]);
    var s := w.stored[id];
    CacheableHasNoSpace(s.request);
    CacheableHasNoSpace(request);
    FreshIsServable(r, e.response.headers, e.storedAt, now);
    VaryAgreesIff(r, e);
    hide Key, ForcesRevalidation, HttpCaching.Fresh, RfcFresh, Servable, TotalBody, WithinLimits, CacheableMethod,
      VaryCovered, CurrentVary, SameLifetime, Fits, RfcAge, Age, FreshnessLifetime;
    if SameLifetime(r, e.response.headers, e.storedAt) && Fits(e.storedAt, now) {
      FreshRightIff(r, e.response.headers, sent, e.storedAt, now);
    }
    KeyInjective(s.scheme, s.host, s.request, scheme, host, request);
  }

  lemma FreshIsServable(r: Readers, headers: seq<Field>, stored: Instant, now: Instant)
    requires HttpCaching.Fresh(r, headers, stored, now)
    ensures Servable(r, headers, stored)
    ensures FreshnessLifetime(r, headers, stored).Some?
  {
  }

  lemma AcceptedAllows(r: Readers, o: Options, op: Operation)
    requires op.Store? && Accepts(r, o, op)
    ensures RequestAllows(r, op.request)
  {
  }

  /**
   * The overflow seen from outside: the oldest possible response, stored with max-age=60, is a
   * fresh hit a second later.
   */
  lemma OldestIsServed(r: Readers, o: Options, ops: seq<Operation>, op: Operation, control: Bytes, sent: Instant,
      later: Instant)
    requires op.Store? && Accepts(r, o, op) && o.maxEntries >= 1 && !ForcesRevalidation(r, op.request)
    requires later == op.now + NANOS && SixtySeconds(r, control)
    requires op.response.headers == [MaxAge(control), Aged(MAX_SECONDS)]
    ensures var c := Next(r, o, Run(r, o, START, ops), op).cache;
            && AfterLookup(r, c, op.scheme, op.host, op.request, later).1.state == LookupState.Fresh
            && !RfcFresh(r, op.response.headers, sent, op.now, later)
  {
    hide *;
    OldestCountsAsFresh(r, sent, op.now, control);
    AcceptedAllows(r, o, op);
    ServesNewest(r, o, Run(r, o, START, ops), op, op.scheme, op.host, op.request, later);
  }

  /** The missing delay: a response that took 100 seconds, stored with max-age=60, is a fresh hit a second later. */
  lemma SlowIsServed(r: Readers, o: Options, ops: seq<Operation>, op: Operation, control: Bytes, sent: Instant,
      later: Instant)
    requires op.Store? && Accepts(r, o, op) && o.maxEntries >= 1 && !ForcesRevalidation(r, op.request)
    requires op.now == sent + 100 * NANOS && later == op.now + NANOS
    requires SixtySeconds(r, control)
    requires op.response.headers == [MaxAge(control)]
    ensures var c := Next(r, o, Run(r, o, START, ops), op).cache;
            && AfterLookup(r, c, op.scheme, op.host, op.request, later).1.state == LookupState.Fresh
            && !RfcFresh(r, op.response.headers, sent, op.now, later)
  {
    hide *;
    SlowCountsAsFresh(r, sent, control);
    AcceptedAllows(r, o, op);
    ServesNewest(r, o, Run(r, o, START, ops), op, op.scheme, op.host, op.request, later);
  }

  /** A 304 response that says only what the response varies on. */
  function VaryUpdate(v: Bytes): Response { Response.Response(304, [Field(Ascii("Vary"), v)], [], Network) }

  function Updating(control: Bytes, v: Bytes): seq<Field> { [MaxAge(control), Field(Ascii("Vary"), TrimOws(v))] }

  function Asking(request: Request, f: Bytes, x: Bytes): Request {
    request.(headers := request.headers + [Field(f, x)])
  }

  lemma VaryName()
    ensures !SameName(Ascii("Vary"), Ascii("Cache-Control")) && !SameName(Ascii("Cache-Control"), Ascii("Vary"))
    ensures !SameName(Ascii("Vary"), Ascii("Age"))
    ensures TrimOws(Ascii("Vary")) == Ascii("Vary")
  {
    assert |Lower(Ascii("Cache-Control"))| == 13 && |Lower(Ascii("Age"))| == 3 && |Lower(Ascii("Vary"))| == 4;
    assert Ascii("Vary")[0] == 'V' as int && Ascii("Vary")[3] == 'y' as int;
  }

  lemma UpdatedFields(control: Bytes, v: Bytes)
    ensures SetHeaders([MaxAge(control)], [Field(Ascii("Vary"), v)]) == Updating(control, v)
    ensures Values(Updating(control, v), Ascii("Vary")) == [TrimOws(v)]
    ensures Values([MaxAge(control)], Ascii("Vary")) == []
  {
    VaryName();
    SameItself(Ascii("Vary"));
    hide SameName, Ascii, TrimOws;
    var field := Field(Ascii("Vary"), v);
    assert [field][1..] == [] && [MaxAge(control)][1..] == [];
    var none: seq<Field> := [];
    assert Unset(none, Ascii("Vary")) == [];
    assert Unset([MaxAge(control)], Ascii("Vary")) == [MaxAge(control)];
    assert SetField([MaxAge(control)], Ascii("Vary"), v) == Updating(control, v);
    assert SetHeaders(Updating(control, v), none) == Updating(control, v);
    assert Updating(control, v) == [MaxAge(control)] + [Field(Ascii("Vary"), TrimOws(v))];
    OneMoreValue([MaxAge(control)], Field(Ascii("Vary"), TrimOws(v)), Ascii("Vary"));
    assert Values([MaxAge(control)], Ascii("Vary")) == Values(none, Ascii("Vary"));
  }

  /** What was revalidated with max-age=60 is fresh for less than 60 seconds. */
  lemma UpdatedIsFresh(r: Readers, control: Bytes, v: Bytes, at: Instant, later: Instant)
    requires SixtySeconds(r, control) && at <= later < at + 60 * NANOS
    ensures HttpCaching.Fresh(r, Updating(control, v), at, later)
  {
    hide SameName, Ascii, TrimOws, Servable, FreshnessLifetime, HttpCaching.Fresh, CacheControl, SixtySeconds, AgeValue;
    var headers := Updating(control, v);
    VaryName();
    ControlThere(r, control, Field(Ascii("Vary"), TrimOws(v)));
    SixtySecondsSay(r, control);
    AlwaysServable(r, headers, at);
    ExactDifference(at, later);
    FreshIs(r, headers, at, later);
    NoAge(control, v);
  }

  lemma SixtySecondsSay(r: Readers, control: Bytes)
    requires SixtySeconds(r, control)
    ensures r.directives(control) == [Directive(Ascii("max-age"), Some(Decimal(60)))]
  {
    hide Ascii, Decimal;
  }

  lemma NoAge(control: Bytes, v: Bytes)
    ensures AgeValue(Updating(control, v)) == 0
  {
    NamesApart();
    VaryName();
    assert TrimOws([]) == [];
    hide SameName, Ascii, TrimOws;
    var other := Field(Ascii("Vary"), TrimOws(v));
    assert Updating(control, v)[1..] == [other] && [other][1..] == [];
    assert Values([other], Ascii("Age")) == [] && Values(Updating(control, v), Ascii("Age")) == [];
  }

  /** A field that is neither Authorization nor Cache-Control does not change what the cache may do. */
  lemma AskingAllowed(r: Readers, request: Request, f: Bytes, x: Bytes)
    requires !SameName(f, Ascii("Authorization")) && !SameName(f, Ascii("Cache-Control"))
    ensures RequestAllows(r, Asking(request, f, x)) == RequestAllows(r, request)
    ensures ForcesRevalidation(r, Asking(request, f, x)) == ForcesRevalidation(r, request)
  {
    hide Ascii, SameName;
    OneMoreValue(request.headers, Field(f, x), Ascii("Authorization"));
    OneMoreValue(request.headers, Field(f, x), Ascii("Cache-Control"));
    assert Values(request.headers, Ascii("Cache-Control")) + [] == Values(request.headers, Ascii("Cache-Control"));
  }

  /** The entry just stored is the one a revalidation under its identifier refreshes. */
  lemma NewestUpdated(r: Readers, o: Options, w: World, op: Operation, update: Response, at: Instant)
    requires op.Store? && Accepts(r, o, op) && o.maxEntries >= 1
    ensures var e := NewEntry(r, w.cache.nextId, op.scheme, op.host, op.request, op.response, op.now);
            var u := Next(r, o, Next(r, o, w, op), Update(w.cache.nextId, update, at));
            u.cache.entries != [] && u.cache.entries[0] == Updated(e, update, at)
  {
    var all := Candidates(r, w, op);
    StoreAccepted(r, o, w, op);
    TrimmedLongest(o, all);
    NewestStays(r, o, w, op);
    hide Trimmed, WithinLimits, NotMatching, Key, CacheableMethod, RequestAllows, Updated;
    var v := Next(r, o, w, op);
    assert v.cache.entries[0] == all[0];
    assert PositionOf(v.cache.entries, w.cache.nextId) == 0;
  }

  /**
   * The input on which the Vary of the response is not observed: a response stored without Vary, a
   * 304 that adds one, and a request with another value of the field it names.
   */
  lemma AddedVaryIgnored(r: Readers, o: Options, ops: seq<Operation>, op: Operation, control: Bytes, v: Bytes, f: Bytes,
      x: Bytes, at: Instant, later: Instant)
    requires op.Store? && Accepts(r, o, op) && o.maxEntries >= 1 && !ForcesRevalidation(r, op.request)
    requires SixtySeconds(r, control) && op.response.headers == [MaxAge(control)] && at <= later < at + 60 * NANOS
    requires r.vary([]) == Vary(false, []) && r.vary(TrimOws(v)) == Vary(false, [f])
    requires !SameName(f, Ascii("Authorization")) && !SameName(f, Ascii("Cache-Control"))
    ensures var w := Run(r, o, START, ops);
            var u := Next(r, o, Next(r, o, w, op), Update(w.cache.nextId, VaryUpdate(v), at));
            var other := Asking(op.request, f, x);
            var result := AfterLookup(r, u.cache, op.scheme, op.host, other, later).1;
            && result.state == LookupState.Fresh && result.response.Some?
            && VaryOf(r, Values(result.response.value.headers, Ascii("Vary"))) == Vary(false, [f])
            && !VaryMatches(Vary(false, [f]), op.request.headers, other.headers)
  {
    var w := Run(r, o, START, ops);
    var e := NewEntry(r, w.cache.nextId, op.scheme, op.host, op.request, op.response, op.now);
    var u := Next(r, o, Next(r, o, w, op), Update(w.cache.nextId, VaryUpdate(v), at));
    UpdatedFields(control, v);
    assert Updated(e, VaryUpdate(v), at).response.headers == Updating(control, v);
    assert e.vary == Vary(false, []);
    hide Run, Next, Accepts, RequestAllows, ForcesRevalidation, SixtySeconds, HttpCaching.Fresh, Ascii, SameName, Key,
      TrimOws, SetHeaders, Updating, HasValidator;
    AcceptedAllows(r, o, op);
    NewestUpdated(r, o, w, op, VaryUpdate(v), at);
    AskingAllowed(r, op.request, f, x);
    UpdatedIsFresh(r, control, v, at, later);
    FrontServes(r, u.cache, Updated(e, VaryUpdate(v), at), op.scheme, op.host, Asking(op.request, f, x), later);
    OneMoreValue(op.request.headers, Field(f, x), f);
    SameItself(f);
    OneVary(r, TrimOws(v));
  }

  /** A fresh entry in front that compares nothing serves every request with its key. */
  lemma FrontServes(r: Readers, c: Cache, e: Entry, scheme: Bytes, host: Bytes, request: Request, now: Instant)
    requires c.entries != [] && c.entries[0] == e && e.key == Key(scheme, host, request) && e.vary == Vary(false, [])
    requires RequestAllows(r, request) && !ForcesRevalidation(r, request)
    requires HttpCaching.Fresh(r, e.response.headers, e.storedAt, now)
    ensures var result := AfterLookup(r, c, scheme, host, request, now).1;
            result.state == LookupState.Fresh && result.response == Some(e.response.(source := FromCache))
  {
    hide RequestAllows, ForcesRevalidation, HttpCaching.Fresh, Key, HasValidator;
    assert Matches(e, Key(scheme, host, request), request.headers);
  }

  lemma OneVary(r: Readers, v: Bytes)
    ensures VaryOf(r, [v]) == Vary(r.vary(v).any, r.vary(v).fields)
  {
    assert [v][1..] == [];
    assert r.vary(v).fields + [] == r.vary(v).fields;
  }
}
