/** Which responses the client cache keeps and which requests it answers, in terms of the fields themselves. */
module HttpCachePolicy {
  import opened Bytes
  import opened HttpText
  import opened HttpCaching
  import opened HttpClientCaching
  import opened HttpCacheRuns
  import HttpCacheHits

  /** Some Cache-Control line has a directive of that name. */
  predicate Directed(r: Readers, headers: seq<Field>, name: Bytes) {
    exists v | v in Values(headers, Ascii("Cache-Control")) :: exists d | d in r.directives(v) :: SameName(d.name, name)
  }

  /** GET or HEAD in any case, without body and Authorization, and not told to store nothing. */
  predicate Open(r: Readers, request: Request) {
    && (SameName(request.verb, Ascii("GET")) || SameName(request.verb, Ascii("HEAD")))
    && request.body == [] && Values(request.headers, Ascii("Authorization")) == []
    && !Directed(r, request.headers, Ascii("no-store"))
  }

  /** A response that can be asked about later. */
  predicate Validated(response: Response) {
    Values(response.headers, Ascii("ETag")) != [] || Values(response.headers, Ascii("Last-Modified")) != []
  }

  /** A complete answer within the limits that may be stored and will be of use: with a lifetime or a validator. */
  predicate Keepable(r: Readers, o: Options, response: Response, now: Instant) {
    && response.status == 200 && |response.body| <= o.maxBodyBytes && |response.body| <= o.maxTotalBodyBytes
    && !Directed(r, response.headers, Ascii("no-store"))
    && (FreshnessLifetime(r, response.headers, now).Some? || Validated(response))
    && !r.vary(FirstOf(Values(response.headers, Ascii("Vary")))).any
  }

  function FirstOf(values: seq<Bytes>): Bytes { if values == [] then [] else values[0] }

  lemma {:induction false} ReadAllHas(r: Readers, values: seq<Bytes>, name: Bytes)
    ensures Has(ReadAll(r, values), name) <==>
            exists v | v in values :: exists d | d in r.directives(v) :: SameName(d.name, name)
    decreases |values|
  {
    hide SameName;
    if values != [] {
      ReadAllHas(r, values[1..], name);
      assert values == [values[0]] + values[1..];
      var first, rest := r.directives(values[0]), ReadAll(r, values[1..]);
      assert forall d | d in first + rest :: d in first || d in rest;
      assert forall d | d in first || d in rest :: d in first + rest;
    }
  }

  lemma DirectedIs(r: Readers, headers: seq<Field>, name: Bytes)
    ensures Has(CacheControl(r, headers), name) <==> Directed(r, headers, name)
  {
    ReadAllHas(r, Values(headers, Ascii("Cache-Control")), name);
  }

  lemma OpenIs(r: Readers, request: Request)
    ensures RequestAllows(r, request) <==> Open(r, request)
  {
    DirectedIs(r, request.headers, Ascii("no-store"));
    hide Directed, Has, SameName, Ascii, Values, CacheControl;
  }

  lemma KeepableIs(r: Readers, o: Options, response: Response, now: Instant)
    ensures ResponseAllows(r, o, response, now) && !r.vary(HttpCaching.Get(response.headers, Ascii("Vary"))).any
            <==> Keepable(r, o, response, now)
  {
    DirectedIs(r, response.headers, Ascii("no-store"));
    hide Directed, Has, Ascii, Values, CacheControl, FreshnessLifetime;
  }

  /**
   * In every run a store puts a new entry in front, if and only if the request is open, the response
   * keepable and there is room for one entry; the entry is the response as it came.
   */
  lemma StoredIff(r: Readers, o: Options, ops: seq<Operation>, op: Operation)
    requires op.Store?
    ensures var w := Run(r, o, START, ops);
            var v := Next(r, o, w, op).cache;
            && ((exists e | e in v.entries :: e.id == w.cache.nextId) <==>
                  Open(r, op.request) && Keepable(r, o, op.response, op.now) && o.maxEntries >= 1)
            && forall e | e in v.entries && e.id == w.cache.nextId ::
                 && e == v.entries[0] && e.key == Key(op.scheme, op.host, op.request)
                 && e.requestHeaders == op.request.headers && e.response == op.response.(source := FromCache)
                 && e.storedAt == op.now && e.bodyBytes == |op.response.body|
                 && e.vary == r.vary(FirstOf(Values(op.response.headers, Ascii("Vary"))))
  {
    Reached(r, o, ops);
    var w := Run(r, o, START, ops);
    OpenIs(r, op.request);
    KeepableIs(r, o, op.response, op.now);
    hide Run, Open, Keepable, RequestAllows, ResponseAllows, Values, Ascii, Key;
    IdsBelow(r, o, w);
    if Accepts(r, o, op) {
      PutInFront(r, o, w, op);
    } else {
      NothingPut(r, o, w, op);
    }
  }

  lemma IdsBelow(r: Readers, o: Options, w: World)
    requires Invariant(r, o, w)
    ensures forall e | e in w.cache.entries :: e.id < w.cache.nextId
  {
    hide EntryFits, Ordered, WithinLimits, TotalBody;
  }

  lemma NothingPut(r: Readers, o: Options, w: World, op: Operation)
    requires op.Store? && !Accepts(r, o, op)
    ensures Next(r, o, w, op).cache.entries == w.cache.entries
  {
    hide Storable;
  }

  lemma PutInFront(r: Readers, o: Options, w: World, op: Operation)
    requires op.Store? && Accepts(r, o, op) && forall e | e in w.cache.entries :: e.id < w.cache.nextId
    ensures var v := Next(r, o, w, op).cache;
            var e := NewEntry(r, w.cache.nextId, op.scheme, op.host, op.request, op.response, op.now);
            && (o.maxEntries >= 1 ==> v.entries != [] && v.entries[0] == e)
            && (o.maxEntries == 0 ==> v.entries == [])
            && forall f | f in v.entries && f.id == w.cache.nextId :: f == e
  {
    var all := Candidates(r, w, op);
    var e := all[0];
    StoreAccepted(r, o, w, op);
    TrimmedLongest(o, all);
    NotMatchingMembers(w.cache.entries, e.key, op.request.headers);
    if o.maxEntries >= 1 {
      HttpCacheHits.NewestStays(r, o, w, op);
    }
    hide Trimmed, NotMatching, TotalBody, Accepts, Next, NewEntry;
    var kept := Trimmed(o, all);
    forall f | f in kept && f.id == w.cache.nextId ensures f == e {
      assert f in all;
    }
  }

  /** The request has the key of the entry, and the same values in every field the entry compares. */
  predicate Agrees(e: Entry, key: Bytes, headers: seq<Field>) {
    e.key == key && !e.vary.any && forall f | f in e.vary.fields :: Values(e.requestHeaders, f) == Values(headers, f)
  }

  /** The request asks for a fresh answer: no-cache, or a first max-age of 0. */
  predicate AsksAnew(r: Readers, request: Request) {
    || Directed(r, request.headers, Ascii("no-cache"))
    || DeltaSeconds(CacheControl(r, request.headers), Ascii("max-age")) == Some(0)
  }

  /**
   * What a lookup answers. A request that is not open misses. Otherwise the first entry that agrees moves
   * to the front, and it is served if it is fresh and the request does not ask anew; if not, it is offered
   * for validation when it has a validator.
   */
  lemma LookupIs(r: Readers, c: Cache, scheme: Bytes, host: Bytes, request: Request, now: Instant) returns (i: nat)
    ensures i <= |c.entries|
    ensures var key := Key(scheme, host, request);
            && (forall k | 0 <= k < i :: !Agrees(c.entries[k], key, request.headers))
            && (i < |c.entries| ==> Agrees(c.entries[i], key, request.headers))
    ensures var (d, result) := AfterLookup(r, c, scheme, host, request, now);
            if !Open(r, request) || i == |c.entries| then (d, result) == (c, LookupResult(Miss, None, None))
            else
              var e := c.entries[i];
              var serves := HttpCaching.Fresh(r, e.response.headers, e.storedAt, now) && !AsksAnew(r, request);
              && d == c.(entries := [e] + c.entries[..i] + c.entries[i + 1..])
              && result.entryId == Some(e.id)
              && result.response == (if serves then Some(e.response.(source := FromCache)) else None)
              && result.state == if serves then LookupState.Fresh else if Validated(e.response) then Stale else Miss
  {
    var key := Key(scheme, host, request);
    i := Selected(c.entries, key, request.headers);
    OpenIs(r, request);
    DirectedIs(r, request.headers, Ascii("no-cache"));
    SelectedFirst(c.entries, key, request.headers);
    hide Open, RequestAllows, Key, Has, Directed, Values, Ascii, HttpCaching.Fresh, DeltaSeconds, CacheControl,
      Selected;
  }

  lemma {:induction false} SelectedFirst(entries: seq<Entry>, key: Bytes, headers: seq<Field>)
    ensures forall k | 0 <= k < Selected(entries, key, headers) :: !Agrees(entries[k], key, headers)
    ensures var i := Selected(entries, key, headers); i < |entries| ==> Agrees(entries[i], key, headers)
    decreases |entries|
  {
    if entries != [] && !Matches(entries[0], key, headers) {
      SelectedFirst(entries[1..], key, headers);
      forall k | 0 <= k < Selected(entries, key, headers) ensures !Agrees(entries[k], key, headers) {
        if k > 0 {
          assert entries[k] == entries[1..][k - 1];
        }
      }
    }
  }

  /** Fresh in terms of the fields: servable without asking, and younger than its lifetime. */
  lemma FreshFields(r: Readers, headers: seq<Field>, stored: Instant, now: Instant)
    ensures HttpCaching.Fresh(r, headers, stored, now) <==>
            && !Directed(r, headers, Ascii("no-store")) && !Directed(r, headers, Ascii("no-cache"))
            && FreshnessLifetime(r, headers, stored).Some?
            && CurrentAge(headers, stored, now) < FreshnessLifetime(r, headers, stored).value
  {
    DirectedIs(r, headers, Ascii("no-store"));
    DirectedIs(r, headers, Ascii("no-cache"));
    hide Directed, Has, Ascii, CacheControl, FreshnessLifetime, CurrentAge;
  }
}
