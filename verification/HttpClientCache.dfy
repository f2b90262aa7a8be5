/** src/http/http_client_cache.cpp: the cache of an HTTP client, a list in order of last use. */
module HttpClientCaching {
  import opened Bytes
  import opened HttpText
  import opened HttpCaching

  datatype Request = Request(verb: Bytes, target: Bytes, headers: seq<Field>, body: Bytes)

  datatype Source = Network | FromCache | Revalidated

  datatype Response = Response(status: int, headers: seq<Field>, body: Bytes, source: Source)

  datatype Options = Options(maxEntries: nat, maxBodyBytes: nat, maxTotalBodyBytes: nat)

  datatype Entry = Entry(id: nat, key: Bytes, requestHeaders: seq<Field>, vary: Vary, response: Response,
                         storedAt: Instant, bodyBytes: nat)

  /** The fields of the cache; the most recently used entry comes first. */
  datatype Cache = Cache(entries: seq<Entry>, nextId: nat, totalBodyBytes: int)

  const EMPTY := Cache([], 1, 0)

  datatype LookupState = Miss | Fresh | Stale

  datatype LookupResult = LookupResult(state: LookupState, entryId: Option<nat>, response: Option<Response>)

  const MISS := LookupResult(Miss, None, None)

  function Key(scheme: Bytes, host: Bytes, request: Request): Bytes {
    scheme + Ascii("://") + host + [SP] + request.verb + [SP] + request.target
  }

  predicate CacheableMethod(request: Request) {
    SameName(request.verb, Ascii("GET")) || SameName(request.verb, Ascii("HEAD"))
  }

  /** request_allows_cache_read and request_allows_cache_write. */
  predicate RequestAllows(r: Readers, request: Request) {
    && CacheableMethod(request) && request.body == [] && !Contains(request.headers, Ascii("Authorization"))
    && !Has(CacheControl(r, request.headers), Ascii("no-store"))
  }

  predicate ForcesRevalidation(r: Readers, request: Request) {
    var cc := CacheControl(r, request.headers);
    Has(cc, Ascii("no-cache")) || DeltaSeconds(cc, Ascii("max-age")) == Some(0)
  }

  predicate HasValidator(response: Response) {
    Contains(response.headers, Ascii("ETag")) || Contains(response.headers, Ascii("Last-Modified"))
  }

  predicate ResponseAllows(r: Readers, o: Options, response: Response, now: Instant) {
    && response.status == 200 && |response.body| <= o.maxBodyBytes && |response.body| <= o.maxTotalBodyBytes
    && AllowsStorage(r, response.headers)
    && (FreshnessLifetime(r, response.headers, now).Some? || HasValidator(response))
  }

  predicate Matches(e: Entry, key: Bytes, headers: seq<Field>) {
    e.key == key && VaryMatches(e.vary, e.requestHeaders, headers)
  }

  /** The first entry the request selects. */
  function Selected(entries: seq<Entry>, key: Bytes, headers: seq<Field>): (i: nat)
    ensures i <= |entries|
    ensures i < |entries| ==> Matches(entries[i], key, headers)
  {
    if entries == [] then 0
    else if Matches(entries[0], key, headers) then 0
    else 1 + Selected(entries[1..], key, headers)
  }

  /** std::list::splice of one entry to the front. */
  function ToFront(entries: seq<Entry>, i: nat): seq<Entry>
    requires i < |entries|
  {
    [entries[i]] + entries[..i] + entries[i + 1..]
  }

  function Answer(r: Readers, e: Entry, request: Request, now: Instant): LookupResult {
    if !ForcesRevalidation(r, request) && HttpCaching.Fresh(r, e.response.headers, e.storedAt, now) then
      LookupResult(Fresh, Some(e.id), Some(e.response.(source := FromCache)))
    else if HasValidator(e.response) then LookupResult(Stale, Some(e.id), None)
    else LookupResult(Miss, Some(e.id), None)
  }

  function AfterLookup(r: Readers, c: Cache, scheme: Bytes, host: Bytes, request: Request, now: Instant)
    : (Cache, LookupResult)
  {
    if !RequestAllows(r, request) then (c, MISS)
    else
      var i := Selected(c.entries, Key(scheme, host, request), request.headers);
      if i == |c.entries| then (c, MISS)
      else (c.(entries := ToFront(c.entries, i)), Answer(r, c.entries[i], request, now))
  }

  /** insert_or_replace drops every entry the new request would select. */
  function NotMatching(entries: seq<Entry>, key: Bytes, headers: seq<Field>): seq<Entry> {
    if entries == [] then []
    else
      var rest := NotMatching(entries[..|entries| - 1], key, headers);
      var last := entries[|entries| - 1];
      if Matches(last, key, headers) then rest else rest + [last]
  }

  function TotalBody(entries: seq<Entry>): nat {
    if entries == [] then 0 else TotalBody(entries[..|entries| - 1]) + entries[|entries| - 1].bodyBytes
  }

  predicate WithinLimits(o: Options, entries: seq<Entry>) {
    |entries| <= o.maxEntries && TotalBody(entries) <= o.maxTotalBodyBytes
  }

  /** enforce_limits keeps the longest run of most recent entries that is within the limits. */
  function Trimmed(o: Options, entries: seq<Entry>): seq<Entry> {
    if entries == [] || WithinLimits(o, entries) then entries else Trimmed(o, entries[..|entries| - 1])
  }

  function NewEntry(r: Readers, id: nat, scheme: Bytes, host: Bytes, request: Request, response: Response,
      now: Instant): Entry
  {
    Entry(id, Key(scheme, host, request), request.headers, r.vary(Get(response.headers, Ascii("Vary"))),
          response.(source := FromCache), now, |response.body|)
  }

  predicate Storable(r: Readers, o: Options, request: Request, response: Response, now: Instant) {
    RequestAllows(r, request) && ResponseAllows(r, o, response, now)
  }

  function AfterStore(r: Readers, o: Options, c: Cache, scheme: Bytes, host: Bytes, request: Request,
      response: Response, now: Instant): Cache
  {
    if !Storable(r, o, request, response, now) then c
    else
      var e := NewEntry(r, c.nextId, scheme, host, request, response, now);
      if e.vary.any then c.(nextId := c.nextId + 1)
      else
        var entries := Trimmed(o, [e] + NotMatching(c.entries, e.key, request.headers));
        Cache(entries, c.nextId + 1, TotalBody(entries))
  }

  /** HttpHeaders::set. */
  function SetField(headers: seq<Field>, name: Bytes, value: Bytes): seq<Field> {
    Unset(headers, name) + [Field(TrimOws(name), TrimOws(value))]
  }

  function Unset(headers: seq<Field>, name: Bytes): seq<Field> {
    if headers == [] then []
    else (if SameName(headers[0].name, name) then [] else [headers[0]]) + Unset(headers[1..], name)
  }

  function SetHeaders(headers: seq<Field>, source: seq<Field>): seq<Field>
    decreases |source|
  {
    if source == [] then headers
    else SetHeaders(SetField(headers, source[0].name, source[0].value), source[1..])
  }

  function PositionOf(entries: seq<Entry>, id: nat): (i: nat)
    ensures i <= |entries|
    ensures i < |entries| ==> entries[i].id == id
  {
    if entries == [] then 0 else if entries[0].id == id then 0 else 1 + PositionOf(entries[1..], id)
  }

  function Updated(e: Entry, response: Response, now: Instant): Entry {
    e.(response := e.response.(headers := SetHeaders(e.response.headers, response.headers)), storedAt := now)
  }

  function After304(c: Cache, id: nat, response: Response, now: Instant): (Cache, Option<Response>) {
    var i := PositionOf(c.entries, id);
    if i == |c.entries| then (c, None)
    else
      var e := Updated(c.entries[i], response, now);
      (c.(entries := ToFront(c.entries[i := e], i)), Some(e.response.(source := Revalidated)))
  }

  class HttpClientCache {
    const readers: Readers
    const options: Options
    var entries: seq<Entry>
    var nextId: nat
    var totalBodyBytes: int

    ghost function View(): Cache
      reads this
    {
      Cache(entries, nextId, totalBodyBytes)
    }

    /** The byte count is that of the entries. */
    ghost predicate Valid()
      reads this
    {
      totalBodyBytes == TotalBody(entries)
    }

    constructor (readers: Readers, options: Options)
      ensures this.readers == readers && this.options == options && View() == EMPTY && Valid()
    {
      this.readers, this.options := readers, options;
      entries, nextId, totalBodyBytes := [], 1, 0;
    }

    method Lookup(scheme: Bytes, host: Bytes, request: Request, now: Instant) returns (result: LookupResult)
      requires Valid()
      modifies this`entries
      ensures (View(), result) == AfterLookup(readers, old(View()), scheme, host, request, now)
      ensures Valid()
    {
      if !RequestAllows(readers, request) {
        return MISS;
      }
      var key := Key(scheme, host, request);
      var i := 0;
      while i < |entries|
        invariant i <= |entries|
        invariant Selected(entries, key, request.headers) == i + Selected(entries[i..], key, request.headers)
      {
        assert entries[i..][1..] == entries[i + 1..];
        if !Matches(entries[i], key, request.headers) {
          i := i + 1;
          continue;
        }
        var e := entries[i];
        TotalToFront(entries, i);
        entries := ToFront(entries, i);
        if !ForcesRevalidation(readers, request) && HttpCaching.Fresh(readers, e.response.headers, e.storedAt, now) {
          return LookupResult(Fresh, Some(e.id), Some(e.response.(source := FromCache)));
        }
        if HasValidator(e.response) {
          return LookupResult(Stale, Some(e.id), None);
        }
        return LookupResult(Miss, Some(e.id), None);
      }
      result := MISS;
    }

    method Store(scheme: Bytes, host: Bytes, request: Request, response: Response, now: Instant)
      requires Valid()
      modifies this
      ensures View() == AfterStore(readers, options, old(View()), scheme, host, request, response, now)
      ensures Valid()
    {
      if !RequestAllows(readers, request) || !ResponseAllows(readers, options, response, now) {
        return;
      }
      var e := NewEntry(readers, nextId, scheme, host, request, response, now);
      nextId := nextId + 1;
      if e.vary.any {
        return;
      }
      InsertOrReplace(e);
    }

    method UpdateFrom304(id: nat, response: Response, now: Instant) returns (result: Option<Response>)
      requires Valid()
      modifies this`entries
      ensures (View(), result) == After304(old(View()), id, response, now)
      ensures Valid()
    {
      var i := 0;
      while i < |entries| && entries[i].id != id
        invariant i <= |entries|
        invariant PositionOf(entries, id) == i + PositionOf(entries[i..], id)
      {
        assert entries[i..][1..] == entries[i + 1..];
        i := i + 1;
      }
      if i == |entries| {
        return None;
      }
      hide TotalBody, ToFront, Updated;
      var e := Updated(entries[i], response, now);
      TotalUpdated(entries, i, e);
      TotalToFront(entries[i := e], i);
      entries := ToFront(entries[i := e], i);
      result := Some(e.response.(source := Revalidated));
    }

    method Clear()
      modifies this`entries, this`totalBodyBytes
      ensures View() == old(View()).(entries := [], totalBodyBytes := 0) && Valid()
    {
      entries, totalBodyBytes := [], 0;
    }

    method InsertOrReplace(e: Entry)
      requires Valid()
      modifies this`entries, this`totalBodyBytes
      ensures entries == Trimmed(options, [e] + NotMatching(old(entries), e.key, e.requestHeaders))
      ensures Valid()
    {
      var kept: seq<Entry> := [];
      for i := 0 to |entries|
        invariant entries == old(entries)
        invariant kept == NotMatching(entries[..i], e.key, e.requestHeaders)
        invariant totalBodyBytes == TotalBody(kept) + TotalBody(entries) - TotalBody(entries[..i])
      {
        assert entries[..i + 1][..i] == entries[..i];
        if Matches(entries[i], e.key, e.requestHeaders) {
          totalBodyBytes := totalBodyBytes - entries[i].bodyBytes;
        } else {
          TotalSnoc(kept, entries[i]);
          kept := kept + [entries[i]];
        }
      }
      assert entries[..|entries|] == entries;
      TotalFront(e, kept);
      totalBodyBytes := totalBodyBytes + e.bodyBytes;
      entries := [e] + kept;
      EnforceLimits();
    }

    method EnforceLimits()
      requires Valid()
      modifies this`entries, this`totalBodyBytes
      ensures entries == Trimmed(options, old(entries)) && Valid()
    {
      while entries != [] && (|entries| > options.maxEntries || totalBodyBytes > options.maxTotalBodyBytes)
        invariant Valid()
        invariant Trimmed(options, entries) == Trimmed(options, old(entries))
        decreases |entries|
      {
        totalBodyBytes := totalBodyBytes - entries[|entries| - 1].bodyBytes;
        entries := entries[..|entries| - 1];
      }
    }
  }

  lemma TotalSnoc(entries: seq<Entry>, e: Entry)
    ensures TotalBody(entries + [e]) == TotalBody(entries) + e.bodyBytes
  {
    assert (entries + [e])[..|entries|] == entries;
  }

  lemma {:induction false} TotalAppend(a: seq<Entry>, b: seq<Entry>)
    ensures TotalBody(a + b) == TotalBody(a) + TotalBody(b)
    decreases |b|
  {
    if b == [] {
      assert a + b == a;
    } else {
      var init, last := b[..|b| - 1], b[|b| - 1];
      TotalAppend(a, init);
      assert a + b == (a + init) + [last];
      TotalSnoc(a + init, last);
    }
  }

  lemma TotalFront(e: Entry, entries: seq<Entry>)
    ensures TotalBody([e] + entries) == e.bodyBytes + TotalBody(entries)
  {
    TotalAppend([e], entries);
    TotalSnoc([], e);
    assert [] + [e] == [e];
  }

  lemma TotalToFront(entries: seq<Entry>, i: nat)
    requires i < |entries|
    ensures TotalBody(ToFront(entries, i)) == TotalBody(entries)
  {
    hide TotalBody;
    var e, before, after := entries[i], entries[..i], entries[i + 1..];
    assert entries == before + ([e] + after);
    TotalAppend(before, [e] + after);
    TotalFront(e, after);
    assert ToFront(entries, i) == [e] + (before + after);
    TotalFront(e, before + after);
    TotalAppend(before, after);
  }

  lemma TotalUpdated(entries: seq<Entry>, i: nat, e: Entry)
    requires i < |entries| && e.bodyBytes == entries[i].bodyBytes
    ensures TotalBody(entries[i := e]) == TotalBody(entries)
  {
    hide TotalBody;
    var before, after := entries[..i], entries[i + 1..];
    assert entries == before + ([entries[i]] + after);
    assert entries[i := e] == before + ([e] + after);
    TotalAppend(before, [e] + after);
    TotalAppend(before, [entries[i]] + after);
    TotalFront(e, after);
    TotalFront(entries[i], after);
  }
}
