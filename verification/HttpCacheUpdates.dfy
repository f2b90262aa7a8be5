/** What a 304 does to the entry it revalidates, field by field, and what the cache then reads of it. */
module HttpCacheUpdates {
  import opened Bytes
  import opened HttpText
  import opened HttpCaching
  import opened HttpClientCaching
  import opened HttpCacheRuns
  import HttpCacheHits

  /** Fields as HttpHeaders keeps them: add and set trim names and values. */
  predicate Kept(headers: seq<Field>) {
    forall f | f in headers :: TrimOws(f.name) == f.name && TrimOws(f.value) == f.value
  }

  /** The value of the last field of that name. */
  function LastValue(headers: seq<Field>, name: Bytes): Option<Bytes> {
    var all := Values(headers, name);
    if all == [] then None else Some(all[|all| - 1])
  }

  lemma {:induction false} UnsetValues(headers: seq<Field>, gone: Bytes, name: Bytes)
    ensures Values(Unset(headers, gone), name) == if SameName(gone, name) then [] else Values(headers, name)
    decreases |headers|
  {
    if headers != [] {
      UnsetValues(headers[1..], gone, name);
      var rest := Unset(headers[1..], gone);
      assert ([headers[0]] + rest)[1..] == rest;
      assert [] + rest == rest;
    }
  }

  lemma SetValues(headers: seq<Field>, f: Field, name: Bytes)
    requires Kept([f])
    ensures Values(SetField(headers, f.name, f.value), name)
            == if SameName(f.name, name) then [f.value] else Values(headers, name)
  {
    assert f in [f];
    hide TrimOws, SameName, Values, Unset;
    UnsetValues(headers, f.name, name);
    HttpCacheHits.OneMoreValue(Unset(headers, f.name), f, name);
    assert [] + [f.value] == [f.value];
    assert Values(headers, name) + [] == Values(headers, name);
  }

  lemma LastOfMore(headers: seq<Field>, name: Bytes)
    requires headers != []
    ensures var rest := LastValue(headers[1..], name);
            LastValue(headers, name) == if rest.Some? then rest
                                        else if SameName(headers[0].name, name) then Some(headers[0].value) else None
  {
    hide SameName;
    var first: seq<Bytes> := if SameName(headers[0].name, name) then [headers[0].value] else [];
    assert Values(headers, name) == first + Values(headers[1..], name);
  }

  /**
   * Setting the fields of one list in another, in order: every name that occurs in the source has one
   * value afterwards, that of its last occurrence there; every other name keeps its values.
   */
  lemma {:induction false} SetHeadersValues(headers: seq<Field>, source: seq<Field>, name: Bytes)
    requires Kept(source)
    ensures Values(SetHeaders(headers, source), name)
            == if LastValue(source, name).Some? then [LastValue(source, name).value] else Values(headers, name)
    decreases |source|
  {
    hide Kept, LastValue, SameName, Values, SetField;
    if source == [] {
      NothingLast(name);
    } else {
      KeptParts(source);
      SetHeadersValues(SetField(headers, source[0].name, source[0].value), source[1..], name);
      SetValues(headers, source[0], name);
      LastOfMore(source, name);
    }
  }

  lemma NothingLast(name: Bytes)
    ensures LastValue([], name) == None
  {
  }

  lemma KeptParts(source: seq<Field>)
    requires Kept(source) && source != []
    ensures Kept([source[0]]) && Kept(source[1..])
  {
  }

  /**
   * In every run: a 304 for an entry that is still there moves it to the front of the others, replaces
   * the fields it names and no other, restarts its clock, and leaves its body, its key and what it is
   * compared by; the response handed out is that entry's. One for an entry that is gone does nothing.
   */
  lemma UpdateRefreshes(r: Readers, o: Options, ops: seq<Operation>, i: nat, update: Response, at: Instant)
    requires i < |Run(r, o, START, ops).cache.entries| && Kept(update.headers)
    ensures var c := Run(r, o, START, ops).cache;
            var e := c.entries[i];
            var (d, result) := After304(c, e.id, update, at);
            && |d.entries| == |c.entries| && d.entries[1..] == c.entries[..i] + c.entries[i + 1..]
            && d.nextId == c.nextId && d.totalBodyBytes == c.totalBodyBytes
            && var u := d.entries[0];
            && u.id == e.id && u.key == e.key && u.requestHeaders == e.requestHeaders && u.vary == e.vary
            && u.storedAt == at && u.bodyBytes == e.bodyBytes
            && u.response.status == e.response.status && u.response.body == e.response.body
            && (forall name ::
                  Values(u.response.headers, name) ==
                  if LastValue(update.headers, name).Some? then [LastValue(update.headers, name).value]
                  else Values(e.response.headers, name))
            && result == Some(u.response.(source := Revalidated))
  {
    Reached(r, o, ops);
    var w := Run(r, o, START, ops);
    hide Run, EntriesFit, WithinLimits, TotalBody;
    var e := w.cache.entries[i];
    PositionUnique(w.uses, w.cache.entries, i);
    forall name
      ensures Values(SetHeaders(e.response.headers, update.headers), name) ==
              if LastValue(update.headers, name).Some? then [LastValue(update.headers, name).value]
              else Values(e.response.headers, name)
    {
      SetHeadersValues(e.response.headers, update.headers, name);
    }
    hide SetHeaders, Values, LastValue, PositionOf, Kept;
  }

  /** Identifiers are distinct, so looking for one finds its entry. */
  lemma {:induction false} PositionUnique(uses: map<nat, nat>, entries: seq<Entry>, i: nat)
    requires i < |entries| && Used(uses, entries) && Ordered(uses, entries)
    ensures PositionOf(entries, entries[i].id) == i
    decreases |entries|
  {
    if i > 0 {
      OthersDiffer(uses, entries, i, 0);
      assert forall e | e in entries[1..] :: e in entries;
      assert forall a | 0 <= a < |entries| - 1 :: entries[1..][a] == entries[a + 1];
      PositionUnique(uses, entries[1..], i - 1);
    }
  }

  lemma {:induction false} PositionGone(entries: seq<Entry>, id: nat)
    requires forall e | e in entries :: e.id != id
    ensures PositionOf(entries, id) == |entries|
    decreases |entries|
  {
    if entries != [] {
      assert entries[0] in entries;
      PositionGone(entries[1..], id);
    }
  }

  lemma UpdateOfGone(c: Cache, id: nat, update: Response, at: Instant)
    requires forall e | e in c.entries :: e.id != id
    ensures After304(c, id, update, at) == (c, None)
  {
    PositionGone(c.entries, id);
  }

  /** One Cache-Control line is read as its directives. */
  lemma OneLine(r: Readers, headers: seq<Field>, v: Bytes)
    requires Values(headers, Ascii("Cache-Control")) == [v]
    ensures CacheControl(r, headers) == r.directives(v)
  {
    hide Ascii;
    var one := [v];
    assert one[1..] == [];
    assert ReadAll(r, one) == r.directives(v) + ReadAll(r, one[1..]);
    assert r.directives(v) + [] == r.directives(v);
  }

  /**
   * So the lifetime after a 304 with a max-age is that max-age, counted from the 304: with the time since
   * then and the Age of the 304, a lookup is fresh exactly while these are below it.
   */
  lemma RevalidatedLifetime(r: Readers, headers: seq<Field>, update: seq<Field>, at: Instant, later: Instant, n: nat)
    requires Kept(update) && LastValue(update, Ascii("Cache-Control")).Some?
    requires DeltaSeconds(r.directives(LastValue(update, Ascii("Cache-Control")).value), Ascii("max-age")) == Some(n)
    ensures var u := SetHeaders(headers, update);
            var directives := r.directives(LastValue(update, Ascii("Cache-Control")).value);
            && FreshnessLifetime(r, u, at) == Some(n)
            && (HttpCaching.Fresh(r, u, at, later) <==>
                  && !Has(directives, Ascii("no-store")) && !Has(directives, Ascii("no-cache"))
                  && Signed64(AgeValue(u) + SecondsBetween(at, later)) < n)
  {
    var v := LastValue(update, Ascii("Cache-Control")).value;
    SetHeadersValues(headers, update, Ascii("Cache-Control"));
    hide Ascii, SetHeaders, Values, LastValue, DeltaSeconds, AgeValue, SecondsBetween, Has;
    OneLine(r, SetHeaders(headers, update), v);
    hide CacheControl;
  }
}
