/** Freshness and Vary selection as src/http/http_cache.cpp computes them. */
module HttpCaching {
  import opened Bytes
  import opened HttpText

  datatype Directive = Directive(name: Bytes, value: Option<Bytes>)

  datatype Vary = Vary(any: bool, fields: seq<Bytes>)

  const TWO_63: int := 0x8000_0000_0000_0000

  /** A point in time of the system clock, in nanoseconds. */
  type Instant = t: int | -TWO_63 <= t < TWO_63 witness 0

  /** What a signed 64-bit sum or difference comes out as. */
  function Signed64(n: int): int { (n + TWO_63) % (2 * TWO_63) - TWO_63 }

  /** How field values are read: one Cache-Control value, a Vary value, an HTTP date. */
  datatype Readers = Readers(directives: Bytes -> seq<Directive>, vary: Bytes -> Vary, date: Bytes -> Option<Instant>)

  const NANOS: int := 1_000_000_000
  const MAX_SECONDS: nat := 0x7FFF_FFFF_FFFF_FFFF

  /** HttpHeaders::get: the first value, or nothing. */
  function Get(headers: seq<Field>, name: Bytes): Bytes {
    var all := Values(headers, name);
    if all == [] then [] else all[0]
  }

  function ReadAll(r: Readers, values: seq<Bytes>): seq<Directive> {
    if values == [] then [] else r.directives(values[0]) + ReadAll(r, values[1..])
  }

  function CacheControl(r: Readers, headers: seq<Field>): seq<Directive> {
    ReadAll(r, Values(headers, Ascii("Cache-Control")))
  }

  predicate Has(ds: seq<Directive>, name: Bytes) { exists d | d in ds :: SameName(d.name, name) }

  /** The value of the first directive of that name. */
  function ValueOf(ds: seq<Directive>, name: Bytes): Option<Bytes> {
    if ds == [] then None
    else if SameName(ds[0].name, name) then ds[0].value
    else ValueOf(ds[1..], name)
  }

  function ParseDeltaSeconds(text: Bytes): (s: Option<nat>)
    ensures s.Some? ==> s.value <= MAX_SECONDS
  {
    var v := ParseU64(10, text);
    if v.None? || v.value > MAX_SECONDS then None else v
  }

  function DeltaSeconds(ds: seq<Directive>, name: Bytes): Option<nat> {
    var raw := ValueOf(ds, name);
    if raw.None? then None else ParseDeltaSeconds(raw.value)
  }

  /** clamp_nonnegative_seconds of a difference of two points in time. */
  function SecondsBetween(from: Instant, to: Instant): (s: nat)
    ensures s <= TWO_63 / NANOS
  {
    var duration := Signed64(to - from);
    if duration <= 0 then 0 else duration / NANOS
  }

  function AgeValue(headers: seq<Field>): (s: nat)
    ensures s <= MAX_SECONDS
  {
    var v := ParseDeltaSeconds(Get(headers, Ascii("Age")));
    if v.None? then 0 else v.value
  }

  /** What the code adds up: the age on arrival and the time since. */
  function Age(headers: seq<Field>, responseTime: Instant, now: Instant): nat {
    AgeValue(headers) + SecondsBetween(responseTime, now)
  }

  /** cache_current_age: that sum in 64 bits. */
  function CurrentAge(headers: seq<Field>, responseTime: Instant, now: Instant): int {
    Signed64(Age(headers, responseTime, now))
  }

  function FreshnessLifetime(r: Readers, headers: seq<Field>, responseTime: Instant): (s: Option<nat>)
    ensures s.Some? ==> s.value <= MAX_SECONDS
  {
    var maxAge := DeltaSeconds(CacheControl(r, headers), Ascii("max-age"));
    if maxAge.Some? then maxAge
    else
      var expires := r.date(Get(headers, Ascii("Expires")));
      if expires.None? then None
      else
        var date := r.date(Get(headers, Ascii("Date")));
        Some(SecondsBetween(if date.Some? then date.value else responseTime, expires.value))
  }

  predicate RequiresValidation(r: Readers, headers: seq<Field>) { Has(CacheControl(r, headers), Ascii("no-cache")) }

  predicate AllowsStorage(r: Readers, headers: seq<Field>) { !Has(CacheControl(r, headers), Ascii("no-store")) }

  /** A response that may be served without asking, as long as it is young enough. */
  predicate Servable(r: Readers, headers: seq<Field>, responseTime: Instant) {
    AllowsStorage(r, headers) && !RequiresValidation(r, headers) && FreshnessLifetime(r, headers, responseTime).Some?
  }

  /** evaluate_cache_freshness for a private cache. */
  predicate Fresh(r: Readers, headers: seq<Field>, responseTime: Instant, now: Instant) {
    Servable(r, headers, responseTime)
      && CurrentAge(headers, responseTime, now) < FreshnessLifetime(r, headers, responseTime).value
  }

  /** vary_matches_request_headers. */
  predicate VaryMatches(vary: Vary, cached: seq<Field>, current: seq<Field>) {
    !vary.any && forall f | f in vary.fields :: Values(cached, f) == Values(current, f)
  }
}
