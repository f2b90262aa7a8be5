/** The freshness answers of src/http/http_cache.cpp:256-310 against section 4.2 of RFC 9111. */
module HttpFreshness {
  import opened Bytes
  import opened DecimalText
  import opened HttpText
  import opened HttpCaching

  /** The computed age is the age if and only if the sum fits in 64 bits; otherwise it is negative. */
  lemma AgeIff(headers: seq<Field>, responseTime: Instant, now: Instant)
    ensures CurrentAge(headers, responseTime, now) == Age(headers, responseTime, now) <==>
            Age(headers, responseTime, now) <= MAX_SECONDS
    ensures Age(headers, responseTime, now) > MAX_SECONDS ==> CurrentAge(headers, responseTime, now) < 0
  {
    hide AgeValue, SecondsBetween;
  }

  /**
   * A servable response counts as fresh exactly until its lifetime, less the age it arrived with,
   * has passed, and again once the sum of the two overflows.
   */
  lemma FreshUntil(r: Readers, headers: seq<Field>, responseTime: Instant, now: Instant)
    ensures Fresh(r, headers, responseTime, now) <==>
            Servable(r, headers, responseTime)
            && var lifetime := FreshnessLifetime(r, headers, responseTime).value;
            || Age(headers, responseTime, now) > MAX_SECONDS
            || (AgeValue(headers) < lifetime && Signed64(now - responseTime) < (lifetime - AgeValue(headers)) * NANOS)
  {
    AgeIff(headers, responseTime, now);
    hide AllowsStorage, RequiresValidation, FreshnessLifetime, AgeValue, CurrentAge;
    if Servable(r, headers, responseTime) {
      var lifetime := FreshnessLifetime(r, headers, responseTime).value;
      if AgeValue(headers) < lifetime {
        SecondsPassed(responseTime, now, lifetime - AgeValue(headers));
      }
    }
  }

  lemma SecondsPassed(from: Instant, to: Instant, seconds: nat)
    requires seconds > 0
    ensures SecondsBetween(from, to) < seconds <==> Signed64(to - from) < seconds * NANOS
  {
    hide Signed64;
  }

  /** Differences that fit in 64 bits are exact, so within 292 years the condition speaks of now itself. */
  lemma ExactDifference(from: Instant, to: Instant)
    requires -TWO_63 <= to - from < TWO_63
    ensures Signed64(to - from) == to - from
  {
  }

  /** Seconds that have passed, counted without a bound. */
  function Passed(from: Instant, to: Instant): nat { if to <= from then 0 else (to - from) / NANOS }

  /** Section 1.2.2 of RFC 9111: a number of seconds that is too large stands for the largest one. */
  function Delta(text: Bytes): Option<nat> {
    var n := Numeral(10, TrimOws(text));
    if TrimOws(text) == [] || n.None? then None
    else Some(if n.value <= MAX_SECONDS then n.value else MAX_SECONDS)
  }

  predicate Oversized(text: Bytes) {
    TrimOws(text) != [] && var n := Numeral(10, TrimOws(text)); n.Some? && n.value > MAX_SECONDS
  }

  /**
   * The age of section 4.2.3 of RFC 9111: age on arrival, the time between sending the request and
   * the response, and the time since. The code has no part of the second.
   */
  function RfcAge(headers: seq<Field>, sent: Instant, responseTime: Instant, now: Instant): nat {
    var age := Delta(Get(headers, Ascii("Age")));
    (if age.None? then 0 else age.value) + Passed(sent, responseTime) + Passed(responseTime, now)
  }

  /** The lifetime of section 4.2.1. */
  function RfcLifetime(r: Readers, headers: seq<Field>, responseTime: Instant): Option<nat> {
    var raw := ValueOf(CacheControl(r, headers), Ascii("max-age"));
    var maxAge := if raw.None? then None else Delta(raw.value);
    if maxAge.Some? then maxAge
    else
      var expires := r.date(Get(headers, Ascii("Expires")));
      if expires.None? then None
      else
        var date := r.date(Get(headers, Ascii("Date")));
        Some(Passed(if date.Some? then date.value else responseTime, expires.value))
  }

  /** What section 4.2 calls fresh, for a response that may be served without asking. */
  predicate RfcFresh(r: Readers, headers: seq<Field>, sent: Instant, responseTime: Instant, now: Instant) {
    && AllowsStorage(r, headers) && !RequiresValidation(r, headers)
    && var lifetime := RfcLifetime(r, headers, responseTime);
    lifetime.Some? && RfcAge(headers, sent, responseTime, now) < lifetime.value
  }

  /** The code reads the lifetime that the RFC means. */
  predicate SameLifetime(r: Readers, headers: seq<Field>, responseTime: Instant) {
    RfcLifetime(r, headers, responseTime) == FreshnessLifetime(r, headers, responseTime)
  }

  /** A difference of two times that 64 bits can hold, which is up to 292 years. */
  predicate Fits(from: Instant, to: Instant) { -TWO_63 <= to - from < TWO_63 }

  lemma DeltaReads(text: Bytes)
    ensures !Oversized(text) ==> Delta(text) == ParseDeltaSeconds(text)
    ensures Oversized(text) ==> Delta(text) == Some(MAX_SECONDS) && ParseDeltaSeconds(text) == None
  {
    hide Numeral, TrimOws;
  }

  lemma PassedReads(from: Instant, to: Instant)
    requires Fits(from, to)
    ensures SecondsBetween(from, to) == Passed(from, to)
  {
    ExactDifference(from, to);
    hide Signed64;
  }

  /**
   * The code reads the lifetime the RFC means, unless max-age is too large a number, which the code
   * takes for no max-age at all; there the two always differ.
   */
  lemma LifetimeRightIff(r: Readers, headers: seq<Field>, responseTime: Instant)
    requires var date, expires := r.date(Get(headers, Ascii("Date"))), r.date(Get(headers, Ascii("Expires")));
             expires.Some? ==> Fits(if date.Some? then date.value else responseTime, expires.value)
    ensures var raw := ValueOf(CacheControl(r, headers), Ascii("max-age"));
            SameLifetime(r, headers, responseTime) <==> raw.None? || !Oversized(raw.value)
  {
    var date, expires := r.date(Get(headers, Ascii("Date"))), r.date(Get(headers, Ascii("Expires")));
    var raw := ValueOf(CacheControl(r, headers), Ascii("max-age"));
    if raw.Some? {
      DeltaReads(raw.value);
    }
    if expires.Some? {
      PassedReads(if date.Some? then date.value else responseTime, expires.value);
    }
    hide CacheControl, ValueOf, Get, Oversized, Delta, ParseDeltaSeconds, Passed;
    assert TWO_63 / NANOS < MAX_SECONDS;
  }

  /** The age of the RFC is that of the code and the delay, unless the age on arrival is too large a number. */
  lemma RfcAgeIs(headers: seq<Field>, sent: Instant, responseTime: Instant, now: Instant)
    requires Fits(responseTime, now)
    ensures var age, rfc := Age(headers, responseTime, now), RfcAge(headers, sent, responseTime, now);
            if Oversized(Get(headers, Ascii("Age"))) then rfc >= MAX_SECONDS && rfc >= age
            else rfc == age + Passed(sent, responseTime)
  {
    DeltaReads(Get(headers, Ascii("Age")));
    PassedReads(responseTime, now);
    hide Get, Oversized, Delta, ParseDeltaSeconds, Passed, SecondsBetween;
  }

  /**
   * The answer is that of the RFC if and only if the response may not be served anyway, or the sum of
   * the code does not overflow and the lifetime does not end between the age of the code and that of
   * the RFC, which is later by the delay of the response.
   */
  lemma FreshRightIff(r: Readers, headers: seq<Field>, sent: Instant, responseTime: Instant, now: Instant)
    requires SameLifetime(r, headers, responseTime) && Fits(responseTime, now)
    ensures (Fresh(r, headers, responseTime, now) <==> RfcFresh(r, headers, sent, responseTime, now)) <==>
            (Servable(r, headers, responseTime) ==>
               var lifetime := FreshnessLifetime(r, headers, responseTime).value;
               var age, rfc := Age(headers, responseTime, now), RfcAge(headers, sent, responseTime, now);
               age <= MAX_SECONDS && !(age < lifetime <= rfc))
  {
    AgeIff(headers, responseTime, now);
    RfcAgeIs(headers, sent, responseTime, now);
    hide CurrentAge, Age, RfcAge, AllowsStorage, RequiresValidation, FreshnessLifetime, RfcLifetime, Oversized, Passed,
      Get;
  }

  /** A fresh answer of the code is never too late: where it is wrong, the response is already stale. */
  lemma WrongMeansStale(r: Readers, headers: seq<Field>, sent: Instant, responseTime: Instant, now: Instant)
    requires SameLifetime(r, headers, responseTime) && Fits(responseTime, now)
    ensures RfcFresh(r, headers, sent, responseTime, now) ==> Fresh(r, headers, responseTime, now)
  {
    AgeIff(headers, responseTime, now);
    RfcAgeIs(headers, sent, responseTime, now);
    hide CurrentAge, Age, RfcAge, AllowsStorage, RequiresValidation, FreshnessLifetime, RfcLifetime, Oversized, Passed,
      Get;
  }

  /** A Cache-Control value that says max-age=60. */
  predicate SixtySeconds(r: Readers, control: Bytes) {
    r.directives(control) == [Directive(Ascii("max-age"), Some(Decimal(60)))]
  }

  function MaxAge(control: Bytes): Field { Field(Ascii("Cache-Control"), control) }

  function Aged(age: nat): Field { Field(Ascii("Age"), Decimal(age)) }

  /**
   * The input on which the sum overflows: a response with max-age=60 and the largest Age, one second
   * after it was stored.
   */
  lemma OldestCountsAsFresh(r: Readers, sent: Instant, stored: Instant, control: Bytes)
    requires stored + NANOS < TWO_63
    requires SixtySeconds(r, control)
    ensures var headers := [MaxAge(control), Aged(MAX_SECONDS)];
            Fresh(r, headers, stored, stored + NANOS) && !RfcFresh(r, headers, sent, stored, stored + NANOS)
  {
    var headers := [MaxAge(control), Aged(MAX_SECONDS)];
    AgeThere(control, MAX_SECONDS);
    ControlThere(r, control, Aged(MAX_SECONDS));
    ExactDifference(stored, stored + NANOS);
    AlwaysServable(r, headers, stored);
    hide AgeValue, Servable, Fresh, FreshnessLifetime, RfcFresh, SameLifetime;
    AgeIff(headers, stored, stored + NANOS);
    FreshRightIff(r, headers, sent, stored, stored + NANOS);
    FreshIs(r, headers, stored, stored + NANOS);
  }

  lemma FreshIs(r: Readers, headers: seq<Field>, stored: Instant, now: Instant)
    requires Servable(r, headers, stored)
    ensures Fresh(r, headers, stored, now) <==>
            CurrentAge(headers, stored, now) < FreshnessLifetime(r, headers, stored).value
  {
  }

  /**
   * The input on which the delay is missed: a response with max-age=60 that came 100 seconds after
   * its request, one second after it was stored.
   */
  lemma SlowCountsAsFresh(r: Readers, sent: Instant, control: Bytes)
    requires sent + 101 * NANOS < TWO_63
    requires SixtySeconds(r, control)
    ensures var headers, stored := [MaxAge(control)], sent + 100 * NANOS;
            Fresh(r, headers, stored, stored + NANOS) && !RfcFresh(r, headers, sent, stored, stored + NANOS)
  {
    var headers, stored := [MaxAge(control)], sent + 100 * NANOS;
    OnlyControl(r, control);
    ExactDifference(stored, stored + NANOS);
    AlwaysServable(r, headers, stored);
    hide AgeValue, Servable, Fresh, FreshnessLifetime, RfcFresh, SameLifetime, RfcAge, Oversized, Get;
    RfcAgeIs(headers, sent, stored, stored + NANOS);
    FreshRightIff(r, headers, sent, stored, stored + NANOS);
    AgeIff(headers, stored, stored + NANOS);
    FreshIs(r, headers, stored, stored + NANOS);
  }

  lemma NamesApart()
    ensures !SameName(Ascii("Cache-Control"), Ascii("Age")) && !SameName(Ascii("Age"), Ascii("Cache-Control"))
    ensures !SameName(Ascii("max-age"), Ascii("no-cache")) && !SameName(Ascii("max-age"), Ascii("no-store"))
  {
    assert |Lower(Ascii("Cache-Control"))| == 13 && |Lower(Ascii("Age"))| == 3;
    assert |Lower(Ascii("max-age"))| == 7 && |Lower(Ascii("no-cache"))| == 8 && |Lower(Ascii("no-store"))| == 8;
  }

  lemma AgeThere(control: Bytes, age: nat)
    requires age <= MAX_SECONDS
    ensures AgeValue([MaxAge(control), Aged(age)]) == age
  {
    var headers := [MaxAge(control), Aged(age)];
    NamesApart();
    DecimalParses(age);
    hide SameName, Ascii, ParseU64, Decimal;
    assert headers[1..] == [headers[1]] && headers[1..][1..] == [];
    assert Values(headers[1..], Ascii("Age")) == [Decimal(age)] by {
      assert SameName(Ascii("Age"), Ascii("Age")) by { SameItself(Ascii("Age")); }
    }
    assert Values(headers, Ascii("Age")) == [] + Values(headers[1..], Ascii("Age"));
  }

  lemma SameItself(name: Bytes)
    ensures SameName(name, name)
  {
  }

  /** A field of another name does not change what Cache-Control says. */
  lemma ControlThere(r: Readers, control: Bytes, other: Field)
    requires !SameName(other.name, Ascii("Cache-Control"))
    ensures CacheControl(r, [MaxAge(control), other]) == r.directives(control)
    ensures CacheControl(r, [MaxAge(control)]) == r.directives(control)
  {
    var headers := [MaxAge(control), other];
    SameItself(Ascii("Cache-Control"));
    hide SameName, Ascii;
    assert headers[1..] == [other] && [other][1..] == [] && [MaxAge(control)][1..] == [];
    assert Values([other], Ascii("Cache-Control")) == [];
    assert Values(headers, Ascii("Cache-Control")) == [control];
    assert Values([MaxAge(control)], Ascii("Cache-Control")) == [control];
    assert [control][1..] == [];
    assert ReadAll(r, [control]) == r.directives(control) + [];
  }

  lemma OnlyControl(r: Readers, control: Bytes)
    ensures CacheControl(r, [MaxAge(control)]) == r.directives(control)
    ensures AgeValue([MaxAge(control)]) == 0 && !Oversized(Get([MaxAge(control)], Ascii("Age")))
  {
    NamesApart();
    ControlThere(r, control, Field(Ascii("Age"), []));
    hide SameName, Ascii;
    assert [MaxAge(control)][1..] == [];
    assert Values([MaxAge(control)], Ascii("Age")) == [];
    assert TrimOws([]) == [];
  }

  /** max-age=60 alone makes a response servable for 60 seconds, and its number is not too large. */
  lemma AlwaysServable(r: Readers, headers: seq<Field>, stored: Instant)
    requires CacheControl(r, headers) == [Directive(Ascii("max-age"), Some(Decimal(60)))]
    ensures Servable(r, headers, stored) && FreshnessLifetime(r, headers, stored) == Some(60)
    ensures SameLifetime(r, headers, stored)
  {
    NamesApart();
    SameItself(Ascii("max-age"));
    DecimalParses(60);
    DecimalValue(60);
    hide SameName, Ascii, ParseU64, Decimal, CacheControl, Numeral, TrimOws;
  }
}
