/** Which requests the primary key of src/http/http_client_cache.cpp:152-165 tells apart. */
module HttpCacheKeys {
  import opened Bytes
  import opened HttpClientCaching
  import opened HttpText

  function RequestFor(verb: Bytes, target: Bytes, headers: seq<Field>): Request {
    Request.Request(verb, target, headers, [])
  }

  /** Requests whose primary key can be read back. */
  predicate Plain(scheme: Bytes, host: Bytes) { ':' as int !in scheme && SP !in host }

  /** The cache acts on GET and HEAD only, in any case of letters, so a method never has a space. */
  lemma CacheableHasNoSpace(request: Request)
    requires CacheableMethod(request)
    ensures SP !in request.verb
  {
    forall i | 0 <= i < |request.verb| ensures request.verb[i] != SP {
      assert Lower(request.verb)[i] == ToLower(request.verb[i]);
      assert Lower(Ascii("GET")) == ['g' as int, 'e' as int, 't' as int];
      assert Lower(Ascii("HEAD")) == ['h' as int, 'e' as int, 'a' as int, 'd' as int];
    }
  }

  lemma SplitAtMark(a: Bytes, b: Bytes, mark: byte, c: Bytes, d: Bytes)
    requires mark !in a && mark !in c && a + [mark] + b == c + [mark] + d
    ensures a == c && b == d
  {
    var s := a + [mark] + b;
    assert s[|a|] == mark && s[|c|] == mark;
    assert (forall k | 0 <= k < |a| :: s[k] == a[k] != mark) && (forall k | 0 <= k < |c| :: s[k] == c[k] != mark);
    assert a == s[..|a|] && c == s[..|c|] && b == s[|a| + 1..] && d == s[|c| + 1..];
  }

  /** The primary key tells scheme, host, method and target apart. */
  lemma KeyInjective(scheme: Bytes, host: Bytes, request: Request, scheme': Bytes, host': Bytes, request': Request)
    requires Plain(scheme, host) && Plain(scheme', host') && SP !in request.verb && SP !in request'.verb
    requires Key(scheme, host, request) == Key(scheme', host', request')
    ensures scheme == scheme' && host == host' && request.verb == request'.verb && request.target == request'.target
  {
    KeyShape(scheme, host, request);
    KeyShape(scheme', host', request');
    hide Key;
    var colon: byte := ':' as int;
    SplitAtMark(scheme, Slashes() + host + [SP] + request.verb + [SP] + request.target, colon,
                scheme', Slashes() + host' + [SP] + request'.verb + [SP] + request'.target);
    AfterSlashes(host, request);
    AfterSlashes(host', request');
    SplitAtMark(host, request.verb + [SP] + request.target, SP, host', request'.verb + [SP] + request'.target);
    SplitAtMark(request.verb, request.target, SP, request'.verb, request'.target);
  }

  function Slashes(): Bytes { ['/' as int, '/' as int] }

  lemma KeyShape(scheme: Bytes, host: Bytes, request: Request)
    ensures Key(scheme, host, request) ==
            scheme + [':' as int] + (Slashes() + host + [SP] + request.verb + [SP] + request.target)
  {
    assert Ascii("://") == [':' as int] + Slashes();
  }

  lemma AfterSlashes(host: Bytes, request: Request)
    ensures (Slashes() + host + [SP] + request.verb + [SP] + request.target)[2..]
            == host + [SP] + (request.verb + [SP] + request.target)
  {
  }

  /** The host ends in, or goes on behind, a method the cache takes. */
  ghost predicate HostSplits(host: Bytes) { exists h, verb, a :: HostCut(host, h, verb, a) }

  predicate HostCut(host: Bytes, h: Bytes, verb: Bytes, a: Bytes) {
    CacheableMethod(RequestFor(verb, [], [])) && host == h + [SP] + verb + a && (a != [] ==> a[0] == SP)
  }

  /** The target begins with, or comes to, a method the cache takes. */
  ghost predicate TargetSplits(target: Bytes) { exists a, verb, b :: TargetCut(target, a, verb, b) }

  predicate TargetCut(target: Bytes, a: Bytes, verb: Bytes, b: Bytes) {
    CacheableMethod(RequestFor(verb, [], [])) && target == a + verb + [SP] + b && (a != [] ==> a[|a| - 1] == SP)
  }

  function Line(host: Bytes, verb: Bytes, target: Bytes): Bytes { host + [SP] + verb + [SP] + target }

  /** Two readings of the same line, the second with the longer host. */
  lemma LineTail(host: Bytes, verb: Bytes, target: Bytes, host': Bytes, verb': Bytes, target': Bytes) returns (y: Bytes)
    requires Line(host, verb, target) == Line(host', verb', target') && |host| < |host'|
    ensures host' == host + [SP] + y && verb + [SP] + target == y + [SP] + (verb' + [SP] + target')
  {
    var line := Line(host, verb, target);
    assert line[|host|] == SP && host' == line[..|host'|];
    y := host'[|host| + 1..];
    assert line[|host| + 1..] == verb + [SP] + target;
    assert Line(host', verb', target')[|host| + 1..] == y + [SP] + (verb' + [SP] + target');
  }

  /** The longer host ends inside the target of the other reading. */
  lemma LineCut(host: Bytes, verb: Bytes, target: Bytes, host': Bytes, verb': Bytes, target': Bytes)
    requires Line(host, verb, target) == Line(host', verb', target') && |host| < |host'| && SP !in verb
    requires CacheableMethod(RequestFor(verb, [], [])) && CacheableMethod(RequestFor(verb', [], []))
    ensures HostSplits(host') && TargetSplits(target)
  {
    hide CacheableMethod, HostCut, TargetCut;
    var y := LineTail(host, verb, target, host', verb', target');
    var more := verb' + [SP] + target';
    hide Line;
    if SP in y {
      var k := FirstMark(y, SP);
      var y1, y2 := y[..k], y[k + 1..];
      assert y == y1 + [SP] + y2;
      assert y + [SP] + more == y1 + [SP] + (y2 + [SP] + more);
      SplitAtMark(verb, target, SP, y1, y2 + [SP] + more);
      CutsAre(host, verb, [SP] + y2, y2 + [SP], verb', target');
      assert host + [SP] + verb + ([SP] + y2) == host';
      assert y2 + [SP] + verb' + [SP] + target' == target;
    } else {
      SplitAtMark(verb, target, SP, y, more);
      CutsAre(host, verb, [], [], verb', target');
      assert host + [SP] + verb + [] == host';
      assert [] + verb' + [SP] + target' == target;
    }
  }

  lemma CutsAre(h: Bytes, verb: Bytes, a: Bytes, c: Bytes, verb': Bytes, b: Bytes)
    requires CacheableMethod(RequestFor(verb, [], [])) && CacheableMethod(RequestFor(verb', [], []))
    requires (a != [] ==> a[0] == SP) && (c != [] ==> c[|c| - 1] == SP)
    ensures HostCut(h + [SP] + verb + a, h, verb, a) && TargetCut(c + verb' + [SP] + b, c, verb', b)
  {
    hide CacheableMethod;
  }

  lemma FirstMark(s: Bytes, mark: byte) returns (k: nat)
    requires mark in s
    ensures k < |s| && s[k] == mark && mark !in s[..k]
    decreases |s|
  {
    if s[0] == mark {
      k := 0;
    } else {
      assert mark in s[1..];
      var j := FirstMark(s[1..], mark);
      k := j + 1;
      assert s[..k] == [s[0]] + s[1..][..j];
    }
  }

  /** The request has its key to itself among all that the cache takes. */
  ghost predicate Alone(scheme: Bytes, host: Bytes, request: Request) {
    forall scheme', host', request': Request |
      ':' as int !in scheme' && CacheableMethod(request')
      && Key(scheme', host', request') == Key(scheme, host, request) ::
      scheme' == scheme && host' == host && request'.verb == request.verb && request'.target == request.target
  }

  lemma SameLine(scheme: Bytes, host: Bytes, request: Request, scheme': Bytes, host': Bytes, request': Request)
    requires ':' as int !in scheme && ':' as int !in scheme'
    requires Key(scheme, host, request) == Key(scheme', host', request')
    ensures scheme == scheme'
    ensures Line(host, request.verb, request.target) == Line(host', request'.verb, request'.target)
  {
    KeyShape(scheme, host, request);
    KeyShape(scheme', host', request');
    hide Key;
    SplitAtMark(scheme, Slashes() + host + [SP] + request.verb + [SP] + request.target, ':' as int,
                scheme', Slashes() + host' + [SP] + request'.verb + [SP] + request'.target);
    AfterSlashes(host, request);
    AfterSlashes(host', request');
    assert Line(host, request.verb, request.target) == host + [SP] + (request.verb + [SP] + request.target);
    assert Line(host', request'.verb, request'.target) == host' + [SP] + (request'.verb + [SP] + request'.target);
  }

  lemma SameKey(scheme: Bytes, host: Bytes, request: Request, host': Bytes, request': Request)
    requires Line(host, request.verb, request.target) == Line(host', request'.verb, request'.target)
    ensures Key(scheme, host, request) == Key(scheme, host', request')
  {
    hide Ascii;
    var front := scheme + Ascii("://");
    assert Key(scheme, host, request) == front + Line(host, request.verb, request.target);
    assert Key(scheme, host', request') == front + Line(host', request'.verb, request'.target);
  }

  lemma MethodOnly(request: Request)
    requires CacheableMethod(request)
    ensures CacheableMethod(RequestFor(request.verb, [], [])) && SP !in request.verb
  {
    CacheableHasNoSpace(request);
  }

  /**
   * A request the cache takes shares its key with no other one, if and only if neither its host nor
   * its target has a method the cache takes in it, set off by spaces.
   */
  lemma KeyAloneIff(scheme: Bytes, host: Bytes, request: Request)
    requires ':' as int !in scheme && CacheableMethod(request)
    ensures Alone(scheme, host, request) <==> !HostSplits(host) && !TargetSplits(request.target)
  {
    MethodOnly(request);
    var verb, target := request.verb, request.target;
    if HostSplits(host) {
      var h, v, a :| HostCut(host, h, v, a);
      var t := if a == [] then verb + [SP] + target else a[1..] + [SP] + verb + [SP] + target;
      ReadHost(host, h, v, a, verb, target);
      SameKey(scheme, host, request, h, RequestFor(v, t, []));
      assert h != host && !Alone(scheme, host, request);
    } else if TargetSplits(target) {
      var a, v, b :| TargetCut(target, a, v, b);
      var h := if a == [] then host + [SP] + verb else host + [SP] + verb + [SP] + a[..|a| - 1];
      ReadTarget(host, verb, target, a, v, b);
      SameKey(scheme, host, request, h, RequestFor(v, b, []));
      assert h != host && !Alone(scheme, host, request);
    } else {
      forall scheme', host', request': Request |
        ':' as int !in scheme' && CacheableMethod(request')
        && Key(scheme', host', request') == Key(scheme, host, request)
        ensures scheme' == scheme && host' == host && request'.verb == verb && request'.target == target
      {
        MethodOnly(request');
        SameLine(scheme, host, request, scheme', host', request');
        OneReading(host, verb, target, host', request'.verb, request'.target);
      }
    }
  }

  lemma ReadHost(host: Bytes, h: Bytes, v: Bytes, a: Bytes, verb: Bytes, target: Bytes)
    requires HostCut(host, h, v, a)
    ensures var t := if a == [] then verb + [SP] + target else a[1..] + [SP] + verb + [SP] + target;
            |h| < |host| && Line(h, v, t) == Line(host, verb, target)
  {
    hide CacheableMethod;
    if a == [] {
      assert host == h + [SP] + v;
      assert Line(h, v, verb + [SP] + target) == (h + [SP] + v) + [SP] + verb + [SP] + target;
    } else {
      assert a == [SP] + a[1..];
      assert Line(h, v, a[1..] + [SP] + verb + [SP] + target)
             == (h + [SP] + v + ([SP] + a[1..])) + [SP] + verb + [SP] + target;
    }
  }

  lemma ReadTarget(host: Bytes, verb: Bytes, target: Bytes, a: Bytes, v: Bytes, b: Bytes)
    requires TargetCut(target, a, v, b)
    ensures var h := if a == [] then host + [SP] + verb else host + [SP] + verb + [SP] + a[..|a| - 1];
            |h| > |host| && Line(h, v, b) == Line(host, verb, target)
  {
    hide CacheableMethod;
    if a == [] {
      assert target == v + [SP] + b;
    } else {
      assert a == a[..|a| - 1] + [SP];
      assert Line(host + [SP] + verb + [SP] + a[..|a| - 1], v, b)
             == host + [SP] + verb + [SP] + (a[..|a| - 1] + [SP] + v + [SP] + b);
    }
  }

  lemma OneReading(host: Bytes, verb: Bytes, target: Bytes, host': Bytes, verb': Bytes, target': Bytes)
    requires Line(host, verb, target) == Line(host', verb', target') && SP !in verb && SP !in verb'
    requires CacheableMethod(RequestFor(verb, [], [])) && CacheableMethod(RequestFor(verb', [], []))
    requires !HostSplits(host) && !TargetSplits(target)
    ensures host == host' && verb == verb' && target == target'
  {
    hide CacheableMethod, HostSplits, TargetSplits;
    if |host| < |host'| {
      LineCut(host, verb, target, host', verb', target');
    } else if |host'| < |host| {
      LineCut(host', verb', target', host, verb, target);
    } else {
      var line := Line(host, verb, target);
      assert host == line[..|host|] && host' == line[..|host|];
      assert line[|host| + 1..] == verb + [SP] + target;
      assert Line(host', verb', target')[|host| + 1..] == verb' + [SP] + target';
      SplitAtMark(verb, target, SP, verb', target');
    }
  }

  /** With a space in the host two cacheable requests share a key. */
  lemma SpacesClash(scheme: Bytes, host: Bytes, verb: Bytes, a: Bytes, b: Bytes, headers: seq<Field>)
    ensures Key(scheme, host, RequestFor(verb, a + [SP] + verb + [SP] + b, headers))
            == Key(scheme, host + [SP] + verb + [SP] + a, RequestFor(verb, b, headers))
  {
    hide Ascii;
    var front := scheme + Ascii("://");
    assert front + host + [SP] + verb + [SP] + (a + [SP] + verb + [SP] + b)
           == front + (host + [SP] + verb + [SP] + a) + [SP] + verb + [SP] + b;
  }
}
