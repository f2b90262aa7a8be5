/** Byte strings, searching and joining: the vocabulary every other module shares. */
module Bytes {
  datatype Option<+T> = None | Some(value: T)

  type byte = x: int | 0 <= x < 0x100
  type Bytes = seq<byte>

  const CR: byte := 13
  const LF: byte := 10
  const CRLF: Bytes := [CR, LF]
  const SP: byte := 32
  const TAB: byte := 9

  predicate StartsWith(s: Bytes, prefix: Bytes) {
    |prefix| <= |s| && s[..|prefix|] == prefix
  }

  predicate OccursAt(hay: Bytes, needle: Bytes, i: nat) {
    i + |needle| <= |hay| && hay[i..i + |needle|] == needle
  }

  /** First occurrence at or after `start`, as std::string::find and std::search report it. */
  function FindFrom(hay: Bytes, needle: Bytes, start: nat): (r: Option<nat>)
    requires start <= |hay|
    ensures r.Some? ==> start <= r.value && r.value + |needle| <= |hay|
    decreases |hay| - start
  {
    if OccursAt(hay, needle, start) then Some(start)
    else if start == |hay| then None
    else FindFrom(hay, needle, start + 1)
  }

  function Find(hay: Bytes, needle: Bytes): (r: Option<nat>)
    ensures r.Some? ==> r.value + |needle| <= |hay|
  {
    FindFrom(hay, needle, 0)
  }

  /** The answer is an occurrence, no earlier one exists, and None means there is none. */
  lemma {:induction false} FindFromFirst(hay: Bytes, needle: Bytes, start: nat)
    requires start <= |hay|
    ensures var r := FindFrom(hay, needle, start);
            && (r.Some? ==> OccursAt(hay, needle, r.value)
                            && forall j: nat | start <= j < r.value :: !OccursAt(hay, needle, j))
            && (r.None? ==> forall j: nat | start <= j :: !OccursAt(hay, needle, j))
    decreases |hay| - start
  {
    if !OccursAt(hay, needle, start) && start != |hay| {
      FindFromFirst(hay, needle, start + 1);
    }
  }

  lemma FindFirst(hay: Bytes, needle: Bytes)
    ensures var r := Find(hay, needle);
            && (r.Some? ==> OccursAt(hay, needle, r.value) && forall j: nat | j < r.value :: !OccursAt(hay, needle, j))
            && (r.None? ==> forall j: nat :: !OccursAt(hay, needle, j))
  {
    FindFromFirst(hay, needle, 0);
  }

  /** An occurrence lies inside the prefix it was found in, so extending the text keeps it. */
  lemma OccursInPrefix(hay: Bytes, tail: Bytes, needle: Bytes, i: nat)
    requires i + |needle| <= |hay|
    ensures OccursAt(hay, needle, i) <==> OccursAt(hay + tail, needle, i)
  {
    assert (hay + tail)[i..i + |needle|] == hay[i..i + |needle|];
  }

  lemma FindIs(hay: Bytes, needle: Bytes, i: nat)
    requires OccursAt(hay, needle, i)
    requires forall j: nat | j < i :: !OccursAt(hay, needle, j)
    ensures Find(hay, needle) == Some(i)
  {
    FindFirst(hay, needle);
  }

  /** A first occurrence found in a prefix is the first occurrence in every extension. */
  lemma FindStable(hay: Bytes, tail: Bytes, needle: Bytes)
    requires Find(hay, needle).Some?
    ensures Find(hay + tail, needle) == Find(hay, needle)
  {
    FindFirst(hay, needle);
    var i := Find(hay, needle).value;
    forall j: nat | j <= i ensures OccursAt(hay, needle, j) <==> OccursAt(hay + tail, needle, j) {
      OccursInPrefix(hay, tail, needle, j);
    }
    FindIs(hay + tail, needle, i);
  }

  /** When a prefix holds no occurrence, the first one in an extension ends beyond the prefix. */
  lemma FindLate(hay: Bytes, tail: Bytes, needle: Bytes)
    requires Find(hay, needle).None?
    ensures Find(hay + tail, needle).Some? ==> Find(hay + tail, needle).value + |needle| > |hay|
  {
    FindFirst(hay, needle);
    FindFirst(hay + tail, needle);
    var r := Find(hay + tail, needle);
    if r.Some? && r.value + |needle| <= |hay| {
      OccursInPrefix(hay, tail, needle, r.value);
    }
  }

  /** Dropping bytes in front of the first occurrence shifts it. */
  lemma FindShift(hay: Bytes, needle: Bytes, k: nat)
    requires k <= |hay|
    requires forall j: nat | j < k :: !OccursAt(hay, needle, j)
    ensures Find(hay, needle).None? <==> Find(hay[k..], needle).None?
    ensures Find(hay, needle).Some? ==>
              k <= Find(hay, needle).value && Find(hay[k..], needle) == Some(Find(hay, needle).value - k)
  {
    FindFirst(hay, needle);
    FindFirst(hay[k..], needle);
    forall j: nat ensures OccursAt(hay[k..], needle, j) <==> OccursAt(hay, needle, j + k) {
      if j + k + |needle| <= |hay| {
        assert hay[k..][j..j + |needle|] == hay[j + k..j + k + |needle|];
      }
    }
    if Find(hay, needle).Some? {
      FindIs(hay[k..], needle, Find(hay, needle).value - k);
    }
  }

  /** Searching from a position is searching the text from there on. */
  lemma FindFromIsFind(hay: Bytes, needle: Bytes, start: nat)
    requires start <= |hay|
    ensures FindFrom(hay, needle, start).None? <==> Find(hay[start..], needle).None?
    ensures FindFrom(hay, needle, start).Some? ==>
              Find(hay[start..], needle) == Some(FindFrom(hay, needle, start).value - start)
  {
    FindFromFirst(hay, needle, start);
    FindFirst(hay[start..], needle);
    forall j: nat ensures OccursAt(hay[start..], needle, j) <==> OccursAt(hay, needle, j + start) {
      if j + start + |needle| <= |hay| {
        assert hay[start..][j..j + |needle|] == hay[j + start..j + start + |needle|];
      }
    }
    if FindFrom(hay, needle, start).Some? {
      FindIs(hay[start..], needle, FindFrom(hay, needle, start).value - start);
    }
  }

  /** All pieces one after the other. */
  function Concat(pieces: seq<Bytes>): Bytes {
    if pieces == [] then [] else pieces[0] + Concat(pieces[1..])
  }

  lemma {:induction false} ConcatAppend(a: seq<Bytes>, b: seq<Bytes>)
    ensures Concat(a + b) == Concat(a) + Concat(b)
  {
    if a == [] {
      assert a + b == b;
    } else {
      ConcatAppend(a[1..], b);
      assert (a + b)[1..] == a[1..] + b;
      assert Concat(a + b) == a[0] + (Concat(a[1..]) + Concat(b));
    }
  }

  lemma ConcatSnoc(a: seq<Bytes>, x: Bytes)
    ensures Concat(a + [x]) == Concat(a) + x
  {
    ConcatAppend(a, [x]);
    assert Concat([x]) == x + Concat([]);
  }

  lemma TwoPieces(text: Bytes, cut: nat)
    requires cut <= |text|
    ensures Concat([text[..cut], text[cut..]]) == text
  {
    ConcatSnoc([text[..cut]], text[cut..]);
    ConcatSnoc([], text[..cut]);
    assert [] + [text[..cut]] == [text[..cut]];
    assert [text[..cut]] + [text[cut..]] == [text[..cut], text[cut..]];
  }

  lemma Reassociate<T>(a: seq<T>, b: seq<T>, c: seq<T>)
    ensures (a + b) + c == a + (b + c)
  {
  }

  /** A text around one of its bytes. */
  lemma Around(s: Bytes, i: nat)
    requires i < |s|
    ensures s == s[..i] + [s[i]] + s[i + 1..]
  {
  }

  /** Two positions in a text: what stands between them, and behind the second. */
  lemma Between(s: Bytes, i: nat, j: nat)
    requires i <= j < |s|
    ensures s[i..] == s[i..j] + [s[j]] + s[j + 1..]
    ensures s[i..][..j - i] == s[i..j] && s[i..][j - i..] == s[j..]
  {
  }

  /** A text and its two parts. */
  lemma Parts(whole: Bytes, front: Bytes, back: Bytes)
    requires whole == front + back
    ensures whole[..|front|] == front && whole[|front|..] == back
  {
  }
}
