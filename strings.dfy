/**
 * The part of JavaScript's `String.prototype.split` that the header check
 * relies on: splitting on a one-character separator, with no limit.
 */
module Strings {

  /** Concatenates `parts`, with one `sep` between each two neighbours. */
  function Join(parts: seq<string>, sep: char): string
    requires |parts| >= 1
    decreases |parts|
  {
    if |parts| == 1 then parts[0] else parts[0] + [sep] + Join(parts[1..], sep)
  }

  /**
   * `s.split(sep)`: the maximal runs of `s` between occurrences of `sep`,
   * including the empty runs before a leading, after a trailing and between
   * two adjacent separators (so `"".split(" ")` is `[""]`). There is one
   * part more than `s` has separators.
   */
  function Split(s: string, sep: char): (parts: seq<string>)
    ensures |parts| == multiset(s)[sep] + 1
    decreases |s|
  {
    if s == [] then [[]]
    else
      var rest := Split(s[1..], sep);
      assert s == [s[0]] + s[1..];
      if s[0] == sep then [[]] + rest else [[s[0]] + rest[0]] + rest[1..]
  }

  /** No part of a split contains the separator. */
  lemma {:induction false} SplitPartsAreSeparatorFree(s: string, sep: char)
    ensures forall i :: 0 <= i < |Split(s, sep)| ==> sep !in Split(s, sep)[i]
    decreases |s|
  {
    if s != [] {
      SplitPartsAreSeparatorFree(s[1..], sep);
      var rest := Split(s[1..], sep);
      var parts := Split(s, sep);
      if s[0] == sep {
        assert parts[1..] == rest;
      } else {
        assert parts[0] == [s[0]] + rest[0];
        assert forall i :: 1 <= i < |parts| ==> parts[i] == rest[i];
      }
    }
  }

  /** Joining the parts of a split with the separator gives the string back. */
  lemma {:induction false} SplitJoin(s: string, sep: char)
    ensures Join(Split(s, sep), sep) == s
    decreases |s|
  {
    if s != [] {
      SplitJoin(s[1..], sep);
      var rest := Split(s[1..], sep);
      assert s == [s[0]] + s[1..];
      if s[0] == sep {
        assert ([[]] + rest)[1..] == rest;
      } else {
        JoinPrepend(s[0], rest, sep);
      }
    }
  }

  /** Putting a character in front of the first part puts it in front of the joined string. */
  lemma JoinPrepend(c: char, parts: seq<string>, sep: char)
    requires |parts| >= 1
    ensures Join([[c] + parts[0]] + parts[1..], sep) == [c] + Join(parts, sep)
  {
    var longer := [[c] + parts[0]] + parts[1..];
    assert longer[1..] == parts[1..];
  }

  /** A string without the separator is a single part. */
  lemma {:induction false} SplitWithoutSeparator(p: string, sep: char)
    requires sep !in p
    ensures Split(p, sep) == [p]
    decreases |p|
  {
    if p != [] {
      SplitWithoutSeparator(p[1..], sep);
      assert p[0] != sep && [p[0]] + p[1..] == p;
    }
  }

  /** A separator-free first run, then a separator, splits off as the first part. */
  lemma {:induction false} SplitAfterFirstPart(p: string, t: string, sep: char)
    requires sep !in p
    ensures Split(p + [sep] + t, sep) == [p] + Split(t, sep)
    decreases |p|
  {
    var s := p + [sep] + t;
    if p == [] {
      assert s[1..] == t;
    } else {
      assert s[1..] == p[1..] + [sep] + t;
      SplitAfterFirstPart(p[1..], t, sep);
      assert [p[0]] + p[1..] == p;
    }
  }

  /** Splitting separator-free parts joined by the separator gives the parts back. */
  lemma {:induction false} JoinSplit(parts: seq<string>, sep: char)
    requires |parts| >= 1
    requires forall i :: 0 <= i < |parts| ==> sep !in parts[i]
    ensures Split(Join(parts, sep), sep) == parts
    decreases |parts|
  {
    if |parts| == 1 {
      SplitWithoutSeparator(parts[0], sep);
    } else {
      JoinSplit(parts[1..], sep);
      SplitAfterFirstPart(parts[0], Join(parts[1..], sep), sep);
      assert [parts[0]] + parts[1..] == parts;
    }
  }

  /**
   * A string with exactly one separator, at index `k`, splits into the text
   * before it and the text after it.
   */
  lemma {:induction false} SplitAtOnlySeparator(s: string, sep: char, k: nat)
    requires k < |s| && s[k] == sep
    requires sep !in s[..k] && sep !in s[k + 1..]
    ensures Split(s, sep) == [s[..k], s[k + 1..]]
  {
    assert s == s[..k] + [sep] + s[k + 1..];
    assert multiset(s)[sep] == 1;
    SplitJoin(s, sep);
    SplitPartsAreSeparatorFree(s, sep);
    var parts := Split(s, sep);
    var p0, p1 := parts[0], parts[1];
    assert |parts| == 2 && parts[1..] == [p1];
    assert Join(parts[1..], sep) == p1;
    assert s == p0 + [sep] + p1;
    assert p0 == s[..k];
    assert p1 == s[k + 1..];
  }

  /** A string with two separators or more does not split into two parts. */
  lemma TwoSeparatorsMeanMoreParts(a: string, b: string, c: string, sep: char)
    ensures |Split(a + [sep] + b + [sep] + c, sep)| > 2
  {
    var s := a + [sep] + b + [sep] + c;
    assert multiset(s) == multiset(a) + multiset{sep} + multiset(b) + multiset{sep} + multiset(c);
  }
}
