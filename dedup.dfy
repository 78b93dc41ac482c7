/** The clean-up of the merged URL list in scrape.js:
    `[...new Set(allUrls)].filter(u => u.startsWith('http'))`.
    A JavaScript `Set` iterates in insertion order, so spreading it keeps
    the first occurrence of every string, in the order of those first
    occurrences. */
module Dedup {

  /** `u.startsWith('http')`: the four characters "http" begin the string. */
  predicate StartsWithHttp(u: string)
  {
    "http" <= u
  }

  /** No string occurs twice. */
  predicate Distinct(s: seq<string>)
  {
    forall i, j :: 0 <= i < j < |s| ==> s[i] != s[j]
  }

  /** The position of the first occurrence of `x` in `s`. */
  function FirstIndex(s: seq<string>, x: string): (k: nat)
    requires x in s
    ensures k < |s| && s[k] == x
  {
    if s[0] == x then 0 else 1 + FirstIndex(s[1..], x)
  }

  /** No occurrence of `x` precedes its first index. */
  lemma {:induction false} FirstIndexIsFirst(s: seq<string>, x: string)
    requires x in s
    ensures x !in s[..FirstIndex(s, x)]
  {
    if s[0] != x {
      FirstIndexIsFirst(s[1..], x);
      assert s[..FirstIndex(s, x)] == [s[0]] + s[1..][..FirstIndex(s[1..], x)];
    }
  }

  /** Every element of `r` occurs in `s`. */
  predicate AllIn(r: seq<string>, s: seq<string>)
  {
    forall x :: x in r ==> x in s
  }

  /** Every element of `r` occurs in `s`, and the elements of `r` appear
      in the order in which they first occur in `s`. */
  predicate OrderedByFirstOccurrence(r: seq<string>, s: seq<string>)
  {
    AllIn(r, s) &&
    forall i, j :: 0 <= i < j < |r| ==> FirstIndex(s, r[i]) < FirstIndex(s, r[j])
  }

  /** `[...new Set(s)]`: each string once, at its first occurrence. */
  function Unique(s: seq<string>): (r: seq<string>)
    ensures forall x :: x in r <==> x in s
    ensures OrderedByFirstOccurrence(r, s)
  {
    if s == [] then []
    else
      var init := s[..|s| - 1];
      var last := s[|s| - 1];
      var p := Unique(init);
      FirstIndexOfPrefix(init, s);
      if last in p then p
      else
        assert FirstIndex(s, last) == |s| - 1 by {
          FirstIndexAt(s, last, |s| - 1);
        }
        p + [last]
  }

  /** `.filter(u => u.startsWith('http'))`. */
  function KeepHttp(s: seq<string>): (r: seq<string>)
    ensures forall x :: x in r <==> x in s && StartsWithHttp(x)
  {
    if s == [] then []
    else if StartsWithHttp(s[0]) then [s[0]] + KeepHttp(s[1..])
    else KeepHttp(s[1..])
  }

  /** The list of pages to clone, made from the merged sitemap lists.
      Every page is distinct, starts with "http", is present exactly when
      it occurred in the merged list and starts with "http", and the pages
      follow the order of their first occurrences. */
  function PageList(merged: seq<string>): (pages: seq<string>)
    ensures Distinct(pages)
    ensures forall x :: x in pages ==> StartsWithHttp(x)
    ensures forall x :: x in pages <==> x in merged && StartsWithHttp(x)
    ensures OrderedByFirstOccurrence(pages, merged)
  {
    KeepHttpKeepsOrder(Unique(merged), merged);
    var pages := KeepHttp(Unique(merged));
    OrderedIsDistinct(pages, merged);
    pages
  }

  /** The only index holding `x` before which `x` does not occur is its
      first index. */
  lemma FirstIndexAt(s: seq<string>, x: string, k: nat)
    requires k < |s| && s[k] == x && x !in s[..k]
    ensures FirstIndex(s, x) == k
  {
    var f := FirstIndex(s, x);
    FirstIndexIsFirst(s, x);
    forall j | 0 <= j < f ensures s[j] != x { assert s[..f][j] == s[j]; }
    forall j | 0 <= j < k ensures s[j] != x { assert s[..k][j] == s[j]; }
  }

  /** Extending a sequence does not move the first occurrence of anything
      it already holds. */
  lemma FirstIndexOfPrefix(p: seq<string>, s: seq<string>)
    requires p <= s
    ensures forall x :: x in p ==> FirstIndex(s, x) == FirstIndex(p, x)
  {
    forall x | x in p
      ensures FirstIndex(s, x) == FirstIndex(p, x)
    {
      var k := FirstIndex(p, x);
      FirstIndexIsFirst(p, x);
      assert s[..k] == p[..k];
      FirstIndexAt(s, x, k);
    }
  }

  lemma OrderedIsDistinct(r: seq<string>, s: seq<string>)
    requires OrderedByFirstOccurrence(r, s)
    ensures Distinct(r)
  {
  }

  /** Filtering keeps the survivors in their relative order. */
  lemma {:induction false} KeepHttpKeepsOrder(r: seq<string>, s: seq<string>)
    requires OrderedByFirstOccurrence(r, s)
    ensures OrderedByFirstOccurrence(KeepHttp(r), s)
  {
    if r != [] {
      OrderedTail(r, s);
      KeepHttpKeepsOrder(r[1..], s);
      if StartsWithHttp(r[0]) {
        var rest := KeepHttp(r[1..]);
        forall k | 0 <= k < |rest|
          ensures FirstIndex(s, r[0]) < FirstIndex(s, rest[k])
        {
          assert rest[k] in r[1..];
        }
        OrderedCons(r[0], rest, s);
      }
    }
  }

  /** A string that first occurs before everything in an ordered list can
      be put in front of it. */
  lemma OrderedCons(x: string, rest: seq<string>, s: seq<string>)
    requires x in s && OrderedByFirstOccurrence(rest, s)
    requires forall k :: 0 <= k < |rest| ==> FirstIndex(s, x) < FirstIndex(s, rest[k])
    ensures OrderedByFirstOccurrence([x] + rest, s)
  {
    assert AllIn([x] + rest, s);
  }

  /** The properties above determine the page list: any list with them is
      the deduplicated, filtered one. */
  lemma PageListIsDetermined(merged: seq<string>, pages: seq<string>)
    requires forall x :: x in pages <==> x in merged && StartsWithHttp(x)
    requires OrderedByFirstOccurrence(pages, merged)
    ensures pages == PageList(merged)
  {
    SameOrderedElementsAreEqual(pages, PageList(merged), merged);
  }

  /** Two lists ordered by first occurrence in the same `s` and holding
      the same strings are equal. */
  lemma {:induction false} SameOrderedElementsAreEqual(a: seq<string>, b: seq<string>, s: seq<string>)
    requires OrderedByFirstOccurrence(a, s) && OrderedByFirstOccurrence(b, s)
    requires forall x :: x in a <==> x in b
    ensures a == b
    decreases |a|
  {
    assert b != [] ==> b[0] in a;
    assert a != [] ==> a[0] in b;
    if a != [] && b != [] {
      SameHeads(a, b, s);
      OrderedTail(a, s);
      OrderedTail(b, s);
      SameTailElements(a, b, s);
      SameOrderedElementsAreEqual(a[1..], b[1..], s);
      assert a == [a[0]] + a[1..];
      assert b == [b[0]] + b[1..];
    }
  }

  lemma SameHeads(a: seq<string>, b: seq<string>, s: seq<string>)
    requires OrderedByFirstOccurrence(a, s) && OrderedByFirstOccurrence(b, s)
    requires forall x :: x in a <==> x in b
    requires a != [] && b != []
    ensures a[0] == b[0]
  {
    assert a[0] in b;
    var k :| 0 <= k < |b| && b[k] == a[0];
    assert b[0] in a;
    var l :| 0 <= l < |a| && a[l] == b[0];
    assert FirstIndex(s, a[0]) <= FirstIndex(s, a[l]);
    assert FirstIndex(s, b[0]) <= FirstIndex(s, b[k]);
  }

  lemma OrderedTail(r: seq<string>, s: seq<string>)
    requires OrderedByFirstOccurrence(r, s) && r != []
    ensures OrderedByFirstOccurrence(r[1..], s)
    ensures r[0] !in r[1..]
    ensures forall y :: y in r[1..] ==> FirstIndex(s, r[0]) < FirstIndex(s, y)
  {
    forall y | y in r[1..]
      ensures FirstIndex(s, r[0]) < FirstIndex(s, y)
    {
      var k :| 0 <= k < |r[1..]| && r[1..][k] == y;
      assert r[k + 1] == y;
    }
    forall i, j | 0 <= i < j < |r[1..]|
      ensures FirstIndex(s, r[1..][i]) < FirstIndex(s, r[1..][j])
    {
      assert r[1..][i] == r[i + 1] && r[1..][j] == r[j + 1];
    }
    OrderedIsDistinct(r, s);
  }

  lemma SameTailElements(a: seq<string>, b: seq<string>, s: seq<string>)
    requires forall x :: x in a <==> x in b
    requires a != [] && b != [] && a[0] == b[0]
    requires a[0] !in a[1..] && b[0] !in b[1..]
    ensures forall x :: x in a[1..] <==> x in b[1..]
  {
    forall x
      ensures x in a[1..] <==> x in b[1..]
    {
      assert x in a <==> x == a[0] || x in a[1..] by { assert a == [a[0]] + a[1..]; }
      assert x in b <==> x == b[0] || x in b[1..] by { assert b == [b[0]] + b[1..]; }
    }
  }
}
