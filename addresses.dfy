/** The order in which a round sorts the addresses of one server (Ruby's
    `Array#sort` on strings, that is `String#<=>`), and the facts about the
    sort that change detection relies on. */
module AddressOrder {

  /** `a <= b` for Ruby strings: lexicographic by character code, a proper
      prefix before any of its extensions. */
  predicate Le(a: string, b: string)
    decreases |a|
  {
    a == [] || (b != [] && (a[0] < b[0] || (a[0] == b[0] && Le(a[1..], b[1..]))))
  }

  lemma {:induction false} LeReflexive(a: string)
    ensures Le(a, a)
    decreases |a|
  {
    if a != [] { LeReflexive(a[1..]); }
  }

  lemma {:induction false} LeTotal(a: string, b: string)
    ensures Le(a, b) || Le(b, a)
    decreases |a|
  {
    if a != [] && b != [] && a[0] == b[0] { LeTotal(a[1..], b[1..]); }
  }

  lemma {:induction false} LeAntisymmetric(a: string, b: string)
    requires Le(a, b) && Le(b, a)
    ensures a == b
    decreases |a|
  {
    if a != [] {
      LeAntisymmetric(a[1..], b[1..]);
      assert a == [a[0]] + a[1..] && b == [b[0]] + b[1..];
    }
  }

  lemma {:induction false} LeTransitive(a: string, b: string, c: string)
    requires Le(a, b) && Le(b, c)
    ensures Le(a, c)
    decreases |a|
  {
    if a != [] && a[0] == b[0] && b[0] == c[0] { LeTransitive(a[1..], b[1..], c[1..]); }
  }

  predicate Sorted(s: seq<string>)
  {
    forall i, j :: 0 <= i < j < |s| ==> Le(s[i], s[j])
  }

  /** In a sorted list the first address is at most every address it holds. */
  lemma SortedHeadIsLeast(s: seq<string>, y: string)
    requires Sorted(s) && y in s
    ensures Le(s[0], y)
  {
    var k :| 0 <= k < |s| && s[k] == y;
    if k == 0 { LeReflexive(y); }
  }

  /** `x` placed into the sorted list `s` in front of the first address it
      does not exceed. */
  function Insert(x: string, s: seq<string>): (r: seq<string>)
    requires Sorted(s)
    ensures Sorted(r)
    ensures multiset(r) == multiset(s) + multiset{x}
    decreases |s|
  {
    if s == [] then [x]
    else if Le(x, s[0]) then
      InsertFrontSorted(x, s);
      [x] + s
    else
      LeTotal(x, s[0]);
      var rest := Insert(x, s[1..]);
      assert s == [s[0]] + s[1..];
      assert Sorted(s[1..]) && multiset(rest) == multiset(s[1..]) + multiset{x};
      ConsSorted(s[0], rest, s[1..], x);
      [s[0]] + rest
  }

  lemma InsertFrontSorted(x: string, s: seq<string>)
    requires Sorted(s) && s != [] && Le(x, s[0])
    ensures Sorted([x] + s)
  {
    forall j | 1 < j < |s| + 1
      ensures Le(x, ([x] + s)[j])
    {
      LeTransitive(x, s[0], s[j - 1]);
    }
  }

  /** `h` in front of the sorted `rest` stays sorted when `h` is at most
      every address of `rest`, here those of `tail` and `x`. */
  lemma ConsSorted(h: string, rest: seq<string>, tail: seq<string>, x: string)
    requires Sorted(rest) && Sorted([h] + tail) && Le(h, x)
    requires multiset(rest) == multiset(tail) + multiset{x}
    ensures Sorted([h] + rest)
  {
    forall k | 0 <= k < |rest|
      ensures Le(h, rest[k])
    {
      assert rest[k] in multiset(rest);
      if rest[k] != x {
        assert rest[k] in multiset(tail);
        var m :| 0 <= m < |tail| && tail[m] == rest[k];
        assert ([h] + tail)[0] == h && ([h] + tail)[m + 1] == rest[k];
      }
    }
  }

  /** `addresses.sort`: the same addresses, in ascending order. */
  function Sort(s: seq<string>): (r: seq<string>)
    ensures Sorted(r)
    ensures multiset(r) == multiset(s)
    decreases |s|
  {
    if s == [] then []
    else
      assert s == [s[0]] + s[1..];
      Insert(s[0], Sort(s[1..]))
  }

  lemma MultisetTail(s: seq<string>)
    requires s != []
    ensures multiset(s[1..]) == multiset(s) - multiset{s[0]}
  {
    assert s == [s[0]] + s[1..];
  }

  lemma SortedTail(s: seq<string>)
    requires Sorted(s) && s != []
    ensures Sorted(s[1..])
  {
    forall i, j | 0 <= i < j < |s| - 1
      ensures Le(s[1..][i], s[1..][j])
    {
      assert s[1..][i] == s[i + 1] && s[1..][j] == s[j + 1];
    }
  }

  /** Two sorted lists holding the same addresses start with the same one. */
  lemma SortedHeadsEqual(a: seq<string>, b: seq<string>)
    requires Sorted(a) && Sorted(b) && multiset(a) == multiset(b) && a != []
    ensures b != [] && a[0] == b[0]
  {
    assert a[0] in multiset(b);
    assert b[0] in multiset(a);
    SortedHeadIsLeast(a, b[0]);
    SortedHeadIsLeast(b, a[0]);
    LeAntisymmetric(a[0], b[0]);
  }

  lemma ConsEqual(a: seq<string>, b: seq<string>)
    requires a != [] && b != [] && a[0] == b[0] && a[1..] == b[1..]
    ensures a == b
  {
    assert a == [a[0]] + a[1..] && b == [b[0]] + b[1..];
  }

  /** Two sorted lists holding the same addresses are the same list. */
  lemma {:induction false} SortedUnique(a: seq<string>, b: seq<string>)
    requires Sorted(a) && Sorted(b) && multiset(a) == multiset(b)
    ensures a == b
    decreases |a|
  {
    if a != [] {
      SortedHeadsEqual(a, b);
      MultisetTail(a);
      MultisetTail(b);
      SortedTail(a);
      SortedTail(b);
      SortedUnique(a[1..], b[1..]);
      ConsEqual(a, b);
    }
  }

  /** The order in which the resolver lists the addresses does not matter:
      any two orderings of the same addresses sort to the same list. */
  lemma SortIgnoresOrder(a: seq<string>, b: seq<string>)
    requires multiset(a) == multiset(b)
    ensures Sort(a) == Sort(b)
  {
    SortedUnique(Sort(a), Sort(b));
  }
}
