/** Code-point order on text and Python's `sorted(...)` and `sorted(set(...))` over it. */
module Texts {
  import opened Basics

  predicate Less(a: Text, b: Text) {
    b != [] && (a == [] || a[0] < b[0] || (a[0] == b[0] && Less(a[1..], b[1..])))
  }

  lemma {:induction false} LessIsTotal(a: Text, b: Text)
    ensures Less(a, b) || a == b || Less(b, a)
    ensures !(Less(a, b) && Less(b, a)) && !Less(a, a)
    decreases |a|
  {
    if a != [] {
      LessIsTotal(a[1..], a[1..]);
      if b != [] {
        LessIsTotal(a[1..], b[1..]);
        assert a == [a[0]] + a[1..] && b == [b[0]] + b[1..];
      }
    }
  }

  /** Code-point order: a proper prefix, or a smaller byte at the first difference. */
  lemma {:induction false} LessIsFirstDifference(a: Text, b: Text)
    ensures Less(a, b) <==>
              exists k :: 0 <= k <= |a| && k < |b| && a[..k] == b[..k] && (k == |a| || a[k] < b[k])
    decreases |a|
  {
    if a == [] || b == [] || a[0] != b[0] {
      if b != [] && (a == [] || a[0] < b[0]) {
        assert a[..0] == b[..0];
      }
      forall k: nat
        ensures 0 < k <= |a| && k < |b| ==> a[..k] != b[..k]
      {
        assert 0 < k <= |a| && k < |b| ==> a[..k][0] == a[0] && b[..k][0] == b[0];
      }
    } else {
      LessIsFirstDifference(a[1..], b[1..]);
      if k :| 0 <= k <= |a| && k < |b| && a[..k] == b[..k] && (k == |a| || a[k] < b[k]) {
        assert k > 0 && a[1..][..k - 1] == a[..k][1..] == b[..k][1..] == b[1..][..k - 1];
      }
      if k :| 0 <= k <= |a[1..]| && k < |b[1..]| && a[1..][..k] == b[1..][..k] && (k == |a[1..]| || a[1..][k] < b[1..][k]) {
        assert a[..k + 1] == [a[0]] + a[1..][..k] && b[..k + 1] == [b[0]] + b[1..][..k];
      }
    }
  }

  lemma {:induction false} LessIsTransitive(a: Text, b: Text, c: Text)
    requires Less(a, b) && Less(b, c)
    ensures Less(a, c)
    decreases |a|
  {
    if a != [] && a[0] == b[0] && b[0] == c[0] {
      LessIsTransitive(a[1..], b[1..], c[1..]);
    }
  }

  ghost predicate Above(x: Text, s: seq<Text>) {
    forall y :: y in s ==> Less(x, y)
  }

  /** Strictly increasing: sorted without duplicates. */
  ghost predicate Increasing(s: seq<Text>) {
    s != [] ==> Above(s[0], s[1..]) && Increasing(s[1..])
  }

  function Insert(x: Text, s: seq<Text>, unique: bool): seq<Text> {
    if s == [] then [x]
    else if unique && x == s[0] then s
    else if Less(s[0], x) then [s[0]] + Insert(x, s[1..], unique)
    else [x] + s
  }

  /** `sorted(refs)`, duplicates kept. */
  function Sorted(refs: seq<Text>): seq<Text> {
    if refs == [] then [] else Insert(refs[0], Sorted(refs[1..]), false)
  }

  /** `sorted(set(refs))`. */
  function SortedUnique(refs: seq<Text>): seq<Text> {
    if refs == [] then [] else Insert(refs[0], SortedUnique(refs[1..]), true)
  }

  lemma {:induction false} InsertElements(x: Text, s: seq<Text>, unique: bool, y: Text)
    ensures y in Insert(x, s, unique) <==> y == x || y in s
    decreases |s|
  {
    if s != [] {
      InsertElements(x, s[1..], unique, y);
      assert y in s <==> y == s[0] || y in s[1..];
    }
  }

  lemma {:induction false} InsertKeepsIncreasing(x: Text, s: seq<Text>)
    requires Increasing(s)
    ensures Increasing(Insert(x, s, true))
    decreases |s|
  {
    if s != [] && x != s[0] {
      LessIsTotal(x, s[0]);
      if Less(s[0], x) {
        var rest := Insert(x, s[1..], true);
        InsertKeepsIncreasing(x, s[1..]);
        forall y | y in rest
          ensures Less(s[0], y)
        {
          InsertElements(x, s[1..], true, y);
        }
        assert ([s[0]] + rest)[1..] == rest;
      } else {
        forall y | y in s
          ensures Less(x, y)
        {
          if y != s[0] {
            assert y in s[1..];
            LessIsTransitive(x, s[0], y);
          }
        }
        assert ([x] + s)[1..] == s;
      }
    }
  }

  /** What `sorted(set(...))` returns: the same elements, strictly increasing. */
  lemma {:induction false} SortedUniqueIsSorted(refs: seq<Text>)
    ensures Increasing(SortedUnique(refs))
    ensures forall y :: y in SortedUnique(refs) <==> y in refs
    decreases |refs|
  {
    if refs != [] {
      SortedUniqueIsSorted(refs[1..]);
      InsertKeepsIncreasing(refs[0], SortedUnique(refs[1..]));
      forall y
        ensures y in SortedUnique(refs) <==> y in refs
      {
        InsertElements(refs[0], SortedUnique(refs[1..]), true, y);
        assert y in refs <==> y == refs[0] || y in refs[1..];
      }
    }
  }

  /** There is only one strictly increasing list with given elements. */
  lemma {:induction false} IncreasingIsUnique(s: seq<Text>, t: seq<Text>)
    requires Increasing(s) && Increasing(t)
    requires forall y :: y in s <==> y in t
    ensures s == t
    decreases |s|
  {
    assert s != [] ==> s[0] in s;
    assert t != [] ==> t[0] in t;
    if s != [] {
      if s[0] != t[0] {
        assert s[0] in t[1..] && t[0] in s[1..];
        LessIsTotal(s[0], t[0]);
        assert false;
      }
      forall y
        ensures y in s[1..] <==> y in t[1..]
      {
        LessIsTotal(s[0], s[0]);
        assert y in s <==> y == s[0] || y in s[1..];
        assert y in t <==> y == t[0] || y in t[1..];
      }
      IncreasingIsUnique(s[1..], t[1..]);
      assert s == [s[0]] + s[1..] && t == [t[0]] + t[1..];
    }
  }

  lemma {:induction false} SortedElements(refs: seq<Text>, y: Text)
    ensures y in Sorted(refs) <==> y in refs
    decreases |refs|
  {
    if refs != [] {
      SortedElements(refs[1..], y);
      InsertElements(refs[0], Sorted(refs[1..]), false, y);
      assert y in refs <==> y == refs[0] || y in refs[1..];
    }
  }

  /** Order and repetition do not matter to `sorted(set(...))`. */
  lemma {:induction false} SameElementsSameList(refs: seq<Text>, others: seq<Text>)
    requires forall y :: y in refs <==> y in others
    ensures SortedUnique(refs) == SortedUnique(others)
  {
    SortedUniqueIsSorted(refs);
    SortedUniqueIsSorted(others);
    IncreasingIsUnique(SortedUnique(refs), SortedUnique(others));
  }

  /** Sorting first, or removing duplicates first, changes nothing. */
  lemma {:induction false} SortedUniqueAbsorbs(refs: seq<Text>)
    ensures SortedUnique(Sorted(refs)) == SortedUnique(refs)
    ensures SortedUnique(SortedUnique(refs)) == SortedUnique(refs)
  {
    forall y
      ensures y in Sorted(refs) <==> y in refs
    {
      SortedElements(refs, y);
    }
    SortedUniqueIsSorted(refs);
    SameElementsSameList(Sorted(refs), refs);
    SameElementsSameList(SortedUnique(refs), refs);
  }

  ghost predicate NotBelow(x: Text, s: seq<Text>) {
    forall y :: y in s ==> x == y || Less(x, y)
  }

  ghost predicate NonDecreasing(s: seq<Text>) {
    s != [] ==> NotBelow(s[0], s[1..]) && NonDecreasing(s[1..])
  }

  lemma {:induction false} InsertKeepsNonDecreasing(x: Text, s: seq<Text>)
    requires NonDecreasing(s)
    ensures NonDecreasing(Insert(x, s, false)) && multiset(Insert(x, s, false)) == multiset(s) + multiset{x}
    decreases |s|
  {
    hide Less;
    if s != [] {
      assert s == [s[0]] + s[1..];
      LessIsTotal(x, s[0]);
      if Less(s[0], x) {
        var rest := Insert(x, s[1..], false);
        InsertKeepsNonDecreasing(x, s[1..]);
        forall y | y in rest
          ensures y == s[0] || Less(s[0], y)
        {
          InsertElements(x, s[1..], false, y);
        }
        assert ([s[0]] + rest)[1..] == rest;
      } else {
        forall y | y in s
          ensures x == y || Less(x, y)
        {
          if y != s[0] && x != s[0] {
            assert y in s[1..];
            LessIsTransitive(x, s[0], y);
          }
        }
        assert ([x] + s)[1..] == s;
      }
    }
  }

  /** What `sorted(...)` returns: the same elements as often, in order. */
  lemma {:induction false} SortedIsSorted(refs: seq<Text>)
    ensures NonDecreasing(Sorted(refs)) && multiset(Sorted(refs)) == multiset(refs)
    decreases |refs|
  {
    if refs != [] {
      SortedIsSorted(refs[1..]);
      InsertKeepsNonDecreasing(refs[0], Sorted(refs[1..]));
      assert refs == [refs[0]] + refs[1..];
    }
  }
}
