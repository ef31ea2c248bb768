/** The order in which the size selector lists sizes: the garment sizes
    XS ... 4XL first, in that order, then every other size by string
    comparison. `localeCompare` is replaced by lexicographic comparison of
    characters (Unicode scalar values), which is UTF-16 code-unit order on
    text in the Basic Multilingual Plane. */
module SizeOrder {
  import opened Js

  const GarmentSizes: seq<string> := ["XS", "S", "M", "L", "XL", "2XL", "3XL", "4XL"]

  /** `order.indexOf(s)`: the position of `s` among the garment sizes, or -1. */
  function Rank(s: string): (r: int)
    ensures -1 <= r < |GarmentSizes|
    ensures r >= 0 ==> GarmentSizes[r] == s
    ensures r == -1 <==> s !in GarmentSizes
  {
    if s == "XS" then 0 else if s == "S" then 1 else if s == "M" then 2
    else if s == "L" then 3 else if s == "XL" then 4 else if s == "2XL" then 5
    else if s == "3XL" then 6 else if s == "4XL" then 7 else -1
  }

  /** Lexicographic comparison of characters: negative, zero or positive. */
  function CharCompare(a: string, b: string): (r: int)
    ensures -1 <= r <= 1
    ensures r == 0 <==> a == b
    decreases |a|
  {
    if |a| == 0 && |b| == 0 then 0
    else if |a| == 0 then -1
    else if |b| == 0 then 1
    else if a[0] < b[0] then -1
    else if a[0] > b[0] then 1
    else
      var r := CharCompare(a[1..], b[1..]);
      assert a == [a[0]] + a[1..] && b == [b[0]] + b[1..];
      r
  }

  /** Swapping the arguments swaps the sign. */
  lemma {:induction false} CharCompareAntisymmetric(a: string, b: string)
    ensures CharCompare(a, b) == -CharCompare(b, a)
    decreases |a|
  {
    if |a| > 0 && |b| > 0 && a[0] == b[0] {
      CharCompareAntisymmetric(a[1..], b[1..]);
    }
  }

  /** Character comparison is transitive. */
  lemma {:induction false} CharCompareTransitive(a: string, b: string, c: string)
    requires CharCompare(a, b) <= 0 && CharCompare(b, c) <= 0
    ensures CharCompare(a, c) <= 0
    decreases |a|
  {
    if |a| > 0 && |b| > 0 && |c| > 0 && a[0] == b[0] && b[0] == c[0] {
      CharCompareTransitive(a[1..], b[1..], c[1..]);
    }
  }

  /** The comparator passed to `sort` in `getUniqueSizes`. */
  function Compare(a: string, b: string): (r: int)
    ensures r == 0 <==> a == b
    ensures Rank(a) != -1 && Rank(b) == -1 ==> r < 0
    ensures Rank(a) == -1 && Rank(b) != -1 ==> r > 0
  {
    var aIndex := Rank(a);
    var bIndex := Rank(b);
    if aIndex != -1 && bIndex != -1 then aIndex - bIndex
    else if aIndex != -1 then -1
    else if bIndex != -1 then 1
    else CharCompare(a, b)
  }

  /** The comparator is a total order: antisymmetric and transitive. */
  lemma CompareAntisymmetric(a: string, b: string)
    ensures Compare(a, b) <= 0 && Compare(b, a) <= 0 ==> a == b
    ensures Compare(a, b) <= 0 || Compare(b, a) <= 0
  {
    CharCompareAntisymmetric(a, b);
  }

  lemma CompareTransitive(a: string, b: string, c: string)
    requires Compare(a, b) <= 0 && Compare(b, c) <= 0
    ensures Compare(a, c) <= 0
  {
    if Rank(a) == -1 && Rank(b) == -1 && Rank(c) == -1 {
      CharCompareTransitive(a, b, c);
    }
  }

  /** `x` compares at most equal to every element of `s`. */
  predicate LowerBound(x: string, s: seq<string>) {
    forall y :: y in s ==> Compare(x, y) <= 0
  }

  /** Every element compares at most equal to every later one. */
  predicate Sorted(s: seq<string>)
    decreases |s|
  {
    |s| == 0 || (LowerBound(s[0], s[1..]) && Sorted(s[1..]))
  }

  /** Inserts `x` before the first element it does not compare after. */
  function Insert(x: string, s: seq<string>): (r: seq<string>)
    requires Sorted(s)
    ensures Sorted(r)
    ensures multiset(r) == multiset(s) + multiset{x}
    decreases |s|
  {
    if |s| == 0 then [x]
    else if Compare(x, s[0]) <= 0 then
      assert LowerBound(x, s) by {
        forall y | y in s ensures Compare(x, y) <= 0 {
          if y != s[0] {
            assert y in s[1..] by { assert s == [s[0]] + s[1..]; }
            CompareTransitive(x, s[0], y);
          }
        }
      }
      assert ([x] + s)[1..] == s;
      [x] + s
    else
      var rest := Insert(x, s[1..]);
      CompareAntisymmetric(x, s[0]);
      assert LowerBound(s[0], rest) by {
        forall y | y in rest ensures Compare(s[0], y) <= 0 {
          assert y in multiset(rest);
          assert y == x || y in multiset(s[1..]);
        }
      }
      assert s == [s[0]] + s[1..];
      assert ([s[0]] + rest)[1..] == rest;
      [s[0]] + rest
  }

  /** The sorted sizes: a permutation of the input in comparator order. */
  function SortSizes(s: seq<string>): (r: seq<string>)
    ensures Sorted(r)
    ensures multiset(r) == multiset(s)
    decreases |s|
  {
    if |s| == 0 then []
    else
      assert s == [s[0]] + s[1..];
      Insert(s[0], SortSizes(s[1..]))
  }

  /** Two sorted arrangements of the same sizes are the same sequence, so
      the result does not depend on the sorting algorithm the browser uses. */
  lemma {:induction false} SortedUnique(a: seq<string>, b: seq<string>)
    requires Sorted(a) && Sorted(b) && multiset(a) == multiset(b)
    ensures a == b
    decreases |a|
  {
    assert |a| == |multiset(a)| == |b|;
    if |a| > 0 {
      SortedHeadsEqual(a, b);
      TailsSameElements(a, b);
      SortedUnique(a[1..], b[1..]);
      assert a == [a[0]] + a[1..] && b == [b[0]] + b[1..];
    }
  }

  /** Two sorted arrangements of the same elements start alike. */
  lemma SortedHeadsEqual(a: seq<string>, b: seq<string>)
    requires Sorted(a) && Sorted(b) && multiset(a) == multiset(b) && |a| > 0
    ensures |b| > 0 && a[0] == b[0]
  {
    assert |a| == |multiset(a)| == |b|;
    assert a == [a[0]] + a[1..] && b == [b[0]] + b[1..];
    assert a[0] in multiset(b) && b[0] in multiset(a);
    assert Compare(a[0], b[0]) <= 0 by {
      if a[0] != b[0] { assert b[0] in a[1..]; }
    }
    assert Compare(b[0], a[0]) <= 0 by {
      if a[0] != b[0] { assert a[0] in b[1..]; }
    }
    CompareAntisymmetric(a[0], b[0]);
  }

  /** Dropping equal heads from equal multisets leaves equal multisets. */
  lemma TailsSameElements(a: seq<string>, b: seq<string>)
    requires |a| > 0 && |b| > 0 && a[0] == b[0] && multiset(a) == multiset(b)
    ensures multiset(a[1..]) == multiset(b[1..])
  {
    assert a == [a[0]] + a[1..] && b == [b[0]] + b[1..];
    assert multiset(a[1..]) == multiset(a) - multiset{a[0]};
    assert multiset(b[1..]) == multiset(b) - multiset{b[0]};
  }


  /** In a sorted list the garment sizes come first, in garment order, and
      the remaining sizes follow in character order. */
  lemma {:induction false} SortedLayout(s: seq<string>, i: int, j: int)
    requires Sorted(s) && 0 <= i < j < |s|
    ensures Rank(s[j]) != -1 ==> Rank(s[i]) != -1 && Rank(s[i]) <= Rank(s[j])
    ensures Rank(s[i]) == -1 && Rank(s[j]) == -1 ==> CharCompare(s[i], s[j]) <= 0
    decreases i
  {
    if i == 0 {
      assert s[j] in s[1..];
    } else {
      SortedLayout(s[1..], i - 1, j - 1);
    }
  }
}
