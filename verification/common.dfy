/** Small building blocks shared by the storefront model: an optional value,
    the index arithmetic of JavaScript's `Array.prototype.slice`, an
    order-preserving filter, a subsequence relation and duplicate removal
    that keeps first occurrences (the iteration order of a JavaScript `Set`). */
module Common {

  datatype Option<+T> = None | Some(value: T)

  datatype Result<+T, +E> = Ok(value: T) | Err(error: E)

  /** True when no two positions of `s` hold the same value. */
  ghost predicate NoDuplicates<T>(s: seq<T>) {
    forall i, j :: 0 <= i < j < |s| ==> s[i] != s[j]
  }

  /** How `slice` turns one argument into a position of a sequence of length
      `n`: a negative argument counts back from the end, and the result is
      clamped into `0..n`. */
  function SliceIndex(i: int, n: nat): (k: nat)
    ensures k <= n
    ensures 0 <= i <= n ==> k == i
  {
    if i < 0 then (if n + i < 0 then 0 else n + i)
    else if i > n then n
    else i
  }

  /** `s.slice(start, end)` as JavaScript defines it. */
  function JsSlice<T>(s: seq<T>, start: int, end: int): (r: seq<T>)
    ensures |r| <= |s|
    ensures end >= start ==> |r| <= end - start
    ensures 0 <= start && start <= end ==>
      var a := if start < |s| then start else |s|;
      var b := if end < |s| then end else |s|;
      r == s[a..b]
  {
    var a := SliceIndex(start, |s|);
    var b := SliceIndex(end, |s|);
    if a < b then s[a..b] else []
  }

  /** `s.filter(p)`: the elements satisfying `p`, in their original order. */
  function Keep<T(!new)>(s: seq<T>, p: T -> bool): (r: seq<T>)
    ensures |r| <= |s|
    ensures forall i :: 0 <= i < |r| ==> p(r[i])
  {
    if |s| == 0 then []
    else if p(s[0]) then [s[0]] + Keep(s[1..], p)
    else Keep(s[1..], p)
  }

  /** The filter keeps exactly the elements satisfying `p`. */
  lemma {:induction false} KeepMembers<T(!new)>(s: seq<T>, p: T -> bool)
    ensures forall x :: x in Keep(s, p) <==> x in s && p(x)
    decreases |s|
  {
    if |s| > 0 {
      KeepMembers(s[1..], p);
      assert forall x :: x in s <==> x == s[0] || x in s[1..];
    }
  }

  /** The filter keeps every copy of an element satisfying `p` and no copy
      of any other: it fixes multiplicities, not only membership. */
  lemma {:induction false} KeepMultiset<T(!new)>(s: seq<T>, p: T -> bool)
    ensures forall x :: multiset(Keep(s, p))[x] == if p(x) then multiset(s)[x] else 0
    decreases |s|
  {
    if |s| > 0 {
      KeepMultiset(s[1..], p);
      assert s == [s[0]] + s[1..];
      assert multiset(s) == multiset{s[0]} + multiset(s[1..]);
      if p(s[0]) {
        assert multiset(Keep(s, p)) == multiset{s[0]} + multiset(Keep(s[1..], p));
      }
    }
  }

  /** `a` can be obtained from `b` by deleting elements (order is kept). */
  ghost predicate IsSubsequence<T>(a: seq<T>, b: seq<T>)
    decreases |b|
  {
    if |a| == 0 then true
    else if |b| == 0 then false
    else (a[0] == b[0] && IsSubsequence(a[1..], b[1..])) || IsSubsequence(a, b[1..])
  }

  lemma {:induction false} KeepIsSubsequence<T(!new)>(s: seq<T>, p: T -> bool)
    ensures IsSubsequence(Keep(s, p), s)
    decreases |s|
  {
    if |s| > 0 {
      KeepIsSubsequence(s[1..], p);
      if p(s[0]) {
        var r := Keep(s, p);
        assert r[0] == s[0] && r[1..] == Keep(s[1..], p);
      }
    }
  }

  lemma {:induction false} KeepEverything<T(!new)>(s: seq<T>, p: T -> bool)
    requires forall i :: 0 <= i < |s| ==> p(s[i])
    ensures Keep(s, p) == s
    decreases |s|
  {
    if |s| > 0 {
      KeepEverything(s[1..], p);
      assert [s[0]] + s[1..] == s;
    }
  }

  /** Two filters in a row keep what their conjunction keeps. */
  lemma {:induction false} KeepTwice<T(!new)>(s: seq<T>, p: T -> bool, q: T -> bool, both: T -> bool)
    requires forall x :: both(x) == (p(x) && q(x))
    ensures Keep(Keep(s, p), q) == Keep(s, both)
    decreases |s|
  {
    if |s| > 0 {
      KeepTwice(s[1..], p, q, both);
      if p(s[0]) {
        assert Keep(s, p) == [s[0]] + Keep(s[1..], p);
        assert Keep(s, p)[1..] == Keep(s[1..], p);
      }
    }
  }

  /** Filtering distributes over concatenation. */
  lemma {:induction false} KeepConcat<T(!new)>(a: seq<T>, b: seq<T>, p: T -> bool)
    ensures Keep(a + b, p) == Keep(a, p) + Keep(b, p)
    decreases |a|
  {
    if |a| > 0 {
      var x, tail := a[0], a[1..];
      var head := if p(x) then [x] else [];
      KeepConcat(tail, b, p);
      assert a + b == [x] + (tail + b);
      KeepCons(x, tail + b, p);
      assert a == [x] + tail;
      KeepCons(x, tail, p);
      ConcatAssoc(head, Keep(tail, p), Keep(b, p));
    } else {
      assert a + b == b;
    }
  }

  lemma ConcatAssoc<T>(a: seq<T>, b: seq<T>, c: seq<T>)
    ensures a + (b + c) == (a + b) + c
  {
  }

  /** The elements of `s` in the opposite order. */
  function Reverse<T>(s: seq<T>): (r: seq<T>)
    ensures |r| == |s|
    ensures forall i :: 0 <= i < |s| ==> r[i] == s[|s| - 1 - i]
  {
    if |s| == 0 then [] else Reverse(s[1..]) + [s[0]]
  }

  lemma ReverseCons<T>(s: seq<T>)
    requires |s| > 0
    ensures Reverse(s) == Reverse(s[1..]) + [s[0]]
  {
  }

  /** Filtering a list with a known first element. */
  lemma KeepCons<T(!new)>(x: T, s: seq<T>, p: T -> bool)
    ensures Keep([x] + s, p) == (if p(x) then [x] else []) + Keep(s, p)
  {
    assert ([x] + s)[0] == x && ([x] + s)[1..] == s;
  }

  /** No two elements of `s` share a key. */
  ghost predicate UniqueBy<T, K>(s: seq<T>, key: T -> K) {
    forall i, j :: 0 <= i < j < |s| ==> key(s[i]) != key(s[j])
  }

  /** Filtering never introduces two elements with the same key. */
  lemma {:induction false} KeepPreservesUniqueBy<T(!new), K>(s: seq<T>, p: T -> bool, key: T -> K)
    requires UniqueBy(s, key)
    ensures UniqueBy(Keep(s, p), key)
    decreases |s|
  {
    if |s| > 0 {
      var rest := Keep(s[1..], p);
      assert UniqueBy(s[1..], key) by {
        forall i, j | 0 <= i < j < |s[1..]|
          ensures key(s[1..][i]) != key(s[1..][j])
        {
          assert s[1..][i] == s[i + 1] && s[1..][j] == s[j + 1];
        }
      }
      KeepPreservesUniqueBy(s[1..], p, key);
      KeepMembers(s[1..], p);
      if p(s[0]) {
        var r := [s[0]] + rest;
        forall i, j | 0 <= i < j < |r|
          ensures key(r[i]) != key(r[j])
        {
          if i == 0 {
            assert r[j] in s[1..];
            var m :| 0 <= m < |s[1..]| && s[1..][m] == r[j];
            assert s[m + 1] == r[j];
          } else {
            assert r[i] == rest[i - 1] && r[j] == rest[j - 1];
          }
        }
      }
    }
  }

  /** The distinct values of `s` in order of first occurrence, as
      `[...new Set(s)]` produces them. */
  function Distinct<T(==,!new)>(s: seq<T>): (r: seq<T>)
    ensures NoDuplicates(r)
    ensures forall x :: x in r <==> x in s
    ensures |r| <= |s|
    decreases |s|
  {
    if |s| == 0 then []
    else
      var d := Distinct(s[..|s| - 1]);
      assert forall x :: x in s <==> x in s[..|s| - 1] || x == s[|s| - 1] by {
        assert s == s[..|s| - 1] + [s[|s| - 1]];
      }
      if s[|s| - 1] in d then d else d + [s[|s| - 1]]
  }

  /** Position of the first occurrence of `x` in `s`. */
  function FirstIndex<T(==)>(s: seq<T>, x: T): (k: nat)
    requires x in s
    ensures k < |s| && s[k] == x
    ensures forall i :: 0 <= i < k ==> s[i] != x
  {
    if s[0] == x then 0 else 1 + FirstIndex(s[1..], x)
  }

  /** The distinct values come out in the order in which each first appears. */
  lemma {:induction false} DistinctKeepsFirstOccurrenceOrder<T(!new)>(s: seq<T>, i: nat, j: nat)
    requires i < j < |Distinct(s)|
    ensures FirstIndex(s, Distinct(s)[i]) < FirstIndex(s, Distinct(s)[j])
    decreases |s|
  {
    var init := s[..|s| - 1];
    var last := s[|s| - 1];
    var d := Distinct(init);
    assert s == init + [last];
    var r := Distinct(s);
    assert r[i] in s && r[j] in s;
    if last in d {
      assert r == d;
      DistinctKeepsFirstOccurrenceOrder(init, i, j);
      FirstIndexOfPrefix(init, last, r[i]);
      FirstIndexOfPrefix(init, last, r[j]);
    } else {
      assert r == d + [last];
      assert r[i] == d[i] && r[i] in init;
      FirstIndexOfPrefix(init, last, r[i]);
      if j < |d| {
        DistinctKeepsFirstOccurrenceOrder(init, i, j);
        FirstIndexOfPrefix(init, last, r[j]);
      } else {
        assert r[j] == last && last !in init;
        assert FirstIndex(s, last) == |s| - 1;
        assert FirstIndex(s, r[i]) < |init|;
      }
    }
  }

  lemma FirstIndexOfPrefix<T>(init: seq<T>, last: T, x: T)
    requires x in init
    ensures FirstIndex(init + [last], x) == FirstIndex(init, x)
  {
    var s := init + [last];
    var k := FirstIndex(init, x);
    assert s[k] == x;
  }

  // ---------------------------------------------------------------------
  // Decimal rendering of natural numbers, as a template literal prints them.

  predicate IsDigit(c: char) {
    '0' <= c <= '9'
  }

  function DigitChar(d: nat): (c: char)
    requires d < 10
    ensures IsDigit(c) && (c as int) - ('0' as int) == d
  {
    (('0' as int) + d) as char
  }

  /** `${n}`: the shortest decimal numeral of `n`. */
  function Decimal(n: nat): (s: string)
    ensures |s| >= 1
    ensures forall i :: 0 <= i < |s| ==> IsDigit(s[i])
    ensures |s| > 1 ==> s[0] != '0'
  {
    if n < 10 then [DigitChar(n)] else Decimal(n / 10) + [DigitChar(n % 10)]
  }

  /** The number a string of digits denotes. */
  function DigitsValue(s: string): nat
    requires forall i :: 0 <= i < |s| ==> IsDigit(s[i])
  {
    if |s| == 0 then 0
    else
      assert IsDigit(s[|s| - 1]);
      DigitsValue(s[..|s| - 1]) * 10 + ((s[|s| - 1] as int) - ('0' as int))
  }

  /** Reading the numeral back gives the number. */
  lemma {:induction false} DecimalRoundTrip(n: nat)
    ensures DigitsValue(Decimal(n)) == n
  {
    if n >= 10 {
      DecimalRoundTrip(n / 10);
      var s := Decimal(n);
      assert s[..|s| - 1] == Decimal(n / 10);
    }
  }

  /** Different numbers print differently. */
  lemma DecimalInjective(m: nat, n: nat)
    requires Decimal(m) == Decimal(n)
    ensures m == n
  {
    DecimalRoundTrip(m);
    DecimalRoundTrip(n);
  }
}
