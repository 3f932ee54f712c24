/**
 Plain JavaScript objects used as ordered dictionaries.

 The previewer reads two orders off plain objects: the column list is
 `Object.keys` of the first parsed row, and the pie slices are
 `Object.entries` of the tally object. Both follow ECMAScript's
 OrdinaryOwnPropertyKeys: keys that are array indices come first in
 ascending numeric order, then the remaining string keys in the order they
 were first inserted. This module models an object as its insertion order
 plus its property map, and defines that enumeration order.
 */
module JsObjects {
  import opened Basics

  /* ----- Canonical decimal numerals ----- */

  predicate IsDigit(c: char) { '0' <= c <= '9' }

  predicate AllDigits(s: string) {
    forall i :: 0 <= i < |s| ==> IsDigit(s[i])
  }

  function DigitValue(c: char): nat
    requires IsDigit(c)
  {
    (c as int) - ('0' as int)
  }

  function DigitChar(d: nat): (c: char)
    requires d < 10
    ensures IsDigit(c) && DigitValue(c) == d
  {
    (('0' as int) + d) as char
  }

  /** The number a string of decimal digits denotes (most significant digit first). */
  function DigitsValue(s: string): nat
    requires AllDigits(s)
    decreases |s|
  {
    if |s| == 0 then 0 else 10 * DigitsValue(s[..|s| - 1]) + DigitValue(s[|s| - 1])
  }

  /** A decimal numeral without superfluous leading zeros, as `String(n)` prints a natural number. */
  predicate IsCanonicalNumeral(s: string) {
    0 < |s| && AllDigits(s) && (s[0] == '0' ==> |s| == 1)
  }

  /** The largest array index, 2^32 - 2. */
  const MaxArrayIndex: nat := 4294967294

  /** A property key that is an array index: the canonical numeral of an integer below 2^32 - 1. */
  predicate IsArrayIndex(k: string) {
    IsCanonicalNumeral(k) && DigitsValue(k) <= MaxArrayIndex
  }

  /** The decimal text of a natural number, as a JavaScript template literal renders it for n below 10^21 (which covers every point index; from 10^21 on JavaScript switches to exponent form). */
  function NatToString(n: nat): (s: string)
    ensures IsCanonicalNumeral(s)
    ensures DigitsValue(s) == n
    decreases n
  {
    if n < 10 then [DigitChar(n)]
    else
      var prefix := NatToString(n / 10);
      var s := prefix + [DigitChar(n % 10)];
      assert s[..|s| - 1] == prefix;
      s
  }

  lemma {:induction false} LeadingDigitPositive(s: string)
    requires 0 < |s| && AllDigits(s) && s[0] != '0'
    ensures DigitsValue(s) >= 1
    decreases |s|
  {
    if |s| > 1 {
      var t := s[..|s| - 1];
      assert t[0] == s[0];
      LeadingDigitPositive(t);
    }
  }

  /** Printing the value of a canonical numeral gives the numeral back: the two are inverse. */
  lemma {:induction false} NatToStringOfDigits(s: string)
    requires IsCanonicalNumeral(s)
    ensures NatToString(DigitsValue(s)) == s
    decreases |s|
  {
    if |s| == 1 {
      assert s == [DigitChar(DigitValue(s[0]))];
    } else {
      var t := s[..|s| - 1];
      assert t[0] == s[0];
      LeadingDigitPositive(t);
      NatToStringOfDigits(t);
      var n := DigitsValue(s);
      assert n / 10 == DigitsValue(t);
      assert n % 10 == DigitValue(s[|s| - 1]);
      assert s == t + [s[|s| - 1]];
    }
  }

  /* ----- Own-key order ----- */

  predicate AllIndices(ks: seq<string>) {
    forall i :: 0 <= i < |ks| ==> IsArrayIndex(ks[i])
  }

  /** The number an array-index key denotes; other keys are not ordered by value and get 0. */
  function IndexValue(k: string): nat {
    if IsArrayIndex(k) then DigitsValue(k) else 0
  }

  /** `ks` is in ascending order of `value`. */
  predicate SortedBy<T>(value: T -> nat, ks: seq<T>) {
    forall i, j :: 0 <= i < j < |ks| ==> value(ks[i]) <= value(ks[j])
  }

  /** Prepending an element not above the head keeps a list ascending. */
  lemma ConsSorted<T>(value: T -> nat, x: T, xs: seq<T>)
    requires SortedBy(value, xs)
    requires |xs| > 0 ==> value(x) <= value(xs[0])
    ensures SortedBy(value, [x] + xs)
  {
    forall i, j | 0 <= i < j < |[x] + xs|
      ensures value(([x] + xs)[i]) <= value(([x] + xs)[j])
    {
      if i > 0 {
        assert ([x] + xs)[i] == xs[i - 1];
      } else if j > 1 {
        assert value(xs[0]) <= value(xs[j - 1]);
      }
    }
  }

  /** Inserts `k` into a list that is ascending by `value`, before the first element not below it. */
  function InsertBy<T>(value: T -> nat, k: T, ks: seq<T>): (r: seq<T>)
    requires SortedBy(value, ks)
    ensures SortedBy(value, r)
    ensures multiset(r) == multiset(ks) + multiset{k}
    ensures |r| == |ks| + 1 && (r[0] == k || (|ks| > 0 && r[0] == ks[0]))
    decreases |ks|
  {
    if |ks| == 0 || value(k) <= value(ks[0]) then
      ConsSorted(value, k, ks);
      [k] + ks
    else
      var rest := InsertBy(value, k, ks[1..]);
      assert ks == [ks[0]] + ks[1..];
      assert |ks| > 1 ==> value(ks[0]) <= value(ks[1]);
      ConsSorted(value, ks[0], rest);
      [ks[0]] + rest
  }

  /** Insertion sort by `value`. */
  function SortBy<T>(value: T -> nat, ks: seq<T>): (r: seq<T>)
    ensures SortedBy(value, r)
    ensures multiset(r) == multiset(ks)
    decreases |ks|
  {
    if |ks| == 0 then []
    else
      assert ks == [ks[0]] + ks[1..];
      InsertBy(value, ks[0], SortBy(value, ks[1..]))
  }

  /** Reordering a list of array-index keys leaves a list of array-index keys. */
  lemma PermutationKeepsIndices(xs: seq<string>, ys: seq<string>)
    requires multiset(xs) == multiset(ys) && AllIndices(xs)
    ensures AllIndices(ys)
  {
    forall i | 0 <= i < |ys|
      ensures IsArrayIndex(ys[i])
    {
      assert ys[i] in multiset(xs);
      var m :| 0 <= m < |xs| && xs[m] == ys[i];
    }
  }

  /** The elements of `ks` that satisfy `p`, in their original order. */
  function Select<T>(p: T -> bool, ks: seq<T>): (r: seq<T>)
    ensures forall i :: 0 <= i < |r| ==> p(r[i])
    decreases |ks|
  {
    if |ks| == 0 then []
    else (if p(ks[0]) then [ks[0]] else []) + Select(p, ks[1..])
  }

  /** The elements of `ks` that do not satisfy `p`, in their original order. */
  function Reject<T>(p: T -> bool, ks: seq<T>): (r: seq<T>)
    ensures forall i :: 0 <= i < |r| ==> !p(r[i])
    decreases |ks|
  {
    if |ks| == 0 then []
    else (if p(ks[0]) then [] else [ks[0]]) + Reject(p, ks[1..])
  }

  /** The keys of `ks` that are array indices, in their original order. */
  function IndexKeysOf(ks: seq<string>): (r: seq<string>)
    ensures AllIndices(r)
  {
    Select(IsArrayIndex, ks)
  }

  /** The keys of `ks` that are not array indices, in their original order. */
  function NamedKeysOf(ks: seq<string>): (r: seq<string>)
    ensures forall i :: 0 <= i < |r| ==> !IsArrayIndex(r[i])
  {
    Reject(IsArrayIndex, ks)
  }

  /** Every element goes to exactly one side of the split. */
  lemma {:induction false} SplitKeepsKeys<T>(p: T -> bool, ks: seq<T>)
    ensures multiset(Select(p, ks)) + multiset(Reject(p, ks)) == multiset(ks)
    decreases |ks|
  {
    if |ks| > 0 {
      var k, tail := ks[0], ks[1..];
      SplitKeepsKeys(p, tail);
      var s, r := Select(p, tail), Reject(p, tail);
      assert multiset(ks) == multiset([k]) + multiset(tail) by {
        assert ks == [k] + tail;
      }
      if p(k) {
        assert Select(p, ks) == [k] + s;
        assert multiset(Select(p, ks)) == multiset([k]) + multiset(s);
        assert Reject(p, ks) == r;
      } else {
        assert Reject(p, ks) == [k] + r;
        assert multiset(Reject(p, ks)) == multiset([k]) + multiset(r);
        assert Select(p, ks) == s;
      }
    }
  }

  lemma {:induction false} RejectConcat<T>(p: T -> bool, a: seq<T>, b: seq<T>)
    ensures Reject(p, a + b) == Reject(p, a) + Reject(p, b)
    decreases |a|
  {
    if |a| > 0 {
      assert (a + b)[1..] == a[1..] + b;
      RejectConcat(p, a[1..], b);
    } else {
      assert a + b == b;
    }
  }

  lemma {:induction false} RejectNone<T>(p: T -> bool, ks: seq<T>)
    requires forall i :: 0 <= i < |ks| ==> p(ks[i])
    ensures Reject(p, ks) == []
    decreases |ks|
  {
    if |ks| > 0 {
      RejectNone(p, ks[1..]);
    }
  }

  lemma {:induction false} RejectIdempotent<T>(p: T -> bool, ks: seq<T>)
    ensures Reject(p, Reject(p, ks)) == Reject(p, ks)
    decreases |ks|
  {
    if |ks| > 0 {
      var head := if p(ks[0]) then [] else [ks[0]];
      RejectConcat(p, head, Reject(p, ks[1..]));
      RejectIdempotent(p, ks[1..]);
      if !p(ks[0]) {
        assert Reject(p, head) == head by {
          assert head[1..] == [];
        }
      }
    }
  }

  /**
   The enumeration order of an object whose keys were inserted in `order`:
   array indices first in ascending numeric order, then the other keys in
   insertion order.
   */
  function OwnKeys(order: seq<string>): (r: seq<string>)
    ensures multiset(r) == multiset(order)
    ensures forall i, j :: 0 <= i < j < |r| && IsArrayIndex(r[j]) ==>
              IsArrayIndex(r[i]) && DigitsValue(r[i]) <= DigitsValue(r[j])
    ensures NamedKeysOf(r) == NamedKeysOf(order)
  {
    var indices := SortBy(IndexValue, IndexKeysOf(order));
    var named := NamedKeysOf(order);
    PermutationKeepsIndices(IndexKeysOf(order), indices);
    SplitKeepsKeys(IsArrayIndex, order);
    RejectConcat(IsArrayIndex, indices, named);
    RejectNone(IsArrayIndex, indices);
    RejectIdempotent(IsArrayIndex, order);
    IndicesFirst(IsArrayIndex, IndexValue, indices, named);
    indices + named
  }

  /**
   A list of `p`-elements ascending by `value`, followed by elements that
   are not `p`: any element before a `p`-element is a `p`-element not
   above it.
   */
  lemma IndicesFirst<T>(p: T -> bool, value: T -> nat, a: seq<T>, b: seq<T>)
    requires forall i :: 0 <= i < |a| ==> p(a[i])
    requires SortedBy(value, a)
    requires forall i :: 0 <= i < |b| ==> !p(b[i])
    ensures forall i, j :: 0 <= i < j < |a + b| && p((a + b)[j]) ==>
              p((a + b)[i]) && value((a + b)[i]) <= value((a + b)[j])
  {
    forall j | |a| <= j < |a + b|
      ensures !p((a + b)[j])
    {
      assert (a + b)[j] == b[j - |a|];
    }
    forall i, j | 0 <= i < j < |a + b| && p((a + b)[j])
      ensures p((a + b)[i]) && value((a + b)[i]) <= value((a + b)[j])
    {
      assert (a + b)[i] == a[i] && (a + b)[j] == a[j];
    }
  }

  /* ----- Distinctness and permutations ----- */

  lemma {:induction false} DistinctHasSingleCopies<T>(s: seq<T>, x: T)
    requires Distinct(s)
    ensures multiset(s)[x] <= 1
    decreases |s|
  {
    if |s| > 0 {
      assert s == [s[0]] + s[1..];
      DistinctHasSingleCopies(s[1..], x);
      if x == s[0] {
        assert x !in s[1..];
      }
    }
  }

  /** A permutation of a list without repetitions has no repetitions either. */
  lemma PermutationKeepsDistinct<T>(xs: seq<T>, ys: seq<T>)
    requires multiset(xs) == multiset(ys)
    requires Distinct(xs)
    ensures Distinct(ys)
  {
    forall i, j | 0 <= i < j < |ys|
      ensures ys[i] != ys[j]
    {
      if ys[i] == ys[j] {
        var x := ys[i];
        assert ys == ys[..j] + ys[j..];
        assert x in ys[..j];
        assert x in ys[j..];
        assert multiset(ys)[x] == multiset(ys[..j])[x] + multiset(ys[j..])[x];
        DistinctHasSingleCopies(xs, x);
        assert false;
      }
    }
  }

  /* ----- Objects ----- */

  /**
   A plain object: `order` lists its own keys in insertion order, `props`
   holds their values. Property deletion never happens in the previewer and
   is not modelled.
   */
  datatype JsObject<V> = JsObject(order: seq<string>, props: map<string, V>) {

    predicate Valid() {
      Distinct(order)
      && (forall k :: k in order ==> k in props)
      && (forall k :: k in props ==> k in order)
    }

    /** `o[k]` for an own property; `None` stands for `undefined`. */
    function Get(k: string): Option<V> {
      if k in props then Some(props[k]) else None
    }

    /** `o[k] = v`: overwrites an existing key in place, appends a new key at the end. */
    function Put(k: string, v: V): (o: JsObject<V>)
      requires Valid()
      ensures o.Valid()
      ensures o.Get(k) == Some(v)
      ensures forall k' :: k' != k ==> o.Get(k') == Get(k')
      ensures k in props ==> o.order == order
      ensures k !in props ==> o.order == order + [k]
    {
      if k in props then JsObject(order, props[k := v])
      else JsObject(order + [k], props[k := v])
    }

    /** `Object.keys(o)`: every own key once, in OwnKeys order. */
    function Keys(): (r: seq<string>)
      ensures multiset(r) == multiset(order)
      ensures |r| == |order|
      ensures forall k :: k in r <==> k in order
      ensures Valid() ==> Distinct(r) && forall k :: k in r <==> k in props
    {
      var r := OwnKeys(order);
      assert Valid() ==> Distinct(r) by {
        if Valid() {
          PermutationKeepsDistinct(order, r);
        }
      }
      assert forall k :: k in r <==> k in multiset(order);
      assert |r| == |multiset(r)| == |multiset(order)| == |order|;
      r
    }
  }

  /** `{}`. */
  function EmptyObject<V>(): (o: JsObject<V>)
    ensures o.Valid() && o.order == []
    ensures forall k :: o.Get(k) == None
  {
    JsObject([], map[])
  }
}
