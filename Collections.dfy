/**
  The JavaScript collection idioms the dashboard's derivations are built from:
  optional (possibly `undefined`) values, `Array.prototype.filter(Boolean)` over
  optional strings, and `[...new Set(xs)]`, which keeps the first occurrence of
  each value in insertion order.
 */
module Collections {

  /** A field that the API may leave out (`undefined` or `null`). */
  datatype Option<T> = None | Some(value: T)

  /** JavaScript truthiness of an optional string: present and not "". */
  predicate Truthy(v: Option<string>)
    ensures Truthy(v) ==> v != None && v != Some("")
    ensures v.Some? && |v.value| > 0 ==> Truthy(v)
  {
    v.Some? && v.value != ""
  }

  /** `vs.filter(Boolean)` on optional strings: the truthy values, in order. */
  function KeepTruthy(vs: seq<Option<string>>): (r: seq<string>)
    ensures |r| <= |vs|
    ensures forall t :: t in r <==> Some(t) in vs && t != ""
  {
    if vs == [] then []
    else if Truthy(vs[0]) then [vs[0].value] + KeepTruthy(vs[1..])
    else KeepTruthy(vs[1..])
  }

  /**
    `filter(Boolean)` keeps the relative order of first occurrences: a value found
    earlier in the filtered list was first present earlier in the original one.
   */
  lemma {:induction false} KeepTruthyFirstIndexMonotone(vs: seq<Option<string>>, t: string, t': string)
    requires t in KeepTruthy(vs) && t' in KeepTruthy(vs)
    requires FirstIndex(KeepTruthy(vs), t) < FirstIndex(KeepTruthy(vs), t')
    ensures Some(t) in vs && Some(t') in vs
    ensures FirstIndex(vs, Some(t)) < FirstIndex(vs, Some(t'))
  {
    var tail := vs[1..];
    if Truthy(vs[0]) && vs[0].value == t {
      assert FirstIndex(vs, Some(t)) == 0;
    } else {
      if Truthy(vs[0]) {
        assert KeepTruthy(vs)[1..] == KeepTruthy(tail);
      }
      KeepTruthyFirstIndexMonotone(tail, t, t');
    }
  }

  /** Position of the first occurrence of `x` in `s`. */
  function FirstIndex<T(==)>(s: seq<T>, x: T): (i: nat)
    requires x in s
    ensures i < |s| && s[i] == x
    ensures forall j :: 0 <= j < i ==> s[j] != x
  {
    if s[0] == x then 0 else 1 + FirstIndex(s[1..], x)
  }

  /** No value occurs twice in `s`. */
  predicate NoDuplicates<T(==)>(s: seq<T>)
  {
    forall i, j :: 0 <= i < j < |s| ==> s[i] != s[j]
  }

  /**
    `[...new Set(s)]`: each element of `s` is added to a set in turn, an element
    already present is skipped, and the set is spread back in insertion order.
   */
  function Distinct<T(==,!new)>(s: seq<T>): (r: seq<T>)
    ensures NoDuplicates(r)
    ensures forall x :: x in r <==> x in s
    ensures |r| <= |s|
  {
    if s == [] then []
    else
      var seen := Distinct(s[..|s| - 1]);
      var x := s[|s| - 1];
      assert forall y :: y in s <==> y in s[..|s| - 1] || y == x;
      if x in seen then seen else seen + [x]
  }

  /** Appending an element does not move the first occurrence of a value already present. */
  lemma {:induction false} FirstIndexAppend<T>(s: seq<T>, x: T, y: T)
    requires y in s
    ensures FirstIndex(s + [x], y) == FirstIndex(s, y)
  {
    if s[0] != y {
      assert (s + [x])[1..] == s[1..] + [x];
      FirstIndexAppend(s[1..], x, y);
    }
  }

  /** The spread set lists values in the order of their first occurrence in `s`. */
  lemma {:induction false} DistinctFirstSeenOrder<T(!new)>(s: seq<T>)
    ensures forall i, j :: 0 <= i < j < |Distinct(s)| ==>
      FirstIndex(s, Distinct(s)[i]) < FirstIndex(s, Distinct(s)[j])
  {
    if s != [] {
      var init, x := s[..|s| - 1], s[|s| - 1];
      assert s == init + [x];
      DistinctFirstSeenOrder(init);
      var seen := Distinct(init);
      forall y | y in init ensures FirstIndex(s, y) == FirstIndex(init, y) {
        FirstIndexAppend(init, x, y);
      }
      if x !in seen {
        assert x !in init;
        assert FirstIndex(s, x) == |init|;
      }
    }
  }

  /** The elements of `a` appear in the order of their first occurrence in `s`. */
  predicate InFirstSeenOrder<T(==)>(s: seq<T>, a: seq<T>)
  {
    forall i, j :: 0 <= i < j < |a| && a[i] in s && a[j] in s ==> FirstIndex(s, a[i]) < FirstIndex(s, a[j])
  }

  /**
    No duplicates, the same elements as `s`, and first-seen order determine the
    spread set completely: any sequence with those three properties is `Distinct(s)`.
   */
  lemma DistinctCharacterized<T(!new)>(s: seq<T>, a: seq<T>)
    requires NoDuplicates(a)
    requires forall x :: x in a <==> x in s
    requires InFirstSeenOrder(s, a)
    ensures a == Distinct(s)
  {
    DistinctFirstSeenOrder(s);
    SameOrderedElementsEqual(s, a, Distinct(s));
  }

  /** Two duplicate-free sequences of the same elements of `s`, both in first-seen order, are equal. */
  lemma {:induction false} SameOrderedElementsEqual<T(!new)>(s: seq<T>, a: seq<T>, b: seq<T>)
    requires NoDuplicates(a) && NoDuplicates(b)
    requires forall x :: x in a ==> x in s
    requires forall x :: x in a <==> x in b
    requires InFirstSeenOrder(s, a) && InFirstSeenOrder(s, b)
    ensures a == b
    decreases |a|
  {
    if a == [] {
      assert forall i :: 0 <= i < |b| ==> b[i] in a;
    } else {
      assert a[0] in b;
      var k :| 0 <= k < |b| && b[k] == a[0];
      assert b[0] in a;
      var m :| 0 <= m < |a| && a[m] == b[0];
      // neither head can come later than the other in first-seen order
      var ka, kb := FirstIndex(s, a[0]), FirstIndex(s, b[0]);
      assert a[0] == b[0];
      var a', b' := a[1..], b[1..];
      forall x ensures x in a' <==> x in b' {
        assert x in a' <==> x in a && x != a[0];
        assert x in b' <==> x in b && x != b[0];
      }
      SameOrderedElementsEqual(s, a', b');
      assert a == [a[0]] + a' && b == [b[0]] + b';
    }
  }

  /** `a` is `b` with some elements removed and the rest kept in order. */
  predicate IsSubsequence<T(==)>(a: seq<T>, b: seq<T>)
    decreases |b|
  {
    if a == [] then true
    else if b == [] then false
    else (a[0] == b[0] && IsSubsequence(a[1..], b[1..])) || IsSubsequence(a, b[1..])
  }
}
