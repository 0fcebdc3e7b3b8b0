/** Machine arithmetic of the modelled C++ code, and small collection helpers. */
module Arith {

  datatype Option<+T> = None | Some(value: T)

  function Min(a: int, b: int): int { if a <= b then a else b }

  function Max(a: int, b: int): int { if a <= b then b else a }

  function Abs(a: int): int { if a < 0 then -a else a }

  /** C++ integer division: the quotient is truncated toward zero. */
  function TruncDiv(a: int, b: int): int
    requires b != 0
  {
    var q := Abs(a) / Abs(b);
    if (a < 0) == (b < 0) then q else -q
  }

  /** Conversion to `int32_t`, which keeps the low 32 bits. */
  function ToInt32(x: int): (r: int)
    ensures -0x8000_0000 <= r < 0x8000_0000
    ensures -0x8000_0000 <= x < 0x8000_0000 ==> r == x
  {
    (x + 0x8000_0000) % 0x1_0000_0000 - 0x8000_0000
  }

  /** Conversion to `uint32_t`. */
  function ToUint32(x: int): (r: int)
    ensures 0 <= r < 0x1_0000_0000
    ensures 0 <= x < 0x1_0000_0000 ==> r == x
  {
    x % 0x1_0000_0000
  }

  /** Conversion of a floating-point value to an integer: truncation toward zero. */
  function TruncReal(x: real): int {
    if x >= 0.0 then x.Floor else -((-x).Floor)
  }

  /** `m` is the largest of `base` and the elements of `s`. */
  ghost predicate IsHighest(m: int, base: int, s: set<int>) {
    (m == base || m in s) && base <= m && forall x :: x in s ==> x <= m
  }

  /** `m` is the smallest of `base` and the elements of `s`. */
  ghost predicate IsLowest(m: int, base: int, s: set<int>) {
    (m == base || m in s) && m <= base && forall x :: x in s ==> m <= x
  }

  /** Removes the element at position `k`. */
  function RemoveAt<T>(s: seq<T>, k: nat): (r: seq<T>)
    requires k < |s|
    ensures |r| == |s| - 1
  {
    s[..k] + s[k + 1..]
  }

  lemma RemoveAtMultiset<T>(s: seq<T>, k: nat)
    requires k < |s|
    ensures multiset(RemoveAt(s, k)) == multiset(s) - multiset{s[k]}
  {
    assert s == s[..k] + [s[k]] + s[k + 1..];
  }

  /** Some element of a non-empty set: the next key of an unordered container. */
  method AnyOf<T>(s: set<T>) returns (x: T)
    requires s != {}
    ensures x in s
  {
    x :| x in s;
  }

  ghost function Choose<T>(s: set<T>): (x: T)
    requires s != {}
    ensures x in s
  {
    var x :| x in s; x
  }

  /** The largest of `base` and the elements of `s`. */
  ghost function Highest(base: int, s: set<int>): (m: int)
    ensures IsHighest(m, base, s)
  {
    if s == {} then base
    else
      var x := Choose(s);
      assert forall y :: y in s ==> y == x || y in s - {x};
      Max(x, Highest(base, s - {x}))
  }

  /** The smallest of `base` and the elements of `s`. */
  ghost function Lowest(base: int, s: set<int>): (m: int)
    ensures IsLowest(m, base, s)
  {
    if s == {} then base
    else
      var x := Choose(s);
      assert forall y :: y in s ==> y == x || y in s - {x};
      Min(x, Lowest(base, s - {x}))
  }

  lemma HighestOfUnion(m: int, n: int, base: int, s: set<int>, t: set<int>)
    requires IsHighest(m, base, s) && IsHighest(n, m, t)
    ensures IsHighest(n, base, s + t)
  {
  }

  lemma LowestOfUnion(m: int, n: int, base: int, s: set<int>, t: set<int>)
    requires IsLowest(m, base, s) && IsLowest(n, m, t)
    ensures IsLowest(n, base, s + t)
  {
  }

  lemma UpdateTwice<K, V>(m: map<K, V>, k: K, a: V, b: V)
    ensures m[k := a][k := b] == m[k := b]
  {
  }

  lemma SameMap<K, V>(m: map<K, V>, w: map<K, V>)
    requires forall k :: k in m <==> k in w
    requires forall k :: k in m ==> m[k] == w[k]
    ensures m == w
  {
    assert m.Keys <= w.Keys && w.Keys <= m.Keys;
  }
}
