/** Small shared vocabulary: optional values, powers of two and 32-bit words. */
module Common {

  datatype Option<+T> = None | Some(value: T)

  /** 2^k, the size in pages of a block of order k (the source writes it `1 << k`). */
  function Pow2(k: nat): (r: nat)
    ensures r >= 1
  {
    if k == 0 then 1 else 2 * Pow2(k - 1)
  }

  lemma {:induction false} Pow2Monotone(i: nat, j: nat)
    requires i <= j
    ensures Pow2(i) <= Pow2(j)
    decreases j
  {
    if i < j {
      Pow2Monotone(i, j - 1);
    }
  }

  const TWO_32: int := 0x1_0000_0000

  /** The values of a C `uint32_t`. */
  newtype u32 = x: int | 0 <= x < 0x1_0000_0000

  /** No element occurs twice. */
  ghost predicate Distinct<T>(s: seq<T>)
  {
    forall i, j :: 0 <= i < j < |s| ==> s[i] != s[j]
  }

  /** `s` without its first occurrence of `x`; the others keep their order. */
  function Remove<T(==)>(s: seq<T>, x: T): (r: seq<T>)
    ensures multiset(r) == multiset(s) - multiset{x}
  {
    if s == [] then []
    else if s[0] == x then assert s == [s[0]] + s[1..]; s[1..]
    else assert s == [s[0]] + s[1..]; [s[0]] + Remove(s[1..], x)
  }

  /** Removing the element at its first position i splices the list around i. */
  lemma {:induction false} RemoveAt<T>(s: seq<T>, x: T, i: nat)
    requires i < |s| && s[i] == x && x !in s[..i]
    ensures Remove(s, x) == s[..i] + s[i + 1..]
  {
    if i > 0 {
      assert s[0] == s[..i][0] != x;
      var t := s[1..];
      assert t[..i - 1] == s[..i][1..];
      RemoveAt(t, x, i - 1);
      assert t[i..] == s[i + 1..];
      assert s[..i] == [s[0]] + t[..i - 1];
    }
  }

  /** Removing a member of a list without repetition drops exactly that member and keeps the list free of repetition. */
  lemma RemoveDistinct<T>(s: seq<T>, x: T)
    requires Distinct(s) && x in s
    ensures Distinct(Remove(s, x))
    ensures forall y :: y in Remove(s, x) <==> y in s && y != x
    ensures |Remove(s, x)| == |s| - 1
  {
    var i :| 0 <= i < |s| && s[i] == x;
    RemoveAt(s, x, i);
    SpliceDistinct(s, i);
  }

  lemma SpliceDistinct<T>(s: seq<T>, i: nat)
    requires Distinct(s) && i < |s|
    ensures Distinct(s[..i] + s[i + 1..])
    ensures forall y :: y in s[..i] + s[i + 1..] <==> y in s && y != s[i]
  {
    var r := s[..i] + s[i + 1..];
    assert forall a :: 0 <= a < i ==> r[a] == s[a];
    assert forall a :: i <= a < |r| ==> r[a] == s[a + 1];
    forall y
      ensures y in r <==> y in s && y != s[i]
    {
      if y in s && y != s[i] {
        var j :| 0 <= j < |s| && s[j] == y;
        if j < i { assert r[j] == y; } else { assert r[j - 1] == y; }
      }
    }
  }

  /** A list without repetition whose elements all occur in b is no longer than b. */
  lemma {:induction false} DistinctWithin<T>(a: seq<T>, b: seq<T>)
    requires Distinct(a) && forall x :: x in a ==> x in b
    ensures |a| <= |b|
    decreases |a|
  {
    if a != [] {
      var x := a[0];
      var b' := Remove(b, x);
      assert x in a && x in multiset(b);
      assert multiset(b) == multiset(b') + multiset{x};
      forall y | y in a[1..]
        ensures y in b'
      {
        var j :| 1 <= j < |a| && a[j] == y;
        assert y in a && y != x;
        assert multiset(b')[y] == multiset(b)[y];
      }
      DistinctWithin(a[1..], b');
    }
  }
}
