/** Order-preserving selection from a sequence. */
module Sequences {

  /** `a` is `b` with some elements left out, the others kept in their order. */
  predicate IsSubsequence<T(==)>(a: seq<T>, b: seq<T>)
    decreases |b|
  {
    if a == [] then true
    else if b == [] then false
    else if a[|a| - 1] == b[|b| - 1] then IsSubsequence(a[..|a| - 1], b[..|b| - 1])
    else IsSubsequence(a, b[..|b| - 1])
  }

  /** Putting the same element in front of both keeps, or adding it in front of `b` alone keeps, the relation. */
  lemma {:induction false} SubsequencePrepend<T>(x: T, a: seq<T>, b: seq<T>)
    requires IsSubsequence(a, b)
    ensures IsSubsequence(a, [x] + b)
    ensures IsSubsequence([x] + a, [x] + b)
    decreases |b|
  {
    var xb := [x] + b;
    if b == [] {
      assert xb[..0] == [];
    } else {
      var b' := b[..|b| - 1];
      assert xb[..|xb| - 1] == [x] + b' && xb[|xb| - 1] == b[|b| - 1];
      if a == [] {
        SubsequencePrepend(x, a, b');
      } else {
        var a' := a[..|a| - 1];
        var xa := [x] + a;
        assert xa[..|xa| - 1] == [x] + a' && xa[|xa| - 1] == a[|a| - 1];
        if a[|a| - 1] == b[|b| - 1] {
          SubsequencePrepend(x, a', b');
        } else {
          SubsequencePrepend(x, a, b');
        }
      }
    }
  }

  /**
   * The first `n` elements of `s`, or all of it when shorter: SQL's `LIMIT n`
   * and JavaScript's `slice(0, n)`.
   */
  function Take<T>(s: seq<T>, n: nat): (r: seq<T>)
    ensures |r| == if |s| < n then |s| else n
    ensures r <= s
  {
    if |s| < n then s else s[..n]
  }
}
