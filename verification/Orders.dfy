/** Sign-valued comparisons and the one lexicographic order every version
    comparison in this project is proved equal to. */
module Orders {

  function Sign(x: int): int {
    if x < 0 then -1 else if x > 0 then 1 else 0
  }

  function IntCmp(x: int, y: int): int {
    Sign(x - y)
  }

  /** A comparison whose sign is a total order with equality as its zero. */
  ghost predicate TotalOrder<T(!new)>(cmp: (T, T) -> int) {
    && (forall x, y :: Sign(cmp(x, y)) == -Sign(cmp(y, x)))
    && (forall x, y :: cmp(x, y) == 0 <==> x == y)
    && (forall x, y, z :: cmp(x, y) <= 0 && cmp(y, z) <= 0 ==> cmp(x, z) <= 0)
  }

  /** A comparison whose sign is a total preorder: different values may tie. */
  ghost predicate TotalPreorder<T(!new)>(cmp: (T, T) -> int) {
    && (forall x, y :: Sign(cmp(x, y)) == -Sign(cmp(y, x)))
    && (forall x, y, z :: cmp(x, y) <= 0 && cmp(y, z) <= 0 ==> cmp(x, z) <= 0)
  }

  lemma PreorderStrict<T(!new)>(cmp: (T, T) -> int, x: T, y: T, z: T)
    requires TotalPreorder(cmp)
    requires cmp(x, y) < 0 && cmp(y, z) <= 0
    ensures cmp(x, z) < 0
  {
    assert Sign(cmp(x, z)) == -Sign(cmp(z, x));
    assert Sign(cmp(x, y)) == -Sign(cmp(y, x));
    assert cmp(z, x) <= 0 ==> cmp(y, x) <= 0;
  }

  /** One comparison, then another for what the first ties. */
  function Then(c: int, d: int): int {
    if c != 0 then c else d
  }

  function Lexically<T>(f: (T, T) -> int, g: (T, T) -> int): (T, T) -> int {
    (x, y) => Then(f(x, y), g(x, y))
  }

  lemma LexicallyZero<T>(f: (T, T) -> int, g: (T, T) -> int, x: T, y: T)
    requires Lexically(f, g)(x, y) == 0
    ensures f(x, y) == 0 && g(x, y) == 0
  {
  }

  lemma LexicallyPreorder<T(!new)>(f: (T, T) -> int, g: (T, T) -> int)
    requires TotalPreorder(f) && TotalPreorder(g)
    ensures TotalPreorder(Lexically(f, g))
  {
    var h := Lexically(f, g);
    forall x, y ensures Sign(h(x, y)) == -Sign(h(y, x)) {
      assert Sign(f(x, y)) == -Sign(f(y, x)) && Sign(g(x, y)) == -Sign(g(y, x));
    }
    forall x, y, z | h(x, y) <= 0 && h(y, z) <= 0 ensures h(x, z) <= 0 {
      assert f(x, z) <= 0;
      if f(x, z) == 0 {
        assert Sign(f(x, z)) == -Sign(f(z, x));
        assert f(z, y) <= 0 && f(y, x) <= 0;
        assert Sign(f(x, y)) == -Sign(f(y, x)) && Sign(f(y, z)) == -Sign(f(z, y));
      }
    }
  }

  /** `min(s, key=...)`: the first element that no other comes before. */
  function Least<T>(cmp: (T, T) -> int, s: seq<T>): (m: T)
    requires s != []
    ensures m in s
  {
    if |s| == 1 then s[0]
    else
      var m := Least(cmp, s[1..]);
      if cmp(s[0], m) <= 0 then s[0] else m
  }

  lemma {:induction false} LeastIsLeast<T(!new)>(cmp: (T, T) -> int, s: seq<T>)
    requires TotalPreorder(cmp) && s != []
    ensures forall x :: x in s ==> cmp(Least(cmp, s), x) <= 0
  {
    var first := s[0];
    assert Sign(cmp(first, first)) == -Sign(cmp(first, first));
    if |s| > 1 {
      LeastIsLeast(cmp, s[1..]);
      var m := Least(cmp, s[1..]);
      assert Sign(cmp(first, m)) == -Sign(cmp(m, first));
      forall x | x in s ensures cmp(Least(cmp, s), x) <= 0 {
        if x != first {
          assert x in s[1..];
        }
      }
    }
  }

  /** Where no two different elements tie, the least of a list is settled by which
      elements are in it, not by their order or how often they occur. */
  lemma LeastOfSameElements<T(!new)>(cmp: (T, T) -> int, s: seq<T>, t: seq<T>)
    requires TotalPreorder(cmp) && s != []
    requires forall x :: x in s <==> x in t
    requires forall x, y :: x in s && y in s && cmp(x, y) == 0 ==> x == y
    ensures t != [] && Least(cmp, s) == Least(cmp, t)
  {
    assert s[0] in t;
    LeastIsLeast(cmp, s);
    LeastIsLeast(cmp, t);
    assert Sign(cmp(Least(cmp, s), Least(cmp, t))) == -Sign(cmp(Least(cmp, t), Least(cmp, s)));
  }

  /** The k-th element of a sequence continued for ever with `pad`. */
  function At<T>(s: seq<T>, pad: T, k: nat): T {
    if k < |s| then s[k] else pad
  }

  function Rest<T>(s: seq<T>): seq<T> {
    if |s| == 0 then [] else s[1..]
  }

  /** Lexicographic comparison of two sequences, each continued with `pad`. */
  function Lex<T>(cmp: (T, T) -> int, pad: T, s: seq<T>, t: seq<T>): (c: int)
    ensures -1 <= c <= 1
    decreases |s| + |t|
  {
    if |s| == 0 && |t| == 0 then 0
    else
      var c := cmp(At(s, pad, 0), At(t, pad, 0));
      if c != 0 then Sign(c) else Lex(cmp, pad, Rest(s), Rest(t))
  }

  lemma IntCmpTotal()
    ensures TotalOrder(IntCmp)
  {
  }

  lemma {:induction false} LexAntisymmetric<T(!new)>(cmp: (T, T) -> int, pad: T, s: seq<T>, t: seq<T>)
    requires TotalOrder(cmp)
    ensures Lex(cmp, pad, s, t) == -Lex(cmp, pad, t, s)
    decreases |s| + |t|
  {
    if |s| + |t| != 0 {
      LexAntisymmetric(cmp, pad, Rest(s), Rest(t));
    }
  }

  lemma {:induction false} LexTransitive<T(!new)>(cmp: (T, T) -> int, pad: T, s: seq<T>, t: seq<T>, u: seq<T>)
    requires TotalOrder(cmp)
    requires Lex(cmp, pad, s, t) <= 0 && Lex(cmp, pad, t, u) <= 0
    ensures Lex(cmp, pad, s, u) <= 0
    decreases |s| + |t| + |u|
  {
    var x, y, z := At(s, pad, 0), At(t, pad, 0), At(u, pad, 0);
    assert cmp(x, x) == 0;
    if |s| + |t| + |u| != 0 && cmp(x, y) == 0 && cmp(y, z) == 0 {
      LexTransitive(cmp, pad, Rest(s), Rest(t), Rest(u));
    }
  }

  /** Zero exactly when the continued sequences are equal everywhere. */
  lemma {:induction false} LexZero<T(!new)>(cmp: (T, T) -> int, pad: T, s: seq<T>, t: seq<T>)
    requires TotalOrder(cmp)
    ensures Lex(cmp, pad, s, t) == 0 <==> forall k: nat :: At(s, pad, k) == At(t, pad, k)
    decreases |s| + |t|
  {
    if |s| + |t| != 0 {
      LexZero(cmp, pad, Rest(s), Rest(t));
      assert forall k: nat :: At(s, pad, k + 1) == At(Rest(s), pad, k);
      assert forall k: nat :: At(t, pad, k + 1) == At(Rest(t), pad, k);
      if Lex(cmp, pad, s, t) == 0 {
        forall k: nat ensures At(s, pad, k) == At(t, pad, k) {
          if k != 0 {
            assert At(Rest(s), pad, k - 1) == At(Rest(t), pad, k - 1);
          }
        }
      }
    }
  }

  /** What two sequences share at the front does not matter. */
  lemma {:induction false} LexPrefix<T(!new)>(cmp: (T, T) -> int, pad: T, s: seq<T>, x: seq<T>, y: seq<T>)
    requires TotalOrder(cmp)
    ensures Lex(cmp, pad, s + x, s + y) == Lex(cmp, pad, x, y)
  {
    if s == [] {
      assert s + x == x && s + y == y;
    } else {
      assert (s + x)[1..] == s[1..] + x && (s + y)[1..] == s[1..] + y;
      LexPrefix(cmp, pad, s[1..], x, y);
    }
  }

  lemma {:induction false} LexFirst<T>(cmp: (T, T) -> int, pad: T, x: seq<T>, y: seq<T>)
    requires x != [] || y != []
    requires cmp(At(x, pad, 0), At(y, pad, 0)) != 0
    ensures Lex(cmp, pad, x, y) == Sign(cmp(At(x, pad, 0), At(y, pad, 0)))
  {
  }
}
