/** The order in which the embedded store enumerates its keys.

    The store keeps string keys sorted by their encoded bytes; for strings
    this is lexicographic order on code points, which is what `Below` defines.
    The lemmas establish that `Below` is a total order, so that "the least key
    of a finite set" is well defined. */
module KeyOrder {

  /** `a` sorts at or before `b`: lexicographic order on code points, with a
      proper prefix sorting first. */
  predicate Below(a: string, b: string)
    decreases |a|
  {
    |a| == 0 || (|b| != 0 && (a[0] < b[0] || (a[0] == b[0] && Below(a[1..], b[1..]))))
  }

  /** `a` sorts strictly before `b`. */
  predicate Precedes(a: string, b: string) {
    Below(a, b) && a != b
  }

  lemma {:induction false} BelowReflexive(a: string)
    ensures Below(a, a)
    decreases |a|
  {
    if |a| != 0 {
      BelowReflexive(a[1..]);
    }
  }

  lemma {:induction false} BelowTotal(a: string, b: string)
    ensures Below(a, b) || Below(b, a)
    decreases |a|
  {
    if |a| != 0 && |b| != 0 && a[0] == b[0] {
      BelowTotal(a[1..], b[1..]);
    }
  }

  lemma {:induction false} BelowAntisymmetric(a: string, b: string)
    requires Below(a, b) && Below(b, a)
    ensures a == b
    decreases |a|
  {
    if |a| != 0 {
      BelowAntisymmetric(a[1..], b[1..]);
      assert a == [a[0]] + a[1..];
      assert b == [b[0]] + b[1..];
    }
  }

  lemma {:induction false} BelowTransitive(a: string, b: string, c: string)
    requires Below(a, b) && Below(b, c)
    ensures Below(a, c)
    decreases |a|
  {
    if |a| != 0 && a[0] == b[0] && b[0] == c[0] {
      BelowTransitive(a[1..], b[1..], c[1..]);
    }
  }

  /** `k` is the least element of `keys`. */
  predicate IsLeast(k: string, keys: set<string>) {
    k in keys && forall x :: x in keys ==> Below(k, x)
  }

  /** Every finite non-empty set of keys has a least element. */
  lemma {:induction false} LeastExists(keys: set<string>)
    requires keys != {}
    ensures exists k :: IsLeast(k, keys)
    decreases |keys|
  {
    var x :| x in keys;
    var rest := keys - {x};
    if rest == {} {
      assert keys == {x};
      BelowReflexive(x);
      assert IsLeast(x, keys);
    } else {
      LeastExists(rest);
      var m :| IsLeast(m, rest);
      BelowTotal(m, x);
      if Below(m, x) {
        assert IsLeast(m, keys);
      } else {
        BelowReflexive(x);
        forall y | y in keys
          ensures Below(x, y)
        {
          if y != x {
            BelowTransitive(x, m, y);
          }
        }
        assert IsLeast(x, keys);
      }
    }
  }

  /** The least element is unique. */
  lemma LeastUnique(keys: set<string>)
    ensures forall k, k' :: IsLeast(k, keys) && IsLeast(k', keys) ==> k == k'
  {
    forall k, k' | IsLeast(k, keys) && IsLeast(k', keys)
      ensures k == k'
    {
      BelowAntisymmetric(k, k');
    }
  }

  /** The least key of a non-empty set: the key the store enumerates first. */
  function Least(keys: set<string>): (k: string)
    requires keys != {}
    ensures k in keys
    ensures forall x :: x in keys && x != k ==> Precedes(k, x)
  {
    LeastExists(keys);
    LeastUnique(keys);
    var k :| IsLeast(k, keys);
    k
  }
}
