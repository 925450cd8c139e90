/**
 The order in which the cleanup script sorts directory names: Python's `str`
 comparison, which compares code point by code point and puts a proper prefix
 before any longer name that extends it.
 */
module NameOrder {

  /** `a <= b` in Python's string order. */
  predicate Below(a: string, b: string)
    ensures |a| <= |b| && a == b[..|a|] ==> Below(a, b)
    decreases |a|
  {
    |a| == 0 || (|b| > 0 && (a[0] < b[0] || (a[0] == b[0] && Below(a[1..], b[1..]))))
  }

  lemma {:induction false} BelowReflexive(a: string)
    ensures Below(a, a)
    decreases |a|
  {
    if |a| > 0 {
      BelowReflexive(a[1..]);
    }
  }

  lemma {:induction false} BelowAntisymmetric(a: string, b: string)
    requires Below(a, b) && Below(b, a)
    ensures a == b
    decreases |a|
  {
    if |a| > 0 {
      BelowAntisymmetric(a[1..], b[1..]);
      assert a == [a[0]] + a[1..];
      assert b == [b[0]] + b[1..];
    }
  }

  lemma {:induction false} BelowTransitive(a: string, b: string, c: string)
    requires Below(a, b) && Below(b, c)
    ensures Below(a, c)
    decreases |a|
  {
    if |a| > 0 && a[0] == b[0] && b[0] == c[0] {
      BelowTransitive(a[1..], b[1..], c[1..]);
    }
  }

  lemma {:induction false} BelowTotal(a: string, b: string)
    ensures Below(a, b) || Below(b, a)
    decreases |a|
  {
    if |a| > 0 && |b| > 0 && a[0] == b[0] {
      BelowTotal(a[1..], b[1..]);
    }
  }

  /** `a` is `b` or a proper prefix of `b`. */
  predicate IsPrefix(a: string, b: string) {
    |a| <= |b| && a == b[..|a|]
  }

  /** `a` and `b` agree before position `i` and `a` has the smaller code point there. */
  predicate FirstDifferenceBelow(a: string, b: string, i: nat) {
    i < |a| && i < |b| && a[..i] == b[..i] && a[i] < b[i]
  }

  /** The order as Python describes it: `a <= b` when `a` is a prefix of `b`
      or the first code point where they differ is smaller in `a`. */
  lemma {:induction false} BelowIff(a: string, b: string)
    ensures Below(a, b) <==> IsPrefix(a, b) || exists i: nat :: FirstDifferenceBelow(a, b, i)
    decreases |a|
  {
    if |a| == 0 || |b| == 0 {
      if |a| > 0 {
        assert forall i: nat :: !FirstDifferenceBelow(a, b, i);
      }
    } else if a[0] < b[0] {
      assert FirstDifferenceBelow(a, b, 0);
    } else if a[0] > b[0] {
      forall i: nat | 0 < i < |a| && i < |b| ensures a[..i] != b[..i] {
        assert a[..i][0] != b[..i][0];
      }
    } else {
      var a', b' := a[1..], b[1..];
      BelowIff(a', b');
      assert a == [a[0]] + a';
      assert b == [b[0]] + b';
      if IsPrefix(a', b') {
        assert b[..|a|] == [b[0]] + b'[..|a'|];
      }
      if IsPrefix(a, b) {
        assert b'[..|a'|] == b[..|a|][1..];
      }
      forall i: nat | FirstDifferenceBelow(a', b', i) ensures FirstDifferenceBelow(a, b, i + 1) {
        assert a[..i + 1] == [a[0]] + a'[..i];
        assert b[..i + 1] == [b[0]] + b'[..i];
      }
      forall i: nat | FirstDifferenceBelow(a, b, i) ensures i > 0 && FirstDifferenceBelow(a', b', i - 1) {
        assert a'[..i - 1] == a[..i][1..];
        assert b'[..i - 1] == b[..i][1..];
      }
    }
  }

  /** The first code point where two names differ decides their order. */
  lemma BelowAtFirstDifference(a: string, b: string, i: nat)
    requires FirstDifferenceBelow(a, b, i)
    ensures Below(a, b) && !Below(b, a)
  {
    BelowIff(a, b);
    if Below(b, a) {
      BelowAntisymmetric(a, b);
    }
  }
}
