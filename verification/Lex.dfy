/** Lexicographic order, lifted from an order on elements. */
module Lex {
  ghost predicate TotalOrder<T(!new)>(le: (T, T) -> bool) {
    && (forall a, b :: le(a, b) || le(b, a))
    && (forall a, b :: le(a, b) && le(b, a) ==> a == b)
    && (forall a, b, c :: le(a, b) && le(b, c) ==> le(a, c))
  }

  /** The first differing element decides; a proper prefix comes first. */
  function LexLe<T(==)>(le: (T, T) -> bool, a: seq<T>, b: seq<T>): bool {
    if a == [] then true
    else if b == [] then false
    else if a[0] == b[0] then LexLe(le, a[1..], b[1..])
    else le(a[0], b[0])
  }

  /** The sequences agree before place `k`, where the elements differ and decide. */
  ghost predicate DecidedAt<T>(le: (T, T) -> bool, a: seq<T>, b: seq<T>, k: nat) {
    && k < |a| && k < |b| && (forall i :: 0 <= i < k ==> a[i] == b[i])
    && a[k] != b[k] && le(a[k], b[k])
  }

  lemma {:induction false} LexLeExactly<T>(le: (T, T) -> bool, a: seq<T>, b: seq<T>)
    ensures LexLe(le, a, b) <==> a <= b || exists k: nat :: DecidedAt(le, a, b, k)
  {
    if a != [] && b != [] {
      if a[0] == b[0] {
        LexLeExactly(le, a[1..], b[1..]);
        DecidedLater(le, a, b);
      } else if le(a[0], b[0]) {
        assert DecidedAt(le, a, b, 0);
      }
    }
  }

  lemma {:induction false} DecidedLater<T>(le: (T, T) -> bool, a: seq<T>, b: seq<T>)
    requires a != [] && b != [] && a[0] == b[0]
    ensures a <= b <==> a[1..] <= b[1..]
    ensures (exists k: nat :: DecidedAt(le, a, b, k)) <==> exists k: nat :: DecidedAt(le, a[1..], b[1..], k)
  {
    if k: nat :| DecidedAt(le, a[1..], b[1..], k) {
      forall i | 0 <= i < k + 1 ensures a[i] == b[i] {
        assert i > 0 ==> a[1..][i - 1] == b[1..][i - 1];
      }
      assert DecidedAt(le, a, b, k + 1);
    }
    if k: nat :| DecidedAt(le, a, b, k) {
      assert DecidedAt(le, a[1..], b[1..], k - 1);
    }
    assert a == [a[0]] + a[1..] && b == [b[0]] + b[1..];
  }

  lemma {:induction false} LexTotal<T(!new)>(le: (T, T) -> bool, a: seq<T>, b: seq<T>)
    requires TotalOrder(le)
    ensures LexLe(le, a, b) || LexLe(le, b, a)
  {
    if a != [] && b != [] && a[0] == b[0] {
      LexTotal(le, a[1..], b[1..]);
    }
  }

  lemma {:induction false} LexAntisymmetric<T(!new)>(le: (T, T) -> bool, a: seq<T>, b: seq<T>)
    requires TotalOrder(le) && LexLe(le, a, b) && LexLe(le, b, a)
    ensures a == b
  {
    if a != [] && b != [] {
      assert a[0] == b[0];
      LexAntisymmetric(le, a[1..], b[1..]);
      assert a == [a[0]] + a[1..] && b == [b[0]] + b[1..];
    }
  }

  lemma {:induction false} LexTransitive<T(!new)>(le: (T, T) -> bool, a: seq<T>, b: seq<T>, c: seq<T>)
    requires TotalOrder(le) && LexLe(le, a, b) && LexLe(le, b, c)
    ensures LexLe(le, a, c)
  {
    if a != [] && b != [] && c != [] {
      if a[0] == b[0] && b[0] == c[0] {
        LexTransitive(le, a[1..], b[1..], c[1..]);
      }
    }
  }

  const CHAR_LE: (char, char) -> bool := (c, d) => c <= d

  /** JavaScript's `<=` on strings of basic-plane characters. */
  function StringLe(a: string, b: string): bool {
    LexLe(CHAR_LE, a, b)
  }

  lemma {:induction false} StringOrder()
    ensures TotalOrder<string>(StringLe)
  {
    assert TotalOrder(CHAR_LE);
    forall a: string, b: string ensures StringLe(a, b) || StringLe(b, a) {
      LexTotal(CHAR_LE, a, b);
    }
    forall a: string, b: string | StringLe(a, b) && StringLe(b, a) ensures a == b {
      LexAntisymmetric(CHAR_LE, a, b);
    }
    forall a: string, b: string, c: string | StringLe(a, b) && StringLe(b, c) ensures StringLe(a, c) {
      LexTransitive(CHAR_LE, a, b, c);
    }
  }
}
