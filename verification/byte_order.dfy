/**
 * The order in which the permission store iterates addresses: ascending
 * lexicographic order on bytes, the order of Go's bytes.Compare and of the
 * underlying key-value store's iterator.
 */
module ByteOrder {
  import opened CircuitTypes

  /** `a` sorts strictly before `b`. A proper prefix sorts before its extensions. */
  predicate LexLess(a: Addr, b: Addr)
    decreases |a|
  {
    if |b| == 0 then false
    else if |a| == 0 then true
    else if a[0] != b[0] then a[0] < b[0]
    else LexLess(a[1..], b[1..])
  }

  lemma {:induction false} LexLessIrreflexive(a: Addr)
    ensures !LexLess(a, a)
    decreases |a|
  {
    if |a| > 0 {
      LexLessIrreflexive(a[1..]);
    }
  }

  lemma {:induction false} LexLessTransitive(a: Addr, b: Addr, c: Addr)
    requires LexLess(a, b) && LexLess(b, c)
    ensures LexLess(a, c)
    decreases |a|
  {
    if |a| > 0 && a[0] == b[0] && b[0] == c[0] {
      LexLessTransitive(a[1..], b[1..], c[1..]);
    }
  }

  lemma {:induction false} LexLessTotal(a: Addr, b: Addr)
    requires a != b
    ensures LexLess(a, b) || LexLess(b, a)
    decreases |a|
  {
    if |a| > 0 && |b| > 0 && a[0] == b[0] {
      assert a == [a[0]] + a[1..] && b == [b[0]] + b[1..];
      LexLessTotal(a[1..], b[1..]);
    }
  }

  /** Every element sorts strictly before every later one: ascending and duplicate-free. */
  predicate StrictlyAscending(xs: seq<Addr>) {
    forall i, j | 0 <= i < j < |xs| :: LexLess(xs[i], xs[j])
  }

  lemma AscendingIsDistinct(xs: seq<Addr>, i: int, j: int)
    requires StrictlyAscending(xs)
    requires 0 <= i < |xs| && 0 <= j < |xs| && i != j
    ensures xs[i] != xs[j]
  {
    if i < j {
      LexLessIrreflexive(xs[i]);
    } else {
      LexLessIrreflexive(xs[j]);
    }
  }

  /** In an ascending sequence, position follows order: an element that sorts
      before another sits at an earlier index. */
  lemma AscendingIndexOrder(xs: seq<Addr>, m: int, n: int)
    requires StrictlyAscending(xs)
    requires 0 <= m < |xs| && 0 <= n < |xs|
    requires LexLess(xs[m], xs[n])
    ensures m < n
  {
    LexLessIrreflexive(xs[m]);
    if n < m {
      LexLessTransitive(xs[m], xs[n], xs[m]);
      assert false;
    }
  }

  /** Inserts an address that is not yet present into an ascending sequence. */
  function InsertSorted(xs: seq<Addr>, a: Addr): (r: seq<Addr>)
    requires StrictlyAscending(xs)
    requires a !in xs
    ensures StrictlyAscending(r)
    ensures forall b :: b in r <==> b in xs || b == a
    ensures |r| == |xs| + 1
    decreases |xs|
  {
    if |xs| == 0 then [a]
    else if LexLess(a, xs[0]) then
      InsertBeforeAll(xs, a);
      [a] + xs
    else
      LexLessTotal(a, xs[0]);
      var rest := InsertSorted(xs[1..], a);
      InsertAfterFirst(xs, a, rest);
      [xs[0]] + rest
  }

  lemma InsertBeforeAll(xs: seq<Addr>, a: Addr)
    requires StrictlyAscending(xs) && |xs| > 0 && LexLess(a, xs[0])
    ensures StrictlyAscending([a] + xs)
  {
    forall j | 1 <= j < |xs|
      ensures LexLess(a, xs[j])
    {
      LexLessTransitive(a, xs[0], xs[j]);
    }
  }

  lemma InsertAfterFirst(xs: seq<Addr>, a: Addr, rest: seq<Addr>)
    requires StrictlyAscending(xs) && |xs| > 0 && LexLess(xs[0], a)
    requires StrictlyAscending(rest)
    requires forall b :: b in rest <==> b in xs[1..] || b == a
    ensures StrictlyAscending([xs[0]] + rest)
  {
    forall j | 0 <= j < |rest|
      ensures LexLess(xs[0], rest[j])
    {
      if rest[j] != a {
        assert rest[j] in xs[1..];
        var k :| 0 <= k < |xs[1..]| && xs[1..][k] == rest[j];
        assert xs[k + 1] == rest[j];
      }
    }
  }
}
