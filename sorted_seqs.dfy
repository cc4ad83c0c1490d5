/**
 * Sorting the distinct values of a column: the values in ascending order, each once,
 * represented as a strictly increasing sequence.
 */
module SortedSeqs {
  import opened Ordering

  /** Every element is below every later one: sorted and free of duplicates. */
  ghost predicate Increasing<T>(lt: (T, T) -> bool, s: seq<T>) {
    forall i, j :: 0 <= i < j < |s| ==> lt(s[i], s[j])
  }

  /** Inserts `x` at its place in the strictly increasing `s`, unless it is already there. */
  function Insert<T(==,!new)>(lt: (T, T) -> bool, s: seq<T>, x: T): (r: seq<T>)
    requires StrictTotalOrder(lt)
    requires Increasing(lt, s)
    ensures Increasing(lt, r)
    ensures forall y :: y in r <==> y in s || y == x
  {
    if |s| == 0 then [x]
    else if x == s[0] then s
    else if lt(x, s[0]) then [x] + s
    else
      var rest := Insert(lt, s[1..], x);
      assert forall y :: y in rest ==> lt(s[0], y) by {
        forall y | y in rest ensures lt(s[0], y) {
          if y != x {
            var j :| 0 <= j < |s[1..]| && s[1..][j] == y;
            assert s[1 + j] == y;
          }
        }
      }
      [s[0]] + rest
  }

  /** Sorted distinct values of `xs`: an ascending sequence holding exactly the values that occur in `xs`. */
  function SortedUnique<T(==,!new)>(lt: (T, T) -> bool, xs: seq<T>): (r: seq<T>)
    requires StrictTotalOrder(lt)
    ensures Increasing(lt, r)
    ensures forall y :: y in r <==> y in xs
  {
    if |xs| == 0 then []
    else
      var init := xs[..|xs| - 1];
      assert xs == init + [xs[|xs| - 1]];
      Insert(lt, SortedUnique(lt, init), xs[|xs| - 1])
  }

  /** The head of an increasing sequence is below every other element. */
  lemma HeadIsLeast<T>(lt: (T, T) -> bool, s: seq<T>, y: T)
    requires Increasing(lt, s) && y in s
    ensures y == s[0] || lt(s[0], y)
  {
  }

  /** An increasing sequence is determined by its elements. */
  lemma {:induction false} IncreasingUnique<T(!new)>(lt: (T, T) -> bool, a: seq<T>, b: seq<T>)
    requires StrictTotalOrder(lt)
    requires Increasing(lt, a) && Increasing(lt, b)
    requires forall y :: y in a <==> y in b
    ensures a == b
  {
    if |a| > 0 || |b| > 0 {
      assert |a| > 0 ==> a[0] in b;
      assert |b| > 0 ==> b[0] in a;
      assert |a| > 0 && |b| > 0;
      HeadIsLeast(lt, b, a[0]);
      HeadIsLeast(lt, a, b[0]);
      assert a[0] == b[0];
      forall y ensures y in a[1..] <==> y in b[1..] {
        if y in a[1..] {
          var i :| 0 <= i < |a[1..]| && a[1..][i] == y;
          assert lt(a[0], a[1 + i]);
          assert y in b && y != b[0];
          var k :| 0 <= k < |b| && b[k] == y;
          assert b[1..][k - 1] == y;
        }
        if y in b[1..] {
          var i :| 0 <= i < |b[1..]| && b[1..][i] == y;
          assert lt(b[0], b[1 + i]);
          assert y in a && y != a[0];
          var k :| 0 <= k < |a| && a[k] == y;
          assert a[1..][k - 1] == y;
        }
      }
      IncreasingUnique(lt, a[1..], b[1..]);
      assert a == [a[0]] + a[1..] && b == [b[0]] + b[1..];
    }
  }

  /** The sorted distinct values of `xs` depend only on which values occur in `xs`, not on their order or multiplicity. */
  lemma SortedUniqueBySet<T(!new)>(lt: (T, T) -> bool, xs: seq<T>, ys: seq<T>)
    requires StrictTotalOrder(lt)
    requires forall y :: y in xs <==> y in ys
    ensures SortedUnique(lt, xs) == SortedUnique(lt, ys)
  {
    IncreasingUnique(lt, SortedUnique(lt, xs), SortedUnique(lt, ys));
  }

  /** The only increasing sequence holding exactly `x` is `[x]`. */
  lemma IncreasingIsSingleton<T(!new)>(lt: (T, T) -> bool, s: seq<T>, x: T)
    requires StrictTotalOrder(lt)
    requires Increasing(lt, s)
    requires forall z :: z in s <==> z == x
    ensures s == [x]
  {
    IncreasingUnique(lt, s, [x]);
  }

  /** The only increasing sequence holding exactly `x` and `y`, with `x` below `y`, is `[x, y]`. */
  lemma IncreasingIsPair<T(!new)>(lt: (T, T) -> bool, s: seq<T>, x: T, y: T)
    requires StrictTotalOrder(lt)
    requires lt(x, y)
    requires Increasing(lt, s)
    requires forall z :: z in s <==> z == x || z == y
    ensures s == [x, y]
  {
    IncreasingUnique(lt, s, [x, y]);
  }
}
