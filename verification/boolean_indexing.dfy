/**
 * Boolean-mask indexing of a table, `frame[mask]`: the rows for which the
 * mask is true, in their original order. Both the trend view and the pie
 * view of the dashboard select rows this way, so the selection and its
 * laws are stated once here, over an ordered sequence of rows.
 */
module BooleanIndexing {

  /** `a` occurs in `b` in the same order, possibly with gaps. */
  ghost predicate IsSubseq<T>(a: seq<T>, b: seq<T>)
    decreases |b|
  {
    if a == [] then true
    else if b == [] then false
    else (a[0] == b[0] && IsSubseq(a[1..], b[1..])) || IsSubseq(a, b[1..])
  }

  /** The rows of `s` for which `keep` holds, in their original order. */
  function Select<T>(s: seq<T>, keep: T -> bool): (r: seq<T>)
    ensures |r| <= |s|
    ensures forall i :: 0 <= i < |r| ==> keep(r[i]) && r[i] in s
    ensures forall i :: 0 <= i < |s| && keep(s[i]) ==> s[i] in r
  {
    if s == [] then []
    else if keep(s[0]) then [s[0]] + Select(s[1..], keep)
    else Select(s[1..], keep)
  }

  /** Selection keeps the input order: its result is a subsequence of the input. */
  lemma {:induction false} SelectIsSubseq<T>(s: seq<T>, keep: T -> bool)
    ensures IsSubseq(Select(s, keep), s)
  {
    if s != [] {
      SelectIsSubseq(s[1..], keep);
      var r := Select(s, keep);
      if keep(s[0]) {
        assert r[0] == s[0] && r[1..] == Select(s[1..], keep);
      } else {
        assert r == Select(s[1..], keep);
        SubseqDropHead(r, s);
      }
    }
  }

  /** A subsequence of the tail of `b` is a subsequence of `b`. */
  lemma SubseqDropHead<T>(a: seq<T>, b: seq<T>)
    requires b != [] && IsSubseq(a, b[1..])
    ensures IsSubseq(a, b)
  {
  }

  /** Selection is complete: every row the mask accepts is kept as often as it occurs, and no other row. */
  lemma {:induction false} SelectCounts<T>(s: seq<T>, keep: T -> bool, x: T)
    ensures multiset(Select(s, keep))[x] == if keep(x) then multiset(s)[x] else 0
  {
    if s != [] {
      SelectCounts(s[1..], keep, x);
      assert s == [s[0]] + s[1..];
    }
  }

  /** A subsequence holds no row more often than the sequence it is taken from. */
  lemma {:induction false} SubseqCounts<T>(a: seq<T>, b: seq<T>)
    requires IsSubseq(a, b)
    ensures multiset(a) <= multiset(b)
  {
    if a != [] {
      assert b == [b[0]] + b[1..];
      if a[0] == b[0] && IsSubseq(a[1..], b[1..]) {
        SubseqCounts(a[1..], b[1..]);
        assert a == [a[0]] + a[1..];
      } else {
        SubseqCounts(a, b[1..]);
      }
    }
  }

  /**
   * Order and counts determine a selection: a subsequence of `s` that holds
   * each accepted row as often as `s` does, and no rejected row, is
   * `Select(s, keep)`.
   */
  lemma {:induction false} SelectUnique<T>(s: seq<T>, keep: T -> bool, t: seq<T>)
    requires IsSubseq(t, s)
    requires forall x :: multiset(t)[x] == if keep(x) then multiset(s)[x] else 0
    ensures t == Select(s, keep)
  {
    if s == [] {
      assert t == [];
    } else {
      var h, tail := s[0], s[1..];
      assert s == [h] + tail;
      if t != [] && t[0] == h && IsSubseq(t[1..], tail) {
        assert t == [h] + t[1..];
        assert keep(h) by {
          assert multiset(t)[h] > 0;
        }
        forall x
          ensures multiset(t[1..])[x] == if keep(x) then multiset(tail)[x] else 0
        {
          assert multiset(t)[x] == multiset(t[1..])[x] + multiset([h])[x];
          assert multiset(s)[x] == multiset(tail)[x] + multiset([h])[x];
        }
        SelectUnique(tail, keep, t[1..]);
      } else {
        assert IsSubseq(t, tail);
        SubseqCounts(t, tail);
        assert !keep(h);
        forall x
          ensures multiset(t)[x] == if keep(x) then multiset(tail)[x] else 0
        {
          assert multiset(s)[x] == multiset(tail)[x] + multiset([h])[x];
        }
        SelectUnique(tail, keep, t);
      }
    }
  }

  /** Selecting from a sequence extended by one row extends the selection by that row exactly when the mask accepts it. */
  lemma {:induction false} SelectSnoc<T>(s: seq<T>, x: T, keep: T -> bool)
    ensures Select(s + [x], keep) == Select(s, keep) + (if keep(x) then [x] else [])
  {
    if s != [] {
      assert (s + [x])[1..] == s[1..] + [x];
      SelectSnoc(s[1..], x, keep);
    }
  }

  /** Two masks applied one after the other select what their conjunction selects. */
  lemma {:induction false} SelectSelect<T>(s: seq<T>, p: T -> bool, q: T -> bool, both: T -> bool)
    requires forall x :: both(x) == (p(x) && q(x))
    ensures Select(Select(s, p), q) == Select(s, both)
  {
    if s != [] {
      SelectSelect(s[1..], p, q, both);
    }
  }

  /** Masks that agree on every row select the same rows. */
  lemma SelectSameMask<T>(s: seq<T>, p: T -> bool, q: T -> bool)
    requires forall x :: p(x) == q(x)
    ensures Select(s, p) == Select(s, q)
  {
    SelectIsSubseq(s, q);
    forall x
      ensures multiset(Select(s, q))[x] == if p(x) then multiset(s)[x] else 0
    {
      SelectCounts(s, q, x);
    }
    SelectUnique(s, p, Select(s, q));
  }

  /** A mask that accepts every row of `s` selects all of `s`. */
  lemma {:induction false} SelectKeepsAll<T>(s: seq<T>, keep: T -> bool)
    requires forall i :: 0 <= i < |s| ==> keep(s[i])
    ensures Select(s, keep) == s
  {
    if s != [] {
      SelectKeepsAll(s[1..], keep);
    }
  }

  /** A mask that accepts no row of `s` selects nothing. */
  lemma {:induction false} SelectKeepsNone<T>(s: seq<T>, keep: T -> bool)
    requires forall i :: 0 <= i < |s| ==> !keep(s[i])
    ensures Select(s, keep) == []
  {
    if s != [] {
      SelectKeepsNone(s[1..], keep);
    }
  }

  /** Applying a mask a second time changes nothing. */
  lemma SelectIdempotent<T>(s: seq<T>, keep: T -> bool)
    ensures Select(Select(s, keep), keep) == Select(s, keep)
  {
    SelectKeepsAll(Select(s, keep), keep);
  }

  /** The first selected row is the first row of `s` the mask accepts. */
  lemma {:induction false} SelectFirst<T>(s: seq<T>, keep: T -> bool, i: nat)
    requires i < |s| && keep(s[i])
    requires forall k :: 0 <= k < i ==> !keep(s[k])
    ensures Select(s, keep) != [] && Select(s, keep)[0] == s[i]
  {
    if i > 0 {
      SelectFirst(s[1..], keep, i - 1);
    }
  }
}
