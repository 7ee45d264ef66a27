/** Order-preserving filtering, LIMIT/OFFSET paging and key distinctness over
    sequences: the shapes that the repository's queries and list comprehensions
    take once a table is a sequence of rows. */
module Seqs {

  /** The rows of `s` for which `keep` holds, in their original order
      (a `WHERE` clause, or a Python list comprehension with an `if`). */
  function Filter<T(!new)>(s: seq<T>, keep: T -> bool): (r: seq<T>)
    ensures |r| <= |s|
    ensures forall x :: x in r <==> x in s && keep(x)
  {
    if s == [] then []
    else
      assert s == s[..|s| - 1] + [s[|s| - 1]];
      Filter(s[..|s| - 1], keep) + (if keep(s[|s| - 1]) then [s[|s| - 1]] else [])
  }

  /** Filtering distributes over concatenation, so it keeps the relative order of what it keeps. */
  lemma {:induction false} FilterAppend<T(!new)>(s: seq<T>, t: seq<T>, keep: T -> bool)
    ensures Filter(s + t, keep) == Filter(s, keep) + Filter(t, keep)
    decreases |t|
  {
    if t == [] {
      assert s + t == s;
    } else {
      assert (s + t)[..|s + t| - 1] == s + t[..|t| - 1];
      FilterAppend(s, t[..|t| - 1], keep);
    }
  }

  /** When every element is kept, filtering changes nothing. */
  lemma {:induction false} FilterKeepsAll<T(!new)>(s: seq<T>, keep: T -> bool)
    requires forall x :: x in s ==> keep(x)
    ensures Filter(s, keep) == s
    decreases |s|
  {
    if s != [] {
      assert s == s[..|s| - 1] + [s[|s| - 1]];
      FilterKeepsAll(s[..|s| - 1], keep);
    }
  }

  /** Filtering with two selections that agree on every element gives the same rows. */
  lemma {:induction false} FilterAgrees<T(!new)>(s: seq<T>, f: T -> bool, g: T -> bool)
    requires forall x :: x in s ==> f(x) == g(x)
    ensures Filter(s, f) == Filter(s, g)
    decreases |s|
  {
    if s != [] {
      FilterAgrees(s[..|s| - 1], f, g);
    }
  }

  function Min(a: int, b: int): int { if a <= b then a else b }

  /** SQL `LIMIT limit OFFSET offset`: skip `offset` rows, then take at most `limit`. */
  function Page<T(!new)>(s: seq<T>, limit: nat, offset: nat): (r: seq<T>)
    ensures |r| <= limit
    ensures |r| == if offset < |s| then Min(limit, |s| - offset) else 0
    ensures forall i :: 0 <= i < |r| ==> offset + i < |s| && r[i] == s[offset + i]
    ensures forall x :: x in r ==> x in s
  {
    if offset >= |s| then []
    else if limit <= |s| - offset then s[offset..offset + limit]
    else s[offset..]
  }

  /** Two consecutive pages of one size are together the page of twice that size. */
  lemma PagesAreConsecutive<T(!new)>(s: seq<T>, size: nat, offset: nat)
    ensures Page(s, size, offset) + Page(s, size, offset + size) == Page(s, size + size, offset)
  {
    var a, b, ab := Page(s, size, offset), Page(s, size, offset + size), Page(s, size + size, offset);
    assert |a + b| == |ab|;
    forall i | 0 <= i < |ab| ensures (a + b)[i] == ab[i] {
      if i >= |a| {
        assert |a| == size;
        assert b[i - size] == s[offset + size + (i - size)];
      }
    }
  }

  /** No two positions of `s` carry the same key (a primary key). */
  ghost predicate DistinctBy<T>(s: seq<T>, key: T -> int) {
    forall i, j :: 0 <= i < j < |s| ==> key(s[i]) != key(s[j])
  }

  /** Under a primary key, two rows with the same key are the same row. */
  lemma SameKeySameRow<T>(s: seq<T>, key: T -> int, a: T, b: T)
    requires DistinctBy(s, key)
    requires a in s && b in s && key(a) == key(b)
    ensures a == b
  {
    var i :| 0 <= i < |s| && s[i] == a;
    var j :| 0 <= j < |s| && s[j] == b;
  }

  /** One more element of the prefix adds itself to the filtered prefix exactly when it is kept. */
  lemma FilterStep<T(!new)>(s: seq<T>, i: nat, keep: T -> bool)
    requires i < |s|
    ensures Filter(s[..i + 1], keep) == Filter(s[..i], keep) + (if keep(s[i]) then [s[i]] else [])
  {
    assert s[..i + 1] == s[..i] + [s[i]];
    FilterAppend(s[..i], [s[i]], keep);
    assert [s[i]][..0] == [];
  }

  /** Filtering with a test no element passes gives the empty sequence. */
  lemma FilterKeepsNone<T(!new)>(s: seq<T>, keep: T -> bool)
    requires forall x :: x in s ==> !keep(x)
    ensures Filter(s, keep) == []
  {
    if Filter(s, keep) != [] {
      assert Filter(s, keep)[0] in Filter(s, keep);
    }
  }

  /** The first two rows of a table with a primary key have different keys. */
  lemma FirstTwoKeysDiffer<T>(s: seq<T>, key: T -> int)
    requires DistinctBy(s, key) && |s| >= 2
    ensures key(s[0]) != key(s[1]) && s[0] in s && s[1] in s
  {
  }

  /** Filtering a table never introduces a duplicate key. */
  lemma {:induction false} FilterKeepsDistinct<T(!new)>(s: seq<T>, keep: T -> bool, key: T -> int)
    requires DistinctBy(s, key)
    ensures DistinctBy(Filter(s, keep), key)
    decreases |s|
  {
    if s != [] {
      var init, last := s[..|s| - 1], s[|s| - 1];
      assert DistinctBy(init, key) by {
        forall i, j | 0 <= i < j < |init| ensures key(init[i]) != key(init[j]) {
          assert init[i] == s[i] && init[j] == s[j];
        }
      }
      FilterKeepsDistinct(init, keep, key);
      var f := Filter(init, keep);
      if keep(last) {
        forall x | x in f ensures key(x) != key(last) {
          var i :| 0 <= i < |init| && init[i] == x;
          assert s[i] == x && s[|s| - 1] == last;
        }
        var r := f + [last];
        forall i, j | 0 <= i < j < |r| ensures key(r[i]) != key(r[j]) {
          if j == |r| - 1 {
            assert r[i] in f;
          } else {
            assert r[i] == f[i] && r[j] == f[j];
          }
        }
      }
    }
  }

  /** Paging a table never introduces a duplicate key. */
  lemma PageKeepsDistinct<T(!new)>(s: seq<T>, limit: nat, offset: nat, key: T -> int)
    requires DistinctBy(s, key)
    ensures DistinctBy(Page(s, limit, offset), key)
  {
    var r := Page(s, limit, offset);
    forall i, j | 0 <= i < j < |r| ensures key(r[i]) != key(r[j]) {
      assert r[i] == s[offset + i] && r[j] == s[offset + j];
    }
  }
}
