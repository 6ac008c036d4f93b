/**
 * Python's `str.split` and `str.join` on one separator, for any element type:
 * the pieces between separators and the inverse that glues them back.
 */
module Sequences {
  /** Python's `s.split(d)`: the maximal runs between occurrences of `d`. */
  function Split<T(==)>(s: seq<T>, d: T): (parts: seq<seq<T>>)
    ensures |parts| >= 1
    decreases |s|
  {
    if s == [] then [[]]
    else
      var rest := Split(s[1..], d);
      if s[0] == d then [[]] + rest else [[s[0]] + rest[0]] + rest[1..]
  }

  /** Python's `d.join(parts)`, the inverse of `Split`. */
  function Join<T>(parts: seq<seq<T>>, d: T): seq<T>
    requires |parts| >= 1
  {
    if |parts| == 1 then parts[0] else parts[0] + [d] + Join(parts[1..], d)
  }

  /** Joining a piece in front of others puts one separator between them. */
  lemma JoinCons<T>(h: seq<T>, parts: seq<seq<T>>, d: T)
    requires |parts| >= 1
    ensures Join([h] + parts, d) == h + [d] + Join(parts, d)
  {
    assert ([h] + parts)[1..] == parts;
  }

  /** Joining the pieces of a split gives back the original string. */
  lemma {:induction false} JoinSplit<T>(s: seq<T>, d: T)
    ensures Join(Split(s, d), d) == s
    decreases |s|
  {
    if s != [] {
      JoinSplit(s[1..], d);
      var rest := Split(s[1..], d);
      if s[0] == d {
        assert Split(s, d) == [[]] + rest;
        assert s == [d] + s[1..];
      } else {
        var parts := Split(s, d);
        assert parts == [[s[0]] + rest[0]] + rest[1..];
        if |rest| == 1 {
          assert s == [s[0]] + rest[0];
        } else {
          assert Join(rest, d) == rest[0] + [d] + Join(rest[1..], d);
          assert parts[1..] == rest[1..];
          assert s == [s[0]] + s[1..];
        }
      }
    }
  }

  /** Splitting text that holds no separator yields it whole. */
  lemma {:induction false} SplitWithout<T>(s: seq<T>, d: T)
    requires d !in s
    ensures Split(s, d) == [s]
    decreases |s|
  {
    if s != [] {
      SplitWithout(s[1..], d);
      assert [s[0]] + s[1..] == s;
    }
  }

  /** Splitting around one separator: the pieces of each side, in order. */
  lemma {:induction false} SplitAround<T>(x: seq<T>, d: T, y: seq<T>)
    ensures Split(x + [d] + y, d) == Split(x, d) + Split(y, d)
    decreases |x|
  {
    if x == [] {
      assert (x + [d] + y)[1..] == y;
    } else {
      SplitAround(x[1..], d, y);
      if x[0] == d {
        assert x == [d] + x[1..];
        SplitAroundSeparator(x[1..], d, y);
      } else {
        SplitAroundOther(x, d, y);
      }
    }
  }

  /** `SplitAround`'s step when the first element is a separator. */
  lemma SplitAroundSeparator<T>(t: seq<T>, d: T, y: seq<T>)
    requires Split(t + [d] + y, d) == Split(t, d) + Split(y, d)
    ensures Split([d] + t + [d] + y, d) == Split([d] + t, d) + Split(y, d)
  {
    var u := t + [d] + y;
    assert [d] + t + [d] + y == [d] + u;
    SplitSeparatorFirst(d, u);
    SplitSeparatorFirst(d, t);
  }

  /** A leading separator splits off an empty first piece. */
  lemma SplitSeparatorFirst<T>(d: T, u: seq<T>)
    ensures Split([d] + u, d) == [[]] + Split(u, d)
  {
    assert ([d] + u)[1..] == u;
  }

  /** `SplitAround`'s step when the first element joins the first piece. */
  lemma SplitAroundOther<T>(x: seq<T>, d: T, y: seq<T>)
    requires x != [] && x[0] != d
    requires Split(x[1..] + [d] + y, d) == Split(x[1..], d) + Split(y, d)
    ensures Split(x + [d] + y, d) == Split(x, d) + Split(y, d)
  {
    var s := x + [d] + y;
    assert s[0] == x[0] && s[1..] == x[1..] + [d] + y;
    ConsFirstPiece([x[0]], Split(x[1..], d), Split(y, d));
  }

  /** Growing the first piece commutes with appending further pieces. */
  lemma ConsFirstPiece<T>(h: seq<T>, p: seq<seq<T>>, q: seq<seq<T>>)
    requires |p| >= 1
    ensures [h + (p + q)[0]] + (p + q)[1..] == ([h + p[0]] + p[1..]) + q
  {
    assert (p + q)[0] == p[0];
    assert (p + q)[1..] == p[1..] + q;
  }

  /** A separator-free prefix only lengthens the first piece. */
  lemma {:induction false} SplitPrefix<T>(x: seq<T>, d: T, y: seq<T>)
    requires d !in x
    ensures var p := Split(y, d); Split(x + y, d) == [x + p[0]] + p[1..]
    decreases |x|
  {
    if x != [] {
      var p := Split(y, d);
      assert (x + y)[0] == x[0] && (x + y)[1..] == x[1..] + y;
      SplitPrefix(x[1..], d, y);
      var rest := Split(x[1..] + y, d);
      assert rest == [x[1..] + p[0]] + p[1..];
      assert Split(x + y, d) == [[x[0]] + rest[0]] + rest[1..];
      assert [x[0]] + (x[1..] + p[0]) == x + p[0];
    } else {
      var p := Split(y, d);
      assert x + y == y && x + p[0] == p[0];
      assert [p[0]] + p[1..] == p;
    }
  }

  /** Splitting a join of separator-free pieces gives back the pieces. */
  lemma {:induction false} SplitJoin<T>(parts: seq<seq<T>>, d: T)
    requires |parts| >= 1
    requires forall k :: 0 <= k < |parts| ==> d !in parts[k]
    ensures Split(Join(parts, d), d) == parts
  {
    if |parts| == 1 {
      SplitWithout(parts[0], d);
    } else {
      SplitJoin(parts[1..], d);
      SplitWithout(parts[0], d);
      SplitAround(parts[0], d, Join(parts[1..], d));
      assert [parts[0]] + parts[1..] == parts;
    }
  }

  /** A separator at `i` that ends the sequence or is followed by another one. */
  predicate DanglingAt<T(==)>(s: seq<T>, d: T, i: int) {
    0 <= i < |s| && s[i] == d && (i + 1 == |s| || s[i + 1] == d)
  }

  /** The first piece is empty exactly when the sequence is empty or starts with a separator. */
  lemma FirstPieceEmpty<T>(s: seq<T>, d: T)
    ensures Split(s, d)[0] == [] <==> s == [] || s[0] == d
  {
  }

  /**
   * Some piece after the first one is empty exactly when a separator ends
   * the sequence or is directly followed by another separator.
   */
  lemma {:induction false} EmptyPieceAfterFirst<T>(s: seq<T>, d: T)
    ensures [] in Split(s, d)[1..] <==> exists i :: DanglingAt(s, d, i)
    decreases |s|
  {
    if s != [] {
      var t := s[1..];
      var rest := Split(t, d);
      EmptyPieceAfterFirst(t, d);
      FirstPieceEmpty(t, d);
      forall i | 0 <= i ensures DanglingAt(t, d, i) <==> DanglingAt(s, d, i + 1) {
        if i < |t| {
          assert t[i] == s[i + 1];
          if i + 1 < |t| {
            assert t[i + 1] == s[i + 2];
          }
        }
      }
      if s[0] == d {
        assert Split(s, d)[1..] == rest == [rest[0]] + rest[1..];
        assert DanglingAt(s, d, 0) <==> rest[0] == [];
      } else {
        assert Split(s, d)[1..] == rest[1..];
        assert !DanglingAt(s, d, 0);
      }
      if exists i :: DanglingAt(s, d, i) {
        var i :| DanglingAt(s, d, i);
        if i > 0 {
          assert DanglingAt(t, d, i - 1);
        }
      }
    }
  }

  /** A prefix followed by the rest of the sequence is the sequence. */
  lemma PrefixAndRest<T>(p: seq<T>, s: seq<T>)
    requires p <= s
    ensures p + s[|p|..] == s
  {
    assert s == s[..|p|] + s[|p|..];
  }

  /** The elements of `s` that satisfy `p`, in order. */
  function Filter<T>(s: seq<T>, p: T -> bool): (r: seq<T>)
    ensures |r| <= |s|
  {
    if s == [] then []
    else Filter(s[..|s| - 1], p) + if p(s[|s| - 1]) then [s[|s| - 1]] else []
  }

  /** Filtering one element further keeps it exactly when it satisfies `p`. */
  lemma FilterSnoc<T>(s: seq<T>, i: nat, p: T -> bool)
    requires i < |s|
    ensures Filter(s[..i + 1], p) == Filter(s[..i], p) + if p(s[i]) then [s[i]] else []
  {
    assert s[..i + 1][..i] == s[..i];
  }

  /** Every element kept by `Filter` satisfies the predicate. */
  lemma {:induction false} FilterSatisfies<T>(s: seq<T>, p: T -> bool)
    ensures forall k :: 0 <= k < |Filter(s, p)| ==> p(Filter(s, p)[k])
  {
    if s != [] {
      FilterSatisfies(s[..|s| - 1], p);
    }
  }

  /** The elements kept by `Filter` are exactly the elements of `s` that satisfy `p`. */
  lemma {:induction false} FilterMembership<T>(s: seq<T>, p: T -> bool)
    ensures forall x :: x in Filter(s, p) <==> x in s && p(x)
  {
    if s != [] {
      FilterMembership(s[..|s| - 1], p);
      assert s == s[..|s| - 1] + [s[|s| - 1]];
    }
  }

  /** The complement of a predicate. */
  function Negate<T>(p: T -> bool): T -> bool {
    x => !p(x)
  }

  /** `Filter` by `p` and by its complement split `s` into two parts, element for element. */
  lemma FilterPartition<T>(s: seq<T>, p: T -> bool)
    ensures |Filter(s, p)| + |Filter(s, Negate(p))| == |s|
    ensures multiset(Filter(s, p)) + multiset(Filter(s, Negate(p))) == multiset(s)
  {
    FilterPartitionMultiset(s, p);
    assert |multiset(Filter(s, p)) + multiset(Filter(s, Negate(p)))| == |multiset(s)|;
  }

  /** The multiset half of `FilterPartition`, by induction. */
  lemma {:induction false} FilterPartitionMultiset<T>(s: seq<T>, p: T -> bool)
    ensures multiset(Filter(s, p)) + multiset(Filter(s, Negate(p))) == multiset(s)
  {
    if s != [] {
      var init, last := s[..|s| - 1], s[|s| - 1];
      FilterPartitionMultiset(init, p);
      assert s == init + [last];
      if p(last) {
        assert Filter(s, p) == Filter(init, p) + [last];
        assert Filter(s, Negate(p)) == Filter(init, Negate(p));
      } else {
        assert Filter(s, p) == Filter(init, p);
        assert Filter(s, Negate(p)) == Filter(init, Negate(p)) + [last];
      }
    }
  }

  /** `a` is `b` with some elements left out, the rest in their order. */
  predicate Subsequence<T(==)>(a: seq<T>, b: seq<T>)
    decreases |b|
  {
    if a == [] then true
    else if b == [] then false
    else (a[|a| - 1] == b[|b| - 1] && Subsequence(a[..|a| - 1], b[..|b| - 1])) ||
         Subsequence(a, b[..|b| - 1])
  }

  /** `Filter` keeps the order of `s`. */
  lemma {:induction false} FilterSubsequence<T>(s: seq<T>, p: T -> bool)
    ensures Subsequence(Filter(s, p), s)
  {
    if s != [] {
      var init := s[..|s| - 1];
      FilterSubsequence(init, p);
      if p(s[|s| - 1]) {
        assert Filter(s, p)[..|Filter(s, p)| - 1] == Filter(init, p);
      } else {
        assert Filter(s, p) == Filter(init, p);
        SubsequenceSkipLast(Filter(s, p), s);
      }
    }
  }

  /** A subsequence of `b` without its last element is a subsequence of `b`. */
  lemma SubsequenceSkipLast<T>(a: seq<T>, b: seq<T>)
    requires b != [] && Subsequence(a, b[..|b| - 1])
    ensures Subsequence(a, b)
  {
  }

  /** When no element satisfies `p`, `Filter` keeps nothing. */
  lemma {:induction false} FilterNone<T>(s: seq<T>, p: T -> bool)
    requires forall k :: 0 <= k < |s| ==> !p(s[k])
    ensures Filter(s, p) == []
  {
    if s != [] {
      FilterNone(s[..|s| - 1], p);
    }
  }

  /** When every element satisfies `p`, `Filter` keeps everything. */
  lemma {:induction false} FilterAll<T>(s: seq<T>, p: T -> bool)
    requires forall k :: 0 <= k < |s| ==> p(s[k])
    ensures Filter(s, p) == s
  {
    if s != [] {
      FilterAll(s[..|s| - 1], p);
      assert s == s[..|s| - 1] + [s[|s| - 1]];
    }
  }

  /** `f` applied to every element of `s`. */
  function Map<T, U>(s: seq<T>, f: T -> U): (r: seq<U>)
    ensures |r| == |s| && forall k :: 0 <= k < |s| ==> r[k] == f(s[k])
  {
    seq(|s|, k requires 0 <= k < |s| => f(s[k]))
  }

  lemma MapSnoc<T, U>(s: seq<T>, x: T, f: T -> U)
    ensures Map(s + [x], f) == Map(s, f) + [f(x)]
  {
  }
}
