/** Generic sequence vocabulary shared by the scheduler, the history merge and the
    renderer helpers: order-preserving subsequences, filtering, the
    "push unless already included" merge, and taking a prefix or suffix. */
module Seqs {
  import opened Wrappers

  /** `a` can be obtained from `b` by deleting elements, keeping the rest in order. */
  predicate IsSubseq<T(==)>(a: seq<T>, b: seq<T>)
    decreases |b|
  {
    if b == [] then a == []
    else (a != [] && a[0] == b[0] && IsSubseq(a[1..], b[1..])) || IsSubseq(a, b[1..])
  }

  /** No element occurs twice. */
  predicate NoDups<T(==)>(s: seq<T>) {
    forall i, j :: 0 <= i < j < |s| ==> s[i] != s[j]
  }

  lemma NoDupsSuffix<T>(s: seq<T>, d: nat)
    requires NoDups(s) && d <= |s|
    ensures NoDups(s[d..])
  {
    forall i, j | 0 <= i < j < |s[d..]| ensures s[d..][i] != s[d..][j] {
      assert s[d..][i] == s[d + i] && s[d..][j] == s[d + j];
    }
  }

  /** Every element of `a` occurs in `b` (the code's `a.every(x => b.includes(x))`). */
  predicate AllIn<T(==)>(a: seq<T>, b: seq<T>) {
    forall x :: x in a ==> x in b
  }

  lemma {:induction false} SubseqElements<T>(a: seq<T>, b: seq<T>)
    requires IsSubseq(a, b)
    ensures |a| <= |b|
    ensures forall x :: x in a ==> x in b
    decreases |b|
  {
    if b != [] {
      if a != [] && a[0] == b[0] && IsSubseq(a[1..], b[1..]) {
        SubseqElements(a[1..], b[1..]);
        assert a == [a[0]] + a[1..];
      } else {
        SubseqElements(a, b[1..]);
      }
    }
  }

  lemma {:induction false} SubseqRefl<T>(s: seq<T>)
    ensures IsSubseq(s, s)
    decreases |s|
  {
    if s != [] {
      SubseqRefl(s[1..]);
    }
  }

  lemma {:induction false} SubseqEmpty<T>(s: seq<T>)
    ensures IsSubseq([], s)
    decreases |s|
  {
    if s != [] {
      SubseqEmpty(s[1..]);
    }
  }

  /** Appending to both sides keeps a subsequence a subsequence. */
  lemma {:induction false} SubseqConcat<T>(a: seq<T>, b: seq<T>, c: seq<T>, d: seq<T>)
    requires IsSubseq(a, b) && IsSubseq(c, d)
    ensures IsSubseq(a + c, b + d)
    decreases |b|
  {
    if b == [] {
      assert a == [];
      assert a + c == c && b + d == d;
    } else {
      assert (b + d)[1..] == b[1..] + d;
      if a != [] && a[0] == b[0] && IsSubseq(a[1..], b[1..]) {
        SubseqConcat(a[1..], b[1..], c, d);
        assert (a + c)[1..] == a[1..] + c;
      } else {
        SubseqConcat(a, b[1..], c, d);
      }
    }
  }

  lemma {:induction false} SubseqTrans<T>(a: seq<T>, b: seq<T>, c: seq<T>)
    requires IsSubseq(a, b) && IsSubseq(b, c)
    ensures IsSubseq(a, c)
    decreases |c|
  {
    if c != [] {
      if b != [] && b[0] == c[0] && IsSubseq(b[1..], c[1..]) {
        if a != [] && a[0] == b[0] && IsSubseq(a[1..], b[1..]) {
          SubseqTrans(a[1..], b[1..], c[1..]);
        } else {
          SubseqTrans(a, b[1..], c[1..]);
        }
      } else {
        SubseqTrans(a, b, c[1..]);
      }
    }
  }

  /** A subsequence that is as long as the whole sequence is the whole sequence. */
  lemma {:induction false} SubseqSameLength<T>(a: seq<T>, b: seq<T>)
    requires IsSubseq(a, b) && |a| == |b|
    ensures a == b
    decreases |b|
  {
    if b != [] {
      if a != [] && a[0] == b[0] && IsSubseq(a[1..], b[1..]) {
        SubseqSameLength(a[1..], b[1..]);
        assert a == [a[0]] + a[1..];
        assert b == [b[0]] + b[1..];
      } else {
        SubseqElements(a, b[1..]);
      }
    }
  }

  /** The elements of `s` satisfying `p`, in their original order, duplicates kept. */
  function Filter<T(==,!new)>(s: seq<T>, p: T -> bool): (r: seq<T>)
    ensures forall x :: x in r <==> x in s && p(x)
    ensures IsSubseq(r, s)
    ensures |r| <= |s|
    decreases |s|
  {
    if s == [] then []
    else if p(s[0]) then [s[0]] + Filter(s[1..], p)
    else Filter(s[1..], p)
  }

  /** Filtering keeps every occurrence of a value that passes and none of one that
      fails, so it never merges or repeats duplicates. */
  lemma {:induction false} FilterCount<T(!new)>(s: seq<T>, p: T -> bool, x: T)
    ensures multiset(Filter(s, p))[x] == if p(x) then multiset(s)[x] else 0
    decreases |s|
  {
    if s != [] {
      FilterCount(s[1..], p, x);
      assert s == [s[0]] + s[1..];
    }
  }

  lemma {:induction false} FilterConcat<T(!new)>(a: seq<T>, b: seq<T>, p: T -> bool)
    ensures Filter(a + b, p) == Filter(a, p) + Filter(b, p)
    decreases |a|
  {
    if a == [] {
      assert a + b == b;
    } else {
      assert (a + b)[0] == a[0];
      assert (a + b)[1..] == a[1..] + b;
      FilterConcat(a[1..], b, p);
    }
  }

  /** Two predicates that agree on the elements of `s` filter it alike. */
  lemma {:induction false} FilterExt<T(!new)>(s: seq<T>, p: T -> bool, q: T -> bool)
    requires forall x :: x in s ==> p(x) == q(x)
    ensures Filter(s, p) == Filter(s, q)
    decreases |s|
  {
    if s != [] {
      assert s[0] in s;
      assert forall x :: x in s[1..] ==> x in s;
      FilterExt(s[1..], p, q);
    }
  }

  /** Filtering keeps everything exactly when every element satisfies the predicate. */
  lemma FilterKeepsAll<T(!new)>(s: seq<T>, p: T -> bool)
    ensures Filter(s, p) == s <==> forall x :: x in s ==> p(x)
  {
    if forall x :: x in s ==> p(x) {
      FilterAll(s, p);
    }
  }

  lemma {:induction false} FilterAll<T(!new)>(s: seq<T>, p: T -> bool)
    requires forall x :: x in s ==> p(x)
    ensures Filter(s, p) == s
    decreases |s|
  {
    if s != [] {
      assert s[0] in s;
      assert forall x :: x in s[1..] ==> x in s;
      FilterAll(s[1..], p);
      assert s == [s[0]] + s[1..];
    }
  }

  /** Folds the loop `for (x of xs) if (!acc.includes(x)) acc.push(x)` of the code:
      `acc` extended by the elements of `xs` it does not already hold, first
      occurrence wins (see AppendMissingOrder). */
  function AppendMissing<T(==,!new)>(acc: seq<T>, xs: seq<T>): (r: seq<T>)
    ensures |acc| <= |r|
    ensures r[..|acc|] == acc
    ensures forall x :: x in r <==> x in acc || x in xs
    ensures forall x :: x in r[|acc|..] ==> x !in acc
    ensures NoDups(r[|acc|..])
    ensures IsSubseq(r[|acc|..], xs)
    ensures NoDups(acc) ==> NoDups(r)
    decreases |xs|
  {
    if xs == [] then
      SubseqEmpty<T>([]);
      acc
    else if xs[0] in acc then
      var r := AppendMissing(acc, xs[1..]);
      assert xs == [xs[0]] + xs[1..];
      SubseqSkip(r[|acc|..], xs);
      r
    else
      var r := AppendMissing(acc + [xs[0]], xs[1..]);
      AppendStep(acc, xs, r);
      r
  }

  /** Scanning `xs` from the start, `x` is met no later than `y`: `x` occurs in
      `xs`, and no `y` comes before its first occurrence. */
  predicate FirstBefore<T(==)>(xs: seq<T>, x: T, y: T)
    decreases |xs|
  {
    xs != [] && (xs[0] == x || (xs[0] != y && FirstBefore(xs[1..], x, y)))
  }

  /** `AppendMissing` appends in order of first occurrence in `xs`. */
  lemma {:induction false} AppendMissingOrder<T(!new)>(acc: seq<T>, xs: seq<T>)
    ensures var r := AppendMissing(acc, xs);
      forall i, j :: |acc| <= i < j < |r| ==> FirstBefore(xs, r[i], r[j])
    decreases |xs|
  {
    var r := AppendMissing(acc, xs);
    if xs != [] && xs[0] in acc {
      assert r == AppendMissing(acc, xs[1..]);
      AppendMissingOrder(acc, xs[1..]);
      OrderPastKnown(acc, xs, r);
    } else if xs != [] {
      var acc' := acc + [xs[0]];
      assert r == AppendMissing(acc', xs[1..]);
      AppendMissingOrder(acc', xs[1..]);
      OrderPastNew(acc, xs, r);
    }
  }

  /** The step of AppendMissingOrder that skips `xs[0]`, already in `acc`. */
  lemma OrderPastKnown<T>(acc: seq<T>, xs: seq<T>, r: seq<T>)
    requires xs != [] && xs[0] in acc && |acc| <= |r|
    requires forall x :: x in r[|acc|..] ==> x !in acc
    requires forall i, j :: |acc| <= i < j < |r| ==> FirstBefore(xs[1..], r[i], r[j])
    ensures forall i, j :: |acc| <= i < j < |r| ==> FirstBefore(xs, r[i], r[j])
  {
    forall i, j | |acc| <= i < j < |r| ensures FirstBefore(xs, r[i], r[j]) {
      assert FirstBefore(xs[1..], r[i], r[j]);
      assert r[j] in r[|acc|..] by {
        assert r[j] == r[|acc|..][j - |acc|];
      }
      assert xs[0] != r[j];
    }
  }

  /** The step of AppendMissingOrder that appends `xs[0]`. */
  lemma OrderPastNew<T>(acc: seq<T>, xs: seq<T>, r: seq<T>)
    requires xs != [] && |acc| + 1 <= |r| && r[..|acc| + 1] == acc + [xs[0]]
    requires forall x :: x in r[|acc| + 1..] ==> x !in acc + [xs[0]]
    requires forall i, j :: |acc| + 1 <= i < j < |r| ==> FirstBefore(xs[1..], r[i], r[j])
    ensures forall i, j :: |acc| <= i < j < |r| ==> FirstBefore(xs, r[i], r[j])
  {
    var acc' := acc + [xs[0]];
    forall i, j | |acc| <= i < j < |r| ensures FirstBefore(xs, r[i], r[j]) {
      if i == |acc| {
        assert r[i] == xs[0] by {
          assert r[i] == r[..|acc'|][i];
        }
      } else {
        assert FirstBefore(xs[1..], r[i], r[j]);
        assert r[j] in r[|acc'|..] by {
          assert r[j] == r[|acc'|..][j - |acc'|];
        }
        assert xs[0] in acc';
        assert xs[0] != r[j];
      }
    }
  }

  /** Filtering keeps the relative order of first occurrences of what it keeps. */
  lemma {:induction false} FilterFirstBefore<T(!new)>(s: seq<T>, p: T -> bool, x: T, y: T)
    requires FirstBefore(Filter(s, p), x, y) && p(y)
    ensures FirstBefore(s, x, y)
    decreases |s|
  {
    if p(s[0]) {
      assert ([s[0]] + Filter(s[1..], p))[1..] == Filter(s[1..], p);
      if s[0] != x {
        FilterFirstBefore(s[1..], p, x, y);
      }
    } else {
      FilterFirstBefore(s[1..], p, x, y);
    }
  }

  /** Appending the filtered elements of `s` follows their first occurrence in `s`. */
  lemma AppendFilteredOrder<T(!new)>(acc: seq<T>, s: seq<T>, p: T -> bool)
    ensures var r := AppendMissing(acc, Filter(s, p));
      forall i, j :: |acc| <= i < j < |r| ==> FirstBefore(s, r[i], r[j])
  {
    var xs := Filter(s, p);
    var r := AppendMissing(acc, xs);
    AppendMissingOrder(acc, xs);
    forall i, j | |acc| <= i < j < |r| ensures FirstBefore(s, r[i], r[j]) {
      assert r[j] in r[|acc|..] by {
        assert r[j] == r[|acc|..][j - |acc|];
      }
      FilterFirstBefore(s, p, r[i], r[j]);
    }
  }

  lemma SubseqSkip<T>(a: seq<T>, b: seq<T>)
    requires b != [] && IsSubseq(a, b[1..])
    ensures IsSubseq(a, b)
  {
  }

  /** One step of `AppendMissing` that appends `xs[0]`: what holds of the result
      relative to `acc + [xs[0]]` holds relative to `acc`. */
  lemma AppendStep<T>(acc: seq<T>, xs: seq<T>, r: seq<T>)
    requires xs != [] && xs[0] !in acc
    requires |acc| + 1 <= |r| && r[..|acc| + 1] == acc + [xs[0]]
    requires forall x :: x in r[|acc| + 1..] ==> x !in acc + [xs[0]]
    requires NoDups(r[|acc| + 1..])
    requires IsSubseq(r[|acc| + 1..], xs[1..])
    requires NoDups(acc + [xs[0]]) ==> NoDups(r)
    ensures r[..|acc|] == acc
    ensures forall x :: x in r[|acc|..] ==> x !in acc
    ensures NoDups(r[|acc|..])
    ensures IsSubseq(r[|acc|..], xs)
    ensures NoDups(acc) ==> NoDups(r)
  {
    var tail := r[|acc| + 1..];
    assert r[..|acc|] == r[..|acc| + 1][..|acc|];
    assert r[|acc|] == xs[0] by {
      assert r[|acc|] == r[..|acc| + 1][|acc|];
    }
    assert r[|acc|..] == [xs[0]] + tail;
    assert xs[0] in acc + [xs[0]];
    assert xs[0] !in tail;
    assert forall x :: x in r[|acc|..] ==> x == xs[0] || x in tail;
    assert forall x :: x in acc ==> x in acc + [xs[0]];
    NoDupsCons(xs[0], tail);
    assert IsSubseq([xs[0]] + tail, xs) by {
      assert ([xs[0]] + tail)[1..] == tail;
    }
    if NoDups(acc) {
      NoDupsSnoc(acc, xs[0]);
    }
  }

  lemma NoDupsCons<T>(x: T, s: seq<T>)
    requires x !in s && NoDups(s)
    ensures NoDups([x] + s)
  {
    forall i, j | 0 <= i < j < |[x] + s| ensures ([x] + s)[i] != ([x] + s)[j] {
      assert ([x] + s)[j] == s[j - 1];
      if i > 0 {
        assert ([x] + s)[i] == s[i - 1];
      }
    }
  }

  lemma NoDupsSnoc<T>(s: seq<T>, x: T)
    requires x !in s && NoDups(s)
    ensures NoDups(s + [x])
  {
    forall i, j | 0 <= i < j < |s + [x]| ensures (s + [x])[i] != (s + [x])[j] {
      assert (s + [x])[i] == s[i];
      if j < |s| {
        assert (s + [x])[j] == s[j];
      }
    }
  }

  /** The appended part of `AppendMissing` holds exactly the new elements. */
  lemma AppendMissingSuffix<T(!new)>(acc: seq<T>, xs: seq<T>)
    ensures var r := AppendMissing(acc, xs);
      forall x :: x in r[|acc|..] <==> x in xs && x !in acc
  {
    var r := AppendMissing(acc, xs);
    assert r == r[..|acc|] + r[|acc|..];
  }

  /** The first `n` elements of `s`, or all of them when there are fewer
      (the code's `slice(0, n)`). */
  function Take<T>(s: seq<T>, n: nat): (r: seq<T>)
    ensures |r| == if |s| < n then |s| else n
    ensures r == s[..|r|]
  {
    if |s| <= n then s else s[..n]
  }

  /** The last `n` elements of `s`, or all of them when there are fewer
      (the code's `if (s.length > n) s = s.slice(-n)`). */
  function Last<T>(s: seq<T>, n: nat): (r: seq<T>)
    ensures |r| == if |s| < n then |s| else n
    ensures r == s[|s| - |r|..]
  {
    if |s| > n then s[|s| - n..] else s
  }

  lemma PrefixSubseq<T>(s: seq<T>, n: nat)
    requires n <= |s|
    ensures IsSubseq(s[..n], s)
  {
    var front, back := s[..n], s[n..];
    assert front + back == s;
    assert front + [] == front;
    SubseqRefl(front);
    SubseqEmpty(back);
    SubseqConcat(front, front, [], back);
  }

  lemma SuffixSubseq<T>(s: seq<T>, n: nat)
    requires n <= |s|
    ensures IsSubseq(s[n..], s)
  {
    var front, back := s[..n], s[n..];
    assert front + back == s;
    assert [] + back == back;
    SubseqRefl(back);
    SubseqEmpty(front);
    SubseqConcat([], front, back, back);
  }

  /** The present values of `os`, in order. */
  function Somes<T(==,!new)>(os: seq<Option<T>>): (r: seq<T>)
    ensures |r| <= |os|
    ensures forall x :: x in r <==> Some(x) in os
    ensures |r| == |os| <==> forall i :: 0 <= i < |os| ==> os[i].Some?
    decreases |os|
  {
    if os == [] then []
    else
      var rest := Somes(os[1..]);
      assert forall x :: Some(x) in os <==> os[0] == Some(x) || Some(x) in os[1..] by {
        assert os == [os[0]] + os[1..];
      }
      match os[0]
      case Some(x) => [x] + rest
      case None =>
        assert forall i :: 1 <= i < |os| ==> os[i] == os[1..][i - 1];
        rest
  }

  /** In a sequence without repeats every value occurs at most once. */
  lemma {:induction false} NoDupsAtMostOnce<T>(s: seq<T>, x: T)
    requires NoDups(s)
    ensures multiset(s)[x] <= 1
    decreases |s|
  {
    if s != [] {
      assert s == [s[0]] + s[1..];
      NoDupsSuffix(s, 1);
      NoDupsAtMostOnce(s[1..], x);
      if x == s[0] {
        assert x !in s[1..] by {
          forall k | 0 <= k < |s[1..]| ensures s[1..][k] != x {
            assert s[1..][k] == s[k + 1];
          }
        }
      }
    }
  }

  /** A value found at two positions occurs at least twice. */
  lemma RepeatCountsTwice<T>(s: seq<T>, i: int, j: int)
    requires 0 <= i < j < |s| && s[i] == s[j]
    ensures multiset(s)[s[i]] >= 2
  {
    assert s == s[..j] + s[j..];
    assert s[i] in s[..j];
    assert s[j] == s[j..][0];
    assert s[i] in multiset(s[..j]) && s[j] in multiset(s[j..]);
  }

  /** A sequence has no repeats exactly when no value occurs in it twice. */
  lemma NoDupsIffCounts<T>(s: seq<T>)
    ensures NoDups(s) <==> forall x :: multiset(s)[x] <= 1
  {
    if NoDups(s) {
      forall x ensures multiset(s)[x] <= 1 {
        NoDupsAtMostOnce(s, x);
      }
    } else {
      var i, j :| 0 <= i < j < |s| && s[i] == s[j];
      RepeatCountsTwice(s, i, j);
    }
  }

  /** Every element of `s` paired with the tag `a`. */
  function Tag<A, B>(a: A, s: seq<B>): (r: seq<(A, B)>)
    ensures |r| == |s|
    ensures forall k :: 0 <= k < |s| ==> r[k] == (a, s[k])
  {
    seq(|s|, k requires 0 <= k < |s| => (a, s[k]))
  }

  /** A tagged pair occurs as often as its element does, under the right tag only. */
  lemma {:induction false} TagCount<A, B>(a: A, s: seq<B>, b: A, x: B)
    ensures multiset(Tag(a, s))[(b, x)] == if a == b then multiset(s)[x] else 0
    decreases |s|
  {
    if s != [] {
      TagCount(a, s[1..], b, x);
      TagCons(a, s);
      CountTail(Tag(a, s), (b, x));
      CountTail(s, x);
    }
  }

  lemma TagCons<A, B>(a: A, s: seq<B>)
    requires s != []
    ensures Tag(a, s) != [] && Tag(a, s)[0] == (a, s[0]) && Tag(a, s)[1..] == Tag(a, s[1..])
  {
  }

  lemma CountConcat<T>(a: seq<T>, b: seq<T>, y: T)
    ensures multiset(a + b)[y] == multiset(a)[y] + multiset(b)[y]
  {
    assert multiset(a + b) == multiset(a) + multiset(b);
  }

  /** How often `y` occurs in a non-empty sequence: at its head, then in its tail. */
  lemma CountTail<T>(s: seq<T>, y: T)
    requires s != []
    ensures multiset(s)[y] == (if s[0] == y then 1 else 0) + multiset(s[1..])[y]
  {
    assert s == [s[0]] + s[1..];
    assert multiset(s) == multiset([s[0]]) + multiset(s[1..]);
  }

  /** A subsequence of a sequence without repeats has none. */
  lemma {:induction false} SubseqNoDups<T>(a: seq<T>, b: seq<T>)
    requires IsSubseq(a, b) && NoDups(b)
    ensures NoDups(a)
    decreases |b|
  {
    if b != [] {
      NoDupsSuffix(b, 1);
      if a != [] && a[0] == b[0] && IsSubseq(a[1..], b[1..]) {
        SubseqNoDups(a[1..], b[1..]);
        SubseqElements(a[1..], b[1..]);
        assert b[0] !in b[1..] by {
          forall k | 0 <= k < |b[1..]| ensures b[1..][k] != b[0] {
            assert b[1..][k] == b[k + 1];
          }
        }
        NoDupsCons(a[0], a[1..]);
        assert a == [a[0]] + a[1..];
      } else {
        SubseqNoDups(a, b[1..]);
      }
    }
  }
}

