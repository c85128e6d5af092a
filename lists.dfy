/**
 * The list comprehension `[f(x) for x in xs if p(f(x))]` that the extractors
 * use to collect the rows they keep.
 */
module Lists {

  /** `[f(x) for x in xs]` */
  function MapSeq<A, B>(xs: seq<A>, f: A -> B): (r: seq<B>)
    ensures |r| == |xs| && forall i :: 0 <= i < |xs| ==> r[i] == f(xs[i])
  {
    seq(|xs|, i requires 0 <= i < |xs| => f(xs[i]))
  }

  /** The positions `i` with `p(xs[i])`, in increasing order: the order in
      which a comprehension over `xs` meets the elements it keeps. */
  function Positions<A>(xs: seq<A>, p: A -> bool): (pos: seq<nat>)
    ensures forall j :: 0 <= j < |pos| ==> pos[j] < |xs| && p(xs[pos[j]])
    ensures forall j, k :: 0 <= j < k < |pos| ==> pos[j] < pos[k]
    ensures forall i :: 0 <= i < |xs| && p(xs[i]) ==> i in pos
  {
    if xs == [] then []
    else
      var n := |xs| - 1;
      Positions(xs[..n], p) + (if p(xs[n]) then [n] else [])
  }

  function FilterMap<A, B>(xs: seq<A>, f: A -> B, p: B -> bool): (r: seq<B>)
    ensures |r| <= |xs|
    ensures forall j :: 0 <= j < |r| ==> p(r[j])
  {
    if xs == [] then []
    else
      var y := f(xs[|xs| - 1]);
      FilterMap(xs[..|xs| - 1], f, p) + (if p(y) then [y] else [])
  }

  /** The comprehension keeps the images of exactly the elements whose image
      passes, in the order of `xs`. */
  lemma {:induction false} FilterMapOrder<A, B>(xs: seq<A>, f: A -> B, p: B -> bool)
    ensures |FilterMap(xs, f, p)| == |Positions(MapSeq(xs, f), p)|
    ensures forall j :: 0 <= j < |FilterMap(xs, f, p)| ==>
              FilterMap(xs, f, p)[j] == f(xs[Positions(MapSeq(xs, f), p)[j]])
  {
    if xs != [] {
      var n := |xs| - 1;
      var init := xs[..n];
      FilterMapOrder(init, f, p);
      var m := MapSeq(xs, f);
      assert m[..n] == MapSeq(init, f);
      var pos, pos0 := Positions(m, p), Positions(MapSeq(init, f), p);
      var r, r0 := FilterMap(xs, f, p), FilterMap(init, f, p);
      assert pos == pos0 + (if p(m[n]) then [n] else []);
      assert r == r0 + (if p(f(xs[n])) then [f(xs[n])] else []);
      forall j | 0 <= j < |r0| ensures r[j] == f(xs[pos[j]]) {
        assert r[j] == r0[j] && pos[j] == pos0[j] && init[pos0[j]] == xs[pos0[j]];
      }
    }
  }

  /** Every element whose image satisfies `p` contributes its image. */
  lemma {:induction false} FilterMapKeeps<A, B>(xs: seq<A>, f: A -> B, p: B -> bool, i: nat)
    requires i < |xs| && p(f(xs[i]))
    ensures f(xs[i]) in FilterMap(xs, f, p)
  {
    var init := xs[..|xs| - 1];
    if i < |init| {
      assert init[i] == xs[i];
      FilterMapKeeps(init, f, p, i);
    }
  }

  /** Every kept element is the image of an element of `xs`. */
  lemma {:induction false} FilterMapFrom<A, B>(xs: seq<A>, f: A -> B, p: B -> bool, y: B)
    requires y in FilterMap(xs, f, p)
    ensures exists i :: 0 <= i < |xs| && f(xs[i]) == y
  {
    var init := xs[..|xs| - 1];
    if y in FilterMap(init, f, p) {
      FilterMapFrom(init, f, p, y);
      var i :| 0 <= i < |init| && f(init[i]) == y;
      assert xs[i] == init[i];
    }
  }

  /** `[x for x in xs if p(x)]` */
  function Filter<A(!new)>(xs: seq<A>, p: A -> bool): (r: seq<A>)
    ensures |r| <= |xs|
    ensures forall x :: x in r <==> x in xs && p(x)
  {
    if xs == [] then []
    else
      var init, last := xs[..|xs| - 1], xs[|xs| - 1];
      assert xs == init + [last];
      Filter(init, p) + (if p(last) then [last] else [])
  }

  /** The filter keeps the elements at the positions where `p` holds, in order. */
  lemma {:induction false} FilterPositions<A(!new)>(xs: seq<A>, p: A -> bool)
    ensures |Filter(xs, p)| == |Positions(xs, p)|
    ensures forall j :: 0 <= j < |Filter(xs, p)| ==> Filter(xs, p)[j] == xs[Positions(xs, p)[j]]
  {
    if xs != [] {
      var init, last := xs[..|xs| - 1], xs[|xs| - 1];
      FilterPositions(init, p);
      assert Positions(xs, p) == Positions(init, p) + (if p(last) then [|init|] else []);
      assert Filter(xs, p) == Filter(init, p) + (if p(last) then [last] else []);
    }
  }

  /** `h(xs[i], xs[i + 1]) + h(xs[i + 2], xs[i + 3]) + ...`, walking two
      elements at a time; a last element without a partner adds nothing. */
  function PairsAt<A, B>(xs: seq<A>, i: nat, h: (A, A) -> seq<B>): seq<B>
    decreases |xs| - i
  {
    if i + 1 < |xs| then h(xs[i], xs[i + 1]) + PairsAt(xs, i + 2, h) else []
  }

  /** What the walk emits from `i + 2 * n` on is a suffix of what it emits
      from `i` on. */
  lemma {:induction false} PairsAtSkip<A, B>(xs: seq<A>, i: nat, n: nat, h: (A, A) -> seq<B>)
    ensures var all, tail := PairsAt(xs, i, h), PairsAt(xs, i + 2 * n, h);
            |tail| <= |all| && all[|all| - |tail|..] == tail
    decreases n
  {
    var all, tail := PairsAt(xs, i, h), PairsAt(xs, i + 2 * n, h);
    if n == 0 {
      assert all[|all| - |tail|..] == all;
    } else if i + 1 < |xs| {
      PairsAtSkip(xs, i + 2, n - 1, h);
      assert i + 2 + 2 * (n - 1) == i + 2 * n;
      SuffixOfAppend(all, h(xs[i], xs[i + 1]), PairsAt(xs, i + 2, h), tail);
    } else {
      assert tail == [];
    }
  }

  /** The same, for any later start at an even distance. */
  lemma PairsAtSuffix<A, B>(xs: seq<A>, i: nat, k: nat, h: (A, A) -> seq<B>)
    requires i <= k && (k - i) % 2 == 0
    ensures var all, tail := PairsAt(xs, i, h), PairsAt(xs, k, h);
            |tail| <= |all| && all[|all| - |tail|..] == tail
  {
    PairsAtSkip(xs, i, (k - i) / 2, h);
  }

  /** The filter keeps everything when every element passes. */
  lemma {:induction false} FilterAll<A(!new)>(xs: seq<A>, p: A -> bool)
    requires forall i :: 0 <= i < |xs| ==> p(xs[i])
    ensures Filter(xs, p) == xs
  {
    if xs != [] {
      var init, last := xs[..|xs| - 1], xs[|xs| - 1];
      forall i | 0 <= i < |init| ensures p(init[i]) {
        assert init[i] == xs[i];
      }
      FilterAll(init, p);
      assert xs == init + [last];
      assert Filter(xs, p) == init + [last];
    }
  }

  /** A suffix of `b` is a suffix of `a + b`. */
  lemma SuffixOfAppend<A>(ab: seq<A>, a: seq<A>, b: seq<A>, t: seq<A>)
    requires ab == a + b && |t| <= |b| && b[|b| - |t|..] == t
    ensures |t| <= |ab| && ab[|ab| - |t|..] == t
  {
    assert ab[|ab| - |t|..] == b[|b| - |t|..];
  }

  lemma AppendAssoc<A>(a: seq<A>, b: seq<A>, c: seq<A>)
    ensures (a + b) + c == a + (b + c)
  {
  }

  /** Membership in a prefix one element longer. */
  lemma InPrefixSnoc<A>(xs: seq<A>, n: nat, x: A)
    requires 0 < n <= |xs|
    ensures x in xs[..n] <==> x in xs[..n - 1] || x == xs[n - 1]
  {
    assert xs[..n] == xs[..n - 1] + [xs[n - 1]];
  }

  /** Some element satisfies `p` exactly when one before the last does or the last does. */
  lemma ExistsSnoc<A>(xs: seq<A>, init: seq<A>, p: A -> bool)
    requires xs != [] && init == xs[..|xs| - 1]
    ensures (exists i :: 0 <= i < |xs| && p(xs[i])) <==> (exists i :: 0 <= i < |init| && p(init[i])) || p(xs[|xs| - 1])
  {
    if exists i :: 0 <= i < |xs| && p(xs[i]) {
      var i :| 0 <= i < |xs| && p(xs[i]);
      if i < |init| {
        assert init[i] == xs[i];
      }
    }
    if exists i :: 0 <= i < |init| && p(init[i]) {
      var i :| 0 <= i < |init| && p(init[i]);
      assert xs[i] == init[i];
    }
  }

  /** No element occurs twice. */
  predicate Distinct<A(==)>(xs: seq<A>) {
    forall i, j :: 0 <= i < j < |xs| ==> xs[i] != xs[j]
  }

  /** Filtering a sequence without repeats gives one without repeats. */
  lemma {:induction false} FilterDistinct<A(!new)>(xs: seq<A>, p: A -> bool)
    requires Distinct(xs)
    ensures Distinct(Filter(xs, p))
  {
    if xs != [] {
      var init, last := xs[..|xs| - 1], xs[|xs| - 1];
      FilterDistinct(init, p);
      assert last !in init by {
        forall k | 0 <= k < |init| ensures init[k] != last {
          assert init[k] == xs[k];
        }
      }
    }
  }

  lemma {:induction false} FilterConcat<A(!new)>(a: seq<A>, b: seq<A>, p: A -> bool)
    ensures Filter(a + b, p) == Filter(a, p) + Filter(b, p)
    decreases |b|
  {
    if b == [] {
      assert a + b == a;
    } else {
      var b' := b[..|b| - 1];
      assert (a + b)[..|a + b| - 1] == a + b';
      FilterConcat(a, b', p);
    }
  }

  /** In a sequence without repeats every element occurs once. */
  lemma {:induction false} DistinctCount<A>(xs: seq<A>, x: A)
    requires Distinct(xs)
    ensures multiset(xs)[x] == if x in xs then 1 else 0
  {
    if xs != [] {
      var init, last := xs[..|xs| - 1], xs[|xs| - 1];
      assert xs == init + [last];
      assert Distinct(init);
      DistinctCount(init, x);
      if x == last {
        assert x !in init by {
          forall k | 0 <= k < |init| ensures init[k] != last {
            assert init[k] == xs[k];
          }
        }
      }
    }
  }

  /** pandas `unique()`: each value once, at its first occurrence. */
  function Unique<A(==,!new)>(xs: seq<A>): (r: seq<A>)
    ensures forall x :: x in r <==> x in xs
  {
    if xs == [] then []
    else
      var u, last := Unique(xs[..|xs| - 1]), xs[|xs| - 1];
      assert xs == xs[..|xs| - 1] + [last];
      if last in u then u else u + [last]
  }

  /** The position of the first occurrence of `x`. */
  function FirstIndex<A(==)>(xs: seq<A>, x: A): (k: nat)
    requires x in xs
    ensures k < |xs| && xs[k] == x && x !in xs[..k]
  {
    if xs[0] == x then 0 else 1 + FirstIndex(xs[1..], x)
  }

  /** `unique()` has no repeats and lists the values in the order of their
      first occurrences. */
  lemma {:induction false} UniqueSpec<A(!new)>(xs: seq<A>)
    ensures Distinct(Unique(xs))
    ensures forall i, j :: 0 <= i < j < |Unique(xs)| ==>
              FirstIndex(xs, Unique(xs)[i]) < FirstIndex(xs, Unique(xs)[j])
  {
    if xs != [] {
      var init, last := xs[..|xs| - 1], xs[|xs| - 1];
      var u := Unique(init);
      UniqueSpec(init);
      assert xs == init + [last];
      if last in u {
        assert Unique(xs) == u;
        forall i, j | 0 <= i < j < |u| ensures FirstIndex(xs, u[i]) < FirstIndex(xs, u[j]) {
          FirstIndexPrefix(init, last, u[i]);
          FirstIndexPrefix(init, last, u[j]);
        }
      } else {
        assert Unique(xs) == u + [last];
        assert Distinct([last]);
        DistinctConcat(u, [last]);
        UniqueSnocOrder(init, last);
      }
    }
  }

  /** A value new to `init` goes after all of `unique(init)`, and the first
      occurrences of the earlier values do not move. */
  lemma UniqueSnocOrder<A(!new)>(init: seq<A>, last: A)
    requires last !in init
    requires forall i, j :: 0 <= i < j < |Unique(init)| ==>
               FirstIndex(init, Unique(init)[i]) < FirstIndex(init, Unique(init)[j])
    ensures var r := Unique(init) + [last];
            forall i, j :: 0 <= i < j < |r| ==> FirstIndex(init + [last], r[i]) < FirstIndex(init + [last], r[j])
  {
    var u, xs := Unique(init), init + [last];
    var r := u + [last];
    FirstIndexLast(init, last);
    forall i, j | 0 <= i < j < |r| ensures FirstIndex(xs, r[i]) < FirstIndex(xs, r[j]) {
      assert r[i] == u[i];
      FirstIndexPrefix(init, last, u[i]);
      if j < |u| {
        assert r[j] == u[j];
        FirstIndexPrefix(init, last, u[j]);
      }
    }
  }

  /** `unique()` commutes with an injective map: the mapped values repeat
      exactly where the original values do. */
  lemma {:induction false} UniqueMap<A(!new), B(!new)>(xs: seq<A>, f: A -> B)
    requires forall a, b :: f(a) == f(b) ==> a == b
    ensures Unique(MapSeq(xs, f)) == MapSeq(Unique(xs), f)
  {
    if xs != [] {
      var n := |xs| - 1;
      var init, last := xs[..n], xs[n];
      UniqueMap(init, f);
      var m := MapSeq(xs, f);
      assert m[..n] == MapSeq(init, f);
      var u := Unique(init);
      assert f(last) in MapSeq(u, f) <==> last in u;
      if last !in u {
        assert MapSeq(u, f) + [f(last)] == MapSeq(u + [last], f);
      }
    }
  }

  lemma {:induction false} FirstIndexPrefix<A>(init: seq<A>, last: A, y: A)
    requires y in init
    ensures FirstIndex(init + [last], y) == FirstIndex(init, y)
  {
    if init[0] != y {
      assert (init + [last])[1..] == init[1..] + [last];
      FirstIndexPrefix(init[1..], last, y);
    }
  }

  lemma {:induction false} FirstIndexLast<A>(init: seq<A>, last: A)
    requires last !in init
    ensures FirstIndex(init + [last], last) == |init|
  {
    if init != [] {
      assert (init + [last])[1..] == init[1..] + [last];
      FirstIndexLast(init[1..], last);
    }
  }

  /** A sequence without repeats is its own `unique()`. */
  lemma {:induction false} UniqueOfDistinct<A(!new)>(xs: seq<A>)
    requires Distinct(xs)
    ensures Unique(xs) == xs
  {
    if xs != [] {
      var init, last := xs[..|xs| - 1], xs[|xs| - 1];
      UniqueOfDistinct(init);
      assert last !in init by {
        forall k | 0 <= k < |init| ensures init[k] != last {
          assert init[k] == xs[k];
        }
      }
    }
  }

  /** Two sequences without repeats and without common elements. */
  lemma DistinctConcat<A>(a: seq<A>, b: seq<A>)
    requires Distinct(a) && Distinct(b)
    requires forall x :: x in a ==> x !in b
    ensures Distinct(a + b)
  {
    var r := a + b;
    forall i, j | 0 <= i < j < |r| ensures r[i] != r[j] {
      if j < |a| {
        assert r[i] == a[i] && r[j] == a[j];
      } else if i < |a| {
        assert r[i] == a[i] && r[j] == b[j - |a|];
        assert r[i] in a && r[j] in b;
      } else {
        assert r[i] == b[i - |a|] && r[j] == b[j - |a|];
      }
    }
  }

  /** Values seen before add nothing to `unique()`. */
  lemma {:induction false} UniqueAppendSeen<A(!new)>(xs: seq<A>, ys: seq<A>)
    requires forall y :: y in ys ==> y in xs
    ensures Unique(xs + ys) == Unique(xs)
    decreases |ys|
  {
    if ys == [] {
      assert xs + ys == xs;
    } else {
      var m := |ys| - 1;
      assert (xs + ys)[..|xs + ys| - 1] == xs + ys[..m];
      UniqueAppendSeen(xs, ys[..m]);
      assert ys[m] in ys;
    }
  }

  /** The filter drops everything when no element passes. */
  lemma {:induction false} FilterNone<A(!new)>(xs: seq<A>, p: A -> bool)
    requires forall i :: 0 <= i < |xs| ==> !p(xs[i])
    ensures Filter(xs, p) == []
  {
    if xs != [] {
      FilterNone(xs[..|xs| - 1], p);
    }
  }
}
