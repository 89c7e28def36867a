/**
 * The size of the state space: `states()` returns 4 * 5^4 * 3^3 * 2^2 = 270000
 * tuples. The count splits the sixteen count positions into the nine held
 * counts and the seven playable counts; a playable count is bounded by its
 * held count, so each held tuple contributes the number of playable tuples
 * below it, a product of per-position factors.
 */
module StateCount {
  import opened StateSpace
  import Cards

  // ---------------------------------------------------------------------------
  // Splitting the product
  // ---------------------------------------------------------------------------

  /** `[a + t for t in ts]`. */
  function Appended(a: seq<int>, ts: seq<seq<int>>): (r: seq<seq<int>>)
    ensures |r| == |ts|
  {
    if ts == [] then [] else [a + ts[0]] + Appended(a, ts[1..])
  }

  /** Every tuple of `xs` extended by every tuple of `ys`, `xs` varying slowest. */
  function Ext(xs: seq<seq<int>>, ys: seq<seq<int>>): seq<seq<int>> {
    if xs == [] then [] else Appended(xs[0], ys) + Ext(xs[1..], ys)
  }

  lemma {:induction false} AppendedEmpty(ts: seq<seq<int>>)
    ensures Appended([], ts) == ts
  {
    if ts != [] {
      AppendedEmpty(ts[1..]);
      assert [] + ts[0] == ts[0];
    }
  }

  lemma {:induction false} PrefixedConcat(v: int, s1: seq<seq<int>>, s2: seq<seq<int>>)
    ensures Prefixed(v, s1 + s2) == Prefixed(v, s1) + Prefixed(v, s2)
  {
    if s1 == [] {
      assert s1 + s2 == s2;
    } else {
      assert (s1 + s2)[0] == s1[0];
      assert (s1 + s2)[1..] == s1[1..] + s2;
      PrefixedConcat(v, s1[1..], s2);
    }
  }

  lemma {:induction false} PrefixedAppended(v: int, x: seq<int>, ys: seq<seq<int>>)
    ensures Prefixed(v, Appended(x, ys)) == Appended([v] + x, ys)
  {
    if ys != [] {
      assert [v] + (x + ys[0]) == ([v] + x) + ys[0];
      PrefixedAppended(v, x, ys[1..]);
    }
  }

  lemma {:induction false} ExtConcat(x1: seq<seq<int>>, x2: seq<seq<int>>, ys: seq<seq<int>>)
    ensures Ext(x1 + x2, ys) == Ext(x1, ys) + Ext(x2, ys)
  {
    if x1 == [] {
      assert x1 + x2 == x2;
    } else {
      assert (x1 + x2)[0] == x1[0];
      assert (x1 + x2)[1..] == x1[1..] + x2;
      ExtConcat(x1[1..], x2, ys);
    }
  }

  lemma {:induction false} PrefixedExt(v: int, xs: seq<seq<int>>, ys: seq<seq<int>>)
    ensures Prefixed(v, Ext(xs, ys)) == Ext(Prefixed(v, xs), ys)
  {
    if xs != [] {
      var p := Prefixed(v, xs);
      assert p[0] == [v] + xs[0] && p[1..] == Prefixed(v, xs[1..]);
      PrefixedConcat(v, Appended(xs[0], ys), Ext(xs[1..], ys));
      PrefixedAppended(v, xs[0], ys);
      PrefixedExt(v, xs[1..], ys);
    }
  }

  lemma {:induction false} BlocksExt(lo: int, hi: int, xs: seq<seq<int>>, ys: seq<seq<int>>)
    ensures Blocks(lo, hi, Ext(xs, ys)) == Ext(Blocks(lo, hi, xs), ys)
    decreases hi - lo
  {
    if lo <= hi {
      PrefixedExt(lo, xs, ys);
      BlocksExt(lo + 1, hi, xs, ys);
      ExtConcat(Prefixed(lo, xs), Blocks(lo + 1, hi, xs), ys);
    }
  }

  /** The product over `a + b` lists each tuple of `a`'s product followed by each of `b`'s. */
  lemma {:induction false} ProductSplit(a: seq<nat>, b: seq<nat>)
    ensures Product(a + b) == Ext(Product(a), Product(b))
  {
    if a == [] {
      assert a + b == b;
      AppendedEmpty(Product(b));
    } else {
      assert (a + b)[0] == a[0] && (a + b)[1..] == a[1..] + b;
      ProductSplit(a[1..], b);
      BlocksExt(0, a[0], Product(a[1..]), Product(b));
    }
  }

  /** Every tuple of a product lies in its box. */
  lemma ProductMembers(cs: seq<nat>)
    ensures forall t :: t in Product(cs) ==> InBox(t, cs)
  {
    forall t | t in Product(cs) ensures InBox(t, cs) {
      ProductCount(cs, t);
    }
  }

  // ---------------------------------------------------------------------------
  // Counting tuples that pass the filter
  // ---------------------------------------------------------------------------

  /** How many tuples of `ts` pass the filter of `states()`. */
  function CountCovers(ts: seq<seq<int>>): nat {
    if ts == [] then 0 else (if Covers(ts[0]) then 1 else 0) + CountCovers(ts[1..])
  }

  lemma {:induction false} CountCoversConcat(s1: seq<seq<int>>, s2: seq<seq<int>>)
    ensures CountCovers(s1 + s2) == CountCovers(s1) + CountCovers(s2)
  {
    if s1 == [] {
      assert s1 + s2 == s2;
    } else {
      assert (s1 + s2)[0] == s1[0];
      assert (s1 + s2)[1..] == s1[1..] + s2;
      CountCoversConcat(s1[1..], s2);
    }
  }

  lemma {:induction false} KeepTagLength(c: Cards.Color, ts: seq<seq<int>>)
    ensures |Keep(Tag(c, ts))| == CountCovers(ts)
  {
    if ts != [] {
      KeepTagLength(c, ts[1..]);
    }
  }

  /** Filtering a colour-tagged product keeps the same tuples under every colour. */
  lemma {:induction false} KeepTaggedLength(cs: seq<Cards.Color>, ts: seq<seq<int>>)
    ensures |Keep(Tagged(cs, ts))| == |cs| * CountCovers(ts)
  {
    if cs != [] {
      KeepConcat(Tag(cs[0], ts), Tagged(cs[1..], ts));
      KeepTagLength(cs[0], ts);
      KeepTaggedLength(cs[1..], ts);
      assert |cs| * CountCovers(ts) == CountCovers(ts) + (|cs| - 1) * CountCovers(ts);
    }
  }

  /** Each of the first `|t|` entries of `t` is at most the matching entry of `m`. */
  predicate Le(t: seq<int>, m: seq<int>) {
    |t| <= |m| && forall k :: 0 <= k < |t| ==> t[k] <= m[k]
  }

  /** How many tuples of `ts` lie below `m`. */
  function CountLe(ts: seq<seq<int>>, m: seq<int>): nat {
    if ts == [] then 0 else (if Le(ts[0], m) then 1 else 0) + CountLe(ts[1..], m)
  }

  /** A held tuple followed by a playable tuple passes the filter iff the playable one lies below. */
  lemma CoversSplit(a: seq<int>, t: seq<int>)
    requires |a| == 9 && |t| == 7
    ensures Covers(a + t) <==> Le(t, a)
  {
    var u := a + t;
    forall k | 0 <= k < 7 ensures u[k] == a[k] && u[k + 9] == t[k] {
    }
    if Le(t, a) {
      forall k | 0 <= k < 7 ensures u[k] >= u[k + 9] {
        assert t[k] <= a[k];
      }
    }
    if Covers(u) {
      forall k | 0 <= k < |t| ensures t[k] <= a[k] {
        assert u[k] >= u[k + 9];
      }
    }
  }

  lemma {:induction false} CountCoversAppended(a: seq<int>, ts: seq<seq<int>>)
    requires |a| == 9
    requires forall t :: t in ts ==> |t| == 7
    ensures CountCovers(Appended(a, ts)) == CountLe(ts, a)
  {
    if ts != [] {
      CoversSplit(a, ts[0]);
      CountCoversAppended(a, ts[1..]);
    }
  }

  lemma {:induction false} CountLePrefixed(v: int, ts: seq<seq<int>>, m: seq<int>)
    requires |m| > 0
    ensures CountLe(Prefixed(v, ts), m) == if v <= m[0] then CountLe(ts, m[1..]) else 0
  {
    if ts != [] {
      var t := [v] + ts[0];
      assert Le(t, m) <==> v <= m[0] && Le(ts[0], m[1..]) by {
        assert forall k :: 1 <= k < |t| ==> t[k] == ts[0][k - 1];
        if v <= m[0] && Le(ts[0], m[1..]) {
          assert forall k :: 1 <= k < |t| ==> m[k] == m[1..][k - 1];
        }
        if Le(t, m) {
          assert forall k :: 0 <= k < |ts[0]| ==> ts[0][k] == t[k + 1] && m[1..][k] == m[k + 1];
        }
      }
      CountLePrefixed(v, ts[1..], m);
    }
  }

  lemma {:induction false} CountLeConcat(s1: seq<seq<int>>, s2: seq<seq<int>>, m: seq<int>)
    ensures CountLe(s1 + s2, m) == CountLe(s1, m) + CountLe(s2, m)
  {
    if s1 == [] {
      assert s1 + s2 == s2;
    } else {
      assert (s1 + s2)[0] == s1[0];
      assert (s1 + s2)[1..] == s1[1..] + s2;
      CountLeConcat(s1[1..], s2, m);
    }
  }

  lemma Distrib(a: int, b: int, c: int)
    ensures (a + b) * c == a * c + b * c
    ensures c * (a + b) == c * a + c * b
  {
  }

  /** How many of `lo..hi` are at most `x`. */
  function Between(lo: int, hi: int, x: int): nat
    decreases hi - lo
  {
    if lo > hi then 0 else (if lo <= x then 1 else 0) + Between(lo + 1, hi, x)
  }

  lemma {:induction false} BetweenValue(lo: int, hi: int, x: int)
    ensures Between(lo, hi, x) == if lo > Min(hi, x) then 0 else Min(hi, x) - lo + 1
    decreases hi - lo
  {
    if lo <= hi {
      BetweenValue(lo + 1, hi, x);
    }
  }

  lemma {:induction false} CountLeBlocks(lo: int, hi: int, ts: seq<seq<int>>, m: seq<int>)
    requires |m| > 0
    ensures CountLe(Blocks(lo, hi, ts), m) == Between(lo, hi, m[0]) * CountLe(ts, m[1..])
    decreases hi - lo
  {
    if lo <= hi {
      CountLeConcat(Prefixed(lo, ts), Blocks(lo + 1, hi, ts), m);
      CountLePrefixed(lo, ts, m);
      CountLeBlocks(lo + 1, hi, ts, m);
      var n := CountLe(ts, m[1..]);
      Distrib(if lo <= m[0] then 1 else 0, Between(lo + 1, hi, m[0]), n);
    }
  }

  /** The product of the factors `min(cs[k], m[k]) + 1`, over the positions both cover. */
  function MinProd(cs: seq<nat>, m: seq<int>): int {
    if cs == [] || m == [] then 1 else (Min(cs[0], m[0]) + 1) * MinProd(cs[1..], m[1..])
  }

  /** The tuples of a product lying below a non-negative bound `m` number `MinProd(cs, m)`. */
  lemma {:induction false} CountLeProduct(cs: seq<nat>, m: seq<int>)
    requires |m| >= |cs|
    requires forall k :: 0 <= k < |m| ==> m[k] >= 0
    ensures CountLe(Product(cs), m) == MinProd(cs, m)
  {
    if cs == [] {
      assert Product(cs) == [[]];
      assert Le([], m);
    } else {
      CountLeBlocks(0, cs[0], Product(cs[1..]), m);
      BetweenValue(0, cs[0], m[0]);
      CountLeProduct(cs[1..], m[1..]);
    }
  }

  // ---------------------------------------------------------------------------
  // Summing the contributions of the held tuples
  // ---------------------------------------------------------------------------

  /** The sum of `MinProd(cs, x)` over the tuples `x` of `xs`. */
  function SumW(xs: seq<seq<int>>, cs: seq<nat>): int {
    if xs == [] then 0 else MinProd(cs, xs[0]) + SumW(xs[1..], cs)
  }

  function Tail(cs: seq<nat>): seq<nat> {
    if cs == [] then [] else cs[1..]
  }

  /** The factor a first entry `v` contributes to `MinProd(cs, _)`. */
  function Factor(cs: seq<nat>, v: int): int {
    if cs == [] then 1 else Min(cs[0], v) + 1
  }

  /** The sum of the factors of `lo..hi`. */
  function ColSum(lo: int, hi: int, cs: seq<nat>): int
    decreases hi - lo
  {
    if lo > hi then 0 else Factor(cs, lo) + ColSum(lo + 1, hi, cs)
  }

  /** The product of the column sums of each range of `a`. */
  function ProdCol(a: seq<nat>, cs: seq<nat>): int {
    if a == [] then 1 else ColSum(0, a[0], cs) * ProdCol(a[1..], Tail(cs))
  }

  lemma {:induction false} SumWConcat(s1: seq<seq<int>>, s2: seq<seq<int>>, cs: seq<nat>)
    ensures SumW(s1 + s2, cs) == SumW(s1, cs) + SumW(s2, cs)
  {
    if s1 == [] {
      assert s1 + s2 == s2;
    } else {
      assert (s1 + s2)[0] == s1[0];
      assert (s1 + s2)[1..] == s1[1..] + s2;
      SumWConcat(s1[1..], s2, cs);
    }
  }

  lemma {:induction false} SumWPrefixed(v: int, ts: seq<seq<int>>, cs: seq<nat>)
    ensures SumW(Prefixed(v, ts), cs) == Factor(cs, v) * SumW(ts, Tail(cs))
  {
    if ts != [] {
      var t := [v] + ts[0];
      assert t[1..] == ts[0];
      assert MinProd(cs, t) == Factor(cs, v) * MinProd(Tail(cs), ts[0]);
      SumWPrefixed(v, ts[1..], cs);
      Distrib(MinProd(Tail(cs), ts[0]), SumW(ts[1..], Tail(cs)), Factor(cs, v));
    }
  }

  lemma {:induction false} SumWBlocks(lo: int, hi: int, ts: seq<seq<int>>, cs: seq<nat>)
    ensures SumW(Blocks(lo, hi, ts), cs) == ColSum(lo, hi, cs) * SumW(ts, Tail(cs))
    decreases hi - lo
  {
    if lo <= hi {
      SumWConcat(Prefixed(lo, ts), Blocks(lo + 1, hi, ts), cs);
      SumWPrefixed(lo, ts, cs);
      SumWBlocks(lo + 1, hi, ts, cs);
      Distrib(Factor(cs, lo), ColSum(lo + 1, hi, cs), SumW(ts, Tail(cs)));
    }
  }

  lemma {:induction false} SumWProduct(a: seq<nat>, cs: seq<nat>)
    ensures SumW(Product(a), cs) == ProdCol(a, cs)
  {
    if a == [] {
      assert Product(a) == [[]];
    } else {
      SumWBlocks(0, a[0], Product(a[1..]), cs);
      SumWProduct(a[1..], Tail(cs));
    }
  }

  lemma {:induction false} CountCoversExt(xs: seq<seq<int>>, b: seq<nat>)
    requires |b| == 7
    requires forall x :: x in xs ==> |x| == 9 && forall k :: 0 <= k < 9 ==> x[k] >= 0
    ensures CountCovers(Ext(xs, Product(b))) == SumW(xs, b)
  {
    if xs != [] {
      ProductMembers(b);
      CountCoversConcat(Appended(xs[0], Product(b)), Ext(xs[1..], Product(b)));
      CountCoversAppended(xs[0], Product(b));
      CountLeProduct(b, xs[0]);
      CountCoversExt(xs[1..], b);
    }
  }

  // ---------------------------------------------------------------------------
  // The count
  // ---------------------------------------------------------------------------

  /** The ranges of the nine held counts. */
  function HeldCeilings(): (r: seq<nat>)
    ensures |r| == 9
  {
    seq(9, k => if k < 4 then 2 else 1)
  }

  /** The ranges of the seven playable counts. */
  function PlayableCeilings(): (r: seq<nat>)
    ensures |r| == 7
  {
    seq(7, k => 1)
  }

  /** Each held tuple contributes the playable tuples below it: 5^4 * 3^3 * 2^2 in all. */
  lemma ColumnProduct()
    ensures ProdCol(HeldCeilings(), PlayableCeilings()) == 67500
  {
    assert HeldCeilings() == [2, 2, 2, 2, 1, 1, 1, 1, 1];
    assert PlayableCeilings() == [1, 1, 1, 1, 1, 1, 1];
  }

  /** `states()` returns 4 * 5^4 * 3^3 * 2^2 = 270000 tuples. */
  lemma StatesCount()
    ensures |States()| == 270000
  {
    var a, b := HeldCeilings(), PlayableCeilings();
    assert Ceilings() == a + b;
    ProductSplit(a, b);
    ProductMembers(a);
    CountCoversExt(Product(a), b);
    SumWProduct(a, b);
    ColumnProduct();
    KeepTaggedLength(StateColors, Product(Ceilings()));
  }
}
