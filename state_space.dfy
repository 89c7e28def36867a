/**
 * The learner's discrete state space, action list and reward table
 * (state_action_reward.py). A state is the 17-tuple of the source: the colour
 * of the open card followed by sixteen counts, in the order of the source's
 * dictionaries: held RED, GRE, BLU, YEL (0..2), held SKI, REV, PL2, PL4, COL
 * (0..1), then playable RED#, GRE#, BLU#, YEL#, SKI#, REV#, PL2# (0..1).
 */
module StateSpace {
  import opened Basics
  import Cards

  /** A 17-tuple: `open` is tuple position 0 and `n[k]` is tuple position k + 1. */
  datatype State = State(open: Cards.Color, n: seq<int>)

  /** The nine action labels: four colours, three special types, two wild types. */
  datatype Action = Red | Gre | Blu | Yel | Ski | Rev | Pl2 | Pl4 | Col

  /** The colours of tuple position 0. */
  const StateColors: seq<Cards.Color> := [Cards.Red, Cards.Gre, Cards.Blu, Cards.Yel]

  /** The maximal count of each of the sixteen count positions. */
  function Ceilings(): (r: seq<nat>)
    ensures |r| == 16
  {
    seq(16, k => if k < 4 then 2 else 1)
  }

  // ---------------------------------------------------------------------------
  // The Cartesian product, in the order of itertools.product
  // ---------------------------------------------------------------------------

  /** `[[v] + t for t in ts]`. */
  function Prefixed(v: int, ts: seq<seq<int>>): (r: seq<seq<int>>)
    ensures |r| == |ts|
  {
    if ts == [] then [] else [[v] + ts[0]] + Prefixed(v, ts[1..])
  }

  /** Every tuple of `ts` prefixed with `lo`, then with `lo + 1`, ..., then with `hi`. */
  function Blocks(lo: int, hi: int, ts: seq<seq<int>>): seq<seq<int>>
    decreases hi - lo
  {
    if lo > hi then [] else Prefixed(lo, ts) + Blocks(lo + 1, hi, ts)
  }

  /** `itertools.product(range(0, cs[0] + 1), range(0, cs[1] + 1), ...)`. */
  function Product(cs: seq<nat>): seq<seq<int>> {
    if cs == [] then [[]] else Blocks(0, cs[0], Product(cs[1..]))
  }

  /** `[State(c, t) for t in ts]`. */
  function Tag(c: Cards.Color, ts: seq<seq<int>>): (r: seq<State>)
    ensures |r| == |ts|
  {
    if ts == [] then [] else [State(c, ts[0])] + Tag(c, ts[1..])
  }

  /** The product with a leading colour factor: colour varies slowest. */
  function Tagged(cs: seq<Cards.Color>, ts: seq<seq<int>>): seq<State> {
    if cs == [] then [] else Tag(cs[0], ts) + Tagged(cs[1..], ts)
  }

  /** All 17-tuples of the product, before filtering. */
  function AllTuples(): seq<State> {
    Tagged(StateColors, Product(Ceilings()))
  }

  /** The filter of the source: for each of the four colours and SKI, REV, PL2, held >= playable. */
  predicate Covers(t: seq<int>) {
    |t| == 16 && forall k :: 0 <= k < 7 ==> t[k] >= t[k + 9]
  }

  predicate HeldCoversPlayable(s: State) {
    Covers(s.n)
  }

  /** The states of `ss` that pass the filter, in order. */
  function Keep(ss: seq<State>): seq<State> {
    if ss == [] then [] else (if HeldCoversPlayable(ss[0]) then [ss[0]] else []) + Keep(ss[1..])
  }

  /** The list `states()` returns. */
  function States(): seq<State> {
    Keep(AllTuples())
  }

  /** Each count lies in its range and the colour is one of the four. */
  predicate InRanges(s: State) {
    && s.open in StateColors
    && |s.n| == 16
    && forall k :: 0 <= k < 16 ==> 0 <= s.n[k] <= Ceilings()[k]
  }

  /** A legal state: in range and every held count covers its playable count. */
  predicate IsState(s: State) {
    InRanges(s) && HeldCoversPlayable(s)
  }

  /** `states()`: the product of the ranges, filtered by the seven inequalities. */
  method BuildStates() returns (r: seq<State>)
    ensures r == States()
  {
    r := KeepLoop(AllTuples());
  }

  /** The filtering loop of `states()`: append each tuple that passes the filter. */
  method KeepLoop(all: seq<State>) returns (r: seq<State>)
    ensures r == Keep(all)
  {
    r := [];
    for i := 0 to |all|
      invariant r == Keep(all[..i])
    {
      KeepConcat(all[..i], [all[i]]);
      assert all[..i + 1] == all[..i] + [all[i]];
      if HeldCoversPlayable(all[i]) {
        r := r + [all[i]];
      }
    }
    assert all[..|all|] == all;
  }

  lemma {:induction false} KeepConcat(a: seq<State>, b: seq<State>)
    ensures Keep(a + b) == Keep(a) + Keep(b)
  {
    if a != [] {
      assert (a + b)[0] == a[0];
      assert (a + b)[1..] == a[1..] + b;
      KeepConcat(a[1..], b);
      var head := if HeldCoversPlayable(a[0]) then [a[0]] else [];
      calc {
        Keep(a + b);
        head + Keep(a[1..] + b);
        head + (Keep(a[1..]) + Keep(b));
        (head + Keep(a[1..])) + Keep(b);
      }
    } else {
      assert a + b == b;
    }
  }

  // ---------------------------------------------------------------------------
  // Every legal state occurs exactly once, and nothing else occurs
  // ---------------------------------------------------------------------------

  /** `t` lies in the box of the ranges `0..cs[i]`. */
  predicate InBox(t: seq<int>, cs: seq<nat>) {
    |t| == |cs| && forall i :: 0 <= i < |cs| ==> 0 <= t[i] <= cs[i]
  }

  lemma {:induction false} PrefixedCount(v: int, ts: seq<seq<int>>, t: seq<int>)
    ensures multiset(Prefixed(v, ts))[t] == if |t| > 0 && t[0] == v then multiset(ts)[t[1..]] else 0
  {
    if ts != [] {
      assert ts == [ts[0]] + ts[1..];
      PrefixedCount(v, ts[1..], t);
      if |t| > 0 && t[0] == v {
        assert t == [v] + t[1..];
        assert (t == [v] + ts[0]) <==> (t[1..] == ts[0]);
      } else {
        assert t != [v] + ts[0];
      }
    }
  }

  lemma {:induction false} BlocksCount(lo: int, hi: int, ts: seq<seq<int>>, t: seq<int>)
    ensures multiset(Blocks(lo, hi, ts))[t]
         == if |t| > 0 && lo <= t[0] <= hi then multiset(ts)[t[1..]] else 0
    decreases hi - lo
  {
    if lo <= hi {
      PrefixedCount(lo, ts, t);
      BlocksCount(lo + 1, hi, ts, t);
    }
  }

  /** A non-empty tuple is in the box when its head is in the first range and its tail in the rest. */
  lemma InBoxCons(t: seq<int>, cs: seq<nat>)
    requires |t| > 0 && cs != []
    ensures InBox(t, cs) <==> 0 <= t[0] <= cs[0] && InBox(t[1..], cs[1..])
  {
    if 0 <= t[0] <= cs[0] && InBox(t[1..], cs[1..]) {
      forall i | 0 <= i < |cs| ensures 0 <= t[i] <= cs[i] {
        if i > 0 {
          assert t[i] == t[1..][i - 1] && cs[i] == cs[1..][i - 1];
        }
      }
    }
  }

  /** Each tuple of the box occurs exactly once in the product, and nothing else occurs. */
  lemma {:induction false} ProductCount(cs: seq<nat>, t: seq<int>)
    ensures multiset(Product(cs))[t] == if InBox(t, cs) then 1 else 0
  {
    if cs == [] {
      assert InBox(t, cs) <==> t == [];
    } else {
      BlocksCount(0, cs[0], Product(cs[1..]), t);
      if |t| > 0 {
        ProductCount(cs[1..], t[1..]);
        InBoxCons(t, cs);
      }
    }
  }

  lemma {:induction false} TagCount(c: Cards.Color, ts: seq<seq<int>>, s: State)
    ensures multiset(Tag(c, ts))[s] == if s.open == c then multiset(ts)[s.n] else 0
  {
    if ts != [] {
      assert ts == [ts[0]] + ts[1..];
      TagCount(c, ts[1..], s);
    }
  }

  lemma {:induction false} TaggedCount(cs: seq<Cards.Color>, ts: seq<seq<int>>, s: State)
    requires Distinct(cs)
    ensures multiset(Tagged(cs, ts))[s] == if s.open in cs then multiset(ts)[s.n] else 0
  {
    if cs != [] {
      DistinctTail(cs);
      TagCount(cs[0], ts, s);
      TaggedCount(cs[1..], ts, s);
      assert cs == [cs[0]] + cs[1..];
    }
  }

  lemma {:induction false} KeepCount(ss: seq<State>, s: State)
    ensures multiset(Keep(ss))[s] == if HeldCoversPlayable(s) then multiset(ss)[s] else 0
  {
    if ss != [] {
      assert ss == [ss[0]] + ss[1..];
      KeepCount(ss[1..], s);
    }
  }

  /** Occurrences in the filtered, colour-tagged product of any ranges. */
  lemma FilteredProductCount(cols: seq<Cards.Color>, cs: seq<nat>, s: State)
    requires Distinct(cols)
    ensures multiset(Keep(Tagged(cols, Product(cs))))[s]
         == if s.open in cols && InBox(s.n, cs) && HeldCoversPlayable(s) then 1 else 0
  {
    KeepCount(Tagged(cols, Product(cs)), s);
    TaggedCount(cols, Product(cs), s);
    ProductCount(cs, s.n);
  }

  /**
   * Soundness, completeness and uniqueness of `states()`: a 17-tuple occurs in
   * the list exactly once when it is a legal state, and not at all otherwise.
   */
  lemma StatesOccurrences(s: State)
    ensures multiset(States())[s] == if IsState(s) then 1 else 0
  {
    FilteredProductCount(StateColors, Ceilings(), s);
    RangesAsBox(s);
  }

  /** Being in range is lying in the box of the ceilings, with one of the four colours. */
  lemma RangesAsBox(s: State)
    ensures IsState(s) <==> s.open in StateColors && InBox(s.n, Ceilings()) && HeldCoversPlayable(s)
  {
  }

  /** Every state of the list is a 17-tuple with its counts in range and held >= playable. */
  lemma StatesAreLegal(s: State)
    ensures s in States() <==> IsState(s)
  {
    StatesOccurrences(s);
  }

  // ---------------------------------------------------------------------------
  // Actions
  // ---------------------------------------------------------------------------

  /** `actions()`: the nine labels, in the source's order. */
  function Actions(): seq<Action> {
    [Red, Gre, Blu, Yel, Ski, Rev, Pl2, Pl4, Col]
  }

  /** The action list names every action exactly once. */
  lemma ActionsComplete(a: Action)
    ensures |Actions()| == 9 && Distinct(Actions())
    ensures a in Actions()
  {
  }

  // ---------------------------------------------------------------------------
  // Rewards
  // ---------------------------------------------------------------------------

  function Sum(xs: seq<int>): int {
    if xs == [] then 0 else xs[0] + Sum(xs[1..])
  }

  function Min(a: int, b: int): int {
    if a <= b then a else b
  }

  /** `sum(state[1:10])`: the held counts of the nine card types (Python slicing truncates). */
  function HeldSum(s: State): int {
    Sum(if |s.n| <= 9 then s.n else s.n[..9])
  }

  /** The reward of every action in `s`: 1 when `min(sum(state[1:10]), 1) == 0`, else 0. */
  function RewardOf(s: State): (r: real)
    ensures r == 0.0 || r == 1.0
  {
    if Min(HeldSum(s), 1) == 0 then 1.0 else 0.0
  }

  /** The player holds no card of any type. */
  predicate HoldsNothing(s: State) {
    forall k :: 0 <= k < 9 && k < |s.n| ==> s.n[k] == 0
  }

  lemma {:induction false} SumZero(xs: seq<int>)
    requires forall i :: 0 <= i < |xs| ==> xs[i] >= 0
    ensures Sum(xs) >= 0
    ensures Sum(xs) == 0 <==> forall i :: 0 <= i < |xs| ==> xs[i] == 0
  {
    if xs != [] {
      SumZero(xs[1..]);
      assert forall i :: 1 <= i < |xs| ==> xs[i] == xs[1..][i - 1];
    }
  }

  /**
   * For a legal state the reward is 1 exactly when the player holds nothing:
   * holding a single card already gives 0.
   */
  lemma RewardMeaning(s: State)
    requires IsState(s)
    ensures RewardOf(s) == 1.0 <==> HoldsNothing(s)
    ensures RewardOf(s) == 0.0 <==> !HoldsNothing(s)
  {
    var held := s.n[..9];
    SumZero(held);
    assert HoldsNothing(s) <==> forall i :: 0 <= i < 9 ==> held[i] == 0;
  }

  /** `rewards(states, actions)`: one entry per (state, action) pair, whole rows set together. */
  method BuildRewards(states: seq<State>, actions: seq<Action>) returns (R: map<(State, Action), real>)
    ensures forall k: (State, Action) :: k in R <==> k.0 in states && k.1 in actions
    ensures forall k: (State, Action) :: k in R ==> R[k] == RewardOf(k.0)
  {
    R := map s, a | s in states && a in actions :: (s, a) := 0.0;
    var terminal := seq(|states|, i requires 0 <= i < |states| => Min(HeldSum(states[i]), 1));
    for i := 0 to |states|
      invariant forall k: (State, Action) :: k in R <==> k.0 in states && k.1 in actions
      invariant forall k: (State, Action) :: k in R ==>
        R[k] == if k.0 in states[..i] then RewardOf(k.0) else 0.0
    {
      ghost var before := R;
      if terminal[i] == 0 {
        R := R + map a | a in actions :: (states[i], a) := 1.0;
      }
      assert states[..i + 1] == states[..i] + [states[i]];
      forall k: (State, Action) | k in R
        ensures R[k] == if k.0 in states[..i + 1] then RewardOf(k.0) else 0.0
      {
        if k.0 != states[i] {
          assert R[k] == before[k];
        }
      }
    }
    assert states[..|states|] == states;
  }

  /** The reward table gives the same value to every action of a state. */
  lemma RewardIgnoresAction(R: map<(State, Action), real>, states: seq<State>, actions: seq<Action>,
                            s: State, a: Action, b: Action)
    requires forall k: (State, Action) :: k in R <==> k.0 in states && k.1 in actions
    requires forall k: (State, Action) :: k in R ==> R[k] == RewardOf(k.0)
    requires s in states && a in actions && b in actions
    ensures R[(s, a)] == R[(s, b)]
  {
  }
}
