/**
 * The tabular learners of agents.py: a value table `q` and a visit table keyed
 * by (state, action), epsilon-greedy selection, and the Q-learning and Monte
 * Carlo update rules. The random draws the source makes are inputs: `u` is the
 * value of `random.random()`, `choiceDraw` drives `random.choice` and
 * `shuffleDraws` drives `random.shuffle`.
 */
module Agents {
  import opened Basics
  import opened StateSpace
  import Chance
  import StateCount

  type Key = (State, Action)

  /** The actions of an `actions_dict` (label, value) listing whose value is not 0, in order. */
  function Feasible(options: seq<(Action, int)>): (r: seq<Action>)
    ensures |r| <= |options|
    ensures forall a :: a in r <==> exists i :: 0 <= i < |options| && options[i] == (a, options[i].1) && options[i].1 != 0
  {
    if options == [] then []
    else
      var rest := Feasible(options[1..]);
      assert forall i :: 1 <= i < |options| ==> options[i] == options[1..][i - 1];
      assert forall i :: 0 <= i < |options| - 1 ==> options[1..][i] == options[i + 1];
      (if options[0].1 != 0 then [options[0].0] else []) + rest
  }

  /** `x` moved a fraction `step` of the way toward `target`. */
  function Toward(x: real, target: real, step: real): real {
    x + step * (target - x)
  }

  /** A step in [0, 1] lands between the old value and the target. */
  lemma TowardBetween(x: real, target: real, step: real)
    requires 0.0 <= step <= 1.0
    ensures x <= target ==> x <= Toward(x, target, step) <= target
    ensures target < x ==> target <= Toward(x, target, step) <= x
    ensures step == 0.0 ==> Toward(x, target, step) == x
    ensures step == 1.0 ==> Toward(x, target, step) == target
  {
    var d := target - x;
    var m := step * d;
    assert Toward(x, target, step) == x + m;
    if x <= target {
      MulBetween(step, d);
    } else {
      MulBetween(step, -d);
      assert step * (-d) == -m;
    }
  }

  lemma MulBetween(step: real, d: real)
    requires 0.0 <= step <= 1.0 && d >= 0.0
    ensures 0.0 <= step * d <= d
  {
    assert d - step * d == (1.0 - step) * d;
  }

  /**
   * The new value of the previous pair after a Q-learning step: toward
   * `reward + thisQ` (that is, the chosen action's value) when the reward is 0,
   * toward the reward alone otherwise.
   */
  function QTarget(prevQ: real, thisQ: real, reward: real, step: real): real {
    if reward == 0.0 then Toward(prevQ, reward + thisQ, step) else Toward(prevQ, reward, step)
  }

  /** Values and rewards in [0, 1] keep the updated value in [0, 1]. */
  lemma QTargetBounded(prevQ: real, thisQ: real, reward: real, step: real)
    requires 0.0 <= step <= 1.0
    requires 0.0 <= prevQ <= 1.0 && 0.0 <= thisQ <= 1.0
    requires reward == 0.0 || reward == 1.0
    ensures 0.0 <= QTarget(prevQ, thisQ, reward, step) <= 1.0
  {
    if reward == 0.0 {
      TowardBetween(prevQ, thisQ, step);
    } else {
      TowardBetween(prevQ, reward, step);
    }
  }

  /** A terminal update from 0.2 with step 0.1 and reward 1 gives 0.28. */
  lemma QTargetTerminalExample()
    ensures QTarget(0.2, 0.5, 1.0, 0.1) == 0.28
  {
  }

  /** With reward 0 the update bootstraps from the chosen action's value. */
  lemma QTargetBootstraps(prevQ: real, thisQ: real, step: real)
    ensures QTarget(prevQ, thisQ, 0.0, step) - prevQ == step * (thisQ - prevQ)
  {
  }

  /** The visit table after one more visit to `k`. */
  function Visited(visit: map<Key, int>, k: Key): map<Key, int>
    requires k in visit
  {
    visit[k := visit[k] + 1]
  }

  /** A table with one entry `v` per (state, action) pair of `ss` and `as_`. */
  function Table<V>(ss: seq<State>, as_: seq<Action>, v: V): (m: map<Key, V>)
    ensures forall k :: k in m <==> k.0 in ss && k.1 in as_
    ensures forall k :: k in m ==> m[k] == v
  {
    map s, a | s in ss && a in as_ :: (s, a) := v
  }

  /** `sar.states()` as the agent sees it: each legal state exactly once, 270000 in all. */
  method StateList() returns (r: seq<State>)
    ensures forall s :: multiset(r)[s] == if IsState(s) then 1 else 0
    ensures |r| == 270000
  {
    r := BuildStates();
    forall s ensures multiset(r)[s] == if IsState(s) then 1 else 0 {
      StatesOccurrences(s);
    }
    StateCount.StatesCount();
  }

  /** The reward table and the zero value and visit tables over `ss` and `as_`. */
  method InitialTables(ss: seq<State>, as_: seq<Action>) returns (R: map<Key, real>, q: map<Key, real>, visit: map<Key, int>)
    ensures forall k :: k in q <==> k.0 in ss && k.1 in as_
    ensures visit.Keys == q.Keys && R.Keys == q.Keys
    ensures forall k :: k in q ==> q[k] == 0.0 && visit[k] == 0
    ensures forall k :: k in R ==> R[k] == RewardOf(k.0)
  {
    R := BuildRewards(ss, as_);
    q := Table(ss, as_, 0.0);
    visit := Table(ss, as_, 0);
  }

  /** The fields every agent has: parameters, the state space, and the two tables. */
  class Tables {
    const epsilon: real
    const stepSize: real
    const states: seq<State>
    const actions: seq<Action>
    const R: map<Key, real>
    var q: map<Key, real>
    var visit: map<Key, int>

    /** Every table has exactly one entry per (state, action) pair. */
    ghost predicate Valid()
      reads this
    {
      && (forall k :: k in q <==> k.0 in states && k.1 in actions)
      && visit.Keys == q.Keys
      && R.Keys == q.Keys
    }

    /** Every value and every reward lies in [0, 1]. */
    ghost predicate Bounded()
      reads this
    {
      && (forall k :: k in q ==> 0.0 <= q[k] <= 1.0)
      && (forall k :: k in R ==> R[k] == 0.0 || R[k] == 1.0)
    }

    /** `Agent.__init__`: the state space, the reward table, and zero `q` and `visit` tables. */
    constructor(epsilon: real, stepSize: real)
      ensures this.epsilon == epsilon && this.stepSize == stepSize
      ensures forall s :: multiset(states)[s] == if IsState(s) then 1 else 0
      ensures |states| == 270000 && actions == Actions()
      ensures Valid() && Bounded()
      ensures forall k :: k in q ==> q[k] == 0.0 && visit[k] == 0
      ensures forall k :: k in R ==> R[k] == RewardOf(k.0)
    {
      this.epsilon := epsilon;
      this.stepSize := stepSize;
      var ss := StateList();
      states := ss;
      actions := Actions();
      var r0, q0, v0 := InitialTables(ss, Actions());
      R, q, visit := r0, q0, v0;
    }

    /**
     * The greedy scan: walk `order`, keeping the last action whose value is at
     * least the best so far. `found` is false only for an empty order, where the
     * source leaves `action` unbound.
     */
    method GreedyScan(state: State, order: seq<Action>) returns (found: bool, action: Action)
      requires forall a :: a in order ==> (state, a) in q
      ensures found <==> order != []
      ensures found ==> exists k :: 0 <= k < |order| && order[k] == action && IsLastMax(state, order, k)
    {
      found := false;
      action := Red;
      var best := 0.0;
      var at := 0;
      for i := 0 to |order|
        invariant found <==> i > 0
        invariant found ==> 0 <= at < i && order[at] == action && best == q[(state, action)]
        invariant found ==> forall j :: 0 <= j < i ==> q[(state, order[j])] <= best
        invariant found ==> forall j :: at < j < i ==> q[(state, order[j])] < best
      {
        var val := q[(state, order[i])];
        if !found || val >= best {
          found, best, action, at := true, val, order[i], i;
        }
      }
    }

    /** `order[k]` has the largest value of `order` and every later entry is strictly smaller. */
    ghost predicate IsLastMax(state: State, order: seq<Action>, k: int)
      reads this
      requires forall a :: a in order ==> (state, a) in q
      requires 0 <= k < |order|
    {
      && (forall j :: 0 <= j < |order| ==> q[(state, order[j])] <= q[(state, order[k])])
      && (forall j :: k < j < |order| ==> q[(state, order[j])] < q[(state, order[k])])
    }

    /**
     * The epsilon-greedy choice of `step`: a random feasible action when
     * `u < epsilon`, otherwise the last maximal feasible action in the shuffled
     * order `order`. `None` stands for the error the source raises when no
     * action is feasible.
     */
    method Choose(state: State, options: seq<(Action, int)>, u: real, choiceDraw: nat, shuffleDraws: seq<nat>)
      returns (r: Option<Action>, order: seq<Action>)
      requires u >= epsilon ==> forall a :: a in Feasible(options) ==> (state, a) in q
      ensures r.None? <==> Feasible(options) == []
      ensures r.Some? ==> r.value in Feasible(options)
      ensures u < epsilon && r.Some? ==> r.value == Chance.Choice(Feasible(options), choiceDraw)
      ensures u >= epsilon ==> multiset(order) == multiset(Feasible(options))
      ensures u >= epsilon ==> forall a :: a in order ==> a in Feasible(options)
      ensures u >= epsilon && r.Some? ==> forall a :: a in Feasible(options) ==> q[(state, a)] <= q[(state, r.value)]
      ensures u >= epsilon && r.Some? ==> exists k :: 0 <= k < |order| && order[k] == r.value && IsLastMax(state, order, k)
    {
      var possible := Feasible(options);
      if possible == [] {
        return None, [];
      }
      if u < epsilon {
        r, order := Some(Chance.Choice(possible, choiceDraw)), possible;
      } else {
        order := Chance.Shuffle(possible, shuffleDraws);
        assert forall a :: a in order ==> a in multiset(possible);
        var found, action := GreedyScan(state, order);
        r := Some(action);
        assert action in multiset(order);
        ghost var k :| 0 <= k < |order| && order[k] == action && IsLastMax(state, order, k);
        forall a | a in possible ensures q[(state, a)] <= q[(state, action)] {
          assert a in multiset(order);
          var j :| 0 <= j < |order| && order[j] == a;
        }
      }
    }
  }

  /** `QLearningAgent`: the tables plus the previous (state, action), `None` before the first update. */
  class QLearningAgent {
    const t: Tables
    var prev: Option<Key>

    constructor(epsilon: real, stepSize: real)
      ensures fresh(t) && prev.None?
      ensures t.epsilon == epsilon && t.stepSize == stepSize
      ensures forall s :: multiset(t.states)[s] == if IsState(s) then 1 else 0
      ensures t.actions == Actions()
      ensures t.Valid() && t.Bounded()
      ensures forall k :: k in t.q ==> t.q[k] == 0.0 && t.visit[k] == 0
    {
      t := new Tables(epsilon, stepSize);
      prev := None;
    }

    /** `step`: the epsilon-greedy choice; nothing changes. */
    method Step(state: State, options: seq<(Action, int)>, u: real, choiceDraw: nat, shuffleDraws: seq<nat>)
      returns (r: Option<Action>, order: seq<Action>)
      requires u >= t.epsilon ==> forall a :: a in Feasible(options) ==> (state, a) in t.q
      ensures r.None? <==> Feasible(options) == []
      ensures r.Some? ==> r.value in Feasible(options)
      ensures u < t.epsilon && r.Some? ==> r.value == Chance.Choice(Feasible(options), choiceDraw)
      ensures u >= t.epsilon ==> multiset(order) == multiset(Feasible(options))
      ensures u >= t.epsilon ==> forall a :: a in order ==> a in Feasible(options)
      ensures u >= t.epsilon && r.Some? ==> forall a :: a in Feasible(options) ==> t.q[(state, a)] <= t.q[(state, r.value)]
      ensures u >= t.epsilon && r.Some? ==> exists k :: 0 <= k < |order| && order[k] == r.value && t.IsLastMax(state, order, k)
    {
      r, order := t.Choose(state, options, u, choiceDraw, shuffleDraws);
    }

    /**
     * `update`: unless this is the first call, move the previous pair's value
     * by `QTarget` and count a visit to it; then always remember the current pair.
     */
    method Update(state: State, action: Action)
      requires t.Valid()
      requires prev.Some? ==> prev.value in t.q && (state, action) in t.q
      modifies this, t
      ensures prev == Some((state, action))
      ensures t.q.Keys == old(t.q.Keys)
      ensures old(prev).None? ==> t.q == old(t.q) && t.visit == old(t.visit)
      ensures old(prev).Some? ==>
        var k := old(prev).value;
        && t.q == old(t.q)[k := QTarget(old(t.q)[k], old(t.q)[(state, action)], t.R[(state, action)], t.stepSize)]
        && t.visit == Visited(old(t.visit), k)
      ensures t.Valid()
      ensures old(t.Bounded()) && 0.0 <= t.stepSize <= 1.0 ==> t.Bounded()
    {
      if prev.Some? {
        var k := prev.value;
        var prevQ := t.q[k];
        var thisQ := t.q[(state, action)];
        var reward := t.R[(state, action)];
        if t.Bounded() && 0.0 <= t.stepSize <= 1.0 {
          QTargetBounded(prevQ, thisQ, reward, t.stepSize);
        }
        t.q := t.q[k := QTarget(prevQ, thisQ, reward, t.stepSize)];
        t.visit := Visited(t.visit, k);
      }
      prev := Some((state, action));
    }
  }

  /** The (state, action) pairs of two parallel lists. */
  function Zip(ss: seq<State>, as_: seq<Action>): (r: seq<Key>)
    requires |ss| == |as_|
    ensures |r| == |ss|
    ensures forall i :: 0 <= i < |r| ==> r[i] == (ss[i], as_[i])
  {
    seq(|ss|, i requires 0 <= i < |ss| => (ss[i], as_[i]))
  }

  /** `MonteCarloAgent`: the tables plus the episode buffers. */
  class MonteCarloAgent {
    const t: Tables
    var stateSeen: seq<State>
    var actionSeen: seq<Action>
    var qSeen: seq<Key>

    /** The first-visit buffers hold each pair of `qSeen` once, and every pair has table entries. */
    ghost predicate Valid()
      reads this, t
    {
      && t.Valid()
      && |stateSeen| == |actionSeen|
      && Distinct(Zip(stateSeen, actionSeen))
      && (forall k :: k in qSeen <==> k in Zip(stateSeen, actionSeen))
      && (forall k :: k in qSeen ==> k in t.q)
    }

    constructor(epsilon: real, stepSize: real)
      ensures fresh(t)
      ensures stateSeen == [] && actionSeen == [] && qSeen == []
      ensures t.epsilon == epsilon && t.stepSize == stepSize
      ensures forall s :: multiset(t.states)[s] == if IsState(s) then 1 else 0
      ensures t.actions == Actions()
      ensures Valid() && t.Bounded()
      ensures forall k :: k in t.q ==> t.q[k] == 0.0 && t.visit[k] == 0
    {
      t := new Tables(epsilon, stepSize);
      stateSeen, actionSeen, qSeen := [], [], [];
    }

    /**
     * `step`: the epsilon-greedy choice, then record the pair (in the first-visit
     * buffers only when it is new) and count a visit to it. `q` never changes.
     */
    method Step(state: State, options: seq<(Action, int)>, u: real, choiceDraw: nat, shuffleDraws: seq<nat>)
      returns (r: Option<Action>, order: seq<Action>)
      requires Valid()
      requires forall a :: a in Feasible(options) ==> (state, a) in t.q
      modifies this, t
      ensures Valid()
      ensures r.None? <==> Feasible(options) == []
      ensures r.Some? ==> r.value in Feasible(options)
      ensures u < t.epsilon && r.Some? ==> r.value == Chance.Choice(Feasible(options), choiceDraw)
      ensures u >= t.epsilon ==> multiset(order) == multiset(Feasible(options))
      ensures u >= t.epsilon ==> forall a :: a in order ==> a in Feasible(options)
      ensures u >= t.epsilon && r.Some? ==> forall a :: a in Feasible(options) ==> t.q[(state, a)] <= t.q[(state, r.value)]
      ensures u >= t.epsilon && r.Some? ==> exists k :: 0 <= k < |order| && order[k] == r.value && t.IsLastMax(state, order, k)
      ensures t.q == old(t.q)
      ensures r.None? ==>
        && t.visit == old(t.visit) && qSeen == old(qSeen)
        && stateSeen == old(stateSeen) && actionSeen == old(actionSeen)
      ensures r.Some? ==>
        var k := (state, r.value);
        && t.visit == Visited(old(t.visit), k)
        && qSeen == old(qSeen) + [k]
        && Zip(stateSeen, actionSeen)
           == old(Zip(stateSeen, actionSeen)) + (if k in old(qSeen) then [] else [k])
    {
      r, order := t.Choose(state, options, u, choiceDraw, shuffleDraws);
      if r.Some? {
        Record(state, r.value);
      }
    }

    /** The bookkeeping of `step` for the chosen pair (state, action). */
    method Record(state: State, action: Action)
      requires Valid() && (state, action) in t.q
      modifies this, t
      ensures Valid()
      ensures t.q == old(t.q)
      ensures
        var k := (state, action);
        && t.visit == Visited(old(t.visit), k)
        && qSeen == old(qSeen) + [k]
        && Zip(stateSeen, actionSeen)
           == old(Zip(stateSeen, actionSeen)) + (if k in old(qSeen) then [] else [k])
    {
      var k := (state, action);
      ghost var before := Zip(stateSeen, actionSeen);
      if k !in qSeen {
        stateSeen := stateSeen + [state];
        actionSeen := actionSeen + [action];
        assert Zip(stateSeen, actionSeen) == before + [k];
        DistinctSnoc(before, k);
      }
      qSeen := qSeen + [k];
      t.visit := Visited(t.visit, k);
    }

    /**
     * `update`: read the reward of the final pair once, move every distinct
     * seen pair toward it, and clear the buffers.
     */
    method Update(state: State, action: Action)
      requires Valid()
      requires (state, action) in t.R
      modifies this, t
      ensures Valid()
      ensures stateSeen == [] && actionSeen == [] && qSeen == []
      ensures t.visit == old(t.visit)
      ensures t.q.Keys == old(t.q.Keys)
      ensures forall k :: k in t.q ==>
        t.q[k] == if k in old(qSeen) then Toward(old(t.q[k]), t.R[(state, action)], t.stepSize) else old(t.q[k])
      ensures old(t.Bounded()) && 0.0 <= t.stepSize <= 1.0 ==> t.Bounded()
    {
      var reward := t.R[(state, action)];
      var pairs := Zip(stateSeen, actionSeen);
      ghost var q0 := t.q;
      for i := 0 to |pairs|
        invariant unchanged(this)
        invariant t.Valid() && t.q.Keys == q0.Keys && t.visit == old(t.visit)
        invariant forall k :: k in t.q ==>
          t.q[k] == if k in pairs[..i] then Toward(q0[k], reward, t.stepSize) else q0[k]
      {
        var k := pairs[i];
        DistinctNotInPrefix(pairs, i);
        assert k in qSeen;
        t.q := t.q[k := Toward(t.q[k], reward, t.stepSize)];
        assert pairs[..i + 1] == pairs[..i] + [k];
      }
      assert pairs[..|pairs|] == pairs;
      if old(t.Bounded()) && 0.0 <= t.stepSize <= 1.0 {
        forall k | k in t.q ensures 0.0 <= t.q[k] <= 1.0 {
          if k in pairs {
            TowardBetween(q0[k], reward, t.stepSize);
          }
        }
      }
      stateSeen, actionSeen, qSeen := [], [], [];
    }
  }

  lemma DistinctSnoc<T>(s: seq<T>, x: T)
    requires Distinct(s) && x !in s
    ensures Distinct(s + [x])
  {
    var t := s + [x];
    forall i, j | 0 <= i < j < |t| ensures t[i] != t[j] {
      if j == |s| {
        assert t[i] == s[i];
      } else {
        assert t[i] == s[i] && t[j] == s[j];
      }
    }
  }
}
