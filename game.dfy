/**
 * The game loop and the tournament of game.py. A game alternates the active
 * player by the parity of `turn_no` relative to the starting player, grants
 * an extra turn after a "REV" or "SKIP" card or a positive even penalty
 * chain, stops at the first empty hand, and then updates the learner once.
 * A tournament plays a series of games against one learner, alternating the
 * starting player.
 *
 * The decisions taken inside `play_agent`/`play_rand` are the `picks` of a
 * game's script, one per turn; the length of that script bounds the loop,
 * which otherwise runs until somebody wins. The state and action that
 * player_1 reports at the end (`identify_state`) are inputs too.
 */
module Games {
  import opened Basics
  import opened Cards
  import opened StateSpace
  import opened Agents
  import opened Players
  import opened Utils
  import opened Turns

  /** Whether player_1 is the active player of turn number `turnNo`. */
  predicate P1Active(p1Starts: bool, turnNo: int) {
    if p1Starts then turnNo % 2 == 1 else turnNo % 2 == 0
  }

  /** Consecutive turn numbers have different active players. */
  lemma ActiveAlternates(p1Starts: bool, n: int)
    ensures P1Active(p1Starts, n + 1) <==> !P1Active(p1Starts, n)
  {
  }

  /** The test after a turn that gives the active player another turn. */
  predicate KeepsTurn(played: Card, count: int) {
    played.value == Label("REV") || played.value == Label("SKIP") || (count > 0 && count % 2 == 0)
  }

  /**
   * The loop compares against "SKIP", but the deck labels its skip cards
   * "SKI": for any card of the deck, or the placeholder, only a reverse card
   * or a positive even chain keeps the turn.
   */
  lemma OnlyReverseKeepsTurn(played: Card, count: int)
    requires Copies(played) > 0 || played == Placeholder
    ensures KeepsTurn(played, count) <==> played.value == Label("REV") || (count > 0 && count % 2 == 0)
  {
    if Copies(played) > 0 {
      NoSkipValue(played);
    }
  }

  /**
   * One completed turn of a game: its `turn_no`, whether player_1 was the
   * active player, the active player's `card_play` and the chain length
   * `count` after the turn, and the two hand sizes after it.
   */
  datatype TurnRecord = TurnRecord(no: int, p1Acted: bool, played: Card, count: int, left1: nat, left2: nat)

  /** The turn numbers and active players of a history follow the rules of the loop. */
  ghost predicate Numbered(h: seq<TurnRecord>, p1Starts: bool) {
    && (|h| > 0 ==> h[0].no == 1)
    && (forall k :: 0 <= k < |h| ==> h[k].p1Acted == P1Active(p1Starts, h[k].no))
    && (forall k :: 0 <= k < |h| - 1 ==> h[k + 1].no == h[k].no + (if KeepsTurn(h[k].played, h[k].count) then 0 else 1))
  }

  /** Every turn recorded played a card of the deck or nothing, and a chain only follows a PL2 or PL4. */
  ghost predicate Sound(h: seq<TurnRecord>) {
    forall k :: 0 <= k < |h| ==>
      && (Copies(h[k].played) > 0 || h[k].played == Placeholder)
      && h[k].count >= 0
      && (h[k].count > 0 ==> IsDrawValue(h[k].played.value))
  }

  /** Both hands were non-empty after every turn of `h`. */
  ghost predicate Unfinished(h: seq<TurnRecord>) {
    forall k :: 0 <= k < |h| ==> h[k].left1 > 0 && h[k].left2 > 0
  }

  /** The `turn_no` the next turn of a game with history `h` takes. */
  ghost function NextNo(h: seq<TurnRecord>): int {
    if h == [] then 1
    else
      var last := h[|h| - 1];
      last.no + (if KeepsTurn(last.played, last.count) then 0 else 1)
  }

  /** Recording a turn numbered by the rules keeps the history numbered and sound. */
  lemma RecordSnoc(h: seq<TurnRecord>, p1Starts: bool, r: TurnRecord)
    requires Numbered(h, p1Starts) && Sound(h)
    requires r.no == NextNo(h) && r.p1Acted == P1Active(p1Starts, r.no)
    requires Copies(r.played) > 0 || r.played == Placeholder
    requires r.count >= 0 && (r.count > 0 ==> IsDrawValue(r.played.value))
    ensures Numbered(h + [r], p1Starts) && Sound(h + [r])
  {
  }

  /** Recording a turn after which both hands are non-empty keeps the history unfinished. */
  lemma UnfinishedSnoc(h: seq<TurnRecord>, r: TurnRecord)
    requires Unfinished(h) && r.left1 > 0 && r.left2 > 0
    ensures Unfinished(h + [r])
  {
  }

  /**
   * A chain only follows a PL2 or PL4, so the two tests after a turn never
   * both hold: the turn number is pulled back by one exactly when the turn is kept.
   */
  lemma SingleDecrement(played: Card, count: int)
    requires count > 0 ==> IsDrawValue(played.value)
    ensures !((played.value == Label("REV") || played.value == Label("SKIP")) && count > 0 && count % 2 == 0)
  {
    if count > 0 {
      assert played.value == Label("PL2") || played.value == Label("PL4");
      assert Label("PL2").name[0] == 'P' && Label("PL4").name[0] == 'P';
      assert Label("REV").name[0] == 'R' && Label("SKIP").name[0] == 'S';
    }
  }

  /**
   * The active player of the first turn is the starting player, and the same
   * player acts again exactly when the previous turn kept the turn.
   */
  lemma Alternation(h: seq<TurnRecord>, p1Starts: bool)
    requires Numbered(h, p1Starts)
    ensures |h| > 0 ==> h[0].p1Acted == p1Starts
    ensures forall k :: 0 <= k < |h| - 1 ==>
      (h[k + 1].p1Acted <==> (h[k].p1Acted <==> KeepsTurn(h[k].played, h[k].count)))
  {
    forall k | 0 <= k < |h| - 1
      ensures h[k + 1].p1Acted <==> (h[k].p1Acted <==> KeepsTurn(h[k].played, h[k].count))
    {
      ActiveAlternates(p1Starts, h[k].no);
    }
  }

  /** The turn number never falls below that of the first turn. */
  lemma {:induction false} NumbersPositive(h: seq<TurnRecord>, p1Starts: bool)
    requires Numbered(h, p1Starts)
    ensures forall k :: 0 <= k < |h| ==> h[k].no >= 1
    decreases |h|
  {
    if |h| > 1 {
      var init := h[..|h| - 1];
      assert Numbered(init, p1Starts);
      NumbersPositive(init, p1Starts);
      assert h[|h| - 1].no >= h[|h| - 2].no;
    }
  }

  // ---------------------------------------------------------------------------
  // The learner a game updates
  // ---------------------------------------------------------------------------

  /** The agent of a tournament: Q-learning or Monte Carlo. */
  datatype Learner = QL(ql: QLearningAgent) | MC(mc: MonteCarloAgent)

  /** The tables of a learner. */
  function Tab(l: Learner): Tables {
    match l
    case QL(a) => a.t
    case MC(a) => a.t
  }

  /** The objects a learner's `update` changes. */
  ghost function Footprint(l: Learner): set<object> {
    match l
    case QL(a) => {a, a.t}
    case MC(a) => {a, a.t}
  }

  /** The tables list every legal state once, and nothing else. */
  ghost predicate CoversStates(t: Tables) {
    forall s :: multiset(t.states)[s] == if IsState(s) then 1 else 0
  }

  /**
   * What the learner's `update` needs: tables with one entry per pair over
   * the nine actions and, for Q-learning, a previous pair that has an entry.
   */
  ghost predicate Ready(l: Learner)
    reads Footprint(l)
  {
    match l
    case QL(a) => a.t.Valid() && a.t.actions == Actions() && (a.prev.Some? ==> a.prev.value in a.t.q)
    case MC(a) => a.Valid() && a.t.actions == Actions()
  }

  /** The part of a learner that `update` reads and changes. */
  datatype Memory = Memory(prev: Option<Key>, qSeen: seq<Key>, q: map<Key, real>, visit: map<Key, int>)

  /** The current memory of a learner; a Monte Carlo learner has no previous pair, a Q-learning one no episode. */
  ghost function Remember(l: Learner): Memory
    reads Footprint(l)
  {
    match l
    case QL(a) => Memory(a.prev, [], a.t.q, a.t.visit)
    case MC(a) => Memory(None, a.qSeen, a.t.q, a.t.visit)
  }

  /**
   * `l` is the learner of memory `m` after `update(state, action)`. A
   * Q-learning learner moved its previous pair, if any, to `QTarget` and
   * counted a visit to it, then remembered the final pair; a Monte Carlo
   * learner moved every pair it saw during the game toward the final pair's
   * reward, kept its visit counts and forgot the pairs.
   */
  ghost predicate Learned(l: Learner, m: Memory, state: State, action: Action)
    reads Footprint(l)
  {
    var t, sa := Tab(l), (state, action);
    && t.q.Keys == m.q.Keys
    && match l
       case QL(a) =>
         && a.prev == Some(sa)
         && (m.prev.None? ==> t.q == m.q && t.visit == m.visit)
         && (m.prev.Some? ==>
             var k := m.prev.value;
             && k in m.q && sa in m.q && sa in t.R && k in m.visit
             && t.q == m.q[k := QTarget(m.q[k], m.q[sa], t.R[sa], t.stepSize)]
             && t.visit == Visited(m.visit, k))
       case MC(a) =>
         && a.qSeen == [] && t.visit == m.visit && sa in t.R
         && forall k :: k in t.q ==>
              t.q[k] == if k in m.qSeen then Toward(m.q[k], t.R[sa], t.stepSize) else m.q[k]
  }

  /** The `agent.update(state, action)` that ends a game. */
  method Learn(l: Learner, state: State, action: Action)
    requires Ready(l) && state in Tab(l).states
    modifies Footprint(l)
    ensures Ready(l)
    ensures Learned(l, old(Remember(l)), state, action)
    ensures old(Tab(l).Bounded()) && 0.0 <= Tab(l).stepSize <= 1.0 ==> Tab(l).Bounded()
  {
    match l
    case QL(a) =>
      LearnQ(a, state, action);
    case MC(a) =>
      LearnMC(a, state, action);
  }

  /** `Learn` for a Q-learning learner. */
  method LearnQ(a: QLearningAgent, state: State, action: Action)
    requires Ready(QL(a)) && state in a.t.states
    modifies a, a.t
    ensures Ready(QL(a))
    ensures Learned(QL(a), old(Remember(QL(a))), state, action)
    ensures old(a.t.Bounded()) && 0.0 <= a.t.stepSize <= 1.0 ==> a.t.Bounded()
  {
    ActionsComplete(action);
    ghost var m := Remember(QL(a));
    a.Update(state, action);
  }

  /** `Learn` for a Monte Carlo learner. */
  method LearnMC(a: MonteCarloAgent, state: State, action: Action)
    requires Ready(MC(a)) && state in a.t.states
    modifies a, a.t
    ensures Ready(MC(a))
    ensures Learned(MC(a), old(Remember(MC(a))), state, action)
    ensures old(a.t.Bounded()) && 0.0 <= a.t.stepSize <= 1.0 ==> a.t.Bounded()
  {
    ActionsComplete(action);
    a.Update(state, action);
  }

  /** `QLearningAgent(agent_info)`: a new Q-learning agent is ready for its first update. */
  method NewQLearning(epsilon: real, stepSize: real) returns (l: Learner)
    ensures l.QL? && fresh(Footprint(l)) && Ready(l) && CoversStates(Tab(l))
  {
    var a := new QLearningAgent(epsilon, stepSize);
    l := QL(a);
  }

  /** `MonteCarloAgent(agent_info)`: a new Monte Carlo agent is ready for its first update. */
  method NewMonteCarlo(epsilon: real, stepSize: real) returns (l: Learner)
    ensures l.MC? && fresh(Footprint(l)) && Ready(l) && CoversStates(Tab(l))
  {
    var a := new MonteCarloAgent(epsilon, stepSize);
    l := MC(a);
  }

  // ---------------------------------------------------------------------------
  // One game
  // ---------------------------------------------------------------------------

  class Game {
    const p1: Player
    const p2: Player
    const turn: Turn
    var turnNo: int
    /** The winner's name; `None` stands for the source's `0`. */
    var winner: Option<string>

    ghost predicate Valid() {
      p1 != p2 && turn.p1 == p1 && turn.p2 == p2
    }

    /** The players and the turn object of `Game.__init__`, on a new deck shuffled by `shuffle`. */
    constructor (name1: string, name2: string, shuffle: seq<nat>)
      ensures Valid()
      ensures fresh(p1) && fresh(p2) && fresh(turn) && fresh(turn.deck)
      ensures p1.name == name1 && p2.name == name2 && p1.hand == [] && p2.hand == []
      ensures (forall c :: multiset(turn.deck.cards)[c] == Copies(c)) && turn.deck.disc == []
      ensures turnNo == 0 && winner.None?
    {
      var a := new Player(name1);
      var b := new Player(name2);
      var deck := new Deck(shuffle);
      p1, p2 := a, b;
      turn := new Turn(deck, a, b);
      turnNo := 0;
      winner := None;
    }

    /** The player acting when the active role is (or is not) player_1's. */
    function Side(isP1: bool): Player {
      if isP1 then p1 else p2
    }

    /**
     * The loop of `Game.__init__`: one turn per pick of `picks` until a hand
     * is empty; the active player's hand is checked first. `history` lists
     * the turns played. `ok` is false when a draw found the deck empty,
     * which ends the game without a winner.
     */
    method Play(startingName: string, picks: seq<nat>) returns (ok: bool, ghost history: seq<TurnRecord>)
      requires Valid() && turnNo == 0 && winner.None?
      requires forall c :: c in turn.Pool() ==> Copies(c) > 0
      modifies this, turn, turn.deck, p1, p2
      ensures turn.Pool() == old(turn.Pool())
      ensures Numbered(history, startingName == p1.name) && Sound(history)
      ensures |history| <= |picks|
      ensures ok && history != [] ==> history[|history| - 1].left1 == |p1.hand| && history[|history| - 1].left2 == |p2.hand|
      ensures winner.Some? <==> ok && history != [] && (|p1.hand| == 0 || |p2.hand| == 0)
      ensures Unfinished(if winner.Some? then history[..|history| - 1] else history)
      ensures winner.Some? ==>
        var last := history[|history| - 1];
        var act, pas := Side(last.p1Acted), Side(!last.p1Acted);
        && turnNo == last.no
        && winner == Some(if |act.hand| == 0 then act.name else pas.name)
      ensures winner.None? && ok ==> |history| == |picks| && turnNo + 1 == NextNo(history)
      ensures !ok ==> NextDraw(turn.deck.cards, turn.deck.disc) == None
      ensures turnNo >= 0
    {
      var no, won;
      ok, no, won, history := Loop(turn, startingName == p1.name, picks);
      Settle(turn, startingName == p1.name, ok, no, won, history);
      turnNo, winner := no, won;
    }
  }

  /**
   * What holds of a game after the turns `h`, with `turn_no` = `no` and the
   * winner `won`: the turns are numbered by the rules, both hands were
   * non-empty after every turn but a winning last one, the hand sizes are
   * those recorded last, and a winner is the player of the last turn whose
   * hand is empty, the active one checked first.
   */
  ghost predicate Progress(turn: Turn, p1First: bool, ok: bool, no: int, won: Option<string>, h: seq<TurnRecord>)
    reads turn, turn.p1, turn.p2, turn.deck
  {
    && Numbered(h, p1First) && Sound(h)
    && no >= 0
    && (won.Some? ==> h != [])
    && Unfinished(if won.Some? then h[..|h| - 1] else h)
    && (ok && h != [] ==> h[|h| - 1].left1 == |turn.p1.hand| && h[|h| - 1].left2 == |turn.p2.hand|)
    && (ok && won.None? ==> no + 1 == NextNo(h))
    && (won.Some? ==>
        var last := h[|h| - 1];
        var act, pas := if last.p1Acted then turn.p1 else turn.p2, if last.p1Acted then turn.p2 else turn.p1;
        && ok && no == last.no && (|act.hand| == 0 || |pas.hand| == 0)
        && won == Some(if |act.hand| == 0 then act.name else pas.name))
    && (!ok ==> won.None? && NextDraw(turn.deck.cards, turn.deck.disc) == None)
  }

  // `Resume`, `Pack` and `Settle` restate `Progress` clause by clause, so that
  // the loop and its callers see the predicate only as a whole.

  /** An unfinished game's progress is what the next iteration needs. */
  lemma Resume(turn: Turn, p1First: bool, no: int, h: seq<TurnRecord>)
    requires Progress(turn, p1First, true, no, None, h)
    ensures Numbered(h, p1First) && Sound(h) && Unfinished(h)
    ensures no >= 0 && no + 1 == NextNo(h)
  {
  }

  /** The facts an iteration establishes, gathered as the progress of the game. */
  lemma Pack(turn: Turn, p1First: bool, ok: bool, no: int, won: Option<string>, h: seq<TurnRecord>)
    requires Numbered(h, p1First) && Sound(h)
    requires no >= 0
    requires won.Some? ==> h != []
    requires Unfinished(if won.Some? then h[..|h| - 1] else h)
    requires ok && h != [] ==> h[|h| - 1].left1 == |turn.p1.hand| && h[|h| - 1].left2 == |turn.p2.hand|
    requires ok && won.None? ==> no + 1 == NextNo(h)
    requires won.Some? ==>
      var last := h[|h| - 1];
      var act, pas := if last.p1Acted then turn.p1 else turn.p2, if last.p1Acted then turn.p2 else turn.p1;
      && ok && no == last.no && (|act.hand| == 0 || |pas.hand| == 0)
      && won == Some(if |act.hand| == 0 then act.name else pas.name)
    requires !ok ==> won.None? && NextDraw(turn.deck.cards, turn.deck.disc) == None
    ensures Progress(turn, p1First, ok, no, won, h)
  {
  }

  /** What the progress of a game says, spelled out. */
  lemma Settle(turn: Turn, p1First: bool, ok: bool, no: int, won: Option<string>, h: seq<TurnRecord>)
    requires Progress(turn, p1First, ok, no, won, h)
    ensures Numbered(h, p1First) && Sound(h)
    ensures no >= 0
    ensures won.Some? ==> h != []
    ensures Unfinished(if won.Some? then h[..|h| - 1] else h)
    ensures ok && h != [] ==> h[|h| - 1].left1 == |turn.p1.hand| && h[|h| - 1].left2 == |turn.p2.hand|
    ensures ok && won.None? ==> no + 1 == NextNo(h)
    ensures won.Some? ==>
      var last := h[|h| - 1];
      var act, pas := if last.p1Acted then turn.p1 else turn.p2, if last.p1Acted then turn.p2 else turn.p1;
      && ok && no == last.no && (|act.hand| == 0 || |pas.hand| == 0)
      && won == Some(if |act.hand| == 0 then act.name else pas.name)
    ensures !ok ==> won.None? && NextDraw(turn.deck.cards, turn.deck.disc) == None
  {
  }

  /**
   * The loop of `Game.__init__` over the turn object: `no` and `won` are the
   * final `turn_no` and winner.
   */
  method Loop(turn: Turn, p1First: bool, picks: seq<nat>)
    returns (ok: bool, no: int, won: Option<string>, ghost history: seq<TurnRecord>)
    requires turn.Valid()
    requires forall c :: c in turn.Pool() ==> Copies(c) > 0
    modifies turn, turn.deck, turn.p1, turn.p2
    ensures turn.Pool() == old(turn.Pool())
    ensures |history| <= |picks| && (ok && won.None? ==> |history| == |picks|)
    ensures Progress(turn, p1First, ok, no, won, history)
  {
    ok := true;
    history := [];
    ghost var pool := turn.Pool();
    no, won := 0, None;
    var k := 0;
    while k < |picks| && ok && won.None?
      invariant k <= |picks| && |history| <= k && (ok ==> |history| == k)
      invariant turn.Pool() == pool
      invariant Progress(turn, p1First, ok, no, won, history)
    {
      Resume(turn, p1First, no, history);
      ok, no, won, history := Round(turn, p1First, no, picks[k], history);
      Pack(turn, p1First, ok, no, won, history);
      k := k + 1;
    }
  }

  /**
   * One iteration of the loop of `Game.__init__`, entered with `turn_no` =
   * `no` after the turns `history`: the next turn number picks the active
   * player, who takes the turn; then the active player's hand, and after it
   * the passive player's, is checked for a win, and without a win the turn
   * number is pulled back when the turn is kept. `next` is the turn number
   * after the iteration, `won` the winner's name.
   */
  method Round(turn: Turn, p1First: bool, no: int, pick: nat, ghost history: seq<TurnRecord>)
    returns (ok: bool, next: int, won: Option<string>, ghost after: seq<TurnRecord>)
    requires turn.Valid()
    requires forall c :: c in turn.Pool() ==> Copies(c) > 0
    requires Numbered(history, p1First) && Sound(history) && Unfinished(history)
    requires no >= 0 && no + 1 == NextNo(history)
    modifies turn, turn.deck, turn.p1, turn.p2
    ensures turn.Pool() == old(turn.Pool())
    ensures |after| == |history| + (if ok then 1 else 0)
    ensures Numbered(after, p1First) && Sound(after)
    ensures next >= 0
    ensures won.Some? ==> after != []
    ensures Unfinished(if won.Some? then after[..|after| - 1] else after)
    ensures ok && after != [] ==> after[|after| - 1].left1 == |turn.p1.hand| && after[|after| - 1].left2 == |turn.p2.hand|
    ensures ok && won.None? ==> next + 1 == NextNo(after)
    ensures won.Some? ==>
      var last := after[|after| - 1];
      var act, pas := if last.p1Acted then turn.p1 else turn.p2, if last.p1Acted then turn.p2 else turn.p1;
      && ok && next == last.no && (|act.hand| == 0 || |pas.hand| == 0)
      && won == Some(if |act.hand| == 0 then act.name else pas.name)
    ensures !ok ==> won.None? && NextDraw(turn.deck.cards, turn.deck.disc) == None
  {
    next := no + 1;
    after := history;
    won := None;
    var isP1 := P1Active(p1First, next);
    var act, pas := if isP1 then turn.p1 else turn.p2, if isP1 then turn.p2 else turn.p1;
    ok := TakeTurn(turn, act, pas, pick);
    if !ok {
      return;
    }
    var rec := TurnRecord(next, isP1, act.cardPlay, turn.count, |turn.p1.hand|, |turn.p2.hand|);
    RecordSnoc(history, p1First, rec);
    after := history + [rec];
    assert after[..|history|] == history;
    if CheckWin(act) {
      won := Some(act.name);
    } else if CheckWin(pas) {
      won := Some(pas.name);
    } else {
      UnfinishedSnoc(history, rec);
      SingleDecrement(rec.played, rec.count);
      if act.cardPlay.value == Label("REV") || act.cardPlay.value == Label("SKIP") {
        next := next - 1;
      }
      if turn.count > 0 && turn.count % 2 == 0 {
        next := next - 1;
      }
    }
  }

  /**
   * One turn of the loop: `action` for `act` against `pas`. The pool of cards
   * is kept, and the card recorded as played is a card of the deck or the
   * placeholder.
   */
  method TakeTurn(turn: Turn, act: Player, pas: Player, pick: nat) returns (ok: bool)
    requires turn.Valid() && turn.Roles(act, pas)
    requires forall c :: c in turn.Pool() ==> Copies(c) > 0
    modifies turn, turn.deck, act, pas
    ensures turn.Pool() == old(turn.Pool())
    ensures !ok ==> NextDraw(turn.deck.cards, turn.deck.disc) == None
    ensures ok ==> Copies(act.cardPlay) > 0 || act.cardPlay == Placeholder
    ensures turn.count >= 0 && (turn.count > 0 ==> IsDrawValue(act.cardPlay.value))
  {
    turn.PoolByRoles(act, pas);
    var played;
    ghost var step, ended, counters, kept;
    ok, played, step, ended, counters, kept := turn.Action(act, pas, pick);
    turn.PoolByRoles(act, pas);
  }

  /** The inputs of one game: the deck's shuffle, one pick per turn, and player_1's final state and action. */
  datatype GameScript = GameScript(shuffle: seq<nat>, picks: seq<nat>, state: State, action: Action)

  /**
   * The set-up part of `Game(...)`: the players, a new deck shuffled by
   * `shuffle`, and the turn object with its open card and deal. `ok` is
   * false when the deck ran out during the set-up.
   */
  method SetUp(name1: string, name2: string, shuffle: seq<nat>) returns (g: Game, ok: bool)
    ensures fresh(g) && fresh(g.turn) && fresh(g.turn.deck) && fresh(g.p1) && fresh(g.p2)
    ensures g.Valid() && g.turnNo == 0 && g.winner.None?
    ensures g.p1.name == name1 && g.p2.name == name2
    ensures ok ==> forall c :: c in g.turn.Pool() ==> Copies(c) > 0
  {
    g := new Game(name1, name2, shuffle);
    ghost var pool0 := g.turn.Pool();
    assert forall c :: pool0[c] == Copies(c);
    ghost var rejected, dealt;
    ok, rejected, dealt := g.turn.StartUp();
    if ok {
      forall c | c in g.turn.Pool() ensures Copies(c) > 0 {
        assert c in pool0;
      }
    }
  }

  /** The loop of a set-up game, with what a tournament needs of its outcome. */
  method Run(g: Game, startingName: string, picks: seq<nat>) returns (ghost history: seq<TurnRecord>)
    requires g.Valid() && g.turnNo == 0 && g.winner.None?
    requires forall c :: c in g.turn.Pool() ==> Copies(c) > 0
    modifies g, g.turn, g.turn.deck, g.p1, g.p2
    ensures Numbered(history, startingName == g.p1.name)
    ensures g.turnNo >= 0
    ensures g.winner.Some? ==> history != [] && g.turnNo == history[|history| - 1].no
    ensures g.winner.Some? ==> g.winner == Some(g.p1.name) || g.winner == Some(g.p2.name)
  {
    var ok;
    ok, history := g.Play(startingName, picks);
  }

  /**
   * `Game(...)`: set up the players and the turn, deal, play the loop, and
   * update the learner with player_1's final state and action once somebody
   * has won. `history` lists the turns played.
   */
  method NewGame(name1: string, name2: string, startingName: string, agent: Learner, script: GameScript)
    returns (g: Game, ghost history: seq<TurnRecord>)
    requires Ready(agent) && script.state in Tab(agent).states
    modifies Footprint(agent)
    ensures fresh(g) && g.p1.name == name1 && g.p2.name == name2
    ensures Ready(agent)
    ensures Numbered(history, startingName == name1)
    ensures g.turnNo >= 0
    ensures g.winner.Some? ==> history != [] && g.turnNo == history[|history| - 1].no
    ensures g.winner.Some? ==> g.winner == Some(name1) || g.winner == Some(name2)
    ensures g.winner.Some? ==> Learned(agent, old(Remember(agent)), script.state, script.action)
    ensures g.winner.None? ==> unchanged(Footprint(agent))
  {
    ghost var fp := Footprint(agent);
    assert forall o :: o in fp ==> allocated(o);
    var ok;
    g, ok := SetUp(name1, name2, script.shuffle);
    history := [];
    if !ok {
      return;
    }
    history := Run(g, startingName, script.picks);
    assert unchanged(fp);
    if g.winner.Some? {
      Learn(agent, script.state, script.action);
    }
  }

  /**
   * `tournament`: `iterations` games against one learner, Q-learning when
   * `algo` is "q-learning" and Monte Carlo otherwise; player_2 starts the
   * odd-numbered games. `winners` and `turns` list each game's winner and
   * final `turn_no`; `firstMovers[i]` tells whether player_1 took the first
   * turn of game `i` (`None` when no turn was played).
   */
  method Tournament(iterations: int, algo: string, epsilon: real, stepSize: real,
                    name1: string, name2: string, scripts: seq<GameScript>)
    returns (winners: seq<Option<string>>, turns: seq<int>, agent: Learner, ghost firstMovers: seq<Option<bool>>)
    requires iterations <= |scripts|
    requires forall i :: 0 <= i < |scripts| ==> IsState(scripts[i].state)
    ensures agent.QL? <==> algo == "q-learning"
    ensures Ready(agent)
    ensures |winners| == |turns| == |firstMovers| == if iterations > 0 then iterations else 0
    ensures forall i :: 0 <= i < |winners| ==> winners[i] == None || winners[i] == Some(name1) || winners[i] == Some(name2)
    ensures forall i :: 0 <= i < |turns| ==> turns[i] >= 0
    ensures forall i :: 0 <= i < |winners| ==> winners[i].Some? ==> turns[i] >= 1
    ensures forall i :: 0 <= i < |firstMovers| ==> firstMovers[i].Some? ==> (firstMovers[i].value <==> i % 2 == 0 || name1 == name2)
  {
    if algo == "q-learning" {
      agent := NewQLearning(epsilon, stepSize);
    } else {
      agent := NewMonteCarlo(epsilon, stepSize);
    }
    winners, turns, firstMovers := [], [], [];
    var i := 0;
    while i < iterations
      invariant 0 <= i <= if iterations > 0 then iterations else 0
      invariant |winners| == |turns| == |firstMovers| == i
      invariant Ready(agent) && CoversStates(Tab(agent)) && fresh(Footprint(agent))
      invariant forall j :: 0 <= j < i ==> winners[j] == None || winners[j] == Some(name1) || winners[j] == Some(name2)
      invariant forall j :: 0 <= j < i ==> turns[j] >= 0
      invariant forall j :: 0 <= j < i ==> winners[j].Some? ==> turns[j] >= 1
      invariant forall j :: 0 <= j < i ==> firstMovers[j].Some? ==> (firstMovers[j].value <==> j % 2 == 0 || name1 == name2)
    {
      var winner, turnNo;
      ghost var firstMover;
      winner, turnNo, firstMover := TournamentGame(i, name1, name2, agent, scripts[i]);
      winners := winners + [winner];
      turns := turns + [turnNo];
      firstMovers := firstMovers + [firstMover];
      i := i + 1;
    }
  }

  /**
   * Game number `i` of `tournament`: player_2 starts when `i` is odd. The
   * winner is one of the two players, a game with a winner took at least one
   * turn, and `firstMover` tells whether player_1 took the first turn.
   */
  method TournamentGame(i: nat, name1: string, name2: string, agent: Learner, script: GameScript)
    returns (winner: Option<string>, turnNo: int, ghost firstMover: Option<bool>)
    requires Ready(agent) && CoversStates(Tab(agent)) && IsState(script.state)
    modifies Footprint(agent)
    ensures Ready(agent) && CoversStates(Tab(agent))
    ensures winner == None || winner == Some(name1) || winner == Some(name2)
    ensures turnNo >= 0 && (winner.Some? ==> turnNo >= 1)
    ensures firstMover.Some? ==> (firstMover.value <==> i % 2 == 0 || name1 == name2)
    ensures winner.None? ==> unchanged(Footprint(agent))
  {
    var startingName := if i % 2 == 1 then name2 else name1;
    var g;
    ghost var history;
    assert multiset(Tab(agent).states)[script.state] == 1;
    g, history := NewGame(name1, name2, startingName, agent, script);
    Alternation(history, startingName == name1);
    if g.winner.Some? {
      NumbersPositive(history, startingName == name1);
    }
    winner, turnNo := g.winner, g.turnNo;
    firstMover := if history == [] then None else Some(history[0].p1Acted);
  }
}
