/**
 * The turn engine of turn.py: setting up a game (the open card and the deal),
 * resolving one player's turn (play, or a forced draw), and the PL2/PL4
 * penalty chain with counter plays.
 */
module Turns {
  import opened Basics
  import opened Cards
  import opened Players
  import opened Utils

  /** `value in range(0, 10)`: a numbered card. */
  predicate IsNormal(c: Card) {
    c.value.Num? && 0 <= c.value.n < 10
  }

  /** `"PL" + str(penalty)` for the two penalties the engine uses. */
  function PenaltyValue(penalty: int): (v: Value)
    requires penalty == 2 || penalty == 4
    ensures v in SpecialValues + WildValues
  {
    if penalty == 2 then Label("PL2") else Label("PL4")
  }

  /** The cards at even positions of the deal (player_1's) ... */
  function Evens(s: seq<Card>): (r: seq<Card>)
    ensures |r| == (|s| + 1) / 2
    ensures forall k :: 0 <= k < |r| ==> r[k] == s[2 * k]
  {
    seq((|s| + 1) / 2, k requires 0 <= k < (|s| + 1) / 2 => s[2 * k])
  }

  /** ... and at odd positions (player_2's). */
  function Odds(s: seq<Card>): (r: seq<Card>)
    ensures |r| == |s| / 2
    ensures forall k :: 0 <= k < |r| ==> r[k] == s[2 * k + 1]
  {
    seq(|s| / 2, k requires 0 <= k < |s| / 2 => s[2 * k + 1])
  }

  /**
   * The `for card in hand: if card.value == v: ... break` search: the first
   * position holding value `v`, if any.
   */
  method FindValue(hand: seq<Card>, v: Value) returns (found: bool, i: nat)
    ensures found ==> i < |hand| && hand[i].value == v
    ensures found ==> forall j :: 0 <= j < i ==> hand[j].value != v
    ensures !found ==> forall j :: 0 <= j < |hand| ==> hand[j].value != v
  {
    found, i := false, 0;
    while i < |hand|
      invariant i <= |hand|
      invariant forall j :: 0 <= j < i ==> hand[j].value != v
    {
      if hand[i].value == v {
        return true, i;
      }
      i := i + 1;
    }
  }

  /** One more draw from `deck`, recorded as the next card of a run of draws from `(c, d)`. */
  method DrawRecorded(deck: Deck, ghost c: seq<Card>, ghost d: seq<Card>, ghost drawn: seq<Card>) returns (r: Option<Card>)
    requires DrawsTo(c, d, drawn, deck.cards, deck.disc)
    modifies deck
    ensures r.None? ==> NextDraw(deck.cards, deck.disc) == None && deck.cards == old(deck.cards) && deck.disc == old(deck.disc)
    ensures r.Some? ==> DrawsTo(c, d, drawn + [r.value], deck.cards, deck.disc)
    ensures r.Some? ==> |deck.cards| + |deck.disc| < old(|deck.cards| + |deck.disc|)
  {
    r := deck.DrawFromDeck();
    if r.Some? {
      DrawsToSnoc(c, d, drawn, old(deck.cards), old(deck.disc), r.value, deck.cards, deck.disc);
    }
  }

  /** After an even-length list, the even and odd positions of what follows keep their parity. */
  lemma EvensOddsAppend(s: seq<Card>, t: seq<Card>)
    requires |s| % 2 == 0
    ensures Evens(s + t) == Evens(s) + Evens(t) && Odds(s + t) == Odds(s) + Odds(t)
  {
    var h := |s| / 2;
    assert |s| == 2 * h;
    forall k | 0 <= k < |Evens(s + t)|
      ensures Evens(s + t)[k] == (Evens(s) + Evens(t))[k]
    {
      if k >= h {
        assert 2 * k == |s| + 2 * (k - h);
      }
    }
    forall k | 0 <= k < |Odds(s + t)|
      ensures Odds(s + t)[k] == (Odds(s) + Odds(t))[k]
    {
      if k >= h {
        assert 2 * k + 1 == |s| + 2 * (k - h) + 1;
      }
    }
  }

  /** Dealing two more cards after an even-length deal gives one to each side. */
  lemma EvensOddsSnoc(s: seq<Card>, x: Card, y: Card)
    requires |s| % 2 == 0
    ensures Evens(s + [x, y]) == Evens(s) + [x]
    ensures Odds(s + [x, y]) == Odds(s) + [y]
  {
    assert |Evens(s + [x, y])| == |Evens(s) + [x]|;
    assert forall k :: 0 <= k < |Evens(s)| ==> Evens(s + [x, y])[k] == s[2 * k];
    assert forall k :: 0 <= k < |Odds(s)| ==> Odds(s + [x, y])[k] == s[2 * k + 1];
  }

  /** A round of the deal keeps the hands equal to the alternate cards of the deal, and loses no card. */
  lemma DealStep(h1: seq<Card>, h2: seq<Card>, o1: seq<Card>, o2: seq<Card>, dealt: seq<Card>, x: Card, y: Card)
    requires |dealt| % 2 == 0
    requires h1 == o1 + Evens(dealt) && h2 == o2 + Odds(dealt)
    requires multiset(Evens(dealt)) + multiset(Odds(dealt)) == multiset(dealt)
    ensures h1 + [x] == o1 + Evens(dealt + [x, y]) && h2 + [y] == o2 + Odds(dealt + [x, y])
    ensures multiset(Evens(dealt + [x, y])) + multiset(Odds(dealt + [x, y])) == multiset(dealt + [x, y])
  {
    EvensOddsSnoc(dealt, x, y);
    assert o1 + Evens(dealt) + [x] == o1 + (Evens(dealt) + [x]);
    assert o2 + Odds(dealt) + [y] == o2 + (Odds(dealt) + [y]);
  }

  /** One round of the deal: a card to `a`, then a card to `b`. */
  method DealRound(a: Player, b: Player, deck: Deck, ghost c: seq<Card>, ghost d: seq<Card>, ghost dealt: seq<Card>)
    returns (ok: bool, ghost x: Card, ghost y: Card)
    requires a != b
    requires DrawsTo(c, d, dealt, deck.cards, deck.disc)
    modifies a, b, deck
    ensures ok ==> DrawsTo(c, d, dealt + [x, y], deck.cards, deck.disc)
    ensures ok ==> a.hand == old(a.hand) + [x] && b.hand == old(b.hand) + [y]
    ensures !ok ==> NextDraw(deck.cards, deck.disc) == None
    ensures a.cardPlay == old(a.cardPlay) && b.cardPlay == old(b.cardPlay)
  {
    x, y := Placeholder, Placeholder;
    ok := a.Draw(deck);
    if !ok {
      return;
    }
    x := a.hand[|a.hand| - 1];
    assert a.hand == old(a.hand) + [x];
    DrawsToSnoc(c, d, dealt, old(deck.cards), old(deck.disc), x, deck.cards, deck.disc);
    ghost var c1, d1 := deck.cards, deck.disc;
    ok := b.Draw(deck);
    if !ok {
      return;
    }
    y := b.hand[|b.hand| - 1];
    assert b.hand == old(b.hand) + [y];
    DrawsToSnoc(c, d, dealt + [x], c1, d1, y, deck.cards, deck.disc);
    assert dealt + [x] + [y] == dealt + [x, y];
  }

  /**
   * One counter play of the penalty chain: the first card of `p`'s hand with
   * value `v`, if there is one, goes to the discard pile (`play_counter`).
   */
  method Counter(p: Player, deck: Deck, v: Value) returns (hit: bool, ghost i: nat)
    modifies p, deck
    ensures hit ==> i < |old(p.hand)| && old(p.hand)[i].value == v
    ensures hit ==> forall j :: 0 <= j < i ==> old(p.hand)[j].value != v
    ensures hit ==> p.hand == Remove(old(p.hand), i) && deck.disc == old(deck.disc) + [old(p.hand)[i]]
    ensures !hit ==> NoneOfValue(p.hand, v) && p.hand == old(p.hand) && deck.disc == old(deck.disc)
    ensures deck.cards == old(deck.cards) && p.cardPlay == old(p.cardPlay)
    ensures multiset(p.hand) + deck.Contents() == old(multiset(p.hand) + deck.Contents())
  {
    var k;
    hit, k := FindValue(p.hand, v);
    i := k;
    if hit {
      p.PlayCounter(deck, k);
    }
  }

  /** The values that start a penalty chain. */
  predicate IsDrawValue(v: Value) {
    v == Label("PL2") || v == Label("PL4")
  }

  /** No card of `hand` has value `v`. */
  predicate NoneOfValue(hand: seq<Card>, v: Value) {
    forall j :: 0 <= j < |hand| ==> hand[j].value != v
  }

  /** The cards held by two players and a deck. */
  ghost function Held(a: Player, b: Player, deck: Deck): multiset<Card>
    reads a, b, deck
  {
    multiset(a.hand) + multiset(b.hand) + deck.Contents()
  }

  /** Moving cards between two parts of a pool leaves the pool unchanged. */
  lemma Regroup(x: multiset<Card>, y: multiset<Card>, z: multiset<Card>, x': multiset<Card>, z': multiset<Card>)
    requires x' + z' == x + z
    ensures x' + y + z' == x + y + z
  {
    assert forall e :: (x' + y + z')[e] == (x' + z')[e] + y[e];
    assert forall e :: (x + y + z)[e] == (x + z)[e] + y[e];
  }

  /**
   * `n` draws by `p` (the `for i in range(count * penalty)` loop); `ok` is
   * false when the deck ran out first. `q` is the other player, whose hand
   * is left alone.
   */
  method DrawMany(p: Player, q: Player, deck: Deck, n: nat) returns (ok: bool)
    requires p != q
    modifies p, deck
    ensures |p.hand| >= old(|p.hand|) && p.hand[..old(|p.hand|)] == old(p.hand)
    ensures DrawsTo(old(deck.cards), old(deck.disc), p.hand[old(|p.hand|)..], deck.cards, deck.disc)
    ensures ok ==> |p.hand| == old(|p.hand|) + n
    ensures !ok ==> NextDraw(deck.cards, deck.disc) == None
    ensures Held(p, q, deck) == old(Held(p, q, deck)) && Held(q, p, deck) == old(Held(q, p, deck))
    ensures p.cardPlay == old(p.cardPlay)
  {
    ok := true;
    var i := 0;
    ghost var n0 := |p.hand|;
    assert p.hand[n0..] == [];
    while i < n
      invariant 0 <= i <= n
      invariant |p.hand| == n0 + i && p.hand[..n0] == old(p.hand)
      invariant DrawsTo(old(deck.cards), old(deck.disc), p.hand[n0..], deck.cards, deck.disc)
      invariant multiset(p.hand) + deck.Contents() == old(multiset(p.hand) + deck.Contents())
      invariant p.cardPlay == old(p.cardPlay)
    {
      ghost var h := p.hand;
      ghost var c0, d0 := deck.cards, deck.disc;
      ok := p.Draw(deck);
      if !ok {
        break;
      }
      ghost var x := p.hand[|p.hand| - 1];
      assert p.hand == h + [x];
      assert p.hand[..n0] == h[..n0];
      assert p.hand[n0..] == h[n0..] + [x];
      DrawsToSnoc(old(deck.cards), old(deck.disc), h[n0..], c0, d0, x, deck.cards, deck.disc);
      i := i + 1;
    }
    Regroup(old(multiset(p.hand)), multiset(q.hand), old(deck.Contents()), multiset(p.hand), deck.Contents());
    HeldSymmetric(p, q, deck);
  }

  lemma HeldSymmetric(a: Player, b: Player, deck: Deck)
    ensures Held(a, b, deck) == Held(b, a, deck)
  {
    assert multiset(a.hand) + multiset(b.hand) == multiset(b.hand) + multiset(a.hand);
  }

  /**
   * `Counter` seen from the chain: `cs` is the counter played, none or one
   * card of value `v`, which leaves `p`'s hand for the discard pile.
   */
  method CounterStep(p: Player, deck: Deck, v: Value) returns (hit: bool, ghost cs: seq<Card>)
    modifies p, deck
    ensures |cs| == (if hit then 1 else 0) && forall j :: 0 <= j < |cs| ==> cs[j].value == v
    ensures multiset(old(p.hand)) == multiset(p.hand) + multiset(cs) && |old(p.hand)| == |p.hand| + |cs|
    ensures deck.cards == old(deck.cards) && deck.disc == old(deck.disc) + cs
    ensures !hit ==> NoneOfValue(p.hand, v)
    ensures p.cardPlay == old(p.cardPlay)
  {
    ghost var i;
    hit, i := Counter(p, deck, v);
    cs := if hit then [old(p.hand)[i]] else [];
  }

  /** Two counters in a row, the second only after the first, split between the sides. */
  lemma CounterPair(s: seq<Card>, t: seq<Card>)
    requires |s| <= 1 && |t| <= |s|
    ensures Evens(s + t) == s && Odds(s + t) == t
  {
    if |t| == 1 {
      EvensOddsSnoc([], s[0], t[0]);
      assert s + t == [] + [s[0], t[0]];
    }
  }

  /** The even and odd positions of a list together hold its cards. */
  lemma {:induction false} EvensOddsSplit(s: seq<Card>)
    ensures multiset(Evens(s)) + multiset(Odds(s)) == multiset(s)
    decreases |s|
  {
    if |s| >= 2 {
      EvensOddsAppend(s[..2], s[2..]);
      EvensOddsSplit(s[2..]);
      CounterPair(s[..1], s[1..2]);
      assert s[..1] + s[1..2] == s[..2];
      assert s == s[..1] + s[1..2] + s[2..];
    } else {
      CounterPair(s, []);
      assert s + [] == s;
    }
  }

  /**
   * The chain so far (`counters`, from hands `a0`/`b0` to `a`/`b`) followed by
   * one more round (`cs`, from `a`/`b` to `a'`/`b'`) is a chain again.
   */
  lemma ChainStep(a0: seq<Card>, b0: seq<Card>, a: seq<Card>, b: seq<Card>, a': seq<Card>, b': seq<Card>,
                  counters: seq<Card>, cs: seq<Card>, v: Value)
    requires |counters| % 2 == 0
    requires forall j :: 0 <= j < |counters| ==> counters[j].value == v
    requires forall j :: 0 <= j < |cs| ==> cs[j].value == v
    requires multiset(b0) == multiset(b) + multiset(Evens(counters)) && multiset(a0) == multiset(a) + multiset(Odds(counters))
    requires multiset(b) == multiset(b') + multiset(Evens(cs)) && multiset(a) == multiset(a') + multiset(Odds(cs))
    ensures forall j :: 0 <= j < |counters + cs| ==> (counters + cs)[j].value == v
    ensures multiset(b0) == multiset(b') + multiset(Evens(counters + cs))
    ensures multiset(a0) == multiset(a') + multiset(Odds(counters + cs))
    ensures |counters + cs| % 2 == |cs| % 2
  {
    EvensOddsAppend(counters, cs);
    assert forall j :: |counters| <= j < |counters + cs| ==> (counters + cs)[j] == cs[j - |counters|];
  }

  /** The counters of a chain move from the hands to the discard pile, and no card is lost. */
  lemma ChainConserves(a0: seq<Card>, b0: seq<Card>, a: seq<Card>, b: seq<Card>, c: seq<Card>, d: seq<Card>, counters: seq<Card>)
    requires multiset(b0) == multiset(b) + multiset(Evens(counters)) && multiset(a0) == multiset(a) + multiset(Odds(counters))
    ensures multiset(a) + multiset(b) + (multiset(c) + multiset(d + counters)) == multiset(a0) + multiset(b0) + (multiset(c) + multiset(d))
  {
    EvensOddsSplit(counters);
  }

  /**
   * One pass of `action_plus`'s `while hit` loop: `pas` counters, the chain
   * ends if `pas`'s hand is empty; if `pas` countered, `act` counters; the
   * chain ends if `act`'s hand is empty. `cs` are the counters played, `pas`'s
   * first, and `n` counts them; `hit` tells whether both countered, so that
   * the loop goes on.
   */
  method CounterRound(act: Player, pas: Player, deck: Deck, v: Value) returns (hit: bool, ended: bool, n: nat, ghost cs: seq<Card>)
    requires act != pas
    modifies act, pas, deck
    ensures n == |cs| <= 2 && (hit <==> n == 2 && !ended)
    ensures |act.hand| + |pas.hand| == old(|act.hand| + |pas.hand|) - |cs|
    ensures forall j :: 0 <= j < |cs| ==> cs[j].value == v
    ensures multiset(old(pas.hand)) == multiset(pas.hand) + multiset(Evens(cs))
    ensures multiset(old(act.hand)) == multiset(act.hand) + multiset(Odds(cs))
    ensures deck.cards == old(deck.cards) && deck.disc == old(deck.disc) + cs
    ensures ended ==> |act.hand| == 0 || |pas.hand| == 0
    ensures !ended && !hit && |cs| == 0 ==> NoneOfValue(pas.hand, v)
    ensures !ended && !hit && |cs| == 1 ==> NoneOfValue(act.hand, v)
    ensures act.cardPlay == old(act.cardPlay) && pas.cardPlay == old(pas.cardPlay)
  {
    ghost var d0 := deck.disc;
    ghost var s: seq<Card>, t: seq<Card> := [], [];
    var first, second := false, false;
    first, s := CounterStep(pas, deck, v);
    ended := CheckWin(pas);
    if !ended {
      if first {
        second, t := CounterStep(act, deck, v);
      }
      ended := CheckWin(act);
    }
    hit := second && !ended;
    n, cs := (if first then 1 else 0) + (if second then 1 else 0), s + t;
    assert deck.disc == d0 + s + t == d0 + cs;
    CounterPair(s, t);
  }

  /**
   * The counter plays of `action_plus`'s `while hit` loop: `pas` and `act`
   * counter alternately, `pas` first, each with the first card of value `v`
   * in their hand, until one cannot or a hand is empty (`ended`). `count` is
   * one more than the number of counter plays. `counters` are the cards
   * played, in order, onto the discard pile: `pas`'s at the even positions,
   * `act`'s at the odd ones.
   */
  method CounterChain(act: Player, pas: Player, deck: Deck, v: Value) returns (count: int, ended: bool, ghost counters: seq<Card>)
    requires act != pas
    modifies act, pas, deck
    ensures count >= 1 && |counters| == count - 1
    ensures forall j :: 0 <= j < |counters| ==> counters[j].value == v
    ensures multiset(old(pas.hand)) == multiset(pas.hand) + multiset(Evens(counters))
    ensures multiset(old(act.hand)) == multiset(act.hand) + multiset(Odds(counters))
    ensures deck.cards == old(deck.cards) && deck.disc == old(deck.disc) + counters
    ensures ended ==> |act.hand| == 0 || |pas.hand| == 0
    ensures !ended ==> NoneOfValue(if count % 2 == 0 then act.hand else pas.hand, v)
    ensures Held(act, pas, deck) == old(Held(act, pas, deck))
    ensures act.cardPlay == old(act.cardPlay) && pas.cardPlay == old(pas.cardPlay)
  {
    ghost var a0, b0, d0 := act.hand, pas.hand, deck.disc;
    ended := false;
    count, counters := 1, [];
    // `while hit`, with the exit test at the end of the pass
    while true
      invariant count == 1 + |counters| && |counters| % 2 == 0
      invariant forall j :: 0 <= j < |counters| ==> counters[j].value == v
      invariant multiset(b0) == multiset(pas.hand) + multiset(Evens(counters))
      invariant multiset(a0) == multiset(act.hand) + multiset(Odds(counters))
      invariant deck.cards == old(deck.cards) && deck.disc == d0 + counters
      invariant act.cardPlay == old(act.cardPlay) && pas.cardPlay == old(pas.cardPlay)
      decreases |act.hand| + |pas.hand|
    {
      var hit, n;
      ghost var cs;
      ghost var a1, b1 := act.hand, pas.hand;
      hit, ended, n, cs := CounterRound(act, pas, deck, v);
      ChainStep(a0, b0, a1, b1, act.hand, pas.hand, counters, cs, v);
      assert d0 + counters + cs == d0 + (counters + cs);
      counters, count := counters + cs, count + n;
      if !hit {
        break;
      }
    }
    ChainConserves(a0, b0, act.hand, pas.hand, old(deck.cards), d0, counters);
  }

  /**
   * The body of `action_plus`: after the counter plays (`CounterChain`), the
   * player who could not counter draws `count * penalty` cards: `act` when
   * `count` is even, `pas` when it is odd. A hand emptied by a counter ends
   * the chain at once (`ended`), before any draw. `counters` are the cards
   * countered and `kept` is the drawing player's hand before the draws.
   */
  method PenaltyChain(act: Player, pas: Player, deck: Deck, penalty: int)
    returns (count: int, ok: bool, ended: bool, ghost counters: seq<Card>, ghost kept: seq<Card>)
    requires act != pas
    requires penalty == 2 || penalty == 4
    modifies deck, act, pas
    ensures ChainEffect(count, penalty, ok, ended, counters, kept, old(act.hand), old(pas.hand), act.hand, pas.hand,
                        old(deck.cards), old(deck.disc), deck.cards, deck.disc)
    ensures !ok ==> NextDraw(deck.cards, deck.disc) == None
    ensures Held(act, pas, deck) == old(Held(act, pas, deck))
    ensures act.cardPlay == old(act.cardPlay) && pas.cardPlay == old(pas.cardPlay)
  {
    count, ended, counters := CounterChain(act, pas, deck, PenaltyValue(penalty));
    kept := if count % 2 == 0 then act.hand else pas.hand;
    ok := true;
    if !ended {
      if count % 2 == 0 {
        ok := DrawMany(act, pas, deck, count * penalty);
      } else {
        ok := DrawMany(pas, act, deck, count * penalty);
      }
    }
  }

  /** The penalty of a PL2 or PL4 card: the inverse of `PenaltyValue`. */
  function PenaltyOf(v: Value): (penalty: int)
    requires IsDrawValue(v)
    ensures (penalty == 2 || penalty == 4) && PenaltyValue(penalty) == v
  {
    if v == Label("PL4") then 4 else 2
  }

  /**
   * What a penalty chain of length `count` did to the hands `a0` (the player
   * who played the PL2/PL4) and `b0` (the opponent), leaving `a` and `b`, and
   * to the piles `c0`/`d0`, leaving `c`/`d`. The `count - 1` `counters`, all
   * of the penalty value, went in order onto the discard pile: the
   * opponent's from the even positions, the player's from the odd ones.
   * `kept` is what remained of the hand of the side that could not counter:
   * `a`'s when `count` is even, `b`'s when it is odd. Unless a hand was
   * emptied (`ended`), `kept` held no card of the penalty value and that side
   * then drew from the piles left by the counters, `count * penalty` cards
   * unless the piles ran out (`!ok`).
   */
  ghost predicate ChainEffect(count: int, penalty: int, ok: bool, ended: bool, counters: seq<Card>, kept: seq<Card>,
                              a0: seq<Card>, b0: seq<Card>, a: seq<Card>, b: seq<Card>,
                              c0: seq<Card>, d0: seq<Card>, c: seq<Card>, d: seq<Card>)
    requires penalty == 2 || penalty == 4
  {
    var h := if count % 2 == 0 then a else b;
    var ka, kb := (if count % 2 == 0 then kept else a), (if count % 2 == 0 then b else kept);
    && count >= 1 && |counters| == count - 1
    && (forall j :: 0 <= j < |counters| ==> counters[j].value == PenaltyValue(penalty))
    && multiset(a0) == multiset(ka) + multiset(Odds(counters))
    && multiset(b0) == multiset(kb) + multiset(Evens(counters))
    && (ended ==> ok && h == kept && c == c0 && d == d0 + counters && (|a| == 0 || |b| == 0))
    && (!ended ==>
        && NoneOfValue(kept, PenaltyValue(penalty))
        && |kept| <= |h| && h[..|kept|] == kept
        && DrawsTo(c0, d0 + counters, h[|kept|..], c, d)
        && (ok ==> |h| == |kept| + count * penalty))
  }

  /** What `action`'s play-or-draw step leaves behind. */
  datatype Outcome = Outcome(played: bool, cardPlay: Card, hand: seq<Card>, cards: seq<Card>, disc: seq<Card>)

  /**
   * The play-or-draw step of `action` on values: with a playable card in
   * `hand`, the one `pick` selects is played; otherwise one card is drawn and
   * played when it is playable, or kept with `Placeholder` recorded as the
   * card played. `None` when the draw finds both piles empty.
   */
  function PlayOutcome(hand: seq<Card>, open: Card, cards: seq<Card>, disc: seq<Card>, pick: nat): (r: Option<Outcome>)
    ensures r.None? <==> PlayableIndices(hand, open) == [] && cards == [] && disc == []
    ensures r.Some? && r.value.played ==> Playable(r.value.cardPlay, open.color, open.value)
    ensures r.Some? && r.value.played ==> r.value.disc != [] && r.value.disc[|r.value.disc| - 1] == r.value.cardPlay
    ensures r.Some? && !r.value.played ==> r.value.cardPlay == Placeholder && |r.value.hand| == |hand| + 1
    ensures r.Some? && !r.value.played ==> r.value.hand[..|hand|] == hand
    ensures PlayableIndices(hand, open) != [] ==>
      r.Some? && r.value.played && r.value.cardPlay in hand && r.value.cards == cards
      && multiset(r.value.hand) + multiset{r.value.cardPlay} == multiset(hand)
    ensures PlayableIndices(hand, open) == [] && r.Some? ==>
      NextDraw(cards, disc).Some? && r.value.cards == NextDraw(cards, disc).value.1
      && (r.value.played ==> r.value.hand == hand)
  {
    if PlayableIndices(hand, open) != [] then
      var i := Chosen(hand, open, pick);
      Some(Outcome(true, hand[i], Remove(hand, i), cards, disc + [hand[i]]))
    else
      match NextDraw(cards, disc)
      case None => None
      case Some((c, c1, d1)) =>
        if Playable(c, open.color, open.value) then Some(Outcome(true, c, hand, c1, d1 + [c]))
        else Some(Outcome(false, Placeholder, hand + [c], c1, d1))
  }

  /**
   * The play-or-draw step moves cards between the hand and the piles and loses
   * none; a card played stays among the piles' cards.
   */
  lemma PlayOutcomeConserves(hand: seq<Card>, open: Card, cards: seq<Card>, disc: seq<Card>, pick: nat)
    ensures var r := PlayOutcome(hand, open, cards, disc, pick);
      r.Some? ==>
      multiset(r.value.hand) + (multiset(r.value.cards) + multiset(r.value.disc))
        == multiset(hand) + (multiset(cards) + multiset(disc))
    ensures var r := PlayOutcome(hand, open, cards, disc, pick);
      r.Some? && r.value.played ==> r.value.cardPlay in multiset(r.value.cards) + multiset(r.value.disc)
  {
    if PlayableIndices(hand, open) != [] {
      PlayedFromHand(hand, cards, disc, Chosen(hand, open, pick));
    } else {
      NextDrawConserves(cards, disc);
      match NextDraw(cards, disc)
      case None =>
      case Some((c, c1, d1)) =>
        DrawnKept(hand, cards, disc, c, c1, d1);
    }
  }

  /** Playing the card at `i` moves it from the hand onto the discard pile. */
  lemma PlayedFromHand(hand: seq<Card>, cards: seq<Card>, disc: seq<Card>, i: nat)
    requires i < |hand|
    ensures multiset(Remove(hand, i)) + (multiset(cards) + multiset(disc + [hand[i]]))
         == multiset(hand) + (multiset(cards) + multiset(disc))
  {
    assert multiset(disc + [hand[i]]) == multiset(disc) + multiset{hand[i]};
  }

  /** A drawn card `c` ends on the discard pile or in the hand. */
  lemma DrawnKept(hand: seq<Card>, cards: seq<Card>, disc: seq<Card>, c: Card, c1: seq<Card>, d1: seq<Card>)
    requires multiset{c} + multiset(c1) + multiset(d1) == multiset(cards) + multiset(disc)
    ensures multiset(hand) + (multiset(c1) + multiset(d1 + [c])) == multiset(hand) + (multiset(cards) + multiset(disc))
    ensures multiset(hand + [c]) + (multiset(c1) + multiset(d1)) == multiset(hand) + (multiset(cards) + multiset(disc))
    ensures c in multiset(c1) + multiset(d1 + [c])
  {
    assert multiset(d1 + [c]) == multiset(d1) + multiset{c};
    assert multiset(hand + [c]) == multiset(hand) + multiset{c};
  }

  /** With no playable card, the outcome is decided by the drawn card `c` alone. */
  lemma DrawnOutcome(hand: seq<Card>, open: Card, cards: seq<Card>, disc: seq<Card>, pick: nat,
                     c: Card, c1: seq<Card>, d1: seq<Card>)
    requires PlayableIndices(hand, open) == [] && NextDraw(cards, disc) == Some((c, c1, d1))
    ensures PlayOutcome(hand, open, cards, disc, pick)
         == if Playable(c, open.color, open.value) then Some(Outcome(true, c, hand, c1, d1 + [c]))
            else Some(Outcome(false, Placeholder, hand + [c], c1, d1))
  {
  }

  /**
   * The first part of `action`: play a playable card if there is one;
   * otherwise draw a card and play it if it is playable, or record that
   * nothing was played (`card_play` becomes `Card(0, 0)`). Which playable
   * card is played is `pick`'s choice. `ok` is false when a draw found both
   * piles empty.
   */
  method PlayOrDraw(act: Player, deck: Deck, open: Card, pick: nat) returns (ok: bool, played: bool)
    modifies deck, act
    ensures PlayOutcome(old(act.hand), open, old(deck.cards), old(deck.disc), pick)
         == if ok then Some(Outcome(played, act.cardPlay, act.hand, deck.cards, deck.disc)) else None
    ensures !ok ==> !played && act.hand == old(act.hand) && deck.cards == old(deck.cards) && deck.disc == old(deck.disc)
  {
    if PlayableIndices(act.hand, open) != [] {
      ghost var i := Chosen(act.hand, open, pick);
      act.Play(deck, open, pick);
      ok, played := true, true;
    } else {
      ok, played := DrawAndPlay(act, deck, open, pick);
    }
  }

  /** `action`'s branch (2): no card in the hand is playable. */
  method DrawAndPlay(act: Player, deck: Deck, open: Card, pick: nat) returns (ok: bool, played: bool)
    requires PlayableIndices(act.hand, open) == []
    modifies deck, act
    ensures PlayOutcome(old(act.hand), open, old(deck.cards), old(deck.disc), pick)
         == if ok then Some(Outcome(played, act.cardPlay, act.hand, deck.cards, deck.disc)) else None
    ensures !ok ==> !played && act.hand == old(act.hand) && deck.cards == old(deck.cards) && deck.disc == old(deck.disc)
  {
    ghost var h0, c0, d0 := act.hand, deck.cards, deck.disc;
    played := false;
    ok := act.Draw(deck);
    if !ok {
      return;
    }
    ghost var c := act.hand[|act.hand| - 1];
    assert act.hand == h0 + [c];
    DrawnOutcome(h0, open, c0, d0, pick, c, deck.cards, deck.disc);
    played := PlayIfPlayable(act, deck, open, pick, h0, c);
  }

  /**
   * Branches (2a) and (2b) of `action`: the drawn card `c`, the only card
   * that can be playable, is played when it is playable, whatever `pick`
   * says; otherwise `card_play` becomes `Card(0, 0)`.
   */
  method PlayIfPlayable(act: Player, deck: Deck, open: Card, pick: nat, ghost h0: seq<Card>, ghost c: Card)
    returns (played: bool)
    requires act.hand == h0 + [c] && PlayableIndices(h0, open) == []
    modifies deck, act
    ensures played <==> Playable(c, open.color, open.value)
    ensures played ==> act.cardPlay == c && act.hand == h0 && deck.disc == old(deck.disc) + [c]
    ensures !played ==> act.cardPlay == Placeholder && act.hand == old(act.hand) && deck.disc == old(deck.disc)
    ensures deck.cards == old(deck.cards)
  {
    OnlyDrawnCardPlayable(h0, c, open);
    if PlayableIndices(act.hand, open) != [] {
      ChosenSingle(act.hand, open, pick);
      RemoveLast(h0, c);
      act.Play(deck, open, pick);
      played := true;
    } else {
      act.cardPlay := Placeholder;
      played := false;
    }
  }

  /**
   * The second half of `start_up`: seven rounds of one card to `a`
   * (player_1) and one to `b` (player_2). `dealt` lists the cards drawn, in
   * order; `ok` is false when the deck ran out.
   */
  method Deal(a: Player, b: Player, deck: Deck) returns (ok: bool, ghost dealt: seq<Card>)
    requires a != b
    modifies deck, a, b
    ensures ok ==> DrawsTo(old(deck.cards), old(deck.disc), dealt, deck.cards, deck.disc)
    ensures !ok ==> NextDraw(deck.cards, deck.disc) == None
    ensures ok ==> |dealt| == 14 && a.hand == old(a.hand) + Evens(dealt) && b.hand == old(b.hand) + Odds(dealt)
    ensures ok ==> Held(a, b, deck) == old(Held(a, b, deck))
    ensures a.cardPlay == old(a.cardPlay) && b.cardPlay == old(b.cardPlay)
  {
    dealt := [];
    ok := true;
    var i := 0;
    while i < 7
      invariant 0 <= i <= 7
      invariant DrawsTo(old(deck.cards), old(deck.disc), dealt, deck.cards, deck.disc)
      invariant |dealt| == 2 * i
      invariant a.hand == old(a.hand) + Evens(dealt) && b.hand == old(b.hand) + Odds(dealt)
      invariant multiset(Evens(dealt)) + multiset(Odds(dealt)) == multiset(dealt)
      invariant a.cardPlay == old(a.cardPlay) && b.cardPlay == old(b.cardPlay)
    {
      ghost var x, y;
      ok, x, y := DealRound(a, b, deck, old(deck.cards), old(deck.disc), dealt);
      if !ok {
        return;
      }
      DealStep(a.hand[..|a.hand| - 1], b.hand[..|b.hand| - 1], old(a.hand), old(b.hand), dealt, x, y);
      dealt := dealt + [x, y];
      i := i + 1;
    }
    DrawsToConserves(old(deck.cards), old(deck.disc), dealt, deck.cards, deck.disc);
    DealConserves(old(multiset(a.hand)), old(multiset(b.hand)), multiset(Evens(dealt)), multiset(Odds(dealt)), deck.Contents(), old(deck.Contents()));
  }

  /** Dealt cards leave the deck for the hands. */
  lemma DealConserves(a: multiset<Card>, b: multiset<Card>, e: multiset<Card>, o: multiset<Card>, d': multiset<Card>, d: multiset<Card>)
    requires e + o + d' == d
    ensures (a + e) + (b + o) + d' == a + b + d
  {
    assert forall x :: ((a + e) + (b + o) + d')[x] == a[x] + b[x] + (e + o + d')[x];
  }

  class Turn {
    const deck: Deck
    const p1: Player
    const p2: Player
    /** The open card. */
    var cardOpen: Card
    /** The length of the current penalty chain; 0 when none ran. */
    var count: int

    ghost predicate Valid()
      reads this
    {
      p1 != p2
    }

    /** `act` and `pas` are the two players, in either order. */
    ghost predicate Roles(act: Player, pas: Player)
      reads this
    {
      (act == p1 && pas == p2) || (act == p2 && pas == p1)
    }

    /** Every card the players and the deck hold. */
    ghost function Pool(): multiset<Card>
      reads this, p1, p2, deck
    {
      Held(p1, p2, deck)
    }

    /** The pool, counted from the two roles of a turn. */
    lemma PoolByRoles(act: Player, pas: Player)
      requires Roles(act, pas)
      ensures Pool() == Held(act, pas, deck)
    {
      HeldSymmetric(act, pas, deck);
    }

    /**
     * The fields of `Turn.__init__`; its initial draw of the open card is the
     * first step of `StartUp`, so that a failed draw can be reported.
     */
    constructor (deck: Deck, p1: Player, p2: Player)
      requires p1 != p2
      ensures this.deck == deck && this.p1 == p1 && this.p2 == p2
      ensures cardOpen == Placeholder && count == 0
      ensures Valid()
    {
      this.deck := deck;
      this.p1 := p1;
      this.p2 := p2;
      cardOpen := Placeholder;
      count := 0;
    }

    /**
     * The initial draw and the first half of `start_up`: draw open cards until
     * one is numbered 0..9. The rejected cards are dropped, as is the accepted
     * one: none goes back to a pile. `drawn` lists the cards drawn, in order;
     * `ok` is false when the deck ran out.
     */
    method OpenCard() returns (ok: bool, ghost drawn: seq<Card>, ghost rejected: seq<Card>)
      modifies this, deck
      ensures DrawsTo(old(deck.cards), old(deck.disc), drawn, deck.cards, deck.disc)
      ensures !ok ==> NextDraw(deck.cards, deck.disc) == None
      ensures ok ==> drawn == rejected + [cardOpen]
      ensures ok ==> IsNormal(cardOpen) && forall j :: 0 <= j < |rejected| ==> !IsNormal(rejected[j])
      ensures deck.Contents() + multiset(drawn) == old(deck.Contents())
      ensures count == old(count)
    {
      drawn, rejected := [], [];
      ok := false;
      var r := DrawRecorded(deck, deck.cards, deck.disc, []);
      if r.Some? {
        cardOpen := r.value;
        drawn := [r.value];
        while !IsNormal(cardOpen)
          invariant DrawsTo(old(deck.cards), old(deck.disc), drawn, deck.cards, deck.disc)
          invariant drawn == rejected + [cardOpen]
          invariant forall j :: 0 <= j < |rejected| ==> !IsNormal(rejected[j])
          invariant r.Some? && count == old(count)
          decreases |deck.cards| + |deck.disc|
        {
          r := DrawRecorded(deck, old(deck.cards), old(deck.disc), drawn);
          if r.None? {
            break;
          }
          rejected := rejected + [cardOpen];
          cardOpen := r.value;
          drawn := drawn + [r.value];
        }
        ok := r.Some?;
      }
      DrawsToConserves(old(deck.cards), old(deck.disc), drawn, deck.cards, deck.disc);
    }

    /**
     * `Turn.__init__`'s draw of the open card followed by `start_up`. `rejected`
     * are the open cards put aside until a numbered one came up; `dealt` are
     * the cards of the deal, player_1's at even positions.
     */
    method StartUp() returns (ok: bool, ghost rejected: seq<Card>, ghost dealt: seq<Card>)
      requires Valid()
      modifies this, deck, p1, p2
      ensures ok ==> DrawsTo(old(deck.cards), old(deck.disc), rejected + [cardOpen] + dealt, deck.cards, deck.disc)
      ensures ok ==> IsNormal(cardOpen) && forall j :: 0 <= j < |rejected| ==> !IsNormal(rejected[j])
      ensures ok ==> |dealt| == 14 && p1.hand == old(p1.hand) + Evens(dealt) && p2.hand == old(p2.hand) + Odds(dealt)
      ensures ok ==> Pool() + multiset(rejected) + multiset{cardOpen} == old(Pool())
      ensures !ok ==> NextDraw(deck.cards, deck.disc) == None
      ensures count == old(count) && p1.cardPlay == old(p1.cardPlay) && p2.cardPlay == old(p2.cardPlay)
    {
      ghost var drawn;
      ok, drawn, rejected := OpenCard();
      dealt := [];
      if !ok {
        return;
      }
      ghost var c1, d1 := deck.cards, deck.disc;
      ghost var hands := multiset(p1.hand) + multiset(p2.hand);
      assert hands == old(multiset(p1.hand) + multiset(p2.hand));
      ok, dealt := Deal(p1, p2, deck);
      if ok {
        DrawsToConcat(old(deck.cards), old(deck.disc), drawn, c1, d1, dealt, deck.cards, deck.disc);
        assert multiset(drawn) == multiset(rejected) + multiset{cardOpen};
      }
    }

    /**
     * `action_plus`: the penalty chain after `act` played a PL2 or PL4 card
     * (see `PenaltyChain`). The open card is not updated by counter plays.
     */
    method ActionPlus(act: Player, pas: Player, penalty: int) returns (ok: bool, ended: bool, ghost counters: seq<Card>, ghost kept: seq<Card>)
      requires act != pas
      requires penalty == 2 || penalty == 4
      modifies this, deck, act, pas
      ensures ChainEffect(count, penalty, ok, ended, counters, kept, old(act.hand), old(pas.hand), act.hand, pas.hand,
                          old(deck.cards), old(deck.disc), deck.cards, deck.disc)
      ensures !ok ==> NextDraw(deck.cards, deck.disc) == None
      ensures Held(act, pas, deck) == old(Held(act, pas, deck))
      ensures cardOpen == old(cardOpen) && act.cardPlay == old(act.cardPlay) && pas.cardPlay == old(pas.cardPlay)
    {
      count, ok, ended, counters, kept := PenaltyChain(act, pas, deck, penalty);
    }

    /**
     * `action`: `act`'s turn against `pas`. `count` starts at 0; the play or
     * draw (`PlayOrDraw`) has the outcome `step` of `PlayOutcome`; then an
     * emptied hand ends the turn; otherwise a PL4 or PL2 card just played
     * starts the penalty chain (`ActionPlus`), with `ended` and `kept` as
     * `ChainEffect` describes them. `played` tells whether a card was played;
     * the open card is then the card played, also when counters followed it.
     */
    method Action(act: Player, pas: Player, pick: nat)
      returns (ok: bool, played: bool, ghost step: Option<Outcome>, ghost ended: bool, ghost counters: seq<Card>, ghost kept: seq<Card>)
      requires act != pas
      modifies this, deck, act, pas
      ensures Held(act, pas, deck) == old(Held(act, pas, deck))
      ensures !ok ==> NextDraw(deck.cards, deck.disc) == None
      ensures ok && played ==> cardOpen == act.cardPlay
      ensures !played ==> cardOpen == old(cardOpen) && (ok ==> act.cardPlay == Placeholder)
      ensures count >= 0
      ensures count > 0 ==> played && IsDrawValue(act.cardPlay.value)
      ensures ok && played && IsDrawValue(act.cardPlay.value) && count == 0 ==>
        |act.hand| == 0 || |pas.hand| == 0
      ensures played ==> act.cardPlay in Held(act, pas, deck)
      ensures pas.cardPlay == old(pas.cardPlay)
      ensures step == PlayOutcome(old(act.hand), old(cardOpen), old(deck.cards), old(deck.disc), pick)
      ensures step.None? ==> !ok && !played && count == 0
      ensures step.Some? ==> played == step.value.played && act.cardPlay == step.value.cardPlay
      ensures step.Some? && count == 0 ==>
        && ok && act.hand == step.value.hand && pas.hand == old(pas.hand)
        && deck.cards == step.value.cards && deck.disc == step.value.disc
      ensures count >= 1 ==>
        && step.Some?
        && ChainEffect(count, PenaltyOf(act.cardPlay.value), ok, ended, counters, kept, step.value.hand, old(pas.hand), act.hand, pas.hand,
                       step.value.cards, step.value.disc, deck.cards, deck.disc)
      ensures PlayableIndices(old(act.hand), old(cardOpen)) != [] ==> played
      ensures played ==> Playable(act.cardPlay, old(cardOpen).color, old(cardOpen).value)
      ensures ok && !played ==> |act.hand| == old(|act.hand|) + 1 && act.hand[..old(|act.hand|)] == old(act.hand)
    {
      count := 0;
      step := PlayOutcome(act.hand, cardOpen, deck.cards, deck.disc, pick);
      ended, counters, kept := false, [], [];
      ghost var a, b, d := multiset(act.hand), multiset(pas.hand), deck.Contents();
      ghost var pool := a + b + d;
      PlayOutcomeConserves(act.hand, cardOpen, deck.cards, deck.disc, pick);
      ok, played := PlayOrDraw(act, deck, cardOpen, pick);
      if played {
        cardOpen := act.cardPlay;
      }
      Regroup(a, b, d, multiset(act.hand), deck.Contents());
      assert Held(act, pas, deck) == pool;
      assert played ==> act.cardPlay in pool;
      if ok && !CheckWin(act) && !CheckWin(pas) {
        ok, ended, counters, kept := PenaltyIfDrawCard(act, pas);
        assert Held(act, pas, deck) == pool;
      }
    }

    /**
     * The end of `action`: a penalty chain when the card just played is a PL4
     * or a PL2, with the effect `ChainEffect` describes; otherwise nothing changes.
     */
    method PenaltyIfDrawCard(act: Player, pas: Player)
      returns (ok: bool, ghost ended: bool, ghost counters: seq<Card>, ghost kept: seq<Card>)
      requires act != pas && count == 0
      modifies this, deck, act, pas
      ensures Held(act, pas, deck) == old(Held(act, pas, deck))
      ensures !ok ==> NextDraw(deck.cards, deck.disc) == None
      ensures cardOpen == old(cardOpen) && act.cardPlay == old(act.cardPlay) && pas.cardPlay == old(pas.cardPlay)
      ensures count >= 1 <==> IsDrawValue(act.cardPlay.value)
      ensures count >= 0
      ensures !IsDrawValue(act.cardPlay.value) ==>
        && ok && act.hand == old(act.hand) && pas.hand == old(pas.hand)
        && deck.cards == old(deck.cards) && deck.disc == old(deck.disc)
      ensures IsDrawValue(act.cardPlay.value) ==>
        ChainEffect(count, PenaltyOf(act.cardPlay.value), ok, ended, counters, kept, old(act.hand), old(pas.hand), act.hand, pas.hand,
                    old(deck.cards), old(deck.disc), deck.cards, deck.disc)
    {
      ok, ended, counters, kept := true, false, [], [];
      if act.cardPlay.value == Label("PL4") {
        ok, ended, counters, kept := ActionPlus(act, pas, 4);
      }
      if act.cardPlay.value == Label("PL2") {
        ok, ended, counters, kept := ActionPlus(act, pas, 2);
      }
    }
  }
}
