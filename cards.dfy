/**
 * Cards and the deck (cards.py): the playability rule of a card against the
 * open card, the composition of the 108-card deck, and the deck's two list
 * buffers, a draw pile popped from its end and a discard pile that becomes
 * the draw pile, unshuffled, when the draw pile runs out.
 */
module Cards {
  import opened Basics
  import Chance

  /** The colour strings of the source; `NoColor` is the integer 0 of the placeholder `Card(0, 0)`. */
  datatype Color = Red | Gre | Blu | Yel | Wild | NoColor

  /** A card value is an integer (0-9) or a label string ("SKI", "REV", "PL2", "PL4", "COL"). */
  datatype Value = Num(n: int) | Label(name: string)

  datatype Card = Card(color: Color, value: Value)

  /** `Card(0, 0)`, what a player "plays" when the turn ends without a play. */
  const Placeholder: Card := Card(NoColor, Num(0))

  const Colors: seq<Color> := [Red, Gre, Blu, Yel]
  const SpecialValues: seq<Value> := [Label("SKI"), Label("REV"), Label("PL2")]
  const WildValues: seq<Value> := [Label("COL"), Label("PL4")]

  /**
   * `Card.evaluate_card`: true when the colour matches, the value matches, or
   * the card is a wild card (the source returns `None`, which is falsy, otherwise).
   */
  predicate Playable(c: Card, openColor: Color, openValue: Value) {
    c.color == openColor || c.value == openValue || c.value in WildValues
  }

  /** A wild card can be played on any open card. */
  lemma WildPlayableOnAnything(c: Card, openColor: Color, openValue: Value)
    requires c.value == Label("COL") || c.value == Label("PL4")
    ensures Playable(c, openColor, openValue)
  {
  }

  /** A card that matches neither colour nor value and is not wild cannot be played. */
  lemma UnmatchedNotPlayable(c: Card, openColor: Color, openValue: Value)
    requires c.color != openColor && c.value != openValue
    requires c.value != Label("COL") && c.value != Label("PL4")
    ensures !Playable(c, openColor, openValue)
  {
  }

  // ---------------------------------------------------------------------------
  // Composition of the deck (Deck.build)
  // ---------------------------------------------------------------------------

  /** `range(lo, hi)` as card values. */
  function Digits(lo: int, hi: int): (r: seq<Value>)
    ensures |r| == if lo >= hi then 0 else hi - lo
  {
    if lo >= hi then [] else seq(hi - lo, i => Num(lo + i))
  }

  /** `[Card(c, v) for v in vs]`. */
  function Row(c: Color, vs: seq<Value>): (r: seq<Card>)
    ensures |r| == |vs|
  {
    seq(|vs|, i requires 0 <= i < |vs| => Card(c, vs[i]))
  }

  /** `[Card(c, v) for c in cs for v in vs]`. */
  function Grid(cs: seq<Color>, vs: seq<Value>): seq<Card> {
    if cs == [] then [] else Row(cs[0], vs) + Grid(cs[1..], vs)
  }

  /** The list `s * k`. */
  function Repeat<T>(s: seq<T>, k: nat): seq<T> {
    if k == 0 then [] else s + Repeat(s, k - 1)
  }

  /** The list that `Deck.build` appends: normal, action, zero and wild cards, in that order. */
  function StandardDeck(): seq<Card> {
    Repeat(Grid(Colors, Digits(1, 10)), 2)
    + Repeat(Grid(Colors, SpecialValues), 2)
    + Grid(Colors, [Num(0)])
    + Repeat(Grid([Wild], WildValues), 4)
  }

  /**
   * Independent statement of the composition: one zero per colour, two of each
   * of 1-9, SKI, REV and PL2 per colour, four wild COL and four wild PL4.
   */
  function Copies(c: Card): nat {
    if c.color in Colors then
      if c.value == Num(0) then 1
      else if c.value.Num? && 1 <= c.value.n <= 9 then 2
      else if c.value in SpecialValues then 2
      else 0
    else if c.color == Wild && c.value in WildValues then 4
    else 0
  }

  lemma DigitsFacts(lo: int, hi: int)
    ensures Distinct(Digits(lo, hi))
    ensures forall v :: v in Digits(lo, hi) <==> v.Num? && lo <= v.n < hi
  {
    var d := Digits(lo, hi);
    forall v: Value | v.Num? && lo <= v.n < hi ensures v in d {
      assert d[v.n - lo] == v;
    }
  }

  lemma {:induction false} RowCount(col: Color, vs: seq<Value>, c: Card)
    requires Distinct(vs)
    ensures multiset(Row(col, vs))[c] == if c.color == col && c.value in vs then 1 else 0
  {
    if vs != [] {
      assert Row(col, vs) == [Card(col, vs[0])] + Row(col, vs[1..]);
      assert Distinct(vs[1..]) by {
        forall i, j | 0 <= i < j < |vs| - 1 ensures vs[1..][i] != vs[1..][j] {
          assert vs[1..][i] == vs[i + 1] && vs[1..][j] == vs[j + 1];
        }
      }
      RowCount(col, vs[1..], c);
      assert c.value in vs <==> c.value == vs[0] || c.value in vs[1..] by {
        assert vs == [vs[0]] + vs[1..];
      }
      if c.value == vs[0] {
        assert vs[0] !in vs[1..];
      }
    }
  }

  lemma {:induction false} GridLength(cs: seq<Color>, vs: seq<Value>)
    ensures |Grid(cs, vs)| == |cs| * |vs|
  {
    if cs != [] {
      GridLength(cs[1..], vs);
      assert |Grid(cs, vs)| == |vs| + (|cs| - 1) * |vs|;
      assert |vs| + (|cs| - 1) * |vs| == |cs| * |vs|;
    }
  }

  lemma {:induction false} GridCount(cs: seq<Color>, vs: seq<Value>, c: Card)
    requires Distinct(cs) && Distinct(vs)
    ensures multiset(Grid(cs, vs))[c] == if c.color in cs && c.value in vs then 1 else 0
  {
    if cs != [] {
      var rest := cs[1..];
      assert Distinct(rest) by {
        forall i, j | 0 <= i < j < |rest| ensures rest[i] != rest[j] {
          assert rest[i] == cs[i + 1] && rest[j] == cs[j + 1];
        }
      }
      RowCount(cs[0], vs, c);
      GridCount(rest, vs, c);
      assert Grid(cs, vs) == Row(cs[0], vs) + Grid(rest, vs);
      assert cs == [cs[0]] + rest;
      assert c.color in cs <==> c.color == cs[0] || c.color in rest;
      assert cs[0] !in rest by {
        forall j | 0 <= j < |rest| ensures rest[j] != cs[0] {
          assert rest[j] == cs[j + 1];
        }
      }
    }
  }

  lemma {:induction false} RepeatCount<T>(s: seq<T>, k: nat, x: T)
    ensures |Repeat(s, k)| == k * |s|
    ensures multiset(Repeat(s, k))[x] == k * multiset(s)[x]
  {
    if k > 0 {
      RepeatCount(s, k - 1, x);
      assert |Repeat(s, k)| == |s| + (k - 1) * |s|;
      assert multiset(Repeat(s, k))[x] == multiset(s)[x] + (k - 1) * multiset(s)[x];
    }
  }

  lemma NormalCardsCount(c: Card)
    ensures |Repeat(Grid(Colors, Digits(1, 10)), 2)| == 72
    ensures multiset(Repeat(Grid(Colors, Digits(1, 10)), 2))[c]
         == if c.color in Colors && c.value.Num? && 1 <= c.value.n <= 9 then 2 else 0
  {
    var ds := Digits(1, 10);
    DigitsFacts(1, 10);
    assert |ds| == 9;
    assert c.value in ds <==> c.value.Num? && 1 <= c.value.n <= 9;
    GridLength(Colors, ds);
    GridCount(Colors, ds, c);
    RepeatCount(Grid(Colors, ds), 2, c);
  }

  lemma SpecialCardsCount(c: Card)
    ensures |Repeat(Grid(Colors, SpecialValues), 2)| == 24
    ensures multiset(Repeat(Grid(Colors, SpecialValues), 2))[c]
         == if c.color in Colors && c.value in SpecialValues then 2 else 0
  {
    GridLength(Colors, SpecialValues);
    GridCount(Colors, SpecialValues, c);
    RepeatCount(Grid(Colors, SpecialValues), 2, c);
  }

  lemma ZeroCardsCount(c: Card)
    ensures |Grid(Colors, [Num(0)])| == 4
    ensures multiset(Grid(Colors, [Num(0)]))[c] == if c.color in Colors && c.value == Num(0) then 1 else 0
  {
    GridLength(Colors, [Num(0)]);
    GridCount(Colors, [Num(0)], c);
  }

  lemma WildCardsCount(c: Card)
    ensures |Repeat(Grid([Wild], WildValues), 4)| == 8
    ensures multiset(Repeat(Grid([Wild], WildValues), 4))[c]
         == if c.color == Wild && c.value in WildValues then 4 else 0
  {
    GridLength([Wild], WildValues);
    GridCount([Wild], WildValues, c);
    RepeatCount(Grid([Wild], WildValues), 4, c);
  }

  /** `Deck.build` appends exactly 108 cards, with the multiplicities given by `Copies`. */
  lemma StandardDeckComposition(c: Card)
    ensures |StandardDeck()| == 108
    ensures multiset(StandardDeck())[c] == Copies(c)
  {
    NormalCardsCount(c);
    SpecialCardsCount(c);
    ZeroCardsCount(c);
    WildCardsCount(c);
  }

  /** No card of the standard composition has the value "SKIP". */
  lemma NoSkipValue(c: Card)
    requires Copies(c) > 0
    ensures c.value != Label("SKIP")
  {
    assert c.value.Num? || c.value in SpecialValues + WildValues;
    assert forall v :: v in SpecialValues + WildValues ==> v.Label? && |v.name| == 3;
    assert |Label("SKIP").name| == 4;
  }

  /** The deck's skip card is labelled "SKI": no card of a new deck carries "SKIP". */
  lemma DeckHasNoSkipValue(c: Card)
    requires c in StandardDeck()
    ensures c.value != Label("SKIP")
  {
    StandardDeckComposition(c);
    NoSkipValue(c);
  }

  // ---------------------------------------------------------------------------
  // The deck's two piles
  // ---------------------------------------------------------------------------

  /**
   * What a draw does to the piles `cards` (top last) and `disc`: the card it
   * returns and the piles it leaves, or `None` when both piles are empty.
   */
  function NextDraw(cards: seq<Card>, disc: seq<Card>): (r: Option<(Card, seq<Card>, seq<Card>)>)
    ensures r.None? <==> cards == [] && disc == []
    ensures r.Some? ==> |r.value.1| + |r.value.2| + 1 == |cards| + |disc|
  {
    if cards != [] then Some((cards[|cards| - 1], cards[..|cards| - 1], disc))
    else if disc != [] then Some((disc[|disc| - 1], disc[..|disc| - 1], []))
    else None
  }

  /** Drawing `drawn`, in order, takes the piles `(c, d)` to `(c', d')`. */
  ghost predicate DrawsTo(c: seq<Card>, d: seq<Card>, drawn: seq<Card>, c': seq<Card>, d': seq<Card>)
    decreases |drawn|
  {
    if drawn == [] then c == c' && d == d'
    else match NextDraw(c, d)
      case None => false
      case Some((x, c1, d1)) => x == drawn[0] && DrawsTo(c1, d1, drawn[1..], c', d')
  }

  /** One more draw extends a run of draws. */
  lemma {:induction false} DrawsToSnoc(c: seq<Card>, d: seq<Card>, drawn: seq<Card>, c1: seq<Card>, d1: seq<Card>,
                                       x: Card, c2: seq<Card>, d2: seq<Card>)
    requires DrawsTo(c, d, drawn, c1, d1)
    requires NextDraw(c1, d1) == Some((x, c2, d2))
    ensures DrawsTo(c, d, drawn + [x], c2, d2)
    decreases |drawn|
  {
    if drawn == [] {
      assert [] + [x] == [x];
      assert [x][1..] == [];
    } else {
      var next := NextDraw(c, d);
      assert next.Some?;
      var (y, c0, d0) := next.value;
      assert (drawn + [x])[0] == drawn[0];
      assert (drawn + [x])[1..] == drawn[1..] + [x];
      DrawsToSnoc(c0, d0, drawn[1..], c1, d1, x, c2, d2);
    }
  }

  /** A draw removes one card from the piles and returns it. */
  lemma NextDrawConserves(c: seq<Card>, d: seq<Card>)
    ensures NextDraw(c, d).None? <==> multiset(c) + multiset(d) == multiset{}
    ensures NextDraw(c, d).Some? ==>
      var (x, c1, d1) := NextDraw(c, d).value;
      multiset{x} + multiset(c1) + multiset(d1) == multiset(c) + multiset(d)
  {
    if c != [] {
      assert c == c[..|c| - 1] + [c[|c| - 1]];
    } else if d != [] {
      assert d == d[..|d| - 1] + [d[|d| - 1]];
    }
  }

  /** Two runs of draws, one after the other, are one run. */
  lemma {:induction false} DrawsToConcat(c: seq<Card>, d: seq<Card>, s: seq<Card>, c1: seq<Card>, d1: seq<Card>,
                                         t: seq<Card>, c2: seq<Card>, d2: seq<Card>)
    requires DrawsTo(c, d, s, c1, d1) && DrawsTo(c1, d1, t, c2, d2)
    ensures DrawsTo(c, d, s + t, c2, d2)
    decreases |s|
  {
    if s == [] {
      assert s + t == t;
    } else {
      var (x, c0, d0) := NextDraw(c, d).value;
      DrawsToConcat(c0, d0, s[1..], c1, d1, t, c2, d2);
      assert (s + t)[0] == x && (s + t)[1..] == s[1..] + t;
    }
  }

  /** A run of draws takes exactly the drawn cards out of the piles. */
  lemma {:induction false} DrawsToConserves(c: seq<Card>, d: seq<Card>, drawn: seq<Card>, c': seq<Card>, d': seq<Card>)
    requires DrawsTo(c, d, drawn, c', d')
    ensures multiset(drawn) + multiset(c') + multiset(d') == multiset(c) + multiset(d)
    decreases |drawn|
  {
    if drawn != [] {
      NextDrawConserves(c, d);
      var (x, c1, d1) := NextDraw(c, d).value;
      DrawsToConserves(c1, d1, drawn[1..], c', d');
      assert drawn == [x] + drawn[1..];
      calc {
        multiset(drawn) + multiset(c') + multiset(d');
        multiset{x} + (multiset(drawn[1..]) + multiset(c') + multiset(d'));
        multiset{x} + (multiset(c1) + multiset(d1));
        multiset(c) + multiset(d);
      }
    }
  }

  class Deck {
    /** The draw pile; its last element is the top. */
    var cards: seq<Card>
    /** The discard pile, in the order cards were discarded. */
    var disc: seq<Card>

    /** Every card held by the two piles. */
    ghost function Contents(): multiset<Card>
      reads this
    {
      multiset(cards) + multiset(disc)
    }

    /**
     * `Deck.__init__`: empty piles, then `build`, then `shuffle`; the draw pile
     * holds each card as many times as `Copies` says.
     */
    constructor (draws: seq<nat>)
      ensures |cards| == 108 && forall c :: multiset(cards)[c] == Copies(c)
      ensures disc == []
    {
      cards := [];
      disc := [];
      new;
      Build();
      StandardDeckComposition(Placeholder);
      Shuffle(draws);
      forall c ensures multiset(cards)[c] == Copies(c) {
        StandardDeckComposition(c);
      }
    }

    /** `Deck.build`: append the standard cards to the draw pile. */
    method Build()
      modifies this
      ensures cards == old(cards) + StandardDeck()
      ensures disc == old(disc)
    {
      AppendAll(StandardDeck());
    }

    /** The loop of `Deck.build`: `self.cards.append(card)` for each card, in order. */
    method AppendAll(all: seq<Card>)
      modifies this
      ensures cards == old(cards) + all
      ensures disc == old(disc)
    {
      for i := 0 to |all|
        invariant cards == old(cards) + all[..i]
        invariant disc == old(disc)
      {
        assert all[..i + 1] == all[..i] + [all[i]];
        cards := cards + [all[i]];
      }
      assert all[..|all|] == all;
    }

    /** `Deck.discard`: the card goes on the end of the discard pile. */
    method Discard(c: Card)
      modifies this
      ensures disc == old(disc) + [c]
      ensures cards == old(cards)
    {
      disc := disc + [c];
    }

    /** `Deck.shuffle`: permutes the draw pile only. */
    method Shuffle(draws: seq<nat>)
      modifies this
      ensures |cards| == old(|cards|) && multiset(cards) == old(multiset(cards))
      ensures disc == old(disc)
    {
      cards := Chance.Shuffle(cards, draws);
    }

    /**
     * `Deck.draw_from_deck`: pop the end of the draw pile; an empty draw pile is
     * first replaced by the discard pile, in its order and without a shuffle.
     * With both piles empty the pop fails (`None`), leaving both piles empty.
     */
    method DrawFromDeck() returns (r: Option<Card>)
      modifies this
      ensures old(cards) != [] ==>
        && r == Some(old(cards)[|old(cards)| - 1])
        && cards == old(cards)[..|old(cards)| - 1]
        && disc == old(disc)
      ensures old(cards) == [] && old(disc) != [] ==>
        && r == Some(old(disc)[|old(disc)| - 1])
        && cards == old(disc)[..|old(disc)| - 1]
        && disc == []
      ensures old(cards) == [] && old(disc) == [] ==> r == None && cards == [] && disc == []
      ensures r.None? <==> old(Contents()) == multiset{}
      ensures r.Some? ==> multiset{r.value} + Contents() == old(Contents())
      ensures r.Some? ==> |cards| + |disc| + 1 == old(|cards| + |disc|)
      ensures NextDraw(old(cards), old(disc)) == if r.None? then None else Some((r.value, cards, disc))
    {
      if |cards| == 0 {
        cards := disc;
        disc := [];
      }
      if |cards| == 0 {
        return None;
      }
      var top := cards[|cards| - 1];
      assert cards == cards[..|cards| - 1] + [top];
      cards := cards[..|cards| - 1];
      r := Some(top);
    }
  }
}
