/**
 * The player operations the turn engine relies on. players.py is not part of
 * this model; a player is reduced to its name, its hand and the card it last
 * played, and its operations to their effect on the hand and the deck. Which
 * playable card a player chooses (through the agent or at random) is an input
 * `pick` that selects among the playable cards.
 */
module Players {
  import opened Basics
  import opened Cards

  /** The positions of the cards of `hand` playable on `open`, in increasing order (`hand_play`). */
  function PlayableIndices(hand: seq<Card>, open: Card): (r: seq<nat>)
    ensures forall i :: i in r <==> 0 <= i < |hand| && Playable(hand[i], open.color, open.value)
    ensures forall j, k :: 0 <= j < k < |r| ==> r[j] < r[k]
  {
    PlayableFrom(hand, open, 0)
  }

  function PlayableFrom(hand: seq<Card>, open: Card, from: nat): (r: seq<nat>)
    requires from <= |hand|
    ensures forall i :: i in r <==> from <= i < |hand| && Playable(hand[i], open.color, open.value)
    ensures forall j, k :: 0 <= j < k < |r| ==> from <= r[j] < r[k]
    decreases |hand| - from
  {
    if from == |hand| then []
    else
      var rest := PlayableFrom(hand, open, from + 1);
      assert forall k :: 0 <= k < |rest| ==> rest[k] in rest;
      (if Playable(hand[from], open.color, open.value) then [from] else []) + rest
  }

  /** The position of the card a player with choice `pick` plays. */
  function Chosen(hand: seq<Card>, open: Card, pick: nat): (i: nat)
    requires PlayableIndices(hand, open) != []
    ensures i < |hand| && Playable(hand[i], open.color, open.value)
  {
    var ps := PlayableIndices(hand, open);
    assert ps[pick % |ps|] in ps;
    ps[pick % |ps|]
  }

  /** `hand` without its `i`-th card. */
  function Remove(hand: seq<Card>, i: nat): (r: seq<Card>)
    requires i < |hand|
    ensures |r| == |hand| - 1
    ensures multiset(r) + multiset{hand[i]} == multiset(hand)
  {
    assert hand == hand[..i] + [hand[i]] + hand[i + 1..];
    hand[..i] + hand[i + 1..]
  }

  /** With a single playable card, every choice picks it. */
  lemma ChosenSingle(hand: seq<Card>, open: Card, pick: nat)
    requires |PlayableIndices(hand, open)| == 1
    ensures Chosen(hand, open, pick) == PlayableIndices(hand, open)[0]
  {
    assert pick % 1 == 0;
  }

  /** Removing the card just appended gives the hand back. */
  lemma RemoveLast(hand: seq<Card>, c: Card)
    ensures Remove(hand + [c], |hand|) == hand
  {
    assert (hand + [c])[..|hand|] == hand;
  }

  /** A card drawn onto the end of the hand adds at most its own position to the playable ones. */
  lemma {:induction false} PlayableSnoc(hand: seq<Card>, c: Card, open: Card, from: nat)
    requires from <= |hand|
    ensures PlayableFrom(hand + [c], open, from)
         == PlayableFrom(hand, open, from) + (if Playable(c, open.color, open.value) then [|hand|] else [])
    decreases |hand| - from
  {
    var t := if Playable(c, open.color, open.value) then [|hand|] else [];
    if from < |hand| {
      assert (hand + [c])[from] == hand[from];
      var h := if Playable(hand[from], open.color, open.value) then [from] else [];
      PlayableSnoc(hand, c, open, from + 1);
      calc {
        PlayableFrom(hand + [c], open, from);
        h + PlayableFrom(hand + [c], open, from + 1);
        h + (PlayableFrom(hand, open, from + 1) + t);
        (h + PlayableFrom(hand, open, from + 1)) + t;
      }
    } else {
      assert (hand + [c])[from] == c;
      assert PlayableFrom(hand + [c], open, from + 1) == [];
      assert PlayableFrom(hand, open, from) == [];
    }
  }

  /** When no card was playable, only a newly drawn card can be. */
  lemma OnlyDrawnCardPlayable(hand: seq<Card>, c: Card, open: Card)
    requires PlayableIndices(hand, open) == []
    ensures PlayableIndices(hand + [c], open) == if Playable(c, open.color, open.value) then [|hand|] else []
  {
    PlayableSnoc(hand, c, open, 0);
  }

  class Player {
    const name: string
    var hand: seq<Card>
    /** The card played last (`card_play`); `Placeholder` when a turn ended without a play. */
    var cardPlay: Card

    constructor (name: string)
      ensures this.name == name && hand == [] && cardPlay == Placeholder
    {
      this.name := name;
      hand := [];
      cardPlay := Placeholder;
    }

    /** `draw`: the deck's next card goes to the end of the hand; `false` when both piles are empty. */
    method Draw(deck: Deck) returns (ok: bool)
      modifies this, deck
      ensures ok <==> old(deck.Contents()) != multiset{}
      ensures ok ==> |hand| == old(|hand|) + 1 && hand[..|hand| - 1] == old(hand)
      ensures !ok ==> hand == old(hand) && deck.cards == old(deck.cards) && deck.disc == old(deck.disc)
      ensures NextDraw(old(deck.cards), old(deck.disc))
           == if ok then Some((hand[|hand| - 1], deck.cards, deck.disc)) else None
      ensures multiset(hand) + deck.Contents() == old(multiset(hand) + deck.Contents())
      ensures cardPlay == old(cardPlay)
    {
      var r := deck.DrawFromDeck();
      ok := r.Some?;
      if ok {
        hand := hand + [r.value];
        assert hand[..|hand| - 1] == old(hand);
      }
    }

    /** `play_agent` / `play_rand`: the chosen playable card leaves the hand for the discard pile. */
    method Play(deck: Deck, open: Card, pick: nat)
      requires PlayableIndices(hand, open) != []
      modifies this, deck
      ensures var i := Chosen(old(hand), open, pick);
        && cardPlay == old(hand)[i]
        && hand == Remove(old(hand), i)
      ensures deck.disc == old(deck.disc) + [cardPlay] && deck.cards == old(deck.cards)
      ensures multiset(hand) + deck.Contents() == old(multiset(hand) + deck.Contents())
    {
      var i := Chosen(hand, open, pick);
      cardPlay := hand[i];
      hand := Remove(hand, i);
      deck.Discard(cardPlay);
    }

    /** `play_counter`: the named card leaves the hand for the discard pile; `card_play` is kept. */
    method PlayCounter(deck: Deck, i: nat)
      requires i < |hand|
      modifies this, deck
      ensures hand == Remove(old(hand), i)
      ensures deck.disc == old(deck.disc) + [old(hand)[i]] && deck.cards == old(deck.cards)
      ensures multiset(hand) + deck.Contents() == old(multiset(hand) + deck.Contents())
      ensures cardPlay == old(cardPlay)
    {
      var c := hand[i];
      hand := Remove(hand, i);
      deck.Discard(c);
    }
  }
}
