/** `check_win` of utils.py. */
module Utils {
  import opened Players

  /** A player has won when their hand is empty; any other hand answers false (`None`). */
  predicate CheckWin(p: Player)
    reads p
  {
    |p.hand| == 0
  }

  /** The verdict depends only on the number of cards held, not on which cards. */
  lemma CheckWinByLength(p: Player, q: Player)
    requires |p.hand| == |q.hand|
    ensures CheckWin(p) == CheckWin(q)
  {
  }
}
