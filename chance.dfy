/**
 * The two uses of Python's `random` module by the game and the agents, with
 * the randomness supplied by the caller as a sequence of draws so that every
 * run is a value.
 */
module Chance {

  /** `random.choice(s)`: the element at a drawn position. */
  function Choice<T>(s: seq<T>, draw: nat): (r: T)
    requires s != []
    ensures r in s
  {
    s[draw % |s|]
  }

  /**
   * `random.shuffle(s)`: Fisher-Yates from the last position down, swapping
   * position `i` with a drawn position `j` in `0..i`. A draw that is missing
   * counts as 0. Every permutation of `s` is reachable for suitable draws.
   */
  method Shuffle<T>(s: seq<T>, draws: seq<nat>) returns (r: seq<T>)
    ensures |r| == |s|
    ensures multiset(r) == multiset(s)
  {
    r := s;
    var i := |r| - 1;
    var k := 0;
    while i > 0
      invariant -1 <= i < |s|
      invariant |r| == |s|
      invariant multiset(r) == multiset(s)
    {
      var d := if k < |draws| then draws[k] else 0;
      var j := d % (i + 1);
      r := Swap(r, i, j);
      i := i - 1;
      k := k + 1;
    }
  }

  /** The list after `x[i], x[j] = x[j], x[i]`. */
  function Swap<T>(s: seq<T>, i: nat, j: nat): (r: seq<T>)
    requires i < |s| && j < |s|
    ensures |r| == |s| && r[i] == s[j] && r[j] == s[i]
    ensures forall k :: 0 <= k < |s| && k != i && k != j ==> r[k] == s[k]
    ensures multiset(r) == multiset(s)
  {
    var t := s[i := s[j]][j := s[i]];
    assert t == s[i := s[j]][j := s[i]];
    t
  }
}
