# UNO with tabular learners, in Dafny

This project models the core of a two-player UNO simulator in which player_1
is a reinforcement learner, using either Q-learning or Monte Carlo control,
and player_2 plays at random. It covers:

- **Cards and the deck** (`cards.dfy`, module `Cards`). This covers the
  playability rule `evaluate_card` and the 108-card deck that `build` produces.
  It also covers the deck's two list buffers: `cards` is popped from its end,
  and `cards_disc` becomes the draw pile, unshuffled, once `cards` is empty.
- **The learner's state space** (`state_space.dfy`, module `StateSpace`;
  `state_count.dfy`, module `StateCount`). This covers `states()`, the filtered
  product of a colour and sixteen card counts, and proves it has 270000 members.
  It also covers `actions()` (nine labels) and `rewards()`, which gives 1 for
  every action of a state holding no card and 0 otherwise.
- **The agents** (`agents.dfy`, module `Agents`). The tables of `Agent`, with
  epsilon-greedy `step`. The Q-learning `update` is the Bellman step on the
  previous pair. The Monte Carlo `update` moves every pair of the episode
  toward the final reward and clears the episode.
- **The player** (`players.dfy`, module `Players`). players.py is not part of
  this model. Its effect, as the turn logic relies on it, is modelled as a
  hand plus the last card played:
  - a draw appends one card
  - a play removes the chosen playable card and discards it
  - a counter play removes a given card and discards it
- **`check_win`** (`utils.dfy`, module `Utils`).
- **A turn** (`turn.dfy`, module `Turns`):
  - set-up: the open card is redrawn until it is a number card, then seven cards are dealt to each player in alternation
  - `action`: play a playable card; otherwise draw one card and play it if it is playable, or end with the placeholder `Card(0, 0)`
  - the win checks
  - the PL2/PL4 counter chain of `action_plus`, with its penalty draw for the player who could not counter
- **The game and the tournament** (`game.dfy`, module `Games`). The game loop
  decides the active player by the parity of `turn_no`, grants extra turns and
  stops at the first empty hand. It then updates the learner once. A
  tournament plays a series of games and alternates the starting player.

Randomness, the players' choices and the learner's view of the final state are
inputs:
- A shuffle is a Fisher-Yates pass driven by a sequence of draws.
- `random.random()` is a real `u`.
- `random.choice` picks by a draw `d`.
- Each turn's choice of card is a number `pick` among the playable cards.
- A game's script gives one pick per turn. The length of that script bounds the game loop.

Drawing from an empty deck with an empty discard pile raises `IndexError` in the
source. Here it is an `ok = false` result, which is passed upward and ends the
game without a winner.

The game loop grants an extra turn after a card whose value is "REV" or
"SKIP", but the deck labels its skip cards "SKI". So a skip card
does not grant an extra turn (`Games.OnlyReverseKeepsTurn`). The model keeps the
comparison with "SKIP" exactly as written.

## Model

| member | source | states |
|---|---|---|
| Chance.Choice | agents.py:78 | `random.choice` returns an element of the list |
| Chance.Shuffle | cards.py:122-126 | the shuffled list is a permutation of the original |
| Cards.Playable | cards.py:54-59 | the test of `evaluate_card`: the card matches the open colour or value, or is a wild card (its consequences are the two lemmas below) |
| Cards.WildPlayableOnAnything | cards.py:54-59 | a COL or PL4 card is playable on any open card |
| Cards.UnmatchedNotPlayable | cards.py:54-59 | a card matching neither colour nor value, and not wild, is not playable |
| Cards.StandardDeck | cards.py:100-109 | the list `build` appends: normal, action, zero and wild cards, in that order (its composition is `StandardDeckComposition`) |
| Cards.StandardDeckComposition | cards.py:96-111 | the built deck has 108 cards, with 1 zero per colour, 2 of each 1-9, SKI, REV and PL2 per colour, and 4 each of COL and PL4 |
| Cards.NoSkipValue | cards.py:105 | no card of the deck has the value "SKIP" |
| Cards.DeckHasNoSkipValue | cards.py:96-111 | no card listed in the built deck has the value "SKIP" |
| Cards.NextDraw | cards.py:128-140 | a draw on values fails exactly when both piles are empty, and otherwise leaves one card fewer in the two piles |
| Cards.NextDrawConserves | cards.py:128-140 | a draw fails exactly when both piles are empty; otherwise it moves one card out of the piles and loses none |
| Cards.DrawsToConserves | cards.py:128-140 | a run of draws takes out exactly the cards drawn |
| Cards.Deck.constructor | cards.py:87-94 | a new deck holds each card as many times as the standard composition says, 108 in all, with an empty discard pile |
| Cards.Deck.Build | cards.py:96-111 | `build` appends exactly the standard deck to the draw pile |
| Cards.Deck.AppendAll | cards.py:110-111 | the loop of `build` appends the given cards to the draw pile in order and leaves the discard pile alone |
| Cards.Deck.Discard | cards.py:113-120 | the card is appended to the discard pile and the draw pile is untouched |
| Cards.Deck.Shuffle | cards.py:122-126 | the draw pile keeps its cards and its length |
| Cards.Deck.DrawFromDeck | cards.py:128-140 | pops the top of the draw pile; if it is empty, it pops from the discard pile, which becomes the draw pile; no card is lost, and the result is None only when both piles are empty |
| StateSpace.BuildStates | state_action_reward.py:6-57 | `states()` equals the filtered product of the ranges |
| StateSpace.KeepLoop | state_action_reward.py:44-55 | the filtering loop keeps exactly the tuples whose held counts cover their playable counts, in order |
| StateSpace.StatesOccurrences | state_action_reward.py:6-57 | every legal state appears exactly once and nothing else appears |
| StateSpace.StatesAreLegal | state_action_reward.py:6-57 | a tuple is in `states()` if and only if it is in range and passes the seven inequalities |
| StateCount.StatesCount | state_action_reward.py:6-57 | `states()` has 270000 members |
| StateSpace.Actions | state_action_reward.py:60-71 | the nine action labels in the source's order (their completeness is `ActionsComplete`) |
| StateSpace.ActionsComplete | state_action_reward.py:60-71 | nine distinct actions, and every action is among them |
| StateSpace.RewardOf | state_action_reward.py:91-95 | the reward of a state is 0 or 1 |
| StateSpace.RewardMeaning | state_action_reward.py:91-95 | for a legal state, the reward is 1 exactly when no card is held, and 0 exactly when some card is held |
| StateSpace.BuildRewards | state_action_reward.py:74-104 | the table has one entry per (state, action), holding the reward of the state |
| StateSpace.RewardIgnoresAction | state_action_reward.py:93-95 | a state's reward is the same for every action |
| Agents.Feasible | agents.py:77 | the possible actions are exactly those whose flag is not 0 |
| Agents.TowardBetween | agents.py:196 | a step size in [0, 1] moves a value between itself and its target |
| Agents.QTarget | agents.py:104-113 | the Bellman step: toward the reward plus the current pair's value when the reward is 0, toward the reward alone otherwise (its properties are the three lemmas below) |
| Agents.QTargetBounded | agents.py:109-116 | with values in [0, 1], a reward of 0 or 1 and a step size in [0, 1], the new value stays in [0, 1] |
| Agents.QTargetBootstraps | agents.py:109-112 | with reward 0, the update moves the previous value toward the current pair's value |
| Agents.QTargetTerminalExample | agents.py:113-116 | a nonzero reward ignores the current pair's value (0.2 moves to 0.28 with reward 1 and step 0.1) |
| Agents.StateList | agents.py:31 | the agent's state list holds each legal state once, 270000 in all |
| Agents.InitialTables | agents.py:33-41 | the reward, q and visit tables share one key per (state, action); q and visit start at zero |
| Agents.Tables.constructor | agents.py:22-41 | `Agent.__init__` keeps the parameters and builds valid tables with values in [0, 1] |
| Agents.Tables.GreedyScan | agents.py:83-88 | the scan returns the last action of maximal value in the order (ties go to the later action) |
| Agents.Tables.Choose | agents.py:74-88 | exploration returns `random.choice` of the feasible actions; exploitation returns a feasible action of maximal value, the last one in the shuffled order; no action exactly when none is feasible |
| Agents.QLearningAgent.constructor | agents.py:49-58 | a fresh agent with zero tables and no previous pair |
| Agents.QLearningAgent.Step | agents.py:60-90 | the epsilon-greedy choice, as for `Choose` |
| Agents.QLearningAgent.Update | agents.py:92-123 | before the first update only the previous pair is set; afterwards the previous pair's value takes the Bellman step and its visit count grows by one; the table keys are kept and the tables stay valid and bounded |
| Agents.MonteCarloAgent.constructor | agents.py:131-141 | a fresh agent with zero tables and empty episode lists |
| Agents.MonteCarloAgent.Step | agents.py:143-181 | the epsilon-greedy choice; the chosen pair's visit count grows by one, it is appended to `q_seen`, and it is added to the episode lists only when not seen before |
| Agents.MonteCarloAgent.Record | agents.py:173-179 | the chosen pair's visit count grows by one, it is appended to `q_seen`, and it joins the episode lists only when not seen before; `q` is unchanged |
| Agents.MonteCarloAgent.Update | agents.py:183-201 | every pair seen in the episode moves toward the final reward by the step size; every other value is kept; the episode lists are cleared |
| Players.PlayableIndices | turn.py:58 | `evaluate_hand` lists, in order, exactly the positions of the playable cards |
| Players.OnlyDrawnCardPlayable | turn.py:73-79 | with no playable card, after a draw only the drawn card can be playable |
| Players.Player.Draw | turn.py:43-44 | a draw appends the deck's next card to the hand, or fails and changes nothing when both piles are empty |
| Players.Player.Play | turn.py:66-68 | the chosen playable card leaves the hand, becomes `card_play` and is discarded |
| Players.Player.PlayCounter | turn.py:125 | the counter card leaves the hand and is discarded |
| Utils.CheckWin | utils.py:40-51 | a player has won exactly when their hand is empty |
| Utils.CheckWinByLength | utils.py:40-51 | the win check depends only on the number of cards held |
| Turns.FindValue | turn.py:123-128 | finds the first card of the given value, or reports that there is none |
| Turns.Counter | turn.py:123-128 | a counter plays the first card of the penalty value; if there is none, nothing changes |
| Turns.CounterRound | turn.py:120-141 | one pass of the `while hit` loop: the passive player counters, then, if it did, the active player; the counters leave the hands for the discard pile; the loop goes on exactly when both countered and nobody has won; otherwise the side to answer holds no card of the value |
| Turns.ChainStep | turn.py:120-144 | a chain followed by one more pass is a chain: the passive player's counters stay at the even positions and the active player's at the odd ones |
| Turns.ChainConserves | turn.py:125 | the counters only move from the hands to the discard pile: hands and piles together keep every card |
| Turns.CounterChain | turn.py:117-144 | the `count - 1` counters of a chain all have the penalty value and go, in order, onto the discard pile, the draw pile untouched; the passive player's hand loses exactly the counters at even positions and the active player's those at odd positions; the chain stops at a win or when the player to answer has no card of the value; no card is lost |
| Turns.PenaltyOf | turn.py:98-103 | the penalty of a PL2 or PL4 card is 2 or 4, and `"PL" + str(penalty)` gives the card's value back |
| Turns.PenaltyChain | turn.py:117-154 | `ChainEffect` of the counters and the draws on both hands and both piles; the player who failed to answer draws from the piles the counters left; no card is lost |
| Turns.DrawMany | turn.py:149-154 | a run of draws appends to one hand exactly the cards `DrawsTo` takes from the piles, the given number of them unless the piles run out; no card is lost |
| Turns.PlayOutcome | turn.py:62-90 | with a playable card in the hand, a card of the hand is played, the draw pile is untouched and the hand loses exactly that card; otherwise exactly one card is drawn, and it is played or kept at the end of the hand with `card_play` the placeholder; a card played is playable on the open card and on top of the discard pile; the step fails only when a draw is needed and both piles are empty |
| Turns.PlayOutcomeConserves | turn.py:62-90 | the play-or-draw step loses no card, and a played card stays in the piles |
| Turns.PlayOrDraw | turn.py:62-90 | the imperative play-or-draw does what `PlayOutcome` says |
| Turns.DrawAndPlay | turn.py:73-90 | branch (2) of `action` does what `PlayOutcome` says |
| Turns.PlayIfPlayable | turn.py:78-90 | the drawn card is played exactly when it is playable, whatever the pick; otherwise the hand keeps it and `card_play` is the placeholder |
| Turns.Deal | turn.py:41-44 | seven rounds deal 14 consecutive draws, alternately to player_1 and player_2 |
| Turns.Turn.constructor | turn.py:13-25 | the turn keeps the deck and the two players |
| Turns.Turn.OpenCard | turn.py:26-37 | cards are drawn until one is a number card; that card is opened and every earlier one is rejected |
| Turns.Turn.StartUp | turn.py:26-44 | the open card is a number card; the hands receive the next 14 cards in alternation; no card is lost |
| Turns.Turn.ActionPlus | turn.py:105-154 | the chain and penalty of `action_plus` (`ChainEffect`): which counters of the penalty value left each hand for the discard pile, the hand kept by the side that could not answer, and the cards it then drew from the piles, `count * penalty` of them (the active player when `count` is even, the passive one when it is odd) unless a counter emptied a hand or the piles ran out; no card is lost |
| Turns.Turn.Action | turn.py:46-103 | the play or draw has the outcome `PlayOutcome` gives for the old hand, open card and piles: a card is played whenever the hand held a playable one; a played card was playable on the old open card and becomes the open card; otherwise exactly one card was drawn and kept, and `card_play` is the placeholder; without a chain that outcome is the final state; a chain follows only a PL2 or PL4 when nobody has won, and has the effect of `ChainEffect` on the hand and piles left by the play; no card is lost |
| Turns.Turn.PenaltyIfDrawCard | turn.py:98-103 | after a PL2 or PL4 the chain of `action_plus` runs with penalty 2 or 4, with the effect of `ChainEffect` on the hands and piles; after any other card nothing changes and `count` stays 0 |
| Games.ActiveAlternates | game.py:67-77 | consecutive turn numbers have different active players |
| Games.OnlyReverseKeepsTurn | game.py:102-109 | for the cards of the deck, only REV or a positive even chain grants another turn |
| Games.SingleDecrement | game.py:102-109 | the two extra-turn tests never both hold, so `turn_no` is pulled back at most once |
| Games.Alternation | game.py:62-109 | the starting player takes the first turn, and the same player acts again exactly when the previous turn was kept |
| Games.NumbersPositive | game.py:62-109 | no turn number falls below 1 |
| Games.Learn | game.py:111-113 | the learner's `update` (`Learned`): Q-learning moves the previous pair, if any, to the Bellman target and counts a visit to it, then records the final pair; Monte Carlo moves every pair seen in the game toward the final pair's reward, keeps the visit counts and clears its episode; the table keys are kept, and values stay in [0, 1] |
| Games.LearnQ | agents.py:92-123 | `Learn` for a Q-learning learner |
| Games.LearnMC | agents.py:183-201 | `Learn` for a Monte Carlo learner |
| Games.NewQLearning | game.py:139-140 | the Q-learning agent starts ready, covering every legal state once |
| Games.NewMonteCarlo | game.py:141-142 | the Monte Carlo agent starts ready, covering every legal state once |
| Games.Game.constructor | game.py:45-56 | fresh players with empty hands, a full fresh deck, `turn_no` 0 and no winner |
| Games.Game.Play | game.py:61-109 | the loop loses no card and numbers its turns by the rules; there is a winner exactly when a hand is empty; the winner is the active player if that hand is empty, otherwise the passive player; without a win every pick is used |
| Games.Loop | game.py:61-109 | the loop over the turn object loses no card, takes at most one pick per turn, and uses every pick unless the game ended; it leaves the game in `Progress`: turns numbered by the rules, both hands non-empty after every turn but a winning last one, and a winner who is the last turn's player with an empty hand, the active player checked first |
| Games.Round | game.py:62-109 | one iteration: the active player by parity, the turn, the win checks in order, and the extra-turn decrements |
| Games.TakeTurn | game.py:81-87 | the turn loses no card and records a deck card or the placeholder |
| Games.SetUp | game.py:45-56 | the set-up leaves only deck cards in play, with no winner and `turn_no` 0 |
| Games.Run | game.py:61-109 | the winner, if any, is one of the two players, and `turn_no` is the number of the winning turn |
| Games.NewGame | game.py:30-116 | a game numbers its turns by the rules; the winner is one of the players; the learner is untouched unless somebody has won, and then it has taken the `update` of the final pair (`Learned`: the Bellman step for Q-learning, the move toward the final reward of every pair seen for Monte Carlo) |
| Games.TournamentGame | game.py:153-171 | one game of the tournament: player_2 starts the odd-numbered games; the winner is a player or none; a won game took at least one turn; the learner stays ready for the next game, and is untouched by a game nobody won |
| Games.Tournament | game.py:119-185 | the agent's kind follows `algo`; one winner and one turn count per game; each winner is a player or none; a won game took at least one turn; player_1 moves first in even-numbered games and player_2 in odd-numbered ones |

## Left out

- players.py is not part of this model. The picks of `play_agent` and `play_rand`, the wild colour choice, `identify_state` and the agent calls made during a play are abstracted. A turn's card is a `pick` among the playable cards. The final state and action passed to `agent.update` are inputs of the game's script.
- The final state passed to `update` is computed in the source from the `card_open` read at the start of the last turn. The model takes that state as an input and does not derive it.
- Games.Tournament: every script must carry a legal final state (`IsState`). The source raises `KeyError` for any other tuple in a Monte Carlo update and in a Q-learning update after the first; the first Q-learning update, made while `prev_state` is still 0, reads no table and would accept any tuple, which the model does not allow.
- Games.Tournament: does not restate, game by game, what the final update did to the learner (`Learned`) or that a game nobody won leaves it untouched; `Games.NewGame` states both for one game and `Games.TournamentGame` the second; carrying `Learned` through the tournament makes its proof too large.
- Agents.Tables.Choose: when no action is feasible it returns `None`, and `MonteCarloAgent.Step` then changes nothing. The source instead fails: `random.choice([])` raises `IndexError` on exploration, and the empty greedy scan leaves `action` unbound (`UnboundLocalError`) on exploitation.
- Games.Game.Play: the loop is bounded by the length of the script's picks (fuel). When the picks run out before anybody wins, the game ends without a winner; the source would keep looping.
- Cards.Deck.DrawFromDeck: a pop from two empty piles is the result `None` rather than `IndexError`; the game then ends with `ok = false` and no winner.
- Turns.Turn.StartUp: the model does not prove that a fresh deck never runs out during the set-up; running out is the `ok = false` path.
- Turns.Turn.constructor: `Turn.__init__` draws the open card and calls `start_up`; the model splits this into the constructor and `StartUp`. Likewise `Game.__init__` is split into the constructor, `SetUp`, `Play` and `NewGame`.
- Logging, printing, `block_print`/`enable_print`, `bold`, `underline`, `show_card`, `show_deck`, `print_card`, the timer, `time.sleep`, and the tournament's `coverage` list (a count over a DataFrame) are output only and are left out.
- Floating point: values, rewards and step sizes are exact reals; rounding is not modelled. `-float('inf')` as the initial maximum is modelled by taking the first action unconditionally.
- The DataFrames of the agents are maps keyed by (state, action); their row order and labels are not modelled.
- Agents.QLearningAgent.Update: `prev_state = 0` before the first update is `None`; a missing key, which raises `KeyError` in the source, is excluded by the precondition.
- Agents.MonteCarloAgent.Update: the final pair must be a key of the reward table; the source raises `KeyError` otherwise.
