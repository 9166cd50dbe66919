# Watten engine core in Dafny

This project models the rules engine of a computer player for Watten. Watten
is a four-player trick-taking card game played with a 33-card deck: four
suits of eight ranks plus the Weli, the 6 of Bells. Seats 0 and 2 form team 1,
and seats 1 and 3 form team 2. Each round, every player is dealt five cards.
The suit of the dealer's first card and the rank of the next seat's first card
together make the *rechte*, the top card. Five tricks are played, and the team
that takes more of them scores the round's points. Either team may raise those
points, though not twice in a row.

The computer player chooses a card by exhaustive look-ahead. A *play order* is
one of the 120 orders in which a hand's five slots can be played. For every
combination of four play orders, the engine simulates the round and records the
outcome in a store keyed by the four order numbers, which are positions in
the list the Heap's-algorithm generator emits. To choose a card, it counts
wins and losses over the `perm_prefix_range` block of each seat: the block
of Lehmer ranks of the orders that start with the slots the seat has already
played. It then picks the allowed card with the best win rate. Since the store
is keyed by list position and not by Lehmer rank, the cells counted are not
the games consistent with the cards played (see "## Findings").

The model is split into modules:

- `Watten` (`watten.dfy`): suits, ranks, cards, the deck, `GameResult`.
- `Permutations` (`permutations.dfy`):
  - factorial;
  - the Lehmer rank `PermIndex` of a play order;
  - the rank block `PermPrefixRange` of a partial order;
  - its inverse, `Unrank`.
- `HandOrders` (`hand_orders.dfy`): the Heap's-algorithm generator `all_hand_orders`.
- `Store` (`store.dfy`): the outcome store. It covers:
  - the 32-bit key packing, `set` and `get`;
  - the two counting loops, over ranges and over lists.

  The legacy `GameDatabase` of `src/lib.rs` has the same code and is covered by the same model.
- `Rules` (`rules.dfy`):
  - rank values and card strength;
  - the winner of a trick;
  - `simulate_game`, `play_hand`.
- `Round` (`round.dfy`): the game state and its transitions. It covers:
  - `new`, `raise_round`;
  - the deal and the rechte in `start_round`;
  - filling the store;
  - `find_orig_index`, the seeing players, `allowed_indices`;
  - playing a card;
  - `best_card_index`;
  - the scoring and dealer rotation at the end of `play_round`.

State changes are pure functions from one `GameState` value to the next. A
Rust panic is modelled as a precondition: an out-of-range index, the
`assert!` in `perm_prefix_range`, or "card not found". A Rust `Err` is an
`Outcome.Err` value.

## Model

| member | source | states |
|---|---|---|
| Watten.Deck | src/lib.rs:70-84 | the deck has 33 cards |
| Watten.DeckContents | src/lib.rs:70-84 | a card is in the deck exactly when its rank is not the Weli, or it is the Weli of Bells |
| Watten.DeckDistinct | src/lib.rs:70-84 | no card occurs twice in the deck |
| Permutations.FactorialOfFive | src/lib.rs:157-162 | 0! = 1! = 1, and 5! = 120, the number of hand orders |
| Permutations.PermPrefixRange | src/lib.rs:98-116 | the block of a k-slot prefix holds (5 − k)! ranks, and for a prefix without repeats it lies inside 0..120 |
| Permutations.PermIndex | src/lib.rs:140-155 | the rank of any play order lies in 0..119 |
| Permutations.IdentityIndex | src/lib.rs:248-252 | the identity order [0, 1, 2, 3, 4] has rank 0 |
| Permutations.ComputePrefixRange | src/lib.rs:98-116 | the source's loop, with its `used` flags and counts of smaller unused slots, yields the block start (the Lehmer prefix value) and an end (5 − k)! further on, for a k-slot prefix |
| Permutations.PrefixMembership | src/lib.rs:96-116 | a full order's rank lies in a prefix's block exactly when the order starts with that prefix, in both directions |
| Permutations.Nesting | src/lib.rs:96-116 | extending a prefix gives a sub-block of the prefix's block |
| Permutations.Disjoint | src/lib.rs:96-116 | the blocks of two different one-slot extensions of a prefix do not overlap |
| Permutations.RangeBound | src/lib.rs:96-116 | a valid prefix without repeats has its block inside 0..120 |
| Permutations.EmptyPrefixRange | src/lib.rs:98-116 | the empty prefix's block is all of 0..120 |
| Permutations.FullPrefixRange | src/lib.rs:98-116 | a full order's block holds only its own rank |
| Permutations.CompleteStart | src/lib.rs:96-116 | a prefix's block starts at the rank of the prefix completed with its free slots in ascending order |
| Permutations.CompleteExample | src/lib.rs:248-257 | the prefix [1, 0] has a block of 3! = 6 ranks, starting at the rank of [1, 0, 2, 3, 4] |
| Permutations.PermIndexInjective | src/lib.rs:140-155 | different play orders have different ranks (the uniqueness checked in src/lib.rs:240-245) |
| Permutations.UnrankRoundTrip | src/lib.rs:140-155 | ranking is a bijection from the 120 play orders onto 0..119: `Unrank` undoes `PermIndex`, and `PermIndex` undoes `Unrank` |
| Permutations.UnrankFrom | src/lib.rs:140-155 | for a rank in a prefix's block, the order of that rank is a permutation that starts with the prefix and ranks to it |
| Permutations.UnrankInBlock | src/lib.rs:96-116 | a rank lies in a prefix's block exactly when the order of that rank starts with the prefix |
| Permutations.SwappedPairRank | src/lib.rs:254-256 | [1, 0, 2, 3, 4] has rank 4! = 24 |
| HandOrders.AllHandOrdersFacts | src/lib.rs:118-138 | the generator emits 120 orders, each a permutation of the five slots, the identity first, none twice; it leaves its array as it found it |
| HandOrders.PermuteNoRepeats | src/lib.rs:118-138 | started from any permutation, the generator never emits the same order twice |
| HandOrders.PermuteRestores | src/lib.rs:120-133 | the recursive `permute` on five slots leaves the array as it found it |
| HandOrders.SecondOrder | src/lib.rs:120-133 | the second order emitted is [1, 0, 2, 3, 4]: the first two slots exchanged |
| Store.MakeIndexRoundTrip | src/database.rs:42-44 | for order numbers below 120, the key is below 120^4 < 2^32, so the `as u32` cast loses nothing, and the four numbers can be read back |
| Store.MakeIndexInjective | src/database.rs:42-44 | distinct cells of in-range order numbers never share a key |
| Store.MakeIndexAliases | src/database.rs:42-44 | out of range the cast does alias: a last number of 2^32 gives the same key as 0 |
| Store.GetAfterSet | src/database.rs:48-56 | `get` after `set` on the same cell returns the value set |
| Store.SetLeavesOthers | src/lib.rs:191-199 | setting one in-range cell leaves every other in-range cell unchanged |
| Store.GetEmpty | src/database.rs:53-56 | a cell never set reads `NotPlayed` |
| Store.CountsInLists | src/database.rs:79-98 | the four nested loops over explicit lists return the outcome histogram over the cross product, visiting a duplicated list entry once per occurrence |
| Store.CountsInRanges | src/database.rs:58-77 | the four nested loops over ranges return the histogram over the lists the ranges enumerate, the same as counting over those lists |
| Store.HistogramCounts | src/database.rs:58-98 | bucket r counts the visited cells holding r, modulo 2^32 because the counters are `u32` |
| Store.HistogramTotal | src/database.rs:58-98 | while the product of the list lengths is below 2^32, the four buckets add up to that product |
| Store.HistogramOfEmpty | src/database.rs:58-98 | an empty range or list in any seat gives all-zero counts |
| Store.CrossMembers | src/database.rs:86-97 | a cell is visited exactly when each of its numbers is in its seat's list |
| Store.SingleCellExample | src/database.rs:114-121 | with only (0,0,0,0) set as a team-1 win, counting over [0] in each seat gives one team-1 win and no `NotPlayed` |
| Store.SingleCellRangeExample | src/database.rs:105-112 | the same one-cell count over the ranges 0..1 |
| Rules.RankValueIsPlace | src/game.rs:17-29 | a rank's value is its 1-based place in the rank order, Seven = 1 up to Weli = 9 |
| Rules.RankValueInjective | src/game.rs:17-29 | different ranks have different values |
| Rules.BaseByTier | src/game.rs:31-47 | the base strength orders cards first by class (rechte > striker > Weli > trump > led suit > other), then by rank value within the trump, led and plain classes |
| Rules.StrengthOrder | src/game.rs:31-49 | for the four positions of a trick, one card's strength exceeds another's exactly when it is in a higher class, or the same class with a higher rank, or is equal and was played earlier |
| Rules.StrengthExamples | src/game.rs:370-403 | the unit tests' comparisons: a striker beats an Ace of trump, the rechte beats a striker, and of two strikers the first played wins |
| Rules.WinnerOutranksOthers | src/game.rs:71-80 | the card the trick scan picks outranks every other card of the trick in that rule order |
| Rules.RechteTakesTrick | src/game.rs:71-80 | whoever plays the rechte takes the trick, wherever it falls |
| Rules.TrickExamples | src/game.rs:427-501 | the unit tests' whole tricks: of two strikers the first wins, and the rechte wins even when played last |
| Rules.SimulateGameTrace | src/game.rs:51-89 | the simulation plays five tricks. Trick t is played from slot t of every order and is led first by the seat after the dealer, then by the previous trick's winner. The result is a team-1 win exactly when seats 0 and 2 took three or more tricks, and it is never `NotPlayed` |
| Rules.TeamsSplit | src/game.rs:80-88 | every trick is credited to exactly one team |
| Rules.ExampleRound | tests/full_round.rs:89-126 | in the fixed deal of the round tests, played in dealt order, the tricks go to seats 0, 3, 1, 0, 2, and team 1 wins |
| Rules.PlayHandFirstOrders | src/game.rs:503-517 | `play_hand` with order number 0 in every seat is the simulation with every seat playing in slot order |
| Rules.ExamplePlayHand | src/game.rs:91-106 | `play_hand` with order number 0 in every seat gives a team-1 win on the test deal |
| Round.New | src/game.rs:121-143 | a new game has the first `humans` seats (at most four) human, no rechte, scores [0, 0], a round worth 2 points, no raiser, dealer 0 and an empty store |
| Round.RaiseRound | src/game.rs:285-298 | a raise is accepted exactly when the team is 0 or 1 and did not make the last raise; a team number above 1 is refused, and so is a repeat raise by the last raiser. An accepted raise adds exactly one point, records the raiser and changes nothing else |
| Round.RaiseAllCounts | src/game.rs:285-298 | over any sequence of raise attempts, the accepted raises come from teams 0 and 1 alternately, starting with the team that did not raise last, and each adds one point |
| Round.RaiseExample | src/game.rs:412-424 | the unit test's sequence: team 0 raises to 3, a second raise by team 0 is refused, team 1 raises to 4, and so on up to 5 |
| Round.SeeingPlayers | src/game.rs:200-202 | exactly two seats see the trump, the dealer and the seat after, and the first leader is one of them |
| Round.AllowedIndices | src/game.rs:204-225 | the allowed positions are ascending and all lie inside the seat's hand |
| Round.AllowedIndicesMembers | src/game.rs:204-225 | a hand position is allowed exactly when it is in the hand and, if the seat must follow a trump lead and holds trump or a striker, that position holds one; a non-empty hand always has an allowed position |
| Round.AllowedExample | src/game.rs:519-537 | the unit test: against the Ten of Hearts led, both seeing players may play only their first card |
| Round.FollowTrickExample | tests/full_round.rs:4-53 | the integration test's trick: only the seeing seats are restricted, and the Unter of Leaves, a striker, takes the trick for seat 3 |
| Round.FindOrigIndex | src/game.rs:191-198 | the slot returned holds the card and is unplayed, and no earlier slot is both |
| Round.FindOrigIndexUnique | src/game.rs:191-198 | when no card was dealt twice, the slot found is the card's one unplayed slot |
| Round.DealOrder | src/game.rs:156-163 | deck card 4i + j goes to seat (dealer + 1 + j) mod 4, slot i |
| Round.DealDistinct | src/game.rs:156-163 | from a deck without repeats, the twenty dealt places receive twenty different cards |
| Round.StartRound | src/game.rs:145-172 | a new round is worth 2 points and has no raiser and no played slots. The hands equal the dealt hands. The rechte has the suit of deck card 3 (the dealer's first card) and the rank of deck card 0 (the next seat's first). Dealer, scores and human flags are kept |
| Round.StartRoundDeals | src/game.rs:153-163 | after `start_round` each seat holds its five cards in the order the dealing loop hands them out |
| Round.StartRoundStore | src/game.rs:171-189 | after `start_round`, every in-range cell of order numbers holds what `play_hand` gives for the dealt hands, the dealer and the rechte with those numbers |
| Round.StartRoundDecided | src/game.rs:171-189 | after `start_round` every in-range cell of the store holds a win for one team |
| Round.StartRoundConsistent | src/game.rs:145-167 | a fresh deal is consistent: nothing is played, and each hand holds exactly its dealt cards |
| Round.PopulateMatchesPlayHand | src/game.rs:174-189 | the store as the source fills it answers every in-range cell with `play_hand` on those order numbers |
| Round.PopulateDecided | src/game.rs:97-103 | the store `populate_database` fills holds `Team1Win` or `Team2Win` in every in-range cell |
| Round.RankedDecided | src/game.rs:97-103 | so does the rank-keyed store |
| Round.LoopsPopulate | src/game.rs:174-189 | the four nested loops of `set` calls on a fresh store agree with that store on every in-range cell |
| Round.FillGets | src/game.rs:178-188 | after a sequence of `set` calls, a cell set along the way holds its outcome; any other cell holds what it held before |
| Round.RankedBlocks | src/game.rs:236-251 | in the rank-keyed store, a cell lies in the four prefix blocks exactly when its orders start with the four prefixes, and it holds the outcome of those orders |
| Round.RankedCompletions | src/game.rs:236-251 | any four orders that start with the prefixes have their cell of ranks inside the blocks, and that cell holds their outcome |
| Round.CellRoundTrip | src/lib.rs:140-155 | unranking the cell of ranks of four orders gives the orders back |
| Round.CellOrdersRoundTrip | src/lib.rs:140-155 | ranking the orders of a cell gives the cell back |
| Round.HeapOrderOutsideBlock | src/game.rs:174-189 | order number 1 of the generator's list is [1, 0, 2, 3, 4], yet 1 lies outside the block 24..48 of the prefix [1] |
| Round.HeapBlockMismatch | src/game.rs:174-189 | in the store as the source fills it, the game in which seat 0 plays [1, 0, 2, 3, 4] sits under a number outside the block that is counted once seat 0 has played slot 1 |
| Round.RankedSwappedInBlock | src/game.rs:236-251 | the rank-keyed store holds that same game under 24, inside the block |
| Round.StartRoundByRank | src/game.rs:145-172 | the corrected start of a round differs from `start_round` only in its store, which decides every in-range cell |
| Round.StartRoundByRankStore | src/game.rs:171-189 | after the corrected start, every in-range cell of ranks holds the outcome of the dealt hands played in the orders of those ranks |
| Round.PopulatedHistogram | src/game.rs:246-263 | counted over lists of order numbers, a store that decides every cell (as both filled stores do) has no `NotPlayed` and no `RuleViolation` outcomes; while the counters do not wrap, wins and losses add up to the number of cells visited |
| Round.CandidateCountsDecided | src/game.rs:236-268 | once every cell of the store is decided, as after `start_round` and any cards played since, wins and losses together cover every cell of a candidate's four blocks, and there is at least one such cell, so the rate's zero-total case never arises |
| Round.WinRateCompare | src/game.rs:263-272 | comparing two rates is comparing the cross-multiplied win and game counts |
| Round.BestCardIndex | src/game.rs:227-275 | the position returned is an allowed one whose card has the highest rate, and no earlier allowed card has as high a rate |
| Round.PlayCard | src/game.rs:328-332 | playing the card at a position removes exactly that card from the hand, keeping the other cards in order, and appends the first dealt slot that holds the card and is unplayed to the seat's played slots; other seats are untouched |
| Round.PlayCardConsistent | src/game.rs:328-332 | playing a card keeps every seat's bookkeeping consistent: the played slots are distinct, and the hand holds exactly the cards of the unplayed slots |
| Round.FinishRoundScores | src/game.rs:351-362 | only the team with more tricks scores, by the round's points, and team 2 scores on a tie; the dealer moves one seat on; nothing else changes |
| Round.DealerCycles | src/game.rs:351 | after four rounds the deal is back with the same seat |
| Round.ScoringExamples | tests/raised_round.rs:35-68 | the round tests' scores: a won round worth 2 gives [2, 0], the same round again [4, 0], and a round raised twice [4, 0] |

## Left out

- Printing (`Display` implementations, `println!`) is left out. It has no effect on the state.
- The shuffle (src/lib.rs:86-91) uses a random number generator. `Round.StartRound` takes the shuffled deck as a parameter.
- Round.StartRound: requires only 33 cards and does not require them to be a permutation of the deck. Every dealing fact holds for any such sequence, and `Round.DealDistinct` assumes a deck without repeats where it needs one.
- `play_round` (src/game.rs:300-363) is not modelled as one loop. Its parts are modelled:
  - `PlayCard` plays one card;
  - `AllowedIndices` gives what a seat may play;
  - `BestCardIndex` is the computer player's choice;
  - `Rules.WinningPosition` finds a trick's winner;
  - `FinishRound` does the scoring and dealer rotation.

  Human choices come from `src/player.rs` (console input) and are not part of this model.
- `src/player.rs`, `src/main.rs`, `src/wasm.rs` and the web frontend are not part of this model.
- The accessors `trump_suit` and `striker_rank` (src/game.rs:277-283) are left out. They only project the rechte.
- `WINNING_POINTS` is declared but never read by the engine, so it is left out.
- Round.BestCardIndex: the rate is an `f64` in the source and an exact `real` here. Two rates that differ by less than `f64` resolution can compare differently.
- Store.MakeIndex: models the `as u32` cast as reduction modulo 2^32 for every input. Rust's debug-build overflow panic on the `usize` arithmetic is not modelled. In release builds, wrapping in 64 bits gives the same low 32 bits.
- Store.Bump: the `u32` counters wrap modulo 2^32. A debug build would panic on overflow. The counts the engine takes stay below 120^4 < 2^32.
- Round.FindOrigIndex: the source panics when no unplayed slot holds the card. The model requires such a slot. `Round.CardFindable` shows one always exists in a consistent state.
- Permutations.PermPrefixRange: the source's `assert!` on the prefix length and its indexing of `used` become the precondition `ValidPrefix`. A prefix with a repeated slot is accepted, as in the source, and its block is not asserted to lie inside 0..120.
- The block of a k-slot prefix holds (5 − k)! ranks, which is what the code computes.
- The store's trait object (`Box<dyn GameDatabase>`) is modelled by the single in-memory implementation.

## Findings

| source | as written | input that shows it | evidently intended | confidence | as-written member | corrected member |
|---|---|---|---|---|---|---|
| src/game.rs:174-189 | `populate_database` stores `play_hand(i1..i4)` under the key of (i1, i2, i3, i4). `play_hand` plays the orders at those positions of the Heap's-algorithm list. But `best_card_index` (src/game.rs:236-251) counts over `perm_prefix_range` blocks, which are blocks of Lehmer ranks | Seat 0 has played slot 1, so the count covers seat-0 numbers 24..47. The game in which seat 0 plays [1, 0, 2, 3, 4] is stored under number 1, its position in the generator's list. Number 1 is outside the counted block, so that game is never counted | key each stored game by the Lehmer ranks (`perm_index`) of its four orders. Then a prefix block holds exactly the games whose orders start with the played slots, as the test at src/lib.rs:254-256 expects | not executed | Round.HeapBlockMismatch | Round.PopulateByRank, Round.StartRoundByRank |

`Round.HeapOrderOutsideBlock` states the discrepancy itself. The corrected store
`Round.PopulateByRank` is proved right by:

- `Round.RankedBlocks`: a cell lies in the four blocks exactly when its orders start with the played prefixes;
- `Round.RankedCompletions`: every such quadruple of orders is found there with its outcome;
- `Round.CellRoundTrip` and `Round.CellOrdersRoundTrip`: cells and quadruples of orders correspond one to one.

`Round.StartRound` fills the store as the source does, with
`Round.PopulateDatabase` (`Round.StartRoundStore`, `Round.PopulateMatchesPlayHand`,
`Round.LoopsPopulate`). `Round.StartRoundByRank` is the corrected start of a
round: the same deal with the rank-keyed store (`Round.StartRoundByRankStore`).
The counting facts `Round.PopulatedHistogram` and `Round.CandidateCountsDecided`
hold for both, since both stores decide every cell.
