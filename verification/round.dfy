/**
 The game state between tricks: dealing, the raise state machine, which
 cards a seat may play, the engine's card choice, and scoring at the end of
 a round.
 */
module Round {
  import opened Watten
  import opened Permutations
  import Store
  import Rules
  import HandOrders

  /** Points a round is worth before any raise. */
  const RoundPoints: nat := 2

  /** Placeholder card the original hands hold before the first deal. */
  const DummyCard: Card := Card(Hearts, Seven)

  datatype Option<T> = None | Some(value: T)

  datatype Outcome<T> = Ok(value: T) | Err(reason: string)

  /** Everything `GameState` holds: per seat whether a person plays it and
      the current hand; the dealer, the rechte, the team scores, what the
      round is worth and who raised last; the outcome store; and per seat the
      hand as dealt and the dealt positions already played. */
  datatype GameState = GameState(
    human: seq<bool>,
    hands: seq<seq<Card>>,
    dealer: nat,
    rechte: Option<Card>,
    scores: seq<nat>,
    roundPoints: nat,
    lastRaiser: Option<nat>,
    db: Store.Database,
    origHands: seq<seq<Card>>,
    played: seq<seq<nat>>)

  /** The sizes every state has: four seats, five dealt slots, two teams. */
  predicate Shaped(g: GameState)
  {
    |g.human| == 4 && |g.hands| == 4 && |g.origHands| == 4 && |g.played| == 4 && |g.scores| == 2
    && g.dealer < 4
    && forall s :: 0 <= s < 4 ==> |g.origHands[s]| == Rules.TricksPerRound
  }

  /** `GameState::new`: the first `humans` seats (at most four) are people;
      no hands, no rechte, no score, an empty store, dealer 0. */
  function New(humans: nat): (g: GameState)
    ensures Shaped(g)
    ensures forall s :: 0 <= s < 4 ==> (g.human[s] <==> s < humans)
    ensures g.scores == [0, 0] && g.roundPoints == RoundPoints && g.lastRaiser == None
    ensures g.dealer == 0 && g.rechte == None && g.db == Store.Empty
  {
    var dummies := [DummyCard, DummyCard, DummyCard, DummyCard, DummyCard];
    GameState(
      seq(4, s requires 0 <= s < 4 => s < humans),
      [[], [], [], []],
      0, None, [0, 0], RoundPoints, None, Store.Empty,
      [dummies, dummies, dummies, dummies],
      [[], [], [], []])
  }

  // ----- raising -----

  /** `raise_round`: team 0 or 1 adds a point to the round, but not twice in a row. */
  function RaiseRound(g: GameState, team: nat): (r: Outcome<GameState>)
    ensures team > 1 ==> r.Err?
    ensures g.lastRaiser == Some(team) ==> r.Err?
    ensures r.Ok? <==> team <= 1 && g.lastRaiser != Some(team)
    ensures r.Ok? ==> r.value.roundPoints == g.roundPoints + 1 && r.value.lastRaiser == Some(team)
    ensures r.Ok? ==> r.value == g.(roundPoints := r.value.roundPoints, lastRaiser := r.value.lastRaiser)
  {
    if team > 1 then Err("invalid team")
    else if g.lastRaiser == Some(team) then Err("team already raised")
    else Ok(g.(roundPoints := g.roundPoints + 1, lastRaiser := Some(team)))
  }

  /** Tries each raise in turn; a refused raise leaves the state as it was.
      Returns the final state and the teams whose raises were accepted. */
  function RaiseAll(g: GameState, teams: seq<nat>): (r: (GameState, seq<nat>))
    decreases |teams|
  {
    if |teams| == 0 then (g, [])
    else
      var rest := teams[1..];
      match RaiseRound(g, teams[0])
      case Ok(h) => var (f, acc) := RaiseAll(h, rest); (f, [teams[0]] + acc)
      case Err(_) => RaiseAll(g, rest)
  }

  /** No two neighbouring entries are equal. */
  predicate Alternating(acc: seq<nat>)
  {
    forall k :: 0 <= k < |acc| - 1 ==> acc[k] != acc[k + 1]
  }

  /** Every accepted raise adds one point; accepted raises come from teams 0
      and 1 alternately, starting with the team that did not raise last. */
  lemma {:induction false} RaiseAllCounts(g: GameState, teams: seq<nat>)
    ensures var (f, acc) := RaiseAll(g, teams);
      f.roundPoints == g.roundPoints + |acc|
      && (forall k :: 0 <= k < |acc| ==> acc[k] <= 1)
      && Alternating(acc)
      && (|acc| > 0 && g.lastRaiser.Some? ==> acc[0] != g.lastRaiser.value)
      && (|acc| > 0 ==> f.lastRaiser == Some(acc[|acc| - 1]))
      && (|acc| == 0 ==> f == g)
    decreases |teams|
  {
    if |teams| > 0 {
      var rest := teams[1..];
      match RaiseRound(g, teams[0])
      case Ok(h) =>
        RaiseAllCounts(h, rest);
        var (f, acc) := RaiseAll(h, rest);
        assert RaiseAll(g, teams) == (f, [teams[0]] + acc);
      case Err(_) =>
        RaiseAllCounts(g, rest);
    }
  }

  /** The unit test's sequence: from a new game, team 0 raises to 3, again
      is refused, team 1 raises to 4, again is refused, team 0 raises to 5. */
  lemma RaiseExample(humans: nat)
    ensures var g0 := New(humans);
      var r1 := RaiseRound(g0, 0);
      r1.Ok? && r1.value.roundPoints == 3
      && var r2 := RaiseRound(r1.value, 0);
      r2.Err?
      && var r3 := RaiseRound(r1.value, 1);
      r3.Ok? && r3.value.roundPoints == 4
      && RaiseRound(r3.value, 1).Err?
      && var r5 := RaiseRound(r3.value, 0);
      r5.Ok? && r5.value.roundPoints == 5
  {
  }

  // ----- seats -----

  /** The dealer and the player after the dealer see the trump: they are the
      ones bound to follow a trump lead. */
  predicate IsSeeingPlayer(dealer: nat, seat: nat)
  {
    seat == dealer || seat == (dealer + 1) % 4
  }

  /** Exactly two of the four seats are seeing players, and the first leader is one. */
  lemma SeeingPlayers(dealer: nat)
    requires dealer < 4
    ensures (set s: nat | s < 4 && IsSeeingPlayer(dealer, s)) == {dealer, (dealer + 1) % 4}
    ensures |set s: nat | s < 4 && IsSeeingPlayer(dealer, s)| == 2
    ensures IsSeeingPlayer(dealer, (dealer + 1) % 4)
  {
    var seeing := set s: nat | s < 4 && IsSeeingPlayer(dealer, s);
    assert seeing == {dealer, (dealer + 1) % 4};
    assert dealer != (dealer + 1) % 4;
  }

  // ----- the follow rule -----

  /** A card that answers a trump lead: trump suit or the striker rank. */
  predicate Fits(card: Card, rechte: Card)
  {
    card.suit == rechte.suit || card.rank == rechte.rank
  }

  /** The seat is bound to follow: a rechte is set, the led card is trump and
      the seat is a seeing player. */
  predicate Restricted(g: GameState, seat: nat, lead: Card)
  {
    g.rechte.Some? && lead.suit == g.rechte.value.suit && IsSeeingPlayer(g.dealer, seat)
  }

  predicate HasFit(hand: seq<Card>, rechte: Card)
  {
    exists k :: 0 <= k < |hand| && Fits(hand[k], rechte)
  }

  predicate Ascending(r: seq<nat>)
  {
    forall a, b :: 0 <= a < b < |r| ==> r[a] < r[b]
  }

  /** The hand positions from `k` on that hold a fitting card, in order. */
  function FitPositions(hand: seq<Card>, rechte: Card, k: nat): (r: seq<nat>)
    requires k <= |hand|
    ensures Ascending(r)
    ensures forall i :: 0 <= i < |r| ==> k <= r[i] < |hand|
    decreases |hand| - k
  {
    if k == |hand| then []
    else if Fits(hand[k], rechte) then [k] + FitPositions(hand, rechte, k + 1)
    else FitPositions(hand, rechte, k + 1)
  }

  /** A position is listed exactly when it holds a fitting card. */
  lemma {:induction false} FitPositionsMembers(hand: seq<Card>, rechte: Card, k: nat, i: nat)
    requires k <= |hand|
    ensures i in FitPositions(hand, rechte, k) <==> k <= i < |hand| && Fits(hand[i], rechte)
    decreases |hand| - k
  {
    if k < |hand| {
      FitPositionsMembers(hand, rechte, k + 1, i);
    }
  }

  /** `allowed_indices`: every position of the seat's hand, unless the seat is
      bound to follow and holds a fitting card; then only the fitting ones. */
  function AllowedIndices(g: GameState, seat: nat, lead: Card): (r: seq<nat>)
    requires seat < |g.hands|
    ensures Ascending(r)
    ensures forall i :: 0 <= i < |r| ==> r[i] < |g.hands[seat]|
  {
    var hand := g.hands[seat];
    Store.RangeSeqContents(0, |hand|);
    var all := Store.RangeSeq(0, |hand|);
    if Restricted(g, seat, lead) then
      var fitting := FitPositions(hand, g.rechte.value, 0);
      if |fitting| > 0 then fitting else all
    else all
  }

  /** A position may be played iff it is in the hand and, when the seat must
      follow and can, it holds trump or the striker rank; a seat with cards
      always has something to play. */
  lemma AllowedIndicesMembers(g: GameState, seat: nat, lead: Card, i: nat)
    requires seat < |g.hands|
    ensures var hand := g.hands[seat];
      i in AllowedIndices(g, seat, lead)
      <==> i < |hand| && (Restricted(g, seat, lead) && HasFit(hand, g.rechte.value) ==> Fits(hand[i], g.rechte.value))
    ensures |g.hands[seat]| > 0 ==> |AllowedIndices(g, seat, lead)| > 0
  {
    var hand := g.hands[seat];
    Store.RangeSeqContents(0, |hand|);
    var all := Store.RangeSeq(0, |hand|);
    assert i < |hand| ==> all[i] == i;
    if Restricted(g, seat, lead) {
      var rechte := g.rechte.value;
      FitPositionsMembers(hand, rechte, 0, i);
      if HasFit(hand, rechte) {
        var k :| 0 <= k < |hand| && Fits(hand[k], rechte);
        FitPositionsMembers(hand, rechte, 0, k);
      } else {
        var fitting := FitPositions(hand, rechte, 0);
        if |fitting| > 0 {
          FitPositionsMembers(hand, rechte, 0, fitting[0]);
        }
      }
    }
  }

  /** Dealer 0, rechte Unter of Hearts, Ten of Hearts led: the dealer must
      play the Ace of Hearts, the next seat the Unter of Leaves. */
  lemma AllowedExample(g: GameState)
    requires g == New(0).(rechte := Some(Card(Hearts, Unter)),
      hands := [[Card(Hearts, Ace), Card(Bells, Ober)], [Card(Leaves, Unter), Card(Acorns, Seven)],
                [Card(Hearts, Ten)], [Card(Bells, Ace)]])
    ensures AllowedIndices(g, 0, Card(Hearts, Ten)) == [0]
    ensures AllowedIndices(g, 1, Card(Hearts, Ten)) == [0]
  {
  }

  /** A whole trick under the rule: seat 1 leads the Ten of Hearts; seats 2
      and 3 do not see and may play anything; the dealer must follow with the
      Ace of Hearts; the Unter of Leaves, a striker, takes the trick for seat 3. */
  lemma FollowTrickExample(g: GameState, lead: Card)
    requires lead == Card(Hearts, Ten)
    requires g == New(0).(rechte := Some(Card(Hearts, Unter)),
      hands := [[Card(Hearts, Ace), Card(Bells, Ace)], [lead],
                [Card(Bells, Ober), Card(Hearts, Seven)], [Card(Leaves, Unter), Card(Bells, Ten)]])
    ensures AllowedIndices(g, 1, lead) == [0]
    ensures AllowedIndices(g, 2, lead) == [0, 1]
    ensures AllowedIndices(g, 3, lead) == [0, 1]
    ensures AllowedIndices(g, 0, lead) == [0]
    ensures var plays := [(1, lead), (2, Card(Bells, Ober)), (3, Card(Leaves, Unter)), (0, Card(Hearts, Ace))];
      plays[Rules.WinningPosition(plays, g.rechte.value)].0 == 3
  {
    assert Store.RangeSeq(0, 2) == [0, 1] by {
      assert Store.RangeSeq(0, 1) == [0];
    }
    var plays: seq<Rules.Play> := [(1, lead), (2, Card(Bells, Ober)), (3, Card(Leaves, Unter)), (0, Card(Hearts, Ace))];
    Rules.WinsAt(plays, g.rechte.value, 2);
    assert FitPositions(g.hands[1], g.rechte.value, 1) == [];
    assert FitPositions(g.hands[1], g.rechte.value, 0) == [0];
  }

  // ----- locating a card in the dealt hand -----

  /** Dealt slot `i` holds `card` and has not been played yet. */
  predicate Unplayed(orig: seq<Card>, played: seq<nat>, card: Card, i: nat)
  {
    i < |orig| && orig[i] == card && i !in played
  }

  /** `find_orig_index`: the first dealt slot holding `card` that has not been
      played. The source panics when there is none. */
  function FindOrigIndex(orig: seq<Card>, played: seq<nat>, card: Card): (i: nat)
    requires exists i :: Unplayed(orig, played, card, i)
    ensures Unplayed(orig, played, card, i)
    ensures forall j :: 0 <= j < i ==> !Unplayed(orig, played, card, j)
  {
    FindFrom(orig, played, card, 0)
  }

  function FindFrom(orig: seq<Card>, played: seq<nat>, card: Card, k: nat): (i: nat)
    requires k <= |orig|
    requires exists i :: k <= i && Unplayed(orig, played, card, i)
    ensures k <= i && Unplayed(orig, played, card, i)
    ensures forall j :: k <= j < i ==> !Unplayed(orig, played, card, j)
    decreases |orig| - k
  {
    if Unplayed(orig, played, card, k) then k else FindFrom(orig, played, card, k + 1)
  }

  /** When no card was dealt twice, the slot found is the card's one slot. */
  lemma FindOrigIndexUnique(orig: seq<Card>, played: seq<nat>, card: Card, i: nat)
    requires forall a, b :: 0 <= a < b < |orig| ==> orig[a] != orig[b]
    requires Unplayed(orig, played, card, i)
    ensures FindOrigIndex(orig, played, card) == i
  {
  }

  // ----- dealing -----

  /** Five rounds of one card per seat, starting left of the dealer: seat `s`
      gets slot `i` from deck position `4 * i + j`, where `j` is how many seats
      after the dealer's left neighbour it sits. */
  function Deal(cards: seq<Card>, dealer: nat): (hands: seq<seq<Card>>)
    requires |cards| >= 4 * Rules.TricksPerRound && dealer < 4
    ensures Rules.Dealt(hands)
  {
    seq(4, s requires 0 <= s < 4 =>
      seq(Rules.TricksPerRound, i requires 0 <= i < Rules.TricksPerRound => cards[4 * i + (s - dealer - 1) % 4]))
  }

  /** The dealing loop's own description: deck card `4 * i + j` goes to seat
      `(dealer + 1 + j) % 4`, slot `i`. */
  lemma DealOrder(cards: seq<Card>, dealer: nat, j: nat, i: nat)
    requires |cards| >= 4 * Rules.TricksPerRound && dealer < 4
    requires j < 4 && i < Rules.TricksPerRound
    ensures Deal(cards, dealer)[(dealer + 1 + j) % 4][i] == cards[4 * i + j]
  {
    var s := (dealer + 1 + j) % 4;
    assert (s - dealer - 1) % 4 == j;
  }

  /** Every one of the first twenty deck cards is dealt to exactly one place,
      so a deck without repeats gives twenty different cards. */
  lemma DealDistinct(cards: seq<Card>, dealer: nat, s: nat, i: nat, t: nat, k: nat)
    requires |cards| >= 4 * Rules.TricksPerRound && dealer < 4
    requires forall a, b :: 0 <= a < b < |cards| ==> cards[a] != cards[b]
    requires s < 4 && t < 4 && i < Rules.TricksPerRound && k < Rules.TricksPerRound
    requires (s, i) != (t, k)
    ensures Deal(cards, dealer)[s][i] != Deal(cards, dealer)[t][k]
  {
    var js, jt := (s - dealer - 1) % 4, (t - dealer - 1) % 4;
    assert s != t ==> js != jt;
    assert 4 * i + js != 4 * k + jt;
  }

  // ----- filling the store -----

  /** The outcome `play_hand` gives for one cell of order numbers (none for a
      cell out of range, which the populating loops never visit). */
  function PlayCell(hands: seq<seq<Card>>, dealer: nat, rechte: Card, c: Store.Cell): GameResult
  {
    if Rules.Dealt(hands) && Store.InDomain(c) then Rules.PlayHand(hands, [c.0, c.1, c.2, c.3], dealer, rechte)
    else NotPlayed
  }

  /** Records `outcome(c)` for every cell `c` in turn, as the populating loops do. */
  function Fill(db: Store.Database, outcome: Store.Cell -> GameResult, cells: seq<Store.Cell>): Store.Database
    decreases |cells|
  {
    if |cells| == 0 then db
    else
      var c := cells[|cells| - 1];
      Store.Set(Fill(db, outcome, cells[..|cells| - 1]), c.0, c.1, c.2, c.3, outcome(c))
  }

  predicate AllInDomain(cells: seq<Store.Cell>)
  {
    forall k :: 0 <= k < |cells| ==> Store.InDomain(cells[k])
  }

  /** Every order number, 0 to 119, in the loops' order. */
  function OrderNumbers(): (all: seq<nat>)
    ensures |all| == HandPermutations
    ensures forall k :: 0 <= k < |all| ==> all[k] == k
  {
    seq(HandPermutations, k => k)
  }

  lemma OrderNumberMembers(x: nat)
    ensures x in OrderNumbers() <==> x < HandPermutations
  {
    if x < HandPermutations {
      assert OrderNumbers()[x] == x;
    }
  }

  /** The four populating loops visit exactly the cells of order numbers. */
  lemma AllCells(all: seq<nat>, cells: seq<Store.Cell>, c: Store.Cell)
    requires all == OrderNumbers() && cells == Store.Cross(all, all, all, all)
    ensures c in cells <==> Store.InDomain(c)
  {
    Store.CrossMembers(all, all, all, all, c);
    OrderNumberMembers(c.0);
    OrderNumberMembers(c.1);
    OrderNumberMembers(c.2);
    OrderNumberMembers(c.3);
  }

  lemma AllCellsInDomain(all: seq<nat>, cells: seq<Store.Cell>)
    requires all == OrderNumbers() && cells == Store.Cross(all, all, all, all)
    ensures AllInDomain(cells)
  {
    forall k | 0 <= k < |cells|
      ensures Store.InDomain(cells[k])
    {
      AllCells(all, cells, cells[k]);
    }
  }

  /** `populate_database`: a fresh store whose key for every cell of order
      numbers holds that cell's outcome. Stated over the keys; `LoopsPopulate`
      shows the source's four loops of `set` calls give the same answers. */
  function PopulateDatabase(hands: seq<seq<Card>>, dealer: nat, rechte: Card): Store.Database
  {
    Store.Database(map k: nat | k < Store.Cells :: PlayCell(hands, dealer, rechte, Store.Unpack(k)))
  }

  /** After the loops, a visited cell holds its outcome and any other in-range
      cell holds what it held before. */
  lemma {:induction false} FillGets(db: Store.Database, outcome: Store.Cell -> GameResult,
                                    cells: seq<Store.Cell>, c: Store.Cell)
    requires AllInDomain(cells) && Store.InDomain(c)
    ensures Store.GetCell(Fill(db, outcome, cells), c) == if c in cells then outcome(c) else Store.GetCell(db, c)
    decreases |cells|
  {
    if |cells| > 0 {
      var init, last := cells[..|cells| - 1], cells[|cells| - 1];
      assert cells == init + [last];
      assert c in cells <==> c in init || c == last;
      FillGets(db, outcome, init, c);
      var before := Fill(db, outcome, init);
      if c == last {
        Store.GetAfterSet(before, c.0, c.1, c.2, c.3, outcome(c));
      } else {
        Store.SetLeavesOthers(before, last, c, outcome(last));
      }
    }
  }

  /** The populated store answers every in-range cell with `play_hand`'s outcome. */
  lemma PopulateMatchesPlayHand(hands: seq<seq<Card>>, dealer: nat, rechte: Card, c: Store.Cell)
    requires Rules.Dealt(hands) && Store.InDomain(c)
    ensures Store.GetCell(PopulateDatabase(hands, dealer, rechte), c)
         == Rules.PlayHand(hands, [c.0, c.1, c.2, c.3], dealer, rechte)
  {
    var db := PopulateDatabase(hands, dealer, rechte);
    var k := Store.MakeIndex(c.0, c.1, c.2, c.3);
    Store.MakeIndexRoundTrip(c.0, c.1, c.2, c.3);
    assert k in db.results;
    assert db.results[k] == PlayCell(hands, dealer, rechte, c);
  }

  /** The four nested loops, setting every cell of order numbers in turn on a
      fresh store, leave each in-range cell as the populated store has it. */
  lemma LoopsPopulate(hands: seq<seq<Card>>, dealer: nat, rechte: Card,
                      all: seq<nat>, cells: seq<Store.Cell>, c: Store.Cell)
    requires Rules.Dealt(hands) && Store.InDomain(c)
    requires all == OrderNumbers() && cells == Store.Cross(all, all, all, all)
    ensures Store.GetCell(Fill(Store.Empty, c => PlayCell(hands, dealer, rechte, c), cells), c)
         == Store.GetCell(PopulateDatabase(hands, dealer, rechte), c)
  {
    AllCellsInDomain(all, cells);
    AllCells(all, cells, c);
    FillGets(Store.Empty, c => PlayCell(hands, dealer, rechte, c), cells, c);
    PopulateMatchesPlayHand(hands, dealer, rechte, c);
  }

  // ----- the store keyed by rank -----

  /** The four play orders a cell names when its numbers are ranks. */
  function CellOrders(c: Store.Cell): (os: seq<seq<nat>>)
    requires Store.InDomain(c)
    ensures |os| == 4 && forall s :: 0 <= s < 4 ==> IsPermutation(os[s])
  {
    [Unrank(c.0), Unrank(c.1), Unrank(c.2), Unrank(c.3)]
  }

  /** The outcome of one cell of ranks: each seat plays the order of its rank. */
  function RankedCell(hands: seq<seq<Card>>, dealer: nat, rechte: Card, c: Store.Cell): GameResult
  {
    if Rules.Dealt(hands) && Store.InDomain(c) then
      var os := CellOrders(c);
      Rules.FourOrders(os[0], os[1], os[2], os[3]);
      Rules.SimulateGame(hands, os, dealer, rechte)
    else NotPlayed
  }

  /** The store the engine's queries need: the key of four ranks holds the
      outcome of the orders of those ranks, so that a block of ranks is the
      set of orders with a given start. */
  function PopulateByRank(hands: seq<seq<Card>>, dealer: nat, rechte: Card): Store.Database
  {
    Store.Database(map k: nat | k < Store.Cells :: RankedCell(hands, dealer, rechte, Store.Unpack(k)))
  }

  lemma RankedGets(hands: seq<seq<Card>>, dealer: nat, rechte: Card, c: Store.Cell)
    requires Rules.Dealt(hands) && Store.InDomain(c)
    ensures Rules.PlayOrders(CellOrders(c))
    ensures Store.GetCell(PopulateByRank(hands, dealer, rechte), c)
         == Rules.SimulateGame(hands, CellOrders(c), dealer, rechte)
  {
    var db := PopulateByRank(hands, dealer, rechte);
    var k := Store.MakeIndex(c.0, c.1, c.2, c.3);
    Store.MakeIndexRoundTrip(c.0, c.1, c.2, c.3);
    assert k in db.results;
    assert db.results[k] == RankedCell(hands, dealer, rechte, c);
  }

  /** Every in-range cell of the store holds a win for one of the teams. */
  ghost predicate Decided(db: Store.Database)
  {
    forall c: Store.Cell :: Store.InDomain(c) ==>
      Store.GetCell(db, c) == Team1Win || Store.GetCell(db, c) == Team2Win
  }

  /** The store `populate_database` fills decides every cell. */
  lemma PopulateDecided(hands: seq<seq<Card>>, dealer: nat, rechte: Card)
    requires Rules.Dealt(hands)
    ensures Decided(PopulateDatabase(hands, dealer, rechte))
  {
    forall c: Store.Cell | Store.InDomain(c)
      ensures var r := Store.GetCell(PopulateDatabase(hands, dealer, rechte), c); r == Team1Win || r == Team2Win
    {
      PopulateMatchesPlayHand(hands, dealer, rechte, c);
    }
  }

  /** So does the store keyed by rank. */
  lemma RankedDecided(hands: seq<seq<Card>>, dealer: nat, rechte: Card)
    requires Rules.Dealt(hands)
    ensures Decided(PopulateByRank(hands, dealer, rechte))
  {
    forall c: Store.Cell | Store.InDomain(c)
      ensures var r := Store.GetCell(PopulateByRank(hands, dealer, rechte), c); r == Team1Win || r == Team2Win
    {
      RankedGets(hands, dealer, rechte, c);
    }
  }

  /** Four played prefixes, one per seat, that the ranking accepts. */
  predicate Prefixes(ps: seq<seq<nat>>)
  {
    |ps| == 4 && forall s :: 0 <= s < 4 ==> ValidPrefix(ps[s]) && Distinct(ps[s])
  }

  /** Each order starts with its seat's prefix. */
  predicate Extends(os: seq<seq<nat>>, ps: seq<seq<nat>>)
    requires |os| == 4 && |ps| == 4
  {
    forall s :: 0 <= s < 4 ==> |ps[s]| <= |os[s]| && os[s][..|ps[s]|] == ps[s]
  }

  function CellKeys(c: Store.Cell): seq<nat>
  {
    [c.0, c.1, c.2, c.3]
  }

  /** Each number of the cell lies in its seat's prefix block. */
  predicate InBlocks(ps: seq<seq<nat>>, c: Store.Cell)
    requires Prefixes(ps)
  {
    forall s :: 0 <= s < 4 ==> PermPrefixRange(ps[s]).0 <= CellKeys(c)[s] < PermPrefixRange(ps[s]).1
  }

  /** Soundness of the rank-keyed store: a cell lies in the four prefix blocks
      exactly when its orders start with the prefixes, and it holds the outcome
      of those orders. */
  lemma RankedBlocks(hands: seq<seq<Card>>, dealer: nat, rechte: Card, ps: seq<seq<nat>>, c: Store.Cell)
    requires Rules.Dealt(hands) && Store.InDomain(c) && Prefixes(ps)
    ensures InBlocks(ps, c) <==> Extends(CellOrders(c), ps)
    ensures Rules.PlayOrders(CellOrders(c))
    ensures Store.GetCell(PopulateByRank(hands, dealer, rechte), c)
         == Rules.SimulateGame(hands, CellOrders(c), dealer, rechte)
  {
    forall s | 0 <= s < 4
      ensures PermPrefixRange(ps[s]).0 <= CellKeys(c)[s] < PermPrefixRange(ps[s]).1
          <==> CellOrders(c)[s][..|ps[s]|] == ps[s]
    {
      UnrankInBlock(ps[s], CellKeys(c)[s]);
    }
    RankedGets(hands, dealer, rechte, c);
  }

  /** Four full play orders, one per seat. */
  predicate FullOrders(os: seq<seq<nat>>)
  {
    |os| == 4 && forall s :: 0 <= s < 4 ==> IsPermutation(os[s])
  }

  /** The cell of ranks of four play orders. */
  function RankCell(os: seq<seq<nat>>): (c: Store.Cell)
    requires FullOrders(os)
    ensures Store.InDomain(c)
  {
    assert IsPermutation(os[0]) && IsPermutation(os[1]) && IsPermutation(os[2]) && IsPermutation(os[3]);
    (PermIndex(os[0]), PermIndex(os[1]), PermIndex(os[2]), PermIndex(os[3]))
  }

  /** Cells of ranks and quadruples of play orders correspond one to one:
      unranking the cell of four orders gives the orders back ... */
  lemma CellRoundTrip(os: seq<seq<nat>>)
    requires FullOrders(os)
    ensures CellOrders(RankCell(os)) == os
  {
    assert IsPermutation(os[0]) && IsPermutation(os[1]) && IsPermutation(os[2]) && IsPermutation(os[3]);
    UnrankRoundTrip(os[0], 0);
    UnrankRoundTrip(os[1], 0);
    UnrankRoundTrip(os[2], 0);
    UnrankRoundTrip(os[3], 0);
  }

  /** ... and ranking the orders of a cell gives the cell back. */
  lemma CellOrdersRoundTrip(c: Store.Cell)
    requires Store.InDomain(c)
    ensures RankCell(CellOrders(c)) == c
  {
    var us := CellOrders(c);
    assert us == [Unrank(c.0), Unrank(c.1), Unrank(c.2), Unrank(c.3)];
    assert RankCell(us) == (PermIndex(us[0]), PermIndex(us[1]), PermIndex(us[2]), PermIndex(us[3]));
  }

  /** Completeness of the rank-keyed store: any four orders starting with the
      prefixes have their cell of ranks inside the blocks, holding their outcome. */
  lemma RankedCompletions(hands: seq<seq<Card>>, dealer: nat, rechte: Card, ps: seq<seq<nat>>, os: seq<seq<nat>>)
    requires Rules.Dealt(hands) && Prefixes(ps) && FullOrders(os) && Extends(os, ps)
    ensures InBlocks(ps, RankCell(os)) && Rules.PlayOrders(os)
    ensures Store.GetCell(PopulateByRank(hands, dealer, rechte), RankCell(os))
         == Rules.SimulateGame(hands, os, dealer, rechte)
  {
    var c := RankCell(os);
    CellRoundTrip(os);
    RankedBlocks(hands, dealer, rechte, ps, c);
  }

  /** The store as the source fills it keys a cell by positions in the
      generator's list, while the engine reads blocks of ranks: order number 1
      starts with slot 1, yet the number 1 lies outside the block [24, 48) of
      the prefix [1]. */
  lemma HeapOrderOutsideBlock(k: nat)
    requires k == 1
    ensures k < HandPermutations && HandOrders.OrderNumber(k) == [1, 0, 2, 3, 4]
    ensures PermPrefixRange([1]) == (24, 48)
    ensures !(PermPrefixRange([1]).0 <= k < PermPrefixRange([1]).1)
  {
    HandOrders.SecondOrderNumber(k);
    var p: seq<nat> := [1];
    assert p[..0] == [];
    assert Smaller(1, []) == 1;
    assert Factorial(4) == 24;
    assert PrefixStart(p) == 24;
  }

  /** Seat 0 plays slot 1 first, then slot 0; the other seats play in slot order. */
  predicate SwappedFirstSeat(os: seq<seq<nat>>)
  {
    os == [[1, 0, 2, 3, 4], [0, 1, 2, 3, 4], [0, 1, 2, 3, 4], [0, 1, 2, 3, 4]]
  }

  lemma SwappedOrders(os: seq<seq<nat>>)
    requires SwappedFirstSeat(os)
    ensures FullOrders(os) && Rules.PlayOrders(os)
  {
    SwappedIsPermutation();
    Rules.FourOrders(os[0], os[1], os[2], os[3]);
  }

  /** Consequently the counts for a seat that led slot 1 never see the game
      the source's store holds under number 1, that seat playing slot 1 first:
      the cell lies outside the block of the prefix [1]. */
  lemma HeapBlockMismatch(hands: seq<seq<Card>>, dealer: nat, rechte: Card, os: seq<seq<nat>>, c: Store.Cell)
    requires Rules.Dealt(hands) && SwappedFirstSeat(os) && c == (1, 0, 0, 0)
    ensures !(PermPrefixRange([1]).0 <= c.0 < PermPrefixRange([1]).1)
    ensures Rules.PlayOrders(os) && os[0][0] == 1
    ensures Store.GetCell(PopulateDatabase(hands, dealer, rechte), c) == Rules.SimulateGame(hands, os, dealer, rechte)
  {
    SwappedOrders(os);
    HeapOrderOutsideBlock(c.0);
    HandOrders.FirstOrderNumber(c.1);
    HandOrders.IdentityIsPermutation();
    PopulateMatchesPlayHand(hands, dealer, rechte, c);
    assert os == [HandOrders.OrderNumber(c.0), HandOrders.OrderNumber(c.1), HandOrders.OrderNumber(c.2), HandOrders.OrderNumber(c.3)];
  }

  /** The rank-keyed store holds that same game at 24, inside the block. */
  lemma RankedSwappedInBlock(hands: seq<seq<Card>>, dealer: nat, rechte: Card, os: seq<seq<nat>>, d: Store.Cell)
    requires Rules.Dealt(hands) && SwappedFirstSeat(os) && d == (24, 0, 0, 0)
    ensures Rules.PlayOrders(os)
    ensures Store.GetCell(PopulateByRank(hands, dealer, rechte), d) == Rules.SimulateGame(hands, os, dealer, rechte)
    ensures PermPrefixRange([1]).0 <= d.0 < PermPrefixRange([1]).1
  {
    SwappedOrders(os);
    var k: nat := 1;
    HeapOrderOutsideBlock(k);
    SwappedPairRank();
    IdentityIndex();
    assert RankCell(os) == d;
    CellRoundTrip(os);
    RankedGets(hands, dealer, rechte, d);
  }

  // ----- counting over a populated store -----

  lemma {:induction false} CountNone(db: Store.Database, cells: seq<Store.Cell>, r: GameResult)
    requires forall k :: 0 <= k < |cells| ==> Store.GetCell(db, cells[k]) != r
    ensures Store.Count(db, cells, r) == 0
  {
    if |cells| > 0 {
      CountNone(db, cells[1..], r);
    }
  }

  predicate OrderList(l: seq<nat>)
  {
    forall k :: 0 <= k < |l| ==> l[k] < HandPermutations
  }

  /** Every cell visited over lists of order numbers holds a win for one team. */
  lemma PopulatedCells(db: Store.Database, l1: seq<nat>, l2: seq<nat>, l3: seq<nat>, l4: seq<nat>,
                       cells: seq<Store.Cell>)
    requires Decided(db)
    requires OrderList(l1) && OrderList(l2) && OrderList(l3) && OrderList(l4)
    requires cells == Store.Cross(l1, l2, l3, l4)
    ensures Store.Count(db, cells, NotPlayed) == 0 && Store.Count(db, cells, RuleViolation) == 0
  {
    forall k | 0 <= k < |cells|
      ensures Store.GetCell(db, cells[k]) == Team1Win || Store.GetCell(db, cells[k]) == Team2Win
    {
      Store.CrossMembers(l1, l2, l3, l4, cells[k]);
    }
    CountNone(db, cells, NotPlayed);
    CountNone(db, cells, RuleViolation);
  }

  /** Counted over lists of order numbers, a store that decides every cell
      (as both filled stores do) has no unplayed and no rule-violation
      outcomes: while the counters do not wrap, the two win buckets add up to
      the number of cells visited. */
  lemma PopulatedHistogram(db: Store.Database, l1: seq<nat>, l2: seq<nat>, l3: seq<nat>, l4: seq<nat>)
    requires Decided(db)
    requires OrderList(l1) && OrderList(l2) && OrderList(l3) && OrderList(l4)
    requires |l1| * (|l2| * (|l3| * |l4|)) < Store.U32
    ensures var h := Store.Histogram(db, l1, l2, l3, l4);
      h[NotPlayed.Ordinal()] == 0 && h[RuleViolation.Ordinal()] == 0
      && h[Team1Win.Ordinal()] + h[Team2Win.Ordinal()] == |l1| * (|l2| * (|l3| * |l4|))
  {
    var cells := Store.Cross(l1, l2, l3, l4);
    var h := Store.Histogram(db, l1, l2, l3, l4);
    PopulatedCells(db, l1, l2, l3, l4, cells);
    Store.HistogramCounts(db, l1, l2, l3, l4, NotPlayed);
    Store.HistogramCounts(db, l1, l2, l3, l4, RuleViolation);
    Store.HistogramTotal(db, l1, l2, l3, l4);
    var c0, c3 := Store.Count(db, cells, NotPlayed), Store.Count(db, cells, RuleViolation);
    assert h[NotPlayed.Ordinal()] == c0 % Store.U32 && c0 == 0;
    assert h[RuleViolation.Ordinal()] == c3 % Store.U32 && c3 == 0;
  }

  // ----- starting a round -----

  /** `start_round`: with `cards` the shuffled deck, reset what the round is
      worth, forget all played slots, deal, choose the rechte from the suit of
      the dealer's first card and the rank of the next seat's first card, and
      fill the store with `populate_database`, keyed by positions in the list
      of hand orders. */
  function StartRound(g: GameState, cards: seq<Card>): (h: GameState)
    requires Shaped(g) && |cards| == 33
    ensures Shaped(h)
    ensures h.roundPoints == RoundPoints && h.lastRaiser == None
    ensures h.played == [[], [], [], []] && h.hands == h.origHands
    ensures h.rechte == Some(Card(cards[3].suit, cards[0].rank))
    ensures h.human == g.human && h.dealer == g.dealer && h.scores == g.scores
  {
    var hands := Deal(cards, g.dealer);
    DealOrder(cards, g.dealer, 3, 0);
    DealOrder(cards, g.dealer, 0, 0);
    assert (g.dealer + 1 + 3) % 4 == g.dealer;
    var rechte := Card(hands[g.dealer][0].suit, hands[(g.dealer + 1) % 4][0].rank);
    g.(hands := hands, origHands := hands, played := [[], [], [], []], rechte := Some(rechte),
       roundPoints := RoundPoints, lastRaiser := None, db := PopulateDatabase(hands, g.dealer, rechte))
  }

  /** After the deal each seat holds its five cards from the deck in the
      order the dealing loop hands them out. */
  lemma StartRoundDeals(g: GameState, cards: seq<Card>, j: nat, i: nat)
    requires Shaped(g) && |cards| == 33 && j < 4 && i < Rules.TricksPerRound
    ensures StartRound(g, cards).origHands[(g.dealer + 1 + j) % 4][i] == cards[4 * i + j]
  {
    DealOrder(cards, g.dealer, j, i);
  }

  /** After the deal the store holds, for every cell of order numbers, what
      `play_hand` gives for the dealt hands and those numbers. */
  lemma StartRoundStore(g: GameState, cards: seq<Card>, h: GameState, c: Store.Cell, ids: seq<nat>)
    requires Shaped(g) && |cards| == 33 && h == StartRound(g, cards)
    requires Store.InDomain(c) && ids == [c.0, c.1, c.2, c.3]
    ensures Rules.Dealt(h.origHands) && forall k :: 0 <= k < 4 ==> ids[k] < HandPermutations
    ensures Store.GetCell(h.db, c) == Rules.PlayHand(h.origHands, ids, h.dealer, h.rechte.value)
  {
    FilledStore(h.origHands, h.dealer, h.rechte.value, h.db, c, ids);
  }

  /** After the deal every in-range cell of the store holds a win for one team. */
  lemma StartRoundDecided(g: GameState, cards: seq<Card>)
    requires Shaped(g) && |cards| == 33
    ensures Decided(StartRound(g, cards).db)
  {
    var h := StartRound(g, cards);
    PopulateDecided(h.origHands, h.dealer, h.rechte.value);
  }

  lemma FilledStore(hands: seq<seq<Card>>, dealer: nat, rechte: Card, db: Store.Database, c: Store.Cell, ids: seq<nat>)
    requires Rules.Dealt(hands) && db == PopulateDatabase(hands, dealer, rechte)
    requires Store.InDomain(c) && ids == [c.0, c.1, c.2, c.3]
    ensures forall k :: 0 <= k < 4 ==> ids[k] < HandPermutations
    ensures Store.GetCell(db, c) == Rules.PlayHand(hands, ids, dealer, rechte)
  {
    CellIds(c, ids);
    PopulateMatchesPlayHand(hands, dealer, rechte, c);
  }

  lemma CellIds(c: Store.Cell, ids: seq<nat>)
    requires Store.InDomain(c) && ids == [c.0, c.1, c.2, c.3]
    ensures forall k :: 0 <= k < 4 ==> ids[k] < HandPermutations
  {
  }

  /** The corrected start of a round: the same deal, with the store keyed by
      the ranks of the four play orders. */
  function StartRoundByRank(g: GameState, cards: seq<Card>): (h: GameState)
    requires Shaped(g) && |cards| == 33
    ensures Shaped(h) && Decided(h.db)
    ensures h == StartRound(g, cards).(db := h.db)
  {
    var s := StartRound(g, cards);
    RankedDecided(s.origHands, s.dealer, s.rechte.value);
    s.(db := PopulateByRank(s.origHands, s.dealer, s.rechte.value))
  }

  /** After the corrected start the store holds, for every cell of ranks, the
      outcome of the dealt hands played in the orders of those ranks. */
  lemma StartRoundByRankStore(g: GameState, cards: seq<Card>, h: GameState, c: Store.Cell)
    requires Shaped(g) && |cards| == 33 && h == StartRoundByRank(g, cards) && Store.InDomain(c)
    ensures Rules.Dealt(h.origHands) && Rules.PlayOrders(CellOrders(c))
    ensures Store.GetCell(h.db, c) == Rules.SimulateGame(h.origHands, CellOrders(c), h.dealer, h.rechte.value)
  {
    RankedGets(h.origHands, h.dealer, h.rechte.value, c);
  }

  // ----- playing a card -----

  /** The dealt cards from slot `from` on whose slots have not been played, in
      slot order. */
  function Remaining(orig: seq<Card>, played: seq<nat>, from: nat): seq<Card>
    decreases |orig| - from
  {
    if from >= |orig| then []
    else (if from in played then [] else [orig[from]]) + Remaining(orig, played, from + 1)
  }

  /** The bookkeeping of one seat agrees with its hand: the played slots are
      distinct slots, as many as cards have left the hand, and the hand holds
      exactly the cards of the unplayed slots. */
  predicate SeatConsistent(g: GameState, s: nat)
    requires Shaped(g) && s < 4
  {
    var played := g.played[s];
    ValidPrefix(played) && Distinct(played)
    && |played| + |g.hands[s]| == Rules.TricksPerRound
    && multiset(g.hands[s]) == multiset(Remaining(g.origHands[s], played, 0))
  }

  predicate Consistent(g: GameState)
  {
    Shaped(g) && forall s :: 0 <= s < 4 ==> SeatConsistent(g, s)
  }

  lemma {:induction false} RemainingMembers(orig: seq<Card>, played: seq<nat>, from: nat, card: Card)
    ensures card in Remaining(orig, played, from) <==> exists i :: from <= i && Unplayed(orig, played, card, i)
    decreases |orig| - from
  {
    if from < |orig| {
      RemainingMembers(orig, played, from + 1, card);
      if card in Remaining(orig, played, from) && card !in Remaining(orig, played, from + 1) {
        assert Unplayed(orig, played, card, from);
      }
      if exists i :: from <= i && Unplayed(orig, played, card, i) {
        var i :| from <= i && Unplayed(orig, played, card, i);
        if i == from {
          assert card in Remaining(orig, played, from);
        }
      }
    }
  }

  lemma {:induction false} RemainingNothingPlayed(orig: seq<Card>, from: nat)
    requires from <= |orig|
    ensures Remaining(orig, [], from) == orig[from..]
    decreases |orig| - from
  {
    if from < |orig| {
      RemainingNothingPlayed(orig, from + 1);
    }
  }

  lemma {:induction false} RemainingIgnores(orig: seq<Card>, played: seq<nat>, x: nat, from: nat)
    requires x < from
    ensures Remaining(orig, played + [x], from) == Remaining(orig, played, from)
    decreases |orig| - from
  {
    if from < |orig| {
      assert from in played + [x] <==> from in played;
      RemainingIgnores(orig, played, x, from + 1);
    }
  }

  /** Marking slot `i` played takes exactly its card out of the remaining ones. */
  lemma {:induction false} RemainingDrop(orig: seq<Card>, played: seq<nat>, from: nat, i: nat)
    requires from <= i < |orig| && i !in played
    ensures multiset(Remaining(orig, played + [i], from)) == multiset(Remaining(orig, played, from)) - multiset{orig[i]}
    decreases |orig| - from
  {
    assert from in played + [i] <==> from in played || from == i;
    var rest, rest' := Remaining(orig, played, from + 1), Remaining(orig, played + [i], from + 1);
    if from == i {
      RemainingIgnores(orig, played, i, from + 1);
      assert Remaining(orig, played, from) == [orig[i]] + rest;
      assert Remaining(orig, played + [i], from) == rest';
    } else {
      RemainingDrop(orig, played, from + 1, i);
      assert from + 1 <= i && Unplayed(orig, played, orig[i], i);
      RemainingMembers(orig, played, from + 1, orig[i]);
      assert orig[i] in rest;
      var head := if from in played then [] else [orig[from]];
      assert Remaining(orig, played, from) == head + rest;
      assert Remaining(orig, played + [i], from) == head + rest';
      MultisetTake(multiset(head), multiset(rest), orig[i]);
    }
  }

  lemma MultisetTake<T>(a: multiset<T>, b: multiset<T>, x: T)
    requires x in b
    ensures a + (b - multiset{x}) == (a + b) - multiset{x}
  {
  }

  /** In a consistent state every card in a hand has an unplayed dealt slot,
      so `find_orig_index` finds one. */
  lemma CardFindable(g: GameState, seat: nat, idx: nat)
    requires Consistent(g) && seat < 4 && idx < |g.hands[seat]|
    ensures exists i :: Unplayed(g.origHands[seat], g.played[seat], g.hands[seat][idx], i)
  {
    assert SeatConsistent(g, seat);
    var card := g.hands[seat][idx];
    assert card in multiset(g.hands[seat]);
    assert card in Remaining(g.origHands[seat], g.played[seat], 0);
    RemainingMembers(g.origHands[seat], g.played[seat], 0, card);
  }

  /** A seat plays the card at position `idx` of its hand: the card leaves the
      hand and its dealt slot is appended to the seat's played slots. */
  function PlayCard(g: GameState, seat: nat, idx: nat): (r: (GameState, Card))
    requires Consistent(g) && seat < 4 && idx < |g.hands[seat]|
    ensures Shaped(r.0)
    ensures r.1 == g.hands[seat][idx]
    ensures |r.0.hands[seat]| == |g.hands[seat]| - 1
    ensures multiset(r.0.hands[seat]) == multiset(g.hands[seat]) - multiset{r.1}
    ensures r.0.hands[seat] == g.hands[seat][..idx] + g.hands[seat][idx + 1..]
    ensures |r.0.played[seat]| == |g.played[seat]| + 1 && r.0.played[seat][..|g.played[seat]|] == g.played[seat]
    ensures var slot := r.0.played[seat][|g.played[seat]|];
      Unplayed(g.origHands[seat], g.played[seat], r.1, slot)
      && forall j :: 0 <= j < slot ==> !Unplayed(g.origHands[seat], g.played[seat], r.1, j)
    ensures forall s :: 0 <= s < 4 && s != seat ==> r.0.hands[s] == g.hands[s] && r.0.played[s] == g.played[s]
    ensures r.0 == g.(hands := r.0.hands, played := r.0.played)
  {
    var hand := g.hands[seat];
    var card := hand[idx];
    assert hand == hand[..idx] + [card] + hand[idx + 1..];
    CardFindable(g, seat, idx);
    var slot := FindOrigIndex(g.origHands[seat], g.played[seat], card);
    (g.(hands := g.hands[seat := hand[..idx] + hand[idx + 1..]],
        played := g.played[seat := g.played[seat] + [slot]]), card)
  }

  /** Playing a card keeps the bookkeeping consistent. */
  lemma PlayCardConsistent(g: GameState, seat: nat, idx: nat)
    requires Consistent(g) && seat < 4 && idx < |g.hands[seat]|
    ensures Consistent(PlayCard(g, seat, idx).0)
  {
    var (h, card) := PlayCard(g, seat, idx);
    var old_ := g.played[seat];
    var slot := h.played[seat][|old_|];
    assert h.played[seat] == old_ + [slot];
    assert SeatConsistent(g, seat);
    RemainingDrop(g.origHands[seat], old_, 0, slot);
    assert Distinct(h.played[seat]) by {
      forall a, b | 0 <= a < b < |h.played[seat]|
        ensures h.played[seat][a] != h.played[seat][b]
      {
        if b == |old_| {
          assert h.played[seat][a] == old_[a];
        }
      }
    }
    assert SeatConsistent(h, seat);
    forall s | 0 <= s < 4
      ensures SeatConsistent(h, s)
    {
      if s != seat {
        assert SeatConsistent(g, s);
      }
    }
  }

  /** A fresh deal is consistent: nothing played, every dealt card in hand. */
  lemma StartRoundConsistent(g: GameState, cards: seq<Card>)
    requires Shaped(g) && |cards| == 33
    ensures Consistent(StartRound(g, cards))
  {
    var h := StartRound(g, cards);
    forall s | 0 <= s < 4
      ensures SeatConsistent(h, s)
    {
      RemainingNothingPlayed(h.origHands[s], 0);
      assert h.origHands[s][0..] == h.origHands[s];
    }
  }

  // ----- the engine's choice -----

  /** The block of order ranks `best_card_index` queries for seat `i` when
      `seat` considers the card at `idx`: the block of the seat's played slots,
      with the candidate's slot appended for the seat choosing. */
  function CandidateRange(g: GameState, seat: nat, idx: nat, i: nat): (r: Store.Range)
    requires Consistent(g) && seat < 4 && idx < |g.hands[seat]| && i < 4
    ensures r.lo < r.hi <= HandPermutations
  {
    var h := PlayCard(g, seat, idx).0;
    PlayCardConsistent(g, seat, idx);
    assert SeatConsistent(h, i);
    FactorialPositive(Slots - |h.played[i]|);
    var (lo, hi) := PermPrefixRange(h.played[i]);
    Store.Range(lo, hi)
  }

  lemma {:induction false} FactorialPositive(n: nat)
    ensures Factorial(n) >= 1
  {
    if n > 0 {
      FactorialPositive(n - 1);
    }
  }

  /** The share of decided outcomes the team wins; 0 when none is decided. */
  function WinRate(counts: seq<nat>, team: nat): (rate: real)
    requires |counts| == 4 && team < 2
    ensures 0.0 <= rate <= 1.0
  {
    var wins := counts[if team == 0 then Team1Win.Ordinal() else Team2Win.Ordinal()];
    var losses := counts[if team == 0 then Team2Win.Ordinal() else Team1Win.Ordinal()];
    if wins + losses == 0 then 0.0 else wins as real / (wins + losses) as real
  }

  /** Rates compare as the cross-multiplied win and game counts do. */
  lemma WinRateCompare(c: seq<nat>, d: seq<nat>, team: nat)
    requires |c| == 4 && |d| == 4 && team < 2
    ensures var (wc, lc) := (c[1 + team], c[2 - team]);
      var (wd, ld) := (d[1 + team], d[2 - team]);
      wc + lc > 0 && wd + ld > 0 ==>
        (WinRate(c, team) < WinRate(d, team) <==> wc * (wd + ld) < wd * (wc + lc))
  {
    var (wc, lc) := (c[1 + team], c[2 - team]);
    var (wd, ld) := (d[1 + team], d[2 - team]);
    if wc + lc > 0 && wd + ld > 0 {
      var x, y := (wc + lc) as real, (wd + ld) as real;
      assert WinRate(c, team) == wc as real / x;
      assert WinRate(d, team) == wd as real / y;
      DivCompare(wc as real, wd as real, x, y);
      assert wc as real * y == (wc * (wd + ld)) as real;
      assert wd as real * x == (wd * (wc + lc)) as real;
    }
  }

  lemma DivCompare(a: real, b: real, x: real, y: real)
    requires x > 0.0 && y > 0.0
    ensures a / x < b / y <==> a * y < b * x
  {
    var p, q := a / x, b / y;
    assert p * x == a && q * y == b;
    assert a * y == p * (x * y) && b * x == q * (x * y);
    if p < q {
      assert p * (x * y) < q * (x * y);
    } else {
      assert q * (x * y) <= p * (x * y);
    }
  }

  /** The four blocks, one per seat, of a candidate. */
  function CandidateBlocks(g: GameState, seat: nat, idx: nat): (b: (Store.Range, Store.Range, Store.Range, Store.Range))
    requires Consistent(g) && seat < 4 && idx < |g.hands[seat]|
    ensures b.0.lo < b.0.hi <= HandPermutations && b.1.lo < b.1.hi <= HandPermutations
    ensures b.2.lo < b.2.hi <= HandPermutations && b.3.lo < b.3.hi <= HandPermutations
  {
    (CandidateRange(g, seat, idx, 0), CandidateRange(g, seat, idx, 1),
     CandidateRange(g, seat, idx, 2), CandidateRange(g, seat, idx, 3))
  }

  /** The counts `best_card_index` reads for the card at `idx`: the histogram
      over the four blocks. */
  function CandidateCounts(g: GameState, seat: nat, idx: nat): (counts: seq<nat>)
    requires Consistent(g) && seat < 4 && idx < |g.hands[seat]|
    ensures |counts| == 4
  {
    var b := CandidateBlocks(g, seat, idx);
    Store.Histogram(g.db, Store.Indices(b.0), Store.Indices(b.1), Store.Indices(b.2), Store.Indices(b.3))
  }

  /** The win rate `best_card_index` computes for the card at `idx`, for the
      seat's team. */
  function CandidateRate(g: GameState, seat: nat, idx: nat): (rate: real)
    requires Consistent(g) && seat < 4 && idx < |g.hands[seat]|
    ensures 0.0 <= rate <= 1.0
  {
    WinRate(CandidateCounts(g, seat, idx), seat % 2)
  }

  predicate Candidates(g: GameState, seat: nat, allowed: seq<nat>)
    requires Shaped(g) && seat < 4
  {
    forall k :: 0 <= k < |allowed| ==> allowed[k] < |g.hands[seat]|
  }

  /** Candidate `k` has the highest rate, and every earlier candidate a lower one. */
  predicate FirstBest(g: GameState, seat: nat, allowed: seq<nat>, k: nat)
    requires Consistent(g) && seat < 4 && Candidates(g, seat, allowed) && k < |allowed|
  {
    (forall j :: 0 <= j < |allowed| ==> CandidateRate(g, seat, allowed[j]) <= CandidateRate(g, seat, allowed[k]))
    && forall j :: 0 <= j < k ==> CandidateRate(g, seat, allowed[j]) < CandidateRate(g, seat, allowed[k])
  }

  /** The body of `best_card_index`'s loop for one candidate: count over the
      four blocks and turn the counts into a rate. */
  method RateCandidate(g: GameState, seat: nat, idx: nat) returns (rate: real)
    requires Consistent(g) && seat < 4 && idx < |g.hands[seat]|
    ensures rate == CandidateRate(g, seat, idx)
  {
    var b := CandidateBlocks(g, seat, idx);
    var counts := Store.CountsInRanges(g.db, b.0, b.1, b.2, b.3);
    rate := WinRate(counts, seat % 2);
  }

  /** No candidate before `i` rates above `bound`. */
  predicate RatedBelow(g: GameState, seat: nat, allowed: seq<nat>, i: nat, bound: real)
    requires Consistent(g) && seat < 4 && Candidates(g, seat, allowed) && i <= |allowed|
  {
    forall j :: 0 <= j < i ==> CandidateRate(g, seat, allowed[j]) <= bound
  }

  lemma RatedUpTo(g: GameState, seat: nat, allowed: seq<nat>, i: nat, bound: real)
    requires Consistent(g) && seat < 4 && Candidates(g, seat, allowed) && i < |allowed|
    requires RatedBelow(g, seat, allowed, i, bound) && CandidateRate(g, seat, allowed[i]) <= bound
    ensures RatedBelow(g, seat, allowed, i + 1, bound)
  {
  }

  /** `best_card_index`: the allowed position whose card has the highest win
      rate, the first such one on ties. */
  method BestCardIndex(g: GameState, seat: nat, allowed: seq<nat>) returns (best: nat)
    requires Consistent(g) && seat < 4 && Candidates(g, seat, allowed) && |allowed| > 0
    ensures exists k :: 0 <= k < |allowed| && best == allowed[k] && FirstBest(g, seat, allowed, k)
  {
    best := allowed[0];
    var bestRate: real := -1.0;
    ghost var bestAt := 0;
    var i := 0;
    while i < |allowed|
      invariant 0 <= i <= |allowed| && bestAt < |allowed| && best == allowed[bestAt]
      invariant i == 0 ==> bestRate == -1.0 && bestAt == 0
      invariant i > 0 ==> bestAt < i && bestRate == CandidateRate(g, seat, best)
      invariant RatedBelow(g, seat, allowed, i, bestRate)
      invariant forall j :: 0 <= j < bestAt ==> CandidateRate(g, seat, allowed[j]) < bestRate
    {
      var idx := allowed[i];
      var rate := RateCandidate(g, seat, idx);
      if rate > bestRate {
        bestRate := rate;
        best := idx;
        bestAt := i;
      }
      RatedUpTo(g, seat, allowed, i, bestRate);
      i := i + 1;
    }
  }

  lemma BlockList(r: Store.Range)
    requires r.lo < r.hi <= HandPermutations
    ensures OrderList(Store.Indices(r)) && |Store.Indices(r)| == r.hi - r.lo
  {
    Store.RangeSeqContents(r.lo, r.hi);
  }

  lemma MulLe(x: nat, xs: nat, y: nat, ys: nat)
    requires x <= xs && y <= ys
    ensures x * y <= xs * ys
  {
    MulMono(x, xs, y);
    MulMono(y, ys, xs);
  }

  lemma ProductBounds(a: nat, b: nat, c: nat, d: nat)
    requires 1 <= a <= 120 && 1 <= b <= 120 && 1 <= c <= 120 && 1 <= d <= 120
    ensures 1 <= a * (b * (c * d)) <= Store.Cells
  {
    MulLe(1, c, 1, d);
    MulLe(c, 120, d, 120);
    MulLe(1, b, 1, c * d);
    MulLe(b, 120, c * d, 14400);
    MulLe(1, a, 1, b * (c * d));
    MulLe(a, 120, b * (c * d), 1728000);
  }

  /** The number of cells in the four blocks of a candidate. */
  function CandidateCells(g: GameState, seat: nat, idx: nat): int
    requires Consistent(g) && seat < 4 && idx < |g.hands[seat]|
  {
    var b := CandidateBlocks(g, seat, idx);
    (b.0.hi - b.0.lo) * ((b.1.hi - b.1.lo) * ((b.2.hi - b.2.lo) * (b.3.hi - b.3.lo)))
  }

  /** A store that decides every cell counts a win for one team in every
      cell of four order-number blocks. */
  lemma BlocksDecided(db: Store.Database, r0: Store.Range, r1: Store.Range, r2: Store.Range, r3: Store.Range)
    requires Decided(db)
    requires r0.lo < r0.hi <= HandPermutations && r1.lo < r1.hi <= HandPermutations
    requires r2.lo < r2.hi <= HandPermutations && r3.lo < r3.hi <= HandPermutations
    ensures var h := Store.Histogram(db, Store.Indices(r0), Store.Indices(r1), Store.Indices(r2), Store.Indices(r3));
      var n := (r0.hi - r0.lo) * ((r1.hi - r1.lo) * ((r2.hi - r2.lo) * (r3.hi - r3.lo)));
      h[Team1Win.Ordinal()] + h[Team2Win.Ordinal()] == n && n > 0
  {
    var l0, l1, l2, l3 := Store.Indices(r0), Store.Indices(r1), Store.Indices(r2), Store.Indices(r3);
    BlockList(r0);
    BlockList(r1);
    BlockList(r2);
    BlockList(r3);
    ProductBounds(|l0|, |l1|, |l2|, |l3|);
    PopulatedHistogram(db, l0, l1, l2, l3);
  }

  /** Once the store decides every cell, as the one `start_round` fills does
      (`StartRoundDecided`) and as playing cards keeps it (`PlayCard` leaves the store
      alone), wins and losses together cover every cell of a candidate's four
      blocks, so the rate's zero-total case never arises. */
  lemma CandidateCountsDecided(g: GameState, seat: nat, idx: nat)
    requires Consistent(g) && seat < 4 && idx < |g.hands[seat]| && Decided(g.db)
    ensures var h := CandidateCounts(g, seat, idx);
      h[Team1Win.Ordinal()] + h[Team2Win.Ordinal()] == CandidateCells(g, seat, idx) > 0
  {
    var b := CandidateBlocks(g, seat, idx);
    BlocksDecided(g.db, b.0, b.1, b.2, b.3);
  }

  // ----- the end of a round -----

  /** Tail of `play_round`: the deal passes to the left, and the team that
      took more tricks (team 2 on a tie, which five tricks rule out) scores
      the points the round is worth. */
  function FinishRound(g: GameState, tricks: seq<nat>): (r: (GameState, GameResult))
    requires Shaped(g) && |tricks| == 2
    ensures Shaped(r.0)
    ensures r.1 == Team1Win || r.1 == Team2Win
  {
    var result := if tricks[0] > tricks[1] then Team1Win else Team2Win;
    var team := if result == Team1Win then 0 else 1;
    (g.(dealer := (g.dealer + 1) % 4, scores := g.scores[team := g.scores[team] + g.roundPoints]), result)
  }

  /** Only the winning team's score grows, by what the round was worth; the
      dealer moves one seat on; nothing else changes. */
  lemma FinishRoundScores(g: GameState, tricks: seq<nat>)
    requires Shaped(g) && |tricks| == 2
    ensures var (h, result) := FinishRound(g, tricks);
      var w := if tricks[0] > tricks[1] then 0 else 1;
      (result == Team1Win <==> tricks[0] > tricks[1])
      && h.scores[w] == g.scores[w] + g.roundPoints
      && h.scores[1 - w] == g.scores[1 - w]
      && h.scores[0] + h.scores[1] == g.scores[0] + g.scores[1] + g.roundPoints
      && h.dealer == (g.dealer + 1) % 4
      && h == g.(dealer := h.dealer, scores := h.scores)
  {
  }

  /** After four rounds the deal is back with the same seat. */
  lemma DealerCycles(g: GameState, t1: seq<nat>, t2: seq<nat>, t3: seq<nat>, t4: seq<nat>)
    requires Shaped(g) && |t1| == 2 && |t2| == 2 && |t3| == 2 && |t4| == 2
    ensures FinishRound(FinishRound(FinishRound(FinishRound(g, t1).0, t2).0, t3).0, t4).0.dealer == g.dealer
  {
  }

  /** The round tests: a 3-2 round worth 2 points scores [2, 0]; the same
      round again gives [4, 0]; raised twice first, it scores [4, 0]. */
  lemma ScoringExamples(g: GameState)
    requires g == New(0)
    ensures FinishRound(g, [3, 2]).0.scores == [2, 0]
    ensures FinishRound(FinishRound(g, [3, 2]).0, [3, 2]).0.scores == [4, 0]
    ensures RaiseRound(g, 0).Ok? && RaiseRound(RaiseRound(g, 0).value, 1).Ok?
    ensures var raised := RaiseRound(RaiseRound(g, 0).value, 1).value;
      FinishRound(raised, [3, 2]).0.scores == [4, 0]
  {
  }
}
