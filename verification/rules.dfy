/**
 Trick rules: how strong a card is in a trick, who takes a trick, and the
 deterministic five-trick round the engine simulates for fixed play orders.
 */
module Rules {
  import opened Watten
  import opened Permutations
  import HandOrders

  /** Cards per hand, and so tricks per round. */
  const TricksPerRound: nat := 5

  // ----- card strength -----

  /** The ranks in declaration order. */
  const RankOrder: seq<Rank> := [Seven, Eight, Nine, Ten, Unter, Ober, King, Ace, Weli]

  /** Face value of a rank: Seven counts 1, each following rank one more, the Weli 9. */
  function RankValue(r: Rank): (v: nat)
    ensures 1 <= v <= 9
  {
    match r
    case Seven => 1
    case Eight => 2
    case Nine => 3
    case Ten => 4
    case Unter => 5
    case Ober => 6
    case King => 7
    case Ace => 8
    case Weli => 9
  }

  /** The value of a rank is its 1-based place in the rank order, so values
      are distinct and follow that order. */
  lemma RankValueIsPlace()
    ensures forall k :: 0 <= k < |RankOrder| ==> RankValue(RankOrder[k]) == k + 1
  {
  }

  lemma RankValueInjective(r: Rank, s: Rank)
    requires RankValue(r) == RankValue(s)
    ensures r == s
  {
  }

  /** Strength class of a card in a trick, weakest first. */
  datatype Tier = Plain | Led | Trump | TheWeli | Striker | TheRechte

  /** Which class a card falls into: the rechte (trump suit and striker rank
      together) first, then the Weli, then any other card of the striker rank,
      then trump-suit cards, then cards of the led suit, then the rest. */
  function TierOf(card: Card, lead: Suit, rechte: Card): Tier
  {
    if card == rechte then TheRechte
    else if card.rank == Weli then TheWeli
    else if card.rank == rechte.rank then Striker
    else if card.suit == rechte.suit then Trump
    else if card.suit == lead then Led
    else Plain
  }

  function TierLevel(t: Tier): (n: nat)
    ensures n <= 5
  {
    match t
    case Plain => 0
    case Led => 1
    case Trump => 2
    case TheWeli => 3
    case Striker => 4
    case TheRechte => 5
  }

  /** The strength a card has before the position tie-break. */
  function Base(card: Card, lead: Suit, rechte: Card): (b: nat)
    ensures 1 <= b <= 200
  {
    if card == rechte then 200
    else if card.rank == Weli then 180
    else if card.rank == rechte.rank then 190
    else if card.suit == rechte.suit then 100 + RankValue(card.rank)
    else if card.suit == lead then 50 + RankValue(card.rank)
    else RankValue(card.rank)
  }

  /** Strength of `card` played `position`-th in a trick: ten times the base,
      less the position, so the earlier of two equal cards is stronger. */
  function Strength(card: Card, lead: Suit, rechte: Card, position: nat): (s: int)
    ensures s <= 2000
  {
    Base(card, lead, rechte) * 10 - position
  }

  /** Rank order inside a tier: the three special tiers hold cards of one strength. */
  function Within(card: Card, lead: Suit, rechte: Card): nat
  {
    match TierOf(card, lead, rechte)
    case Plain => RankValue(card.rank)
    case Led => RankValue(card.rank)
    case Trump => RankValue(card.rank)
    case _ => 0
  }

  /** `c` played at `p` beats `d` played at `q` in the order of the rules:
      higher tier, else higher rank within the tier, else played earlier. */
  predicate Outranks(c: Card, p: nat, d: Card, q: nat, lead: Suit, rechte: Card)
  {
    var tc, td := TierOf(c, lead, rechte), TierOf(d, lead, rechte);
    TierLevel(tc) > TierLevel(td)
    || (tc == td && Within(c, lead, rechte) > Within(d, lead, rechte))
    || (tc == td && Within(c, lead, rechte) == Within(d, lead, rechte) && p < q)
  }

  /** The base is a strictly increasing function of (tier, rank within tier). */
  lemma BaseByTier(c: Card, d: Card, lead: Suit, rechte: Card)
    ensures Base(c, lead, rechte) > Base(d, lead, rechte) <==>
      (TierLevel(TierOf(c, lead, rechte)) > TierLevel(TierOf(d, lead, rechte))
       || (TierOf(c, lead, rechte) == TierOf(d, lead, rechte) && Within(c, lead, rechte) > Within(d, lead, rechte)))
    ensures Base(c, lead, rechte) == Base(d, lead, rechte) <==>
      (TierOf(c, lead, rechte) == TierOf(d, lead, rechte) && Within(c, lead, rechte) == Within(d, lead, rechte))
  {
  }

  /** For the four positions of a trick, comparing strengths is comparing in
      the rule order: a higher base always wins, an equal base goes to the
      card played first. */
  lemma StrengthOrder(c: Card, p: nat, d: Card, q: nat, lead: Suit, rechte: Card)
    requires p < 4 && q < 4
    ensures Strength(c, lead, rechte, p) > Strength(d, lead, rechte, q) <==> Outranks(c, p, d, q, lead, rechte)
  {
    BaseByTier(c, d, lead, rechte);
  }

  /** The concrete comparisons the engine's unit tests make. */
  lemma StrengthExamples()
    ensures Strength(Card(Bells, Unter), Hearts, Card(Hearts, Unter), 0)
          > Strength(Card(Hearts, Ace), Hearts, Card(Hearts, Unter), 0)
    ensures Strength(Card(Leaves, Ober), Hearts, Card(Leaves, Ober), 0)
          > Strength(Card(Hearts, Ober), Hearts, Card(Leaves, Ober), 0)
    ensures Strength(Card(Bells, Unter), Bells, Card(Hearts, Unter), 0)
          > Strength(Card(Leaves, Unter), Bells, Card(Hearts, Unter), 1)
  {
  }

  // ----- who takes a trick -----

  /** One card of a trick: the seat that played it and the card. */
  type Play = (nat, Card)

  /** The scan of the trick: `best` is the position holding the strongest
      card among positions `0..k-1`, the earliest one on a tie. */
  function BestFrom(plays: seq<Play>, lead: Suit, rechte: Card, k: nat, best: nat): (w: nat)
    requires best < k <= |plays|
    requires forall j :: 0 <= j < k ==> Strength(plays[j].1, lead, rechte, j) <= Strength(plays[best].1, lead, rechte, best)
    requires forall j :: 0 <= j < best ==> Strength(plays[j].1, lead, rechte, j) < Strength(plays[best].1, lead, rechte, best)
    ensures w < |plays|
    ensures forall j :: 0 <= j < |plays| ==> Strength(plays[j].1, lead, rechte, j) <= Strength(plays[w].1, lead, rechte, w)
    ensures forall j :: 0 <= j < w ==> Strength(plays[j].1, lead, rechte, j) < Strength(plays[w].1, lead, rechte, w)
    decreases |plays| - k
  {
    if k == |plays| then best
    else if Strength(plays[k].1, lead, rechte, k) > Strength(plays[best].1, lead, rechte, best) then
      BestFrom(plays, lead, rechte, k + 1, k)
    else
      BestFrom(plays, lead, rechte, k + 1, best)
  }

  /** Position in the trick of the winning card: the strongest, and no
      earlier card is as strong. The suit led is the first card's suit. */
  function WinningPosition(plays: seq<Play>, rechte: Card): (w: nat)
    requires |plays| > 0
    ensures w < |plays|
    ensures forall j :: 0 <= j < |plays| ==> Strength(plays[j].1, plays[0].1.suit, rechte, j) <= Strength(plays[w].1, plays[0].1.suit, rechte, w)
    ensures forall j :: 0 <= j < w ==> Strength(plays[j].1, plays[0].1.suit, rechte, j) < Strength(plays[w].1, plays[0].1.suit, rechte, w)
  {
    BestFrom(plays, plays[0].1.suit, rechte, 1, 0)
  }

  /** In a four-card trick the winning card outranks every other card in the
      rule order: higher tier, or higher rank in the tier, or same and earlier. */
  lemma WinnerOutranksOthers(plays: seq<Play>, rechte: Card, j: nat)
    requires |plays| == 4 && j < 4
    requires j != WinningPosition(plays, rechte)
    ensures var w := WinningPosition(plays, rechte);
      Outranks(plays[w].1, w, plays[j].1, j, plays[0].1.suit, rechte)
  {
    var w := WinningPosition(plays, rechte);
    var lead := plays[0].1.suit;
    StrengthOrder(plays[w].1, w, plays[j].1, j, lead, rechte);
    StrengthOrder(plays[j].1, j, plays[w].1, w, lead, rechte);
    BaseByTier(plays[w].1, plays[j].1, lead, rechte);
  }

  /** Whoever plays the rechte takes the trick, wherever it falls. */
  lemma RechteTakesTrick(plays: seq<Play>, rechte: Card, k: nat)
    requires |plays| == 4 && k < 4 && plays[k].1 == rechte
    ensures plays[WinningPosition(plays, rechte)].1 == rechte
  {
    var w := WinningPosition(plays, rechte);
    var lead := plays[0].1.suit;
    assert Strength(plays[k].1, lead, rechte, k) <= Strength(plays[w].1, lead, rechte, w);
  }

  /** The two whole tricks of the unit tests: of two strikers the first one
      played wins, and the rechte wins even when played last. */
  lemma TrickExamples()
    ensures WinningPosition([(0, Card(Bells, Unter)), (1, Card(Leaves, Unter)), (2, Card(Hearts, Ace)), (3, Card(Acorns, Ace))], Card(Hearts, Unter)) == 0
    ensures WinningPosition([(0, Card(Hearts, Ace)), (1, Card(Bells, Unter)), (2, Card(Hearts, Nine)), (3, Card(Hearts, Unter))], Card(Hearts, Unter)) == 3
  {
    var r := Card(Hearts, Unter);
    var t1: seq<Play> := [(0, Card(Bells, Unter)), (1, Card(Leaves, Unter)), (2, Card(Hearts, Ace)), (3, Card(Acorns, Ace))];
    var w1 := WinningPosition(t1, r);
    assert Strength(t1[0].1, Bells, r, 0) == 1900;
    assert w1 == 0;
    var t2: seq<Play> := [(0, Card(Hearts, Ace)), (1, Card(Bells, Unter)), (2, Card(Hearts, Nine)), (3, Card(Hearts, Unter))];
    RechteTakesTrick(t2, r, 3);
  }

  // ----- a simulated round -----

  /** Four hands of five cards, indexed by seat. */
  predicate Dealt(hands: seq<seq<Card>>)
  {
    |hands| == 4 && forall s :: 0 <= s < 4 ==> |hands[s]| == TricksPerRound
  }

  /** A play order names, for each trick, which hand slot the player uses. */
  predicate SlotOrder(o: seq<nat>)
  {
    |o| == TricksPerRound && InSlots(o)
  }

  predicate PlayOrders(perms: seq<seq<nat>>)
  {
    |perms| == 4 && forall s :: 0 <= s < 4 ==> SlotOrder(perms[s])
  }

  /** How far a simulated round has got: the next slot each seat plays, the
      seat to lead, tricks per team and the trick winners so far. */
  datatype Progress = Progress(pos: seq<nat>, lead: nat, tricks: seq<nat>, winners: seq<nat>)

  predicate Running(s: Progress)
  {
    |s.pos| == 4 && s.lead < 4 && |s.tricks| == 2 && |s.winners| <= TricksPerRound
    && forall i :: 0 <= i < 4 ==> s.pos[i] == |s.winners|
  }

  function Start(dealer: nat): (s: Progress)
    ensures Running(s)
  {
    Progress([0, 0, 0, 0], (dealer + 1) % 4, [0, 0], [])
  }

  /** The four cards of a trick led by `lead`, in play order, each seat
      playing from the slot its counter points at. */
  function TrickPlays(hands: seq<seq<Card>>, perms: seq<seq<nat>>, pos: seq<nat>, lead: nat): (plays: seq<Play>)
    requires Dealt(hands) && PlayOrders(perms) && |pos| == 4 && lead < 4
    requires forall i :: 0 <= i < 4 ==> pos[i] < TricksPerRound
    ensures |plays| == 4
  {
    seq(4, o requires 0 <= o < 4 =>
      var seat := Seats(lead)[o];
      (seat, hands[seat][perms[seat][pos[seat]]]))
  }

  /** The seats in play order of a trick led by `lead`: clockwise from the leader. */
  function Seats(lead: nat): (seats: seq<nat>)
    ensures |seats| == 4 && forall o :: 0 <= o < 4 ==> seats[o] < 4
  {
    seq(4, o requires 0 <= o < 4 => (lead + o) % 4)
  }

  /** Counters after every seat in `seats` has played once. */
  function Advance(pos: seq<nat>, seats: seq<nat>): (r: seq<nat>)
    requires forall k :: 0 <= k < |seats| ==> seats[k] < |pos|
    ensures |r| == |pos|
  {
    if |seats| == 0 then pos
    else var p := Advance(pos, seats[..|seats| - 1]); p[seats[|seats| - 1] := p[seats[|seats| - 1]] + 1]
  }

  /** One trick: play it, credit the winner's team, and let the winner lead. */
  function Step(hands: seq<seq<Card>>, perms: seq<seq<nat>>, rechte: Card, s: Progress): (t: Progress)
    requires Dealt(hands) && PlayOrders(perms) && Running(s) && |s.winners| < TricksPerRound
    ensures Running(t) && |t.winners| == |s.winners| + 1
  {
    var plays := TrickPlays(hands, perms, s.pos, s.lead);
    var w := plays[WinningPosition(plays, rechte)].0;
    SeatsOnce(s.lead);
    AdvanceOnce(s.pos, Seats(s.lead));
    Progress(Advance(s.pos, Seats(s.lead)), w, s.tricks[w % 2 := s.tricks[w % 2] + 1], s.winners + [w])
  }

  function Occurrences(seats: seq<nat>, i: nat): nat
  {
    if |seats| == 0 then 0
    else Occurrences(seats[..|seats| - 1], i) + (if seats[|seats| - 1] == i then 1 else 0)
  }

  lemma OccurrencesOfFour(a: nat, b: nat, c: nat, d: nat, i: nat)
    ensures Occurrences([a, b, c, d], i)
         == (if a == i then 1 else 0) + (if b == i then 1 else 0) + (if c == i then 1 else 0) + (if d == i then 1 else 0)
  {
    var s: seq<nat> := [a, b, c, d];
    assert s[..3] == [a, b, c];
    assert [a, b, c][..2] == [a, b];
    assert [a, b][..1] == [a];
    assert [a][..0] == [];
    assert Occurrences([a], i) == (if a == i then 1 else 0);
    assert Occurrences([a, b], i) == Occurrences([a], i) + (if b == i then 1 else 0);
    assert Occurrences([a, b, c], i) == Occurrences([a, b], i) + (if c == i then 1 else 0);
  }

  /** Every seat plays exactly once in a trick. */
  lemma SeatsOnce(lead: nat)
    ensures forall i :: 0 <= i < 4 ==> Occurrences(Seats(lead), i) == 1
  {
    assert Seats(lead) == [lead % 4, (lead + 1) % 4, (lead + 2) % 4, (lead + 3) % 4];
    forall i | 0 <= i < 4
      ensures Occurrences(Seats(lead), i) == 1
    {
      OccurrencesOfFour(lead % 4, (lead + 1) % 4, (lead + 2) % 4, (lead + 3) % 4, i);
    }
  }

  /** Each counter moves by the number of times its seat played. */
  lemma {:induction false} AdvanceCounts(pos: seq<nat>, seats: seq<nat>, i: nat)
    requires forall k :: 0 <= k < |seats| ==> seats[k] < |pos|
    requires i < |pos|
    ensures Advance(pos, seats)[i] == pos[i] + Occurrences(seats, i)
  {
    if |seats| > 0 {
      AdvanceCounts(pos, seats[..|seats| - 1], i);
    }
  }

  lemma AdvanceOnce(pos: seq<nat>, seats: seq<nat>)
    requires |pos| == 4 && |seats| == 4
    requires forall k :: 0 <= k < 4 ==> seats[k] < 4
    requires forall i :: 0 <= i < 4 ==> Occurrences(seats, i) == 1
    ensures forall i :: 0 <= i < 4 ==> Advance(pos, seats)[i] == pos[i] + 1
  {
    forall i | 0 <= i < 4
      ensures Advance(pos, seats)[i] == pos[i] + 1
    {
      AdvanceCounts(pos, seats, i);
    }
  }

  /** The remaining tricks of the round. */
  function Rounds(hands: seq<seq<Card>>, perms: seq<seq<nat>>, rechte: Card, s: Progress): (t: Progress)
    requires Dealt(hands) && PlayOrders(perms) && Running(s)
    ensures Running(t) && |t.winners| == TricksPerRound
    decreases TricksPerRound - |s.winners|
  {
    if |s.winners| == TricksPerRound then s else Rounds(hands, perms, rechte, Step(hands, perms, rechte, s))
  }

  /** The state after all five tricks of `simulate_game`. */
  function Finished(hands: seq<seq<Card>>, perms: seq<seq<nat>>, dealer: nat, rechte: Card): (t: Progress)
    requires Dealt(hands) && PlayOrders(perms)
    ensures Running(t) && |t.winners| == TricksPerRound
  {
    Rounds(hands, perms, rechte, Start(dealer))
  }

  /** `simulate_game`: team 1 (seats 0 and 2) wins iff it took more tricks. */
  function SimulateGame(hands: seq<seq<Card>>, perms: seq<seq<nat>>, dealer: nat, rechte: Card): (r: GameResult)
    requires Dealt(hands) && PlayOrders(perms)
    ensures r == Team1Win || r == Team2Win
  {
    var t := Finished(hands, perms, dealer, rechte);
    if t.tricks[0] > t.tricks[1] then Team1Win else Team2Win
  }

  // ----- what a simulated round is, independently of the counters -----

  /** Tricks taken by the team of seats with parity `team`. */
  function TeamTricks(winners: seq<nat>, team: nat): nat
  {
    if |winners| == 0 then 0
    else TeamTricks(winners[..|winners| - 1], team) + (if winners[|winners| - 1] % 2 == team then 1 else 0)
  }

  /** Who leads trick `t`: the player after the dealer, then each trick's winner. */
  function LeaderOf(dealer: nat, winners: seq<nat>, t: nat): nat
    requires t <= |winners|
  {
    if t == 0 then (dealer + 1) % 4 else winners[t - 1]
  }

  /** Trick `t` of a round: seat s plays the card in slot `perms[s][t]` of
      its hand, the leader first and the others clockwise. */
  function TrickAt(hands: seq<seq<Card>>, perms: seq<seq<nat>>, lead: nat, t: nat): (plays: seq<Play>)
    requires Dealt(hands) && PlayOrders(perms) && lead < 4 && t < TricksPerRound
    ensures |plays| == 4
  {
    TrickPlays(hands, perms, [t, t, t, t], lead)
  }

  /** The winners a round records are exactly the round the rules describe:
      trick t is played from slot t of every play order, led by the previous
      winner, and won by the seat of its winning card. */
  predicate Trace(hands: seq<seq<Card>>, perms: seq<seq<nat>>, dealer: nat, rechte: Card, winners: seq<nat>)
    requires Dealt(hands) && PlayOrders(perms) && |winners| <= TricksPerRound
  {
    forall t :: 0 <= t < |winners| ==> TrickWonBy(hands, perms, dealer, rechte, winners, t)
  }

  /** Trick `t` went to the seat recorded for it. */
  predicate TrickWonBy(hands: seq<seq<Card>>, perms: seq<seq<nat>>, dealer: nat, rechte: Card, winners: seq<nat>, t: nat)
    requires Dealt(hands) && PlayOrders(perms) && t < |winners| <= TricksPerRound
  {
    LeaderOf(dealer, winners, t) < 4
    && var plays := TrickAt(hands, perms, LeaderOf(dealer, winners, t), t);
       winners[t] == plays[WinningPosition(plays, rechte)].0
  }

  predicate Tally(s: Progress)
    requires |s.tricks| == 2
  {
    s.tricks[0] == TeamTricks(s.winners, 0) && s.tricks[1] == TeamTricks(s.winners, 1)
  }

  lemma {:induction false} RoundsTrace(hands: seq<seq<Card>>, perms: seq<seq<nat>>, dealer: nat, rechte: Card, s: Progress)
    requires Dealt(hands) && PlayOrders(perms) && Running(s)
    requires Trace(hands, perms, dealer, rechte, s.winners) && Tally(s)
    requires s.lead == LeaderOf(dealer, s.winners, |s.winners|)
    ensures var t := Rounds(hands, perms, rechte, s);
      Trace(hands, perms, dealer, rechte, t.winners) && Tally(t)
    decreases TricksPerRound - |s.winners|
  {
    if |s.winners| < TricksPerRound {
      var u := Step(hands, perms, rechte, s);
      StepTrace(hands, perms, dealer, rechte, s);
      RoundsTrace(hands, perms, dealer, rechte, u);
    }
  }

  lemma StepTrace(hands: seq<seq<Card>>, perms: seq<seq<nat>>, dealer: nat, rechte: Card, s: Progress)
    requires Dealt(hands) && PlayOrders(perms) && Running(s) && |s.winners| < TricksPerRound
    requires Trace(hands, perms, dealer, rechte, s.winners) && Tally(s)
    requires s.lead == LeaderOf(dealer, s.winners, |s.winners|)
    ensures var u := Step(hands, perms, rechte, s);
      Trace(hands, perms, dealer, rechte, u.winners) && Tally(u)
      && u.lead == LeaderOf(dealer, u.winners, |u.winners|)
  {
    var n := |s.winners|;
    assert s.pos == [n, n, n, n];
    var plays := TrickAt(hands, perms, s.lead, n);
    var w := plays[WinningPosition(plays, rechte)].0;
    var u := Step(hands, perms, rechte, s);
    assert u.winners == s.winners + [w];
    TraceExtend(hands, perms, dealer, rechte, s.winners, w);
    TeamTricksAppend(s.winners, w, 0);
    TeamTricksAppend(s.winners, w, 1);
  }

  lemma TraceExtend(hands: seq<seq<Card>>, perms: seq<seq<nat>>, dealer: nat, rechte: Card, winners: seq<nat>, w: nat)
    requires Dealt(hands) && PlayOrders(perms) && |winners| < TricksPerRound
    requires Trace(hands, perms, dealer, rechte, winners)
    requires LeaderOf(dealer, winners, |winners|) < 4
    requires var plays := TrickAt(hands, perms, LeaderOf(dealer, winners, |winners|), |winners|);
      w == plays[WinningPosition(plays, rechte)].0
    ensures Trace(hands, perms, dealer, rechte, winners + [w])
  {
    var ws := winners + [w];
    forall t | 0 <= t < |ws|
      ensures TrickWonBy(hands, perms, dealer, rechte, ws, t)
    {
      assert LeaderOf(dealer, ws, t) == LeaderOf(dealer, winners, t);
      if t < |winners| {
        assert TrickWonBy(hands, perms, dealer, rechte, winners, t);
      }
    }
  }

  lemma TeamTricksAppend(winners: seq<nat>, w: nat, team: nat)
    ensures TeamTricks(winners + [w], team) == TeamTricks(winners, team) + (if w % 2 == team then 1 else 0)
  {
    assert (winners + [w])[..|winners|] == winners;
  }

  /** `simulate_game`, described trick by trick: five tricks, trick t played
      from slot t of each order and led by the previous winner (the seat after
      the dealer first); the result is a team-1 win iff seats 0 and 2 took at
      least three tricks, so it is never `NotPlayed` or `RuleViolation`. */
  lemma SimulateGameTrace(hands: seq<seq<Card>>, perms: seq<seq<nat>>, dealer: nat, rechte: Card)
    requires Dealt(hands) && PlayOrders(perms)
    ensures var t := Finished(hands, perms, dealer, rechte);
      |t.winners| == TricksPerRound
      && Trace(hands, perms, dealer, rechte, t.winners)
      && TeamTricks(t.winners, 0) + TeamTricks(t.winners, 1) == TricksPerRound
      && (SimulateGame(hands, perms, dealer, rechte) == Team1Win <==> TeamTricks(t.winners, 0) >= 3)
  {
    var t := Finished(hands, perms, dealer, rechte);
    RoundsTrace(hands, perms, dealer, rechte, Start(dealer));
    TeamsSplit(t.winners);
  }

  /** Every trick goes to exactly one team. */
  lemma {:induction false} TeamsSplit(winners: seq<nat>)
    ensures TeamTricks(winners, 0) + TeamTricks(winners, 1) == |winners|
  {
    if |winners| > 0 {
      TeamsSplit(winners[..|winners| - 1]);
    }
  }

  // ----- play orders by number -----

  lemma FourOrders(o0: seq<nat>, o1: seq<nat>, o2: seq<nat>, o3: seq<nat>)
    requires IsPermutation(o0) && IsPermutation(o1) && IsPermutation(o2) && IsPermutation(o3)
    ensures PlayOrders([o0, o1, o2, o3])
  {
  }

  /** `play_hand`: simulate with the play orders at the given positions of
      the generator's list. */
  function PlayHand(hands: seq<seq<Card>>, ids: seq<nat>, dealer: nat, rechte: Card): (r: GameResult)
    requires Dealt(hands) && |ids| == 4 && forall k :: 0 <= k < 4 ==> ids[k] < HandPermutations
    ensures r == Team1Win || r == Team2Win
  {
    var o0, o1, o2, o3 := HandOrders.OrderNumber(ids[0]), HandOrders.OrderNumber(ids[1]),
                          HandOrders.OrderNumber(ids[2]), HandOrders.OrderNumber(ids[3]);
    FourOrders(o0, o1, o2, o3);
    SimulateGame(hands, [o0, o1, o2, o3], dealer, rechte)
  }

  /** Order number 0 is the identity order: every player plays slot t at trick t. */
  lemma PlayHandFirstOrders(hands: seq<seq<Card>>, dealer: nat, rechte: Card, ids: seq<nat>)
    requires Dealt(hands) && ids == [0, 0, 0, 0]
    ensures PlayOrders([HandOrders.Identity, HandOrders.Identity, HandOrders.Identity, HandOrders.Identity])
    ensures PlayHand(hands, ids, dealer, rechte)
         == SimulateGame(hands, [HandOrders.Identity, HandOrders.Identity, HandOrders.Identity, HandOrders.Identity], dealer, rechte)
  {
    var id := HandOrders.Identity;
    HandOrders.IdentityIsPermutation();
    FourOrders(id, id, id, id);
    HandOrders.FirstOrderNumber(ids[0]);
    assert ids[0] == ids[1] == ids[2] == ids[3];
  }

  // ----- the fixed deal of the round tests -----

  /** A trick is won at position `k` when every other card is strictly weaker there. */
  lemma WinsAt(plays: seq<Play>, rechte: Card, k: nat)
    requires |plays| == 4 && k < 4
    requires forall j :: 0 <= j < 4 && j != k ==>
      Strength(plays[j].1, plays[0].1.suit, rechte, j) < Strength(plays[k].1, plays[0].1.suit, rechte, k)
    ensures WinningPosition(plays, rechte) == k
  {
  }

  const ExampleRechte: Card := Card(Hearts, Unter)

  /** The hands of seats 0..3 in the round tests, dealer 0. */
  const ExampleHands: seq<seq<Card>> := [
    [Card(Hearts, Unter), Card(Bells, Ace), Card(Leaves, King), Card(Hearts, Ace), Card(Acorns, Ten)],
    [Card(Hearts, Ten), Card(Bells, King), Card(Leaves, Ace), Card(Bells, Seven), Card(Acorns, Nine)],
    [Card(Hearts, King), Card(Leaves, Ober), Card(Bells, Nine), Card(Hearts, Nine), Card(Acorns, Unter)],
    [Card(Hearts, Ober), Card(Bells, Unter), Card(Leaves, Nine), Card(Acorns, Ace), Card(Bells, Ten)]
  ]

  /** Every player plays the hand in dealt order. */
  const InOrder: seq<seq<nat>> := [[0, 1, 2, 3, 4], [0, 1, 2, 3, 4], [0, 1, 2, 3, 4], [0, 1, 2, 3, 4]]

  /** How a trick of the example is laid out: seat (lead + o) % 4 plays slot t. */
  lemma ExampleLayout(hands: seq<seq<Card>>, perms: seq<seq<nat>>, lead: nat, t: nat)
    requires hands == ExampleHands && perms == InOrder && lead < 4 && t < TricksPerRound
    ensures Dealt(hands) && PlayOrders(perms)
    ensures forall o :: 0 <= o < 4 ==> TrickAt(hands, perms, lead, t)[o] == ((lead + o) % 4, hands[(lead + o) % 4][t])
  {
    forall o | 0 <= o < 4
      ensures TrickAt(hands, perms, lead, t)[o] == ((lead + o) % 4, hands[(lead + o) % 4][t])
    {
      var seat := (lead + o) % 4;
      assert Seats(lead)[o] == seat;
      assert [t, t, t, t][seat] == t;
      assert perms[seat][t] == t;
    }
  }

  lemma ExampleTrick0(hands: seq<seq<Card>>, perms: seq<seq<nat>>)
    requires hands == ExampleHands && perms == InOrder
    ensures Dealt(hands) && PlayOrders(perms)
    ensures var p := TrickAt(hands, perms, 1, 0); p[WinningPosition(p, ExampleRechte)].0 == 0
  {
    ExamplePlays0(hands, perms);
    ExampleWinner0();
  }

  lemma ExamplePlays0(hands: seq<seq<Card>>, perms: seq<seq<nat>>)
    requires hands == ExampleHands && perms == InOrder
    ensures Dealt(hands) && PlayOrders(perms)
    ensures TrickAt(hands, perms, 1, 0) == [(1, Card(Hearts, Ten)), (2, Card(Hearts, King)), (3, Card(Hearts, Ober)), (0, Card(Hearts, Unter))]
  {
    ExampleLayout(hands, perms, 1, 0);
  }

  lemma ExampleWinner0()
    ensures WinningPosition([(1, Card(Hearts, Ten)), (2, Card(Hearts, King)), (3, Card(Hearts, Ober)), (0, Card(Hearts, Unter))], ExampleRechte) == 3
  {
  }

  lemma ExampleTrick1(hands: seq<seq<Card>>, perms: seq<seq<nat>>)
    requires hands == ExampleHands && perms == InOrder
    ensures Dealt(hands) && PlayOrders(perms)
    ensures var p := TrickAt(hands, perms, 0, 1); p[WinningPosition(p, ExampleRechte)].0 == 3
  {
    ExamplePlays1(hands, perms);
    ExampleWinner1();
  }

  lemma ExamplePlays1(hands: seq<seq<Card>>, perms: seq<seq<nat>>)
    requires hands == ExampleHands && perms == InOrder
    ensures Dealt(hands) && PlayOrders(perms)
    ensures TrickAt(hands, perms, 0, 1) == [(0, Card(Bells, Ace)), (1, Card(Bells, King)), (2, Card(Leaves, Ober)), (3, Card(Bells, Unter))]
  {
    ExampleLayout(hands, perms, 0, 1);
  }

  lemma ExampleWinner1()
    ensures WinningPosition([(0, Card(Bells, Ace)), (1, Card(Bells, King)), (2, Card(Leaves, Ober)), (3, Card(Bells, Unter))], ExampleRechte) == 3
  {
  }

  lemma ExampleTrick2(hands: seq<seq<Card>>, perms: seq<seq<nat>>)
    requires hands == ExampleHands && perms == InOrder
    ensures Dealt(hands) && PlayOrders(perms)
    ensures var p := TrickAt(hands, perms, 3, 2); p[WinningPosition(p, ExampleRechte)].0 == 1
  {
    ExamplePlays2(hands, perms);
    ExampleWinner2();
  }

  lemma ExamplePlays2(hands: seq<seq<Card>>, perms: seq<seq<nat>>)
    requires hands == ExampleHands && perms == InOrder
    ensures Dealt(hands) && PlayOrders(perms)
    ensures TrickAt(hands, perms, 3, 2) == [(3, Card(Leaves, Nine)), (0, Card(Leaves, King)), (1, Card(Leaves, Ace)), (2, Card(Bells, Nine))]
  {
    ExampleLayout(hands, perms, 3, 2);
  }

  lemma ExampleWinner2()
    ensures WinningPosition([(3, Card(Leaves, Nine)), (0, Card(Leaves, King)), (1, Card(Leaves, Ace)), (2, Card(Bells, Nine))], ExampleRechte) == 2
  {
  }

  lemma ExampleTrick3(hands: seq<seq<Card>>, perms: seq<seq<nat>>)
    requires hands == ExampleHands && perms == InOrder
    ensures Dealt(hands) && PlayOrders(perms)
    ensures var p := TrickAt(hands, perms, 1, 3); p[WinningPosition(p, ExampleRechte)].0 == 0
  {
    ExamplePlays3(hands, perms);
    ExampleWinner3();
  }

  lemma ExamplePlays3(hands: seq<seq<Card>>, perms: seq<seq<nat>>)
    requires hands == ExampleHands && perms == InOrder
    ensures Dealt(hands) && PlayOrders(perms)
    ensures TrickAt(hands, perms, 1, 3) == [(1, Card(Bells, Seven)), (2, Card(Hearts, Nine)), (3, Card(Acorns, Ace)), (0, Card(Hearts, Ace))]
  {
    ExampleLayout(hands, perms, 1, 3);
  }

  lemma ExampleWinner3()
    ensures WinningPosition([(1, Card(Bells, Seven)), (2, Card(Hearts, Nine)), (3, Card(Acorns, Ace)), (0, Card(Hearts, Ace))], ExampleRechte) == 3
  {
  }

  lemma ExampleTrick4(hands: seq<seq<Card>>, perms: seq<seq<nat>>)
    requires hands == ExampleHands && perms == InOrder
    ensures Dealt(hands) && PlayOrders(perms)
    ensures var p := TrickAt(hands, perms, 0, 4); p[WinningPosition(p, ExampleRechte)].0 == 2
  {
    ExamplePlays4(hands, perms);
    ExampleWinner4();
  }

  lemma ExamplePlays4(hands: seq<seq<Card>>, perms: seq<seq<nat>>)
    requires hands == ExampleHands && perms == InOrder
    ensures Dealt(hands) && PlayOrders(perms)
    ensures TrickAt(hands, perms, 0, 4) == [(0, Card(Acorns, Ten)), (1, Card(Acorns, Nine)), (2, Card(Acorns, Unter)), (3, Card(Bells, Ten))]
  {
    ExampleLayout(hands, perms, 0, 4);
  }

  lemma ExampleWinner4()
    ensures WinningPosition([(0, Card(Acorns, Ten)), (1, Card(Acorns, Nine)), (2, Card(Acorns, Unter)), (3, Card(Bells, Ten))], ExampleRechte) == 2
  {
  }

  /** The winners any consistent record of the example round must hold. */
  lemma ExampleWinners(hands: seq<seq<Card>>, perms: seq<seq<nat>>, dealer: nat, rechte: Card, ws: seq<nat>)
    requires hands == ExampleHands && perms == InOrder && dealer == 0 && rechte == ExampleRechte
    requires Dealt(hands) && PlayOrders(perms) && |ws| == TricksPerRound
    requires Trace(hands, perms, dealer, rechte, ws)
    ensures ws == [0, 3, 1, 0, 2]
  {
    ExampleStep0(hands, perms, dealer, rechte, ws);
    ExampleStep1(hands, perms, dealer, rechte, ws);
    ExampleStep2(hands, perms, dealer, rechte, ws);
    ExampleStep3(hands, perms, dealer, rechte, ws);
    ExampleStep4(hands, perms, dealer, rechte, ws);
  }

  lemma ExampleStep0(hands: seq<seq<Card>>, perms: seq<seq<nat>>, dealer: nat, rechte: Card, ws: seq<nat>)
    requires hands == ExampleHands && perms == InOrder && dealer == 0 && rechte == ExampleRechte
    requires Dealt(hands) && PlayOrders(perms) && |ws| == TricksPerRound
    requires Trace(hands, perms, dealer, rechte, ws)
    ensures ws[0] == 0
  {
    assert TrickWonBy(hands, perms, dealer, rechte, ws, 0);
    ExampleTrick0(hands, perms);
  }

  lemma ExampleStep1(hands: seq<seq<Card>>, perms: seq<seq<nat>>, dealer: nat, rechte: Card, ws: seq<nat>)
    requires hands == ExampleHands && perms == InOrder && dealer == 0 && rechte == ExampleRechte
    requires Dealt(hands) && PlayOrders(perms) && |ws| == TricksPerRound
    requires Trace(hands, perms, dealer, rechte, ws)
    requires ws[0] == 0
    ensures ws[1] == 3
  {
    assert TrickWonBy(hands, perms, dealer, rechte, ws, 1);
    ExampleTrick1(hands, perms);
  }

  lemma ExampleStep2(hands: seq<seq<Card>>, perms: seq<seq<nat>>, dealer: nat, rechte: Card, ws: seq<nat>)
    requires hands == ExampleHands && perms == InOrder && dealer == 0 && rechte == ExampleRechte
    requires Dealt(hands) && PlayOrders(perms) && |ws| == TricksPerRound
    requires Trace(hands, perms, dealer, rechte, ws)
    requires ws[0] == 0 && ws[1] == 3
    ensures ws[2] == 1
  {
    assert TrickWonBy(hands, perms, dealer, rechte, ws, 2);
    ExampleTrick2(hands, perms);
  }

  lemma ExampleStep3(hands: seq<seq<Card>>, perms: seq<seq<nat>>, dealer: nat, rechte: Card, ws: seq<nat>)
    requires hands == ExampleHands && perms == InOrder && dealer == 0 && rechte == ExampleRechte
    requires Dealt(hands) && PlayOrders(perms) && |ws| == TricksPerRound
    requires Trace(hands, perms, dealer, rechte, ws)
    requires ws[0] == 0 && ws[1] == 3 && ws[2] == 1
    ensures ws[3] == 0
  {
    assert TrickWonBy(hands, perms, dealer, rechte, ws, 3);
    ExampleTrick3(hands, perms);
  }

  lemma ExampleStep4(hands: seq<seq<Card>>, perms: seq<seq<nat>>, dealer: nat, rechte: Card, ws: seq<nat>)
    requires hands == ExampleHands && perms == InOrder && dealer == 0 && rechte == ExampleRechte
    requires Dealt(hands) && PlayOrders(perms) && |ws| == TricksPerRound
    requires Trace(hands, perms, dealer, rechte, ws)
    requires ws[0] == 0 && ws[1] == 3 && ws[2] == 1 && ws[3] == 0
    ensures ws[4] == 2
  {
    assert TrickWonBy(hands, perms, dealer, rechte, ws, 4);
    ExampleTrick4(hands, perms);
  }

  lemma TeamTricksExample()
    ensures TeamTricks([0, 3, 1, 0, 2], 0) == 3
  {
    var w: seq<nat> := [];
    TeamTricksAppend(w, 0, 0);
    assert w + [0] == [0];
    TeamTricksAppend([0], 3, 0);
    assert [0] + [3] == [0, 3];
    TeamTricksAppend([0, 3], 1, 0);
    assert [0, 3] + [1] == [0, 3, 1];
    TeamTricksAppend([0, 3, 1], 0, 0);
    assert [0, 3, 1] + [0] == [0, 3, 1, 0];
    TeamTricksAppend([0, 3, 1, 0], 2, 0);
    assert [0, 3, 1, 0] + [2] == [0, 3, 1, 0, 2];
  }

  /** Played in dealt order with dealer 0 and the Unter of Hearts as rechte,
      the tricks go to seats 0, 3, 1, 0, 2: team 1 takes three and wins. */
  lemma ExampleRound(hands: seq<seq<Card>>, perms: seq<seq<nat>>, dealer: nat, rechte: Card)
    requires hands == ExampleHands && perms == InOrder && dealer == 0 && rechte == ExampleRechte
    ensures Dealt(hands) && PlayOrders(perms)
    ensures Finished(hands, perms, dealer, rechte).winners == [0, 3, 1, 0, 2]
    ensures SimulateGame(hands, perms, dealer, rechte) == Team1Win
  {
    var ws := Finished(hands, perms, dealer, rechte).winners;
    SimulateGameTrace(hands, perms, dealer, rechte);
    ExampleWinners(hands, perms, dealer, rechte, ws);
    TeamTricksExample();
  }

  /** Order number 0 for every seat replays the example in dealt order. */
  lemma ExamplePlayHand(hands: seq<seq<Card>>, dealer: nat, rechte: Card, ids: seq<nat>)
    requires hands == ExampleHands && dealer == 0 && rechte == ExampleRechte && ids == [0, 0, 0, 0]
    ensures Dealt(hands)
    ensures PlayHand(hands, ids, dealer, rechte) == Team1Win
  {
    PlayHandFirstOrders(hands, dealer, rechte, ids);
    HandOrders.IdentityIsPermutation();
    var id := HandOrders.Identity;
    assert [id, id, id, id] == InOrder;
    ExampleRound(hands, InOrder, dealer, rechte);
  }
}
