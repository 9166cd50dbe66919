/**
 The basic vocabulary of the Watten engine: suits, ranks, cards, the 33-card
 deck and the outcome of one simulated round.
 */
module Watten {

  datatype Suit = Hearts | Bells | Leaves | Acorns

  /** Declaration order is the order of the source enum; `Weli` is the 6 of Bells. */
  datatype Rank = Seven | Eight | Nine | Ten | Unter | Ober | King | Ace | Weli

  datatype Card = Card(suit: Suit, rank: Rank)

  /** Outcome of one round; the ordinal is the bucket used by the outcome counters. */
  datatype GameResult = NotPlayed | Team1Win | Team2Win | RuleViolation
  {
    function Ordinal(): (n: nat)
      ensures n < 4
    {
      match this
      case NotPlayed => 0
      case Team1Win => 1
      case Team2Win => 2
      case RuleViolation => 3
    }
  }

  /** Number of ways a hand of five cards can be ordered (5!). */
  const HandPermutations: nat := 120

  /** The suits in the order the deck is built. */
  const Suits: seq<Suit> := [Hearts, Bells, Leaves, Acorns]

  /** The eight ranks every suit carries; the Weli is added separately. */
  const PlainRanks: seq<Rank> := [Seven, Eight, Nine, Ten, Unter, Ober, King, Ace]

  /** All 33 Watten cards: each suit with its eight plain ranks, then the Weli. */
  function Deck(): (d: seq<Card>)
    ensures |d| == 33
  {
    seq(32, k requires 0 <= k < 32 => Card(Suits[k / 8], PlainRanks[k % 8])) + [Card(Bells, Weli)]
  }

  /** A card belongs to the deck iff it is a plain card or the Weli of Bells. */
  lemma DeckContents(c: Card)
    ensures c in Deck() <==> (c.rank != Weli || c == Card(Bells, Weli))
  {
    if c.rank != Weli {
      var s := match c.suit case Hearts => 0 case Bells => 1 case Leaves => 2 case Acorns => 3;
      var r := match c.rank
        case Seven => 0 case Eight => 1 case Nine => 2 case Ten => 3
        case Unter => 4 case Ober => 5 case King => 6 case Ace => 7;
      var k := s * 8 + r;
      assert k / 8 == s && k % 8 == r;
      assert Deck()[k] == c;
    }
  }

  /** No card occurs twice in the deck. */
  lemma DeckDistinct()
    ensures forall i, j :: 0 <= i < j < |Deck()| ==> Deck()[i] != Deck()[j]
  {
    forall i, j | 0 <= i < j < |Deck()|
      ensures Deck()[i] != Deck()[j]
    {
      if j < 32 {
        if i / 8 == j / 8 {
          assert i % 8 != j % 8;
        }
      }
    }
  }
}
