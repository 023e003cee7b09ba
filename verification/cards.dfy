/**
 The card, hand and hand-category types the ranking code works on.

 A card carries the integers the ranking code and the classifier see. The
 mapping from the card's text token to those integers is not part of this
 model, so any integer may appear, 0 included.
 */
module Cards {

  datatype Suit = Spades | Diamonds | Hearts | Clubs

  /**
   A card as both readers of its text token see it: `value` is the integer
   `handRank` maps the whole token to, `leadValue` the integer the classifier
   maps the token's first character to. They differ for a ten ("10" gives 0
   whole and 10 by its first character) and for face cards spelled as words.
   */
  datatype Card = Card(value: int, suit: Suit, leadValue: int)

  datatype Hand = Hand(cards: seq<Card>)

  /** The ten hand categories, weakest first. */
  datatype HandType =
    | HighCard
    | Pair
    | TwoPair
    | ThreeOfAKind
    | Straight
    | Flush
    | FullHouse
    | FourOfAKind
    | StraightFlush
    | RoyalFlush

  /** The integer raw value behind each category; categories compare by it. */
  function RawValue(t: HandType): (r: int)
    ensures 1 <= r <= 10
    ensures t == HighCard <==> r == 1
  {
    match t
    case HighCard => 1
    case Pair => 2
    case TwoPair => 3
    case ThreeOfAKind => 4
    case Straight => 5
    case Flush => 6
    case FullHouse => 7
    case FourOfAKind => 8
    case StraightFlush => 9
    case RoyalFlush => 10
  }

  /** Distinct categories have distinct raw values, so `==` and the raw-value order agree. */
  lemma RawValueInjective(a: HandType, b: HandType)
    ensures RawValue(a) == RawValue(b) <==> a == b
  {
  }

  /** The card values of a hand, in card order. */
  function Values(h: Hand): (vs: seq<int>)
    ensures |vs| == |h.cards|
    ensures forall i :: 0 <= i < |vs| ==> vs[i] == h.cards[i].value
  {
    seq(|h.cards|, i requires 0 <= i < |h.cards| => h.cards[i].value)
  }

  /** How many cards of `h` carry value `v`. */
  ghost function Occurrences(h: Hand, v: int): nat {
    multiset(Values(h))[v]
  }

  /**
   Every card value lies in 0..14, the integers the card-text mapping can
   produce: 0 for a token it does not know (a ten's whole token "10" among
   them), 2 to 14 for a two up to an ace.
   */
  predicate MappedHand(h: Hand) {
    forall i :: 0 <= i < |h.cards| ==> 0 <= h.cards[i].value <= 14
  }

  /**
   A hand under an idealised card mapping: five cards, each valued 2 (a two)
   to 14 (an ace). The ranking code's whole-token mapping gives some dealt
   cards 0, so a dealt hand need not be valid in this sense.
   */
  predicate ValidHand(h: Hand) {
    && |h.cards| == 5
    && forall i :: 0 <= i < |h.cards| ==> 2 <= h.cards[i].value <= 14
  }
}
