/**
 The tie-break value `handRank(hand:type:)` gives a hand within a category.

 The contracts are stated against `Occurrences`, the multiset count of a value
 among the hand's cards, rather than against the dictionary the code builds;
 the pair list's length is also related to the filtered keys it sorts.
 */
module Ranking {
  import opened Cards
  import opened Counts

  /** The hand's value-count dictionary. */
  function CountsOf(h: Hand): (m: map<int, nat>)
    ensures forall v :: v in m <==> v in Values(h)
    ensures forall v :: v in m ==> m[v] == Occurrences(h, v)
  {
    ValueCounts(Values(h))
  }

  /** The dictionary's keys whose count is exactly `c`, each once. */
  function WithCount(h: Hand, c: int): (ks: seq<int>)
    ensures Distinct(ks)
    ensures forall v :: v in ks <==> v in Values(h) && Occurrences(h, v) == c
  {
    KeysWithCount(Keys(Values(h)), CountsOf(h), c)
  }

  /**
   `r` is the largest value occurring exactly `c` times in `h`, or 0 when no
   value occurs exactly `c` times.
   */
  ghost predicate IsLargestWithCount(h: Hand, c: int, r: int) {
    if exists v :: v in Values(h) && Occurrences(h, v) == c then
      && r in Values(h)
      && Occurrences(h, r) == c
      && forall v :: v in Values(h) && Occurrences(h, v) == c ==> v <= r
    else
      r == 0
  }

  /** `r` is the largest card value of `h`, or 0 for a hand with no cards. */
  ghost predicate IsHighest(h: Hand, r: int) {
    if |h.cards| == 0 then r == 0
    else r in Values(h) && forall i :: 0 <= i < |h.cards| ==> h.cards[i].value <= r
  }

  /**
   `hi` and `lo` are the two largest values occurring exactly twice in `h`,
   `hi` the larger.
   */
  ghost predicate TopTwoPairs(h: Hand, hi: int, lo: int) {
    && Occurrences(h, hi) == 2
    && Occurrences(h, lo) == 2
    && lo < hi
    && forall v :: v in Values(h) && Occurrences(h, v) == 2 ==> v == hi || v <= lo
  }

  /** `filter { $0.value == c }.keys.max() ?? 0` on the value-count dictionary. */
  function GroupValue(h: Hand, c: int): (r: int)
    ensures IsLargestWithCount(h, c, r)
  {
    MaxOf(WithCount(h, c)).GetOr(0)
  }

  /** The value of the highest card, or 0 for an empty hand (`integerValue(of: "")`). */
  function HighestValue(h: Hand): (r: int)
    ensures IsHighest(h, r)
  {
    MaxOf(Values(h)).GetOr(0)
  }

  /** The values occurring exactly twice, largest first. */
  function PairValues(h: Hand): (pairs: seq<int>)
    ensures |pairs| == |WithCount(h, 2)|
    ensures forall i, j :: 0 <= i < j < |pairs| ==> pairs[i] > pairs[j]
    ensures forall v :: v in pairs <==> v in Values(h) && Occurrences(h, v) == 2
  {
    var ks := WithCount(h, 2);
    SortDistinct(ks);
    SortDescending(ks)
  }

  /** A value of count `c` that no other value of count `c` exceeds is the largest with that count. */
  lemma LargestWithCountIntro(h: Hand, c: int, r: int)
    requires c > 0 && Occurrences(h, r) == c
    requires forall v :: v in multiset(Values(h)) && multiset(Values(h))[v] == c ==> v <= r
    ensures IsLargestWithCount(h, c, r)
  {
    assert r in multiset(Values(h));
  }

  /** The largest value with a given count is determined by the hand. */
  lemma LargestWithCountUnique(h: Hand, c: int, a: int, b: int)
    requires IsLargestWithCount(h, c, a) && IsLargestWithCount(h, c, b)
    ensures a == b
  {
  }

  /** The two largest pair values are determined by the hand. */
  lemma TopTwoPairsUnique(h: Hand, hi: int, lo: int, hi': int, lo': int)
    requires TopTwoPairs(h, hi, lo) && TopTwoPairs(h, hi', lo')
    ensures hi == hi' && lo == lo'
  {
    assert hi in multiset(Values(h)) && hi' in multiset(Values(h));
    assert lo in multiset(Values(h)) && lo' in multiset(Values(h));
  }

  /** Full house: the triple's value weighted by 100, plus the pair's value. */
  function FullHouseValue(h: Hand): (r: int)
    ensures exists three, two :: IsLargestWithCount(h, 3, three) && IsLargestWithCount(h, 2, two) && r == three * 100 + two
    ensures forall three, two :: IsLargestWithCount(h, 3, three) && IsLargestWithCount(h, 2, two) ==> r == three * 100 + two
  {
    var three := GroupValue(h, 3);
    var two := GroupValue(h, 2);
    assert forall three', two' :: IsLargestWithCount(h, 3, three') && IsLargestWithCount(h, 2, two') ==> three' == three && two' == two by {
      forall three', two' | IsLargestWithCount(h, 3, three') && IsLargestWithCount(h, 2, two')
        ensures three' == three && two' == two
      {
        LargestWithCountUnique(h, 3, three, three');
        LargestWithCountUnique(h, 2, two, two');
      }
    }
    three * 100 + two
  }

  /** Two different values each occur exactly twice in `h`. */
  ghost predicate HasTwoPairs(h: Hand) {
    exists v, w :: v < w && Occurrences(h, v) == 2 && Occurrences(h, w) == 2
  }

  /** Whether `handRank` is defined: two pair indexes the second pair. */
  ghost predicate RankDefined(h: Hand, t: HandType) {
    t == TwoPair ==> HasTwoPairs(h)
  }

  /** A hand with two pairs has at least two pair values. */
  lemma {:induction false} AtLeastTwoPairValues(h: Hand)
    requires HasTwoPairs(h)
    ensures |PairValues(h)| >= 2
  {
    var pairs := PairValues(h);
    var v, w :| v < w && Occurrences(h, v) == 2 && Occurrences(h, w) == 2;
    assert v in multiset(Values(h)) && w in multiset(Values(h));
    assert v in pairs && w in pairs;
    var i :| 0 <= i < |pairs| && pairs[i] == v;
    var j :| 0 <= j < |pairs| && pairs[j] == w;
  }

  /** The first two entries of the pair list are the two largest pairs. */
  lemma {:induction false} FirstTwoPairValuesAreTop(h: Hand)
    requires |PairValues(h)| >= 2
    ensures TopTwoPairs(h, PairValues(h)[0], PairValues(h)[1])
  {
    var pairs := PairValues(h);
    assert pairs[0] in pairs && pairs[1] in pairs;
    forall v | v in Values(h) && Occurrences(h, v) == 2
      ensures v == pairs[0] || v <= pairs[1]
    {
      assert v in pairs;
      var k :| 0 <= k < |pairs| && pairs[k] == v;
    }
  }

  /** Two pair: the higher pair's value weighted by 100, plus the lower pair's value. */
  function TwoPairValue(h: Hand): (r: int)
    requires RankDefined(h, TwoPair)
    ensures exists hi, lo :: TopTwoPairs(h, hi, lo) && r == hi * 100 + lo
    ensures forall hi, lo :: TopTwoPairs(h, hi, lo) ==> r == hi * 100 + lo
  {
    AtLeastTwoPairValues(h);
    var pairs := PairValues(h);
    FirstTwoPairValuesAreTop(h);
    assert forall hi, lo :: TopTwoPairs(h, hi, lo) ==> hi == pairs[0] && lo == pairs[1] by {
      forall hi, lo | TopTwoPairs(h, hi, lo)
        ensures hi == pairs[0] && lo == pairs[1]
      {
        TopTwoPairsUnique(h, hi, lo, pairs[0], pairs[1]);
      }
    }
    pairs[0] * 100 + pairs[1]
  }

  /**
   The tie-break integer of `h` within category `t`. The pair, three-of-a-kind
   and four-of-a-kind case filters on the category's raw value, as the code does.
   */
  function HandRank(h: Hand, t: HandType): (r: int)
    requires RankDefined(h, t)
    ensures t == Pair || t == ThreeOfAKind || t == FourOfAKind ==>
      IsLargestWithCount(h, RawValue(t), r)
    ensures t == FullHouse ==>
      exists three, two :: IsLargestWithCount(h, 3, three) && IsLargestWithCount(h, 2, two) && r == three * 100 + two
    ensures t == FullHouse ==>
      forall three, two :: IsLargestWithCount(h, 3, three) && IsLargestWithCount(h, 2, two) ==> r == three * 100 + two
    ensures t == HighCard || t == Flush || t == Straight || t == StraightFlush || t == RoyalFlush ==>
      IsHighest(h, r)
    ensures t == TwoPair ==> exists hi, lo :: TopTwoPairs(h, hi, lo) && r == hi * 100 + lo
    ensures t == TwoPair ==> forall hi, lo :: TopTwoPairs(h, hi, lo) ==> r == hi * 100 + lo
  {
    match t
    case FourOfAKind | ThreeOfAKind | Pair => GroupValue(h, RawValue(t))
    case FullHouse => FullHouseValue(h)
    case Flush | HighCard => HighestValue(h)
    case Straight | StraightFlush | RoyalFlush => HighestValue(h)
    case TwoPair => TwoPairValue(h)
  }
}
