/**
 Consequences of `handRank`'s contract: which tie-break values dominate, and
 what the raw-value filter does to three and four of a kind.
 */
module RankingFacts {
  import opened Cards
  import opened Ranking

  /** Two different values together occur no more often than there are cards. */
  lemma {:induction false} TwoValuesBounded(xs: seq<int>, v: int, w: int)
    requires v != w
    ensures multiset(xs)[v] + multiset(xs)[w] <= |xs|
    decreases |xs|
  {
    if |xs| > 0 {
      assert xs == [xs[0]] + xs[1..];
      TwoValuesBounded(xs[1..], v, w);
    }
  }

  /** Every card value of a valid hand lies in 2..14. */
  lemma {:induction false} ValidValuesInRange(h: Hand, v: int)
    requires ValidHand(h)
    requires v in Values(h)
    ensures 2 <= v <= 14
  {
    var i :| 0 <= i < |Values(h)| && Values(h)[i] == v;
  }

  /** Every card value of a mapped hand lies in 0..14. */
  lemma {:induction false} MappedValuesInRange(h: Hand, v: int)
    requires MappedHand(h)
    requires v in Values(h)
    ensures 0 <= v <= 14
  {
    var i :| 0 <= i < |Values(h)| && Values(h)[i] == v;
  }

  /**
   Four of a kind filters on raw value 8, and no value occurs 8 times in a
   hand of fewer than 8 cards, so its tie-break value is always 0.
   */
  lemma {:induction false} FourOfAKindRankIsZero(h: Hand)
    requires |h.cards| < 8
    ensures HandRank(h, FourOfAKind) == 0
  {
    forall v | v in Values(h)
      ensures Occurrences(h, v) != 8
    {
      TwoValuesBounded(Values(h), v, v + 1);
    }
  }

  /**
   Three of a kind filters on raw value 4: in a five-card hand holding a triple
   no value occurs 4 times, so the tie-break value is 0 whatever the triple is.
   */
  lemma {:induction false} ThreeOfAKindRankIgnoresTriple(h: Hand, v: int)
    requires |h.cards| == 5
    requires Occurrences(h, v) == 3
    ensures HandRank(h, ThreeOfAKind) == 0
  {
    forall w | w in Values(h)
      ensures Occurrences(h, w) != 4
    {
      if w != v {
        TwoValuesBounded(Values(h), v, w);
      }
    }
  }

  /** The parts of a full-house value are the triple's and the pair's values. */
  lemma {:induction false} FullHouseParts(h: Hand)
    requires MappedHand(h)
    ensures HandRank(h, FullHouse) == GroupValue(h, 3) * 100 + GroupValue(h, 2)
    ensures 0 <= GroupValue(h, 2) <= 14
  {
    assert IsLargestWithCount(h, 3, GroupValue(h, 3)) && IsLargestWithCount(h, 2, GroupValue(h, 2));
    if GroupValue(h, 2) != 0 {
      MappedValuesInRange(h, GroupValue(h, 2));
    }
  }

  /**
   Between two full houses of mapped cards the larger triple value always wins
   the tie-break, whatever the pairs are: the pair adds at most 14 < 100. The
   order is that of the mapped values, in which a ten (0) is below a two.
   */
  lemma {:induction false} FullHouseTripleDominates(h1: Hand, h2: Hand)
    requires MappedHand(h1) && MappedHand(h2)
    requires GroupValue(h1, 3) > GroupValue(h2, 3)
    ensures HandRank(h1, FullHouse) > HandRank(h2, FullHouse)
  {
    FullHouseParts(h1);
    FullHouseParts(h2);
  }

  /**
   Between two two-pair hands of mapped cards the higher top pair value always
   wins the tie-break, whatever the lower pairs are.
   */
  lemma {:induction false} TwoPairTopDominates(h1: Hand, h2: Hand)
    requires MappedHand(h1) && MappedHand(h2)
    requires RankDefined(h1, TwoPair) && RankDefined(h2, TwoPair)
    requires PairValues(h1)[0] > PairValues(h2)[0]
    ensures HandRank(h1, TwoPair) > HandRank(h2, TwoPair)
  {
    TwoPairParts(h1);
    TwoPairParts(h2);
  }

  /**
   The two-pair value is the top pair times 100 plus the second pair, which lies
   in 0..14, and in 2..14 for a valid hand.
   */
  lemma {:induction false} TwoPairParts(h: Hand)
    requires MappedHand(h) && RankDefined(h, TwoPair)
    ensures HandRank(h, TwoPair) == PairValues(h)[0] * 100 + PairValues(h)[1]
    ensures 0 <= PairValues(h)[1] <= 14
    ensures ValidHand(h) ==> 2 <= PairValues(h)[1]
  {
    var pairs := PairValues(h);
    assert pairs[0] in pairs && pairs[1] in pairs;
    assert TopTwoPairs(h, pairs[0], pairs[1]);
    MappedValuesInRange(h, pairs[1]);
    if ValidHand(h) {
      ValidValuesInRange(h, pairs[1]);
    }
  }

  /** Nines over threes (903) beat eights over kings (813). */
  lemma {:induction false} FullHouseExample(h1: Hand, h2: Hand)
    requires multiset(Values(h1)) == multiset{9, 9, 9, 3, 3}
    requires multiset(Values(h2)) == multiset{8, 8, 8, 13, 13}
    ensures HandRank(h1, FullHouse) == 903
    ensures HandRank(h2, FullHouse) == 813
  {
    LargestWithCountIntro(h1, 3, 9);
    LargestWithCountIntro(h1, 2, 3);
    LargestWithCountIntro(h2, 3, 8);
    LargestWithCountIntro(h2, 2, 13);
  }

  /**
   Tens whose whole text token maps to 0: three tens with two twos rank 2 as a
   full house, below three twos with two threes at 203.
   */
  lemma {:induction false} ZeroValuedTensExample(tens: Hand, twos: Hand)
    requires multiset(Values(tens)) == multiset{0, 0, 0, 2, 2}
    requires multiset(Values(twos)) == multiset{2, 2, 2, 3, 3}
    ensures HandRank(tens, FullHouse) == 2
    ensures HandRank(twos, FullHouse) == 203
  {
    LargestWithCountIntro(tens, 3, 0);
    LargestWithCountIntro(tens, 2, 2);
    LargestWithCountIntro(twos, 3, 2);
    LargestWithCountIntro(twos, 2, 3);
  }

  /**
   Two pairs of face cards whose tokens all map to 0, with a three: the four
   cards share one value, so no two values occur twice and the two-pair value
   is undefined (the code traps on the second pair).
   */
  lemma {:induction false} ZeroValuedFacesHaveNoTwoPairs(h: Hand)
    requires multiset(Values(h)) == multiset{0, 0, 0, 0, 3}
    ensures !RankDefined(h, TwoPair)
  {
    forall v, w | v < w
      ensures !(Occurrences(h, v) == 2 && Occurrences(h, w) == 2)
    {
    }
  }
}
