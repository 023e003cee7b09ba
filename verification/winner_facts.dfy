/**
 What `determineWinner` returns, beyond its own contract: the hand of a strictly
 best category wins wherever it stands, the stale tie-break value decides
 between later hands of one category, and concrete runs (the app's initial
 hands in both orders, a stale high card, two triples) where the stale value or
 the raw-value filter hands the win to the weaker hand.
 */
module WinnerFacts {
  import opened Optional
  import opened Cards
  import opened Ranking
  import opened RankingFacts
  import opened Winner

  /** Before its turn, the strictly best hand's category is above the kept one. */
  lemma {:induction false} BelowTopBeforeTurn(classify: Hand -> HandType, hands: seq<Hand>, k: nat)
    requires Ranked(classify, hands)
    requires WinnerExists(classify, hands)
    requires k < |hands|
    requires forall j :: 0 <= j < |hands| && j != k ==> RawValue(classify(hands[j])) < RawValue(classify(hands[k]))
    ensures Step(classify, Run(classify, hands[..k]), hands[k]).hand == Some(hands[k])
    ensures Step(classify, Run(classify, hands[..k]), hands[k]).handType == classify(hands[k])
  {
    var s := Run(classify, hands[..k]);
    if s.hand.Some? {
      var j :| 0 <= j < k && hands[..k][j] == s.hand.value;
      assert hands[j] == s.hand.value;
      assert RawValue(s.handType) < RawValue(classify(hands[k]));
    }
  }

  /**
   The hand of a strictly best category is the kept hand at the end, and its
   category is the stored one. It is taken at its own turn and no later hand
   can displace it.
   */
  lemma {:induction false} TopCategoryKept(classify: Hand -> HandType, hands: seq<Hand>, k: nat)
    requires Ranked(classify, hands)
    requires WinnerExists(classify, hands)
    requires k < |hands|
    requires forall j :: 0 <= j < |hands| && j != k ==> RawValue(classify(hands[j])) < RawValue(classify(hands[k]))
    ensures Run(classify, hands).hand == Some(hands[k])
    ensures Run(classify, hands).handType == classify(hands[k])
    decreases |hands|
  {
    var last := |hands| - 1;
    var prefix := hands[..last];
    if k == last {
      BelowTopBeforeTurn(classify, hands, k);
    } else {
      assert RawValue(classify(hands[last])) < RawValue(classify(hands[k]));
      assert classify(prefix[k]) != HighCard;
      TopCategoryKept(classify, prefix, k);
      var prev := Run(classify, prefix);
      assert Step(classify, prev, hands[last]) == prev;
    }
  }

  /**
   Two hands of one category above high card: the first is kept with the stale
   tie-break value 0, so the second replaces it exactly when its own value is
   positive. The first hand's tie-break value is never consulted.
   */
  lemma {:induction false} SecondOfCategoryNeedsOnlyPositiveRank(classify: Hand -> HandType, a: Hand, b: Hand)
    requires classify(a) == classify(b) != HighCard
    requires RankDefined(a, classify(a)) && RankDefined(b, classify(b))
    ensures Ranked(classify, [a, b])
    ensures Run(classify, [a, b]).hand == if HandRank(b, classify(b)) > 0 then Some(b) else Some(a)
  {
    var first := Step(classify, Start, a);
    assert first == Best(Some(a), classify(a), 0);
    assert [a][..0] == [];
    assert Run(classify, [a]) == first;
    assert [a, b][..1] == [a];
    assert Run(classify, [a, b]) == Step(classify, first, b);
  }

  /**
   A high-card hand, then two hands of one higher category. The upgrade to the
   second hand keeps the first hand's highest card as the stored value, so the
   third hand replaces the second exactly when its own value beats that high
   card; the second hand's value is never consulted.
   */
  lemma {:induction false} StaleRankFromLowerCategory(classify: Hand -> HandType, a: Hand, b: Hand, c: Hand)
    requires classify(a) == HighCard && HighestValue(a) > 0
    requires classify(b) == classify(c) != HighCard
    requires RankDefined(b, classify(b)) && RankDefined(c, classify(c))
    ensures Ranked(classify, [a, b, c])
    ensures Run(classify, [a, b, c]).hand == if HandRank(c, classify(c)) > HighestValue(a) then Some(c) else Some(b)
  {
    var first := Step(classify, Start, a);
    assert first == Best(Some(a), HighCard, HighestValue(a));
    assert [a][..0] == [];
    assert Run(classify, [a]) == first;
    var second := Step(classify, first, b);
    assert second == Best(Some(b), classify(b), HighestValue(a));
    assert [a, b][..1] == [a];
    assert Run(classify, [a, b]) == second;
    assert [a, b, c][..2] == [a, b];
    assert Run(classify, [a, b, c]) == Step(classify, second, c);
  }

  /** Nine high with a seven, six, four and two. */
  lemma {:induction false} NineHighValue(h: Hand)
    requires multiset(Values(h)) == multiset{9, 2, 4, 6, 7}
    ensures HighestValue(h) == 9
  {
    assert 9 in multiset(Values(h));
    forall i | 0 <= i < |h.cards|
      ensures h.cards[i].value <= 9
    {
      assert Values(h)[i] in multiset(Values(h));
    }
  }

  /** A pair of threes with a five, ten and queen ranks 3 as a pair. */
  lemma {:induction false} PairOfThreesRank(h: Hand)
    requires multiset(Values(h)) == multiset{3, 3, 5, 10, 12}
    ensures HandRank(h, Pair) == 3
  {
    LargestWithCountIntro(h, 2, 3);
  }

  /** A pair of eights with a two, four and king ranks 8 as a pair. */
  lemma {:induction false} PairOfEightsRank(h: Hand)
    requires multiset(Values(h)) == multiset{8, 8, 2, 4, 13}
    ensures HandRank(h, Pair) == 8
  {
    LargestWithCountIntro(h, 2, 8);
  }

  /**
   Nine high, then a pair of threes, then a pair of eights: the pair of eights
   is measured against the stale 9 and loses, so the pair of threes wins.
   */
  lemma {:induction false} NineHighBlocksPairOfEights(classify: Hand -> HandType, a: Hand, b: Hand, c: Hand)
    requires multiset(Values(a)) == multiset{9, 2, 4, 6, 7}
    requires multiset(Values(b)) == multiset{3, 3, 5, 10, 12}
    requires multiset(Values(c)) == multiset{8, 8, 2, 4, 13}
    requires classify(a) == HighCard && classify(b) == Pair && classify(c) == Pair
    ensures Ranked(classify, [a, b, c])
    ensures HandRank(b, Pair) < HandRank(c, Pair)
    ensures Run(classify, [a, b, c]).hand == Some(b)
  {
    NineHighValue(a);
    PairOfThreesRank(b);
    PairOfEightsRank(c);
    StaleRankFromLowerCategory(classify, a, b, c);
  }

  /** Threes and sixes with a five rank 603 as two pair. */
  lemma {:induction false} ThreesAndSixesRank(h: Hand)
    requires multiset(Values(h)) == multiset{3, 3, 6, 5, 6}
    ensures RankDefined(h, TwoPair) && HandRank(h, TwoPair) == 603
  {
    assert TopTwoPairs(h, 6, 3);
    var ks := WithCount(h, 2);
    assert 6 in ks && 3 in ks;
    var i :| 0 <= i < |ks| && ks[i] == 6;
    var j :| 0 <= j < |ks| && ks[j] == 3;
    assert i != j;
  }

  /** Fours and sevens with a six rank 704 as two pair. */
  lemma {:induction false} FoursAndSevensRank(h: Hand)
    requires multiset(Values(h)) == multiset{4, 7, 4, 7, 6}
    ensures RankDefined(h, TwoPair) && HandRank(h, TwoPair) == 704
  {
    assert TopTwoPairs(h, 7, 4);
    var ks := WithCount(h, 2);
    assert 7 in ks && 4 in ks;
    var i :| 0 <= i < |ks| && ks[i] == 7;
    var j :| 0 <= j < |ks| && ks[j] == 4;
    assert i != j;
  }

  /**
   The app's initial hand list: threes and sixes with a five, then fours and
   sevens with a six (suits play no part in the tie-break). In this order the
   stronger two pair, fours and sevens, wins.
   */
  lemma {:induction false} InitialHandsWinner(classify: Hand -> HandType, a: Hand, b: Hand)
    requires multiset(Values(a)) == multiset{3, 3, 6, 5, 6} && multiset(Values(b)) == multiset{4, 7, 4, 7, 6}
    requires classify(a) == TwoPair && classify(b) == TwoPair
    ensures Ranked(classify, [a, b])
    ensures Run(classify, [a, b]).hand == Some(b)
  {
    ThreesAndSixesRank(a);
    FoursAndSevensRank(b);
    SecondOfCategoryNeedsOnlyPositiveRank(classify, a, b);
  }

  /**
   Listed the other way round, the weaker threes and sixes win: 603 is compared
   with the stale 0 rather than with 704.
   */
  lemma {:induction false} InitialHandsReversedPicksWeaker(classify: Hand -> HandType, a: Hand, b: Hand)
    requires multiset(Values(a)) == multiset{3, 3, 6, 5, 6} && multiset(Values(b)) == multiset{4, 7, 4, 7, 6}
    requires classify(a) == TwoPair && classify(b) == TwoPair
    ensures Ranked(classify, [b, a])
    ensures RankDefined(a, TwoPair) && RankDefined(b, TwoPair)
    ensures HandRank(a, TwoPair) < HandRank(b, TwoPair)
    ensures Run(classify, [b, a]).hand == Some(a)
  {
    ThreesAndSixesRank(a);
    FoursAndSevensRank(b);
    SecondOfCategoryNeedsOnlyPositiveRank(classify, b, a);
  }

  /**
   Three twos and three aces, each with a five and a seven, both rank 0 because
   three of a kind filters for a count of 4; so the first-seen triple twos beat
   the later triple aces.
   */
  lemma {:induction false} TriplesTieAtZero(classify: Hand -> HandType, twos: Hand, aces: Hand)
    requires multiset(Values(twos)) == multiset{2, 2, 2, 5, 7} && multiset(Values(aces)) == multiset{14, 14, 14, 5, 7}
    requires classify(twos) == ThreeOfAKind && classify(aces) == ThreeOfAKind
    ensures Ranked(classify, [twos, aces])
    ensures HandRank(twos, ThreeOfAKind) == 0 && HandRank(aces, ThreeOfAKind) == 0
    ensures Run(classify, [twos, aces]).hand == Some(twos)
  {
    assert multiset(Values(twos))[2] == 3;
    ThreeOfAKindRankIgnoresTriple(twos, 2);
    assert multiset(Values(aces))[14] == 3;
    ThreeOfAKindRankIgnoresTriple(aces, 14);
    SecondOfCategoryNeedsOnlyPositiveRank(classify, twos, aces);
  }
}
