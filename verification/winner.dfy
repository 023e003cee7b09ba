/**
 `determineWinner(hands:)`: a fold over the hands keeping the best hand so far,
 its category and a tie-break value.

 The category of a hand comes from a classifier that is not part of this model;
 it is a parameter here. `bestHandRank` is written only when a hand of the same
 category as the current best is compared, never on a strict category upgrade,
 so a later hand of that category is measured against a stale value.
 */
module Winner {
  import opened Optional
  import opened Cards
  import opened Ranking

  /** The three loop variables: `bestHand`, `bestHandType`, `bestHandRank`. */
  datatype Best = Best(hand: Option<Hand>, handType: HandType, rank: int)

  /** Their values before the first hand. */
  const Start := Best(None, HighCard, 0)

  /** Every hand `classify` may be asked to rank has a defined tie-break value. */
  ghost predicate Ranked(classify: Hand -> HandType, hands: seq<Hand>) {
    forall i :: 0 <= i < |hands| ==> RankDefined(hands[i], classify(hands[i]))
  }

  /** The loop state agrees with itself: a kept hand has the kept category; no hand means nothing changed. */
  predicate Consistent(classify: Hand -> HandType, s: Best) {
    && (s.hand.Some? ==> classify(s.hand.value) == s.handType)
    && (s.hand.None? ==> s == Start)
  }

  /** One loop iteration on hand `h`. */
  function Step(classify: Hand -> HandType, s: Best, h: Hand): (r: Best)
    requires classify(h) == s.handType ==> RankDefined(h, classify(h))
    ensures RawValue(r.handType) >= RawValue(s.handType)
    ensures RawValue(classify(h)) < RawValue(s.handType) ==> r == s
    ensures RawValue(classify(h)) > RawValue(s.handType) ==> r.hand == Some(h) && r.handType == classify(h)
    ensures RawValue(classify(h)) > RawValue(s.handType) ==> r.rank == s.rank
    ensures classify(h) == s.handType && HandRank(h, s.handType) > s.rank ==>
      r == Best(Some(h), s.handType, HandRank(h, s.handType))
    ensures r.rank != s.rank ==> classify(h) == s.handType && r.rank == HandRank(h, s.handType) > s.rank
    ensures classify(h) == s.handType && HandRank(h, s.handType) <= s.rank ==> r == s
    ensures r.hand != s.hand ==> r.hand == Some(h)
    ensures Consistent(classify, s) ==> Consistent(classify, r)
  {
    var handType := classify(h);
    if RawValue(handType) > RawValue(s.handType) then
      s.(handType := handType, hand := Some(h))
    else if handType == s.handType then
      var handRank := HandRank(h, handType);
      if handRank > s.rank then s.(rank := handRank, hand := Some(h)) else s
    else
      s
  }

  /** The state after the loop has seen `hands`, in order. */
  function Run(classify: Hand -> HandType, hands: seq<Hand>): (s: Best)
    requires Ranked(classify, hands)
    ensures Consistent(classify, s)
    ensures s.hand.Some? ==> s.hand.value in hands
    ensures forall i :: 0 <= i < |hands| ==> RawValue(classify(hands[i])) <= RawValue(s.handType)
    decreases |hands|
  {
    if |hands| == 0 then Start
    else
      var prefix := hands[..|hands| - 1];
      var h := hands[|hands| - 1];
      var s := Step(classify, Run(classify, prefix), h);
      assert forall i :: 0 <= i < |hands| - 1 ==> hands[i] == prefix[i];
      s
  }

  /**
   Some hand would set `bestHand`: it is above high card, or its high-card
   tie-break value, its highest card, is positive.
   */
  predicate WinnerExists(classify: Hand -> HandType, hands: seq<Hand>) {
    exists i :: 0 <= i < |hands| && (classify(hands[i]) != HighCard || HighestValue(hands[i]) > 0)
  }

  /** The force-unwrap of `bestHand` succeeds exactly when some hand would set it. */
  lemma {:induction false} RunFindsWinnerIff(classify: Hand -> HandType, hands: seq<Hand>)
    requires Ranked(classify, hands)
    ensures Run(classify, hands).hand.Some? <==> WinnerExists(classify, hands)
    decreases |hands|
  {
    if |hands| > 0 {
      var prefix := hands[..|hands| - 1];
      var h := hands[|hands| - 1];
      assert forall i :: 0 <= i < |hands| - 1 ==> hands[i] == prefix[i];
      RunFindsWinnerIff(classify, prefix);
      if WinnerExists(classify, prefix) {
        var i :| 0 <= i < |prefix| && (classify(prefix[i]) != HighCard || HighestValue(prefix[i]) > 0);
        assert hands[i] == prefix[i];
      } else if WinnerExists(classify, hands) {
        var i :| 0 <= i < |hands| && (classify(hands[i]) != HighCard || HighestValue(hands[i]) > 0);
        assert i == |hands| - 1;
      }
    }
  }

  /** Hands of valid cards always set `bestHand`: a high-card value is at least 2. */
  lemma ValidHandsHaveWinner(classify: Hand -> HandType, hands: seq<Hand>)
    requires |hands| > 0
    requires forall i :: 0 <= i < |hands| ==> ValidHand(hands[i])
    ensures WinnerExists(classify, hands)
  {
    var h := hands[0];
    assert h.cards[0].value >= 2;
    assert HighestValue(h) >= 2;
  }

  /**
   The winner: the hand the loop keeps. The category of the result is the
   largest category among the hands.
   */
  method DetermineWinner(hands: seq<Hand>, classify: Hand -> HandType) returns (winner: Hand)
    requires Ranked(classify, hands)
    requires WinnerExists(classify, hands)
    ensures winner in hands
    ensures forall i :: 0 <= i < |hands| ==> RawValue(classify(hands[i])) <= RawValue(classify(winner))
    ensures Run(classify, hands).hand == Some(winner)
  {
    var bestHand: Option<Hand> := None;
    var bestHandType := HighCard;
    var bestHandRank := 0;
    for i := 0 to |hands|
      invariant Best(bestHand, bestHandType, bestHandRank) == Run(classify, hands[..i])
    {
      var hand := hands[i];
      assert hands[..i + 1][..i] == hands[..i];
      var handType := classify(hand);
      if RawValue(handType) > RawValue(bestHandType) {
        bestHandType := handType;
        bestHand := Some(hand);
      } else if handType == bestHandType {
        var handRank := HandRank(hand, handType);
        if handRank > bestHandRank {
          bestHandRank := handRank;
          bestHand := Some(hand);
        }
      }
    }
    assert hands[..|hands|] == hands;
    RunFindsWinnerIff(classify, hands);
    winner := bestHand.value;
  }
}
