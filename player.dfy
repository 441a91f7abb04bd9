/** A player: a FIFO `hand` to play from and a `won_cards` pile that is
    shuffled back into the hand when the hand runs out. */
module Players {
  import opened Cards

  /** A snapshot of what a player holds, for stating how a play changes it. */
  datatype Holding = Holding(hand: seq<Card>, won: seq<Card>)

  function HoldingScore(h: Holding): (n: nat) {
    |h.hand| + |h.won|
  }

  /** The cards a player holds, in hand and in the won pile together. */
  ghost function HeldCards(h: Holding): (cards: multiset<Card>) {
    multiset(h.hand) + multiset(h.won)
  }

  /** A score counts the cards held, in hand and won pile together. */
  lemma ScoreCountsCards(h: Holding)
    ensures HoldingScore(h) == |HeldCards(h)|
    ensures HoldingScore(h) == 0 <==> HeldCards(h) == multiset{}
  {
  }

  ghost predicate HoldingValid(h: Holding) {
    AllValid(h.hand) && AllValid(h.won)
  }

  /** One `playCard` call: the player in state `before` plays `c` and is left
      in state `after`. Nothing held: the sentinel, no change. A non-empty
      hand: its front card. An empty hand: the won pile is emptied into the
      hand in some order, and the front of that order is played. */
  ghost predicate PlayStep(before: Holding, c: Card, after: Holding) {
    if HoldingScore(before) == 0 then
      c == NoCard && after == before
    else if before.hand != [] then
      c == before.hand[0] && after == Holding(before.hand[1..], before.won)
    else
      after.won == [] && multiset([c] + after.hand) == multiset(before.won)
  }

  /** A play removes exactly one card when there is one and leaves the player
      holding deck cards only; what leaves the player is the played card when
      it is real, and nothing when it is the sentinel. */
  lemma PlayStepAccounts(before: Holding, c: Card, after: Holding)
    requires HoldingValid(before)
    requires PlayStep(before, c, after)
    ensures HoldingScore(after) == if HoldingScore(before) == 0 then 0 else HoldingScore(before) - 1
    ensures IsReal(c) <==> HoldingScore(before) > 0
    ensures ValidOrNoCard(c)
    ensures HoldingValid(after)
    ensures HeldCards(before) == HeldCards(after) + multiset(RealCards([c]))
  {
    assert RealCards([c]) == if IsReal(c) then [c] else [] by {
      assert [c][..0] == [];
    }
    if HoldingScore(before) > 0 && before.hand == [] {
      RefillValid(before.won, c, after.hand);
    } else if HoldingScore(before) > 0 {
      assert before.hand == [c] + after.hand;
    }
  }

  /** Playing the front of a shuffled won pile of deck cards: the card and
      the rest of the new hand are deck cards. */
  lemma RefillValid(won: seq<Card>, c: Card, rest: seq<Card>)
    requires AllValid(won) && multiset([c] + rest) == multiset(won)
    ensures ValidCard(c) && AllValid(rest)
  {
    var shuffled := [c] + rest;
    assert c in multiset(won);
    forall i | 0 <= i < |rest| ensures ValidCard(rest[i]) {
      assert rest[i] == shuffled[i + 1];
      assert shuffled[i + 1] in multiset(won);
    }
  }

  class Player {
    const name: string
    var hand: seq<Card>
    var wonCards: seq<Card>

    constructor (name: string)
      ensures this.name == name && hand == [] && wonCards == []
    {
      this.name := name;
      hand := [];
      wonCards := [];
    }

    function State(): (h: Holding)
      reads this
    {
      Holding(hand, wonCards)
    }

    /** The player's score: how many cards they hold (`ScoreCountsCards`). */
    function Score(): (s: nat)
      reads this
      ensures s == HoldingScore(State())
    {
      |hand| + |wonCards|
    }

    /** Whether the hand is out of cards (the won pile may still hold some). */
    function IsEmptyHand(): (e: bool)
      reads this
    {
      |hand| == 0
    }

    /** Shuffle the won pile into the hand; the won pile is left empty. */
    method RefillHand()
      modifies this
      ensures wonCards == []
      ensures multiset(hand) == multiset(old(wonCards))
      ensures old(hand) == [] ==> Score() == old(Score())
    {
      var shuffled: seq<Card> :| multiset(shuffled) == multiset(wonCards);
      hand := shuffled;
      wonCards := [];
    }

    /** Play the next card: the sentinel when nothing is held, otherwise the
        front of the hand, refilled from the won pile first if it was empty. */
    method PlayCard() returns (c: Card)
      modifies this
      ensures PlayStep(old(State()), c, State())
      ensures old(Score()) == 0 ==> c == NoCard && hand == old(hand) && wonCards == old(wonCards)
      ensures old(Score()) > 0 ==> Score() == old(Score()) - 1
      ensures old(hand) != [] ==> c == old(hand[0]) && hand == old(hand[1..]) && wonCards == old(wonCards)
      ensures old(Score()) > 0 && old(hand) == [] ==>
        wonCards == [] && multiset([c] + hand) == multiset(old(wonCards))
    {
      if Score() == 0 {
        return NoCard;
      }
      if IsEmptyHand() {
        RefillHand();
      }
      c := hand[0];
      assert hand == [c] + hand[1..];
      hand := hand[1..];
    }
  }
}
