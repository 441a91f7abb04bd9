/** Cards of the game "War": a rank (`number`) and a suit (`color`).
    Cards are compared by rank only; rank 0 is the "no card" sentinel. */
module Cards {

  datatype Card = Card(number: int, color: string)

  /** The default card: rank 0, suit "0". A player
      with nothing left plays it, and it never counts in a comparison. */
  const NoCard: Card := Card(0, "0")

  /** The four suits, in the order the deck is built. */
  const Suits: seq<string> := ["BC", "BS", "RD", "RH"]

  /** The card comparison "greater than": by rank. */
  predicate Greater(a: Card, b: Card) {
    a.number > b.number
  }

  /** The card comparison "equal": equal ranks, whatever the suits. */
  predicate Same(a: Card, b: Card) {
    a.number == b.number
  }

  /** Comparison looks at the rank only: repainting either card leaves both
      relations unchanged, and exactly one of "greater", "same" and
      "smaller" holds. */
  lemma RankOnlyOrder(a: Card, b: Card, s: string, t: string)
    ensures Greater(a, b) <==> Greater(Card(a.number, s), Card(b.number, t))
    ensures Same(a, b) <==> Same(Card(a.number, s), Card(b.number, t))
    ensures (Greater(a, b) && !Same(a, b) && !Greater(b, a))
         || (!Greater(a, b) && Same(a, b) && !Greater(b, a))
         || (!Greater(a, b) && !Same(a, b) && Greater(b, a))
  {
  }

  /** A card that is not the sentinel; these are the ones a winner collects. */
  predicate IsReal(c: Card) {
    c.number != 0
  }

  /** A card of the 52-card deck: rank 1 to 13. */
  predicate ValidCard(c: Card) {
    1 <= c.number <= 13
  }

  predicate AllValid(cs: seq<Card>) {
    forall i :: 0 <= i < |cs| ==> ValidCard(cs[i])
  }

  /** What a round can put on the table: deck cards or the sentinel. */
  predicate ValidOrNoCard(c: Card) {
    c == NoCard || ValidCard(c)
  }

  /** What a round can put on the table, card by card. */
  predicate ValidTable(cs: seq<Card>) {
    forall i :: 0 <= i < |cs| ==> ValidOrNoCard(cs[i])
  }

  lemma ValidTableAppend(a: seq<Card>, b: seq<Card>)
    requires ValidTable(a) && ValidTable(b)
    ensures ValidTable(a + b)
  {
    forall i | 0 <= i < |a + b| ensures ValidOrNoCard((a + b)[i]) {
      if i >= |a| {
        assert (a + b)[i] == b[i - |a|];
      }
    }
  }

  lemma AllValidAppend(a: seq<Card>, b: seq<Card>)
    requires AllValid(a) && AllValid(b)
    ensures AllValid(a + b)
  {
    forall i | 0 <= i < |a + b| ensures ValidCard((a + b)[i]) {
      if i >= |a| {
        assert (a + b)[i] == b[i - |a|];
      }
    }
  }

  /** The cards of `cs` that are not the sentinel, in order. */
  function RealCards(cs: seq<Card>): (r: seq<Card>)
    ensures |r| <= |cs|
    ensures forall c :: c in r <==> c in cs && IsReal(c)
  {
    if cs == [] then []
    else RealCards(cs[..|cs| - 1]) + (if IsReal(cs[|cs| - 1]) then [cs[|cs| - 1]] else [])
  }

  /** A real card of `cs` passes the filter. */
  lemma RealCardsKeeps(cs: seq<Card>, i: int)
    requires 0 <= i < |cs| && IsReal(cs[i])
    ensures cs[i] in RealCards(cs)
  {
    assert cs[i] in cs;
  }

  /** Filtering distributes over concatenation: the filtered played cards
      followed by the filtered field are the filtered whole. */
  lemma {:induction false} RealCardsAppend(a: seq<Card>, b: seq<Card>)
    ensures RealCards(a + b) == RealCards(a) + RealCards(b)
  {
    if b == [] {
      assert a + b == a;
    } else {
      var init, last := b[..|b| - 1], b[|b| - 1];
      assert (a + b)[..|a + b| - 1] == a + init && (a + b)[|a + b| - 1] == last;
      RealCardsAppend(a, init);
    }
  }

  /** The real cards of a table are deck cards. */
  lemma RealCardsOfTable(cs: seq<Card>)
    requires ValidTable(cs)
    ensures AllValid(RealCards(cs))
  {
    var r := RealCards(cs);
    forall i | 0 <= i < |r| ensures ValidCard(r[i]) {
      assert r[i] in cs;
      var j :| 0 <= j < |cs| && cs[j] == r[i];
      assert ValidOrNoCard(cs[j]);
    }
  }

  /** Filtering a non-empty table: the filtered table without its last card,
      then the last card if it is real. */
  lemma RealCardsLast(cs: seq<Card>)
    requires cs != []
    ensures RealCards(cs) == RealCards(cs[..|cs| - 1]) + RealCards([cs[|cs| - 1]])
  {
    assert [cs[|cs| - 1]][..0] == [];
  }

  /** Deck cards pass the filter unchanged; a table of sentinels filters to nothing. */
  lemma {:induction false} RealCardsOfValid(cs: seq<Card>)
    ensures AllValid(cs) ==> RealCards(cs) == cs
    ensures (forall i :: 0 <= i < |cs| ==> cs[i] == NoCard) ==> RealCards(cs) == []
  {
    if cs != [] {
      RealCardsOfValid(cs[..|cs| - 1]);
      assert cs[..|cs| - 1] + [cs[|cs| - 1]] == cs;
    }
  }

  /** The unshuffled deck: ranks 1 to 13 in increasing order, each rank in
      the four suits in `Suits` order. */
  function StandardDeck(): (d: seq<Card>)
    ensures |d| == 52
    ensures AllValid(d)
    ensures forall r, s :: 1 <= r <= 13 && s in Suits ==> Card(r, s) in d
  {
    var d := seq(52, i requires 0 <= i < 52 => Card(i / 4 + 1, Suits[i % 4]));
    assert forall r, s :: 1 <= r <= 13 && s in Suits ==> Card(r, s) in d by {
      forall r, s | 1 <= r <= 13 && s in Suits ensures Card(r, s) in d {
        var k :| 0 <= k < 4 && Suits[k] == s;
        assert d[(r - 1) * 4 + k] == Card(r, s);
      }
    }
    d
  }

  /** The deck holds each (rank, suit) pair exactly once. */
  lemma StandardDeckDistinct()
    ensures forall i, j :: 0 <= i < j < 52 ==> StandardDeck()[i] != StandardDeck()[j]
  {
    var d := StandardDeck();
    forall i, j | 0 <= i < j < 52 ensures d[i] != d[j] {
      assert d[i] == Card(i / 4 + 1, Suits[i % 4]);
      assert d[j] == Card(j / 4 + 1, Suits[j % 4]);
    }
  }
}
