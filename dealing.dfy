/** Setting up a game: how many players the constructor accepts, and how
    `distributeCards` deals the shuffled deck, as values. */
module Dealing {
  import opened Cards
  import opened Players
  import opened Holdings

  /** The constructor's check on the number of players. */
  predicate ValidPlayerCount(n: int) {
    n >= 2 && 56 % n == 0
  }

  /** How many cards `distributeCards` deals to each of `n` players. */
  function CardsPerPlayer(n: int): (k: nat)
    requires n > 0
  {
    52 / n
  }

  /** Every player gets the same share, and fewer than `n` cards stay undealt. */
  lemma DealtFits(n: int)
    requires n > 0
    ensures 52 - n < n * CardsPerPlayer(n) <= 52
  {
    assert n * CardsPerPlayer(n) + 52 % n == 52;
  }

  /** The check divides 56 while the deck has 52 cards: of the accepted
      counts 2, 4, 7, 8, 14, 28 and 56, only 2 and 4 players get the whole
      deck between them, and 56 players get no card at all. */
  lemma DealtCount(n: int)
    requires ValidPlayerCount(n)
    ensures n * CardsPerPlayer(n) == 52 <==> n == 2 || n == 4
    ensures CardsPerPlayer(n) == 0 <==> n == 56
  {
    var a, b := 56 / n, 52 / n;
    assert n * a == 56;
    assert n * b + 52 % n == 52;
    if n * b == 52 {
      assert n * (a - b) == 4;
      assert a - b >= 1;
      assert n <= 4;
      assert n != 3;
    }
  }

  /** The check the constructor's documentation describes: at least two
      players, and their number divides the 52 cards of the deck. */
  predicate IntendedPlayerCount(n: int) {
    n >= 2 && 52 % n == 0
  }

  /** With the documented check every player gets at least one card and the
      whole deck is dealt; the accepted counts are 2, 4, 13, 26 and 52. */
  lemma IntendedDealsAll(n: int)
    requires IntendedPlayerCount(n)
    ensures n * CardsPerPlayer(n) == 52 && CardsPerPlayer(n) >= 1
    ensures n in {2, 4, 13, 26, 52}
  {
    assert n * (52 / n) + 52 % n == 52;
    assert n <= 52;
  }

  /** The cards dealt to player `i` of `n` when each gets `k`: the `i`-th
      run of `k` consecutive cards of the deck. */
  function DealtSlice(deck: seq<Card>, n: int, k: nat, i: int): (slice: seq<Card>)
    requires 0 <= i < n && n * k <= |deck|
    ensures |slice| == k
  {
    DealtFitsPrefix(n, k, i + 1);
    seq(k, m requires 0 <= m < k => deck[i * k + m])
  }

  /** A share of a deck of deck cards is deck cards. */
  lemma SliceOfValid(deck: seq<Card>, n: int, k: nat, i: int)
    requires 0 <= i < n && n * k <= |deck| && AllValid(deck)
    ensures AllValid(DealtSlice(deck, n, k, i))
  {
    var slice := DealtSlice(deck, n, k, i);
    DealtFitsPrefix(n, k, i + 1);
    assert (i + 1) * k == i * k + k;
    forall j | 0 <= j < |slice| ensures ValidCard(slice[j]) {
      assert slice[j] == deck[i * k + j];
    }
  }

  lemma DealtFitsPrefix(n: int, k: nat, i: int)
    requires 0 <= i <= n
    ensures 0 <= i * k <= n * k
  {
  }

  /** The cards dealt to the first `i` of `n` players: the first `i * k`
      cards of the deck. */
  function Dealt(deck: seq<Card>, n: int, k: nat, i: int): (dealt: seq<Card>)
    requires 0 <= i <= n && n * k <= |deck|
    ensures |dealt| == i * k
  {
    DealtFitsPrefix(n, k, i);
    deck[..i * k]
  }

  /** The shares are contiguous and disjoint: appending player `i`'s share to
      what the players before it got gives what the first `i + 1` got. */
  lemma DealtGrows(deck: seq<Card>, n: int, k: nat, i: int)
    requires 0 <= i < n && n * k <= |deck|
    ensures Dealt(deck, n, k, i + 1) == Dealt(deck, n, k, i) + DealtSlice(deck, n, k, i)
  {
  }

  /** `after` is `before` with player `i`'s share of `deck` appended to the
      hand of every player `i` of `n`, each share `k` cards. */
  ghost predicate DealtTo(before: seq<Holding>, deck: seq<Card>, n: int, k: nat, after: seq<Holding>) {
    |before| == n && |after| == n && n * k <= |deck| &&
    forall j :: 0 <= j < n ==> after[j] == Holding(before[j].hand + DealtSlice(deck, n, k, j), before[j].won)
  }

  /** Dealing adds exactly the first `m` shares to what the first `m`
      players hold. */
  lemma {:induction false} DealtHeld(before: seq<Holding>, deck: seq<Card>, n: int, k: nat, after: seq<Holding>, m: int)
    requires DealtTo(before, deck, n, k, after) && 0 <= m <= n
    ensures HeldAll(after[..m]) == HeldAll(before[..m]) + multiset(Dealt(deck, n, k, m))
  {
    if m == 0 {
      assert Dealt(deck, n, k, 0) == [];
    } else {
      DealtHeld(before, deck, n, k, after, m - 1);
      assert after[m - 1] == Holding(before[m - 1].hand + DealtSlice(deck, n, k, m - 1), before[m - 1].won);
      DealtHeldStep(before, deck, n, k, after, m);
    }
  }

  /** One more player's share: the step of `DealtHeld`. */
  lemma DealtHeldStep(before: seq<Holding>, deck: seq<Card>, n: int, k: nat, after: seq<Holding>, m: int)
    requires |before| == n && |after| == n && n * k <= |deck| && 0 < m <= n
    requires HeldAll(after[..m - 1]) == HeldAll(before[..m - 1]) + multiset(Dealt(deck, n, k, m - 1))
    requires after[m - 1] == Holding(before[m - 1].hand + DealtSlice(deck, n, k, m - 1), before[m - 1].won)
    ensures HeldAll(after[..m]) == HeldAll(before[..m]) + multiset(Dealt(deck, n, k, m))
  {
    var share := DealtSlice(deck, n, k, m - 1);
    HeldAllPrefix(after, m);
    HeldAllPrefix(before, m);
    assert multiset(Dealt(deck, n, k, m)) == multiset(Dealt(deck, n, k, m - 1)) + multiset(share) by {
      DealtGrows(deck, n, k, m - 1);
    }
    AddShare(HeldAll(after[..m - 1]), HeldAll(before[..m - 1]), multiset(Dealt(deck, n, k, m - 1)),
             HeldCards(after[m - 1]), HeldCards(before[m - 1]), multiset(share));
  }

  /** The multiset arithmetic of `DealtHeldStep`. */
  lemma AddShare(after: multiset<Card>, before: multiset<Card>, dealt: multiset<Card>,
                 next: multiset<Card>, had: multiset<Card>, share: multiset<Card>)
    requires after == before + dealt && next == had + share
    ensures after + next == (before + had) + (dealt + share)
  {
  }

  /** Dealing to everybody: the players gain exactly the dealt part of the
      deck, `n * k` cards, and still hold deck cards only. */
  lemma DealingHeld(before: seq<Holding>, deck: seq<Card>, n: int, k: nat, after: seq<Holding>)
    requires DealtTo(before, deck, n, k, after)
    ensures HeldAll(after) == HeldAll(before) + multiset(deck[..n * k])
    ensures Total(after) == Total(before) + n * k
    ensures AllHoldingValid(before) && AllValid(deck) ==> AllHoldingValid(after)
  {
    DealtHeld(before, deck, n, k, after, n);
    assert after[..n] == after && before[..n] == before;
    TotalIsHeld(before);
    TotalIsHeld(after);
    if AllHoldingValid(before) && AllValid(deck) {
      forall j | 0 <= j < n ensures HoldingValid(after[j]) {
        SliceOfValid(deck, n, k, j);
        AllValidAppend(before[j].hand, DealtSlice(deck, n, k, j));
      }
    }
  }

  /** A shuffled deck has the 52 cards of the standard one. */
  lemma ShuffledDeck(deck: seq<Card>)
    requires multiset(deck) == multiset(StandardDeck())
    ensures |deck| == 52 && AllValid(deck)
  {
    assert |deck| == |multiset(deck)| == |multiset(StandardDeck())| == |StandardDeck()|;
    forall j | 0 <= j < |deck| ensures ValidCard(deck[j]) {
      assert deck[j] in multiset(StandardDeck());
    }
  }

  /** The decimal digits of a natural number, as in the player names. */
  function DecimalString(n: nat): (s: string)
    ensures |s| >= 1
  {
    var digit := ['0', '1', '2', '3', '4', '5', '6', '7', '8', '9'][n % 10];
    if n < 10 then [digit] else DecimalString(n / 10) + [digit]
  }
}
