/** What all the players hold, as values: one `Holding` per player, in
    player order. Counting the cards held, collecting them, and changing
    what one player holds. */
module Holdings {
  import opened Cards
  import opened Players

  /** Everybody holds deck cards only. */
  ghost predicate AllHoldingValid(hs: seq<Holding>) {
    forall i :: 0 <= i < |hs| ==> HoldingValid(hs[i])
  }

  /** How many cards are held, in hands and won piles: the sum of the scores. */
  function Total(hs: seq<Holding>): (n: nat) {
    if hs == [] then 0 else Total(hs[..|hs| - 1]) + HoldingScore(hs[|hs| - 1])
  }

  /** All cards held, in hands and won piles. */
  ghost function HeldAll(hs: seq<Holding>): (cards: multiset<Card>) {
    if hs == [] then multiset{} else HeldAll(hs[..|hs| - 1]) + HeldCards(hs[|hs| - 1])
  }

  /** The count is the size of the collection of cards held. */
  lemma {:induction false} TotalIsHeld(hs: seq<Holding>)
    ensures |HeldAll(hs)| == Total(hs)
  {
    if hs != [] {
      TotalIsHeld(hs[..|hs| - 1]);
      ScoreCountsCards(hs[|hs| - 1]);
    }
  }

  /** What the first `m` players hold: what the first `m - 1` hold and
      what player `m - 1` holds. */
  lemma HeldAllPrefix(hs: seq<Holding>, m: int)
    requires 0 < m <= |hs|
    ensures HeldAll(hs[..m]) == HeldAll(hs[..m - 1]) + HeldCards(hs[m - 1])
  {
    assert hs[..m][..m - 1] == hs[..m - 1];
  }

  /** Nobody holds more than all of them together. */
  lemma {:induction false} TotalBounds(hs: seq<Holding>, i: int)
    requires 0 <= i < |hs|
    ensures HoldingScore(hs[i]) <= Total(hs)
  {
    var n := |hs| - 1;
    if i < n {
      TotalBounds(hs[..n], i);
    }
  }

  /** Players who hold nothing hold no card between them. */
  lemma {:induction false} TotalNothing(hs: seq<Holding>)
    requires forall i :: 0 <= i < |hs| ==> hs[i] == Holding([], [])
    ensures Total(hs) == 0 && HeldAll(hs) == multiset{}
  {
    if hs != [] {
      TotalNothing(hs[..|hs| - 1]);
    }
  }

  /** Changing what one player holds changes the count by exactly that
      player's difference. */
  lemma {:induction false} TotalUpdate(hs: seq<Holding>, k: int, h: Holding)
    requires 0 <= k < |hs|
    ensures Total(hs[k := h]) + HoldingScore(hs[k]) == Total(hs) + HoldingScore(h)
  {
    var n := |hs| - 1;
    var updated := hs[k := h];
    if k < n {
      assert updated[..n] == hs[..n][k := h];
      TotalUpdate(hs[..n], k, h);
    } else {
      assert updated[..n] == hs[..n] && updated[n] == h;
    }
  }

  /** Changing what one player holds changes the cards held by exactly
      what that player gave up and took. */
  lemma {:induction false} HeldAllUpdate(hs: seq<Holding>, k: int, h: Holding)
    requires 0 <= k < |hs|
    ensures HeldAll(hs[k := h]) + HeldCards(hs[k]) == HeldAll(hs) + HeldCards(h)
  {
    var n := |hs| - 1;
    var updated := hs[k := h];
    if k < n {
      assert updated[..n] == hs[..n][k := h] && updated[n] == hs[n];
      HeldAllUpdate(hs[..n], k, h);
      Rearrange(HeldAll(updated[..n]), HeldAll(hs[..n]), HeldCards(hs[n]), HeldCards(hs[k]), HeldCards(h));
    } else {
      assert updated[..n] == hs[..n] && updated[n] == h;
    }
  }

  /** The bookkeeping step of `HeldAllUpdate`: adding the untouched last
      player's cards to both sides keeps them equal. */
  lemma Rearrange(a: multiset<Card>, b: multiset<Card>, last: multiset<Card>, out: multiset<Card>, inc: multiset<Card>)
    requires a + out == b + inc
    ensures a + last + out == b + last + inc
  {
    forall c ensures (a + last + out)[c] == (b + last + inc)[c] {
      assert (a + out)[c] == (b + inc)[c];
    }
  }
}
