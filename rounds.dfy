/** One round of "War" as values. Players are named by their position among
    all the players of the game; `before`/`after` sequences say what every
    player holds. A table is played, its winners are found, and either one
    winner collects, nobody can, or the tied winners go to war: each plays
    a face-down card and the tied players play the round again on the
    enlarged field. A `Round` records every such layer. */
module Rounds {
  import opened Cards
  import opened Players
  import opened Holdings

  /** No entry occurs twice. */
  ghost predicate Unique<T>(xs: seq<T>) {
    forall i, j :: 0 <= i < j < |xs| ==> xs[i] != xs[j]
  }

  /** `xs` lists the entries of `all` at the positions `idx`, in order. */
  ghost predicate At<T>(all: seq<T>, idx: seq<int>, xs: seq<T>) {
    |idx| == |xs| && forall m :: 0 <= m < |idx| ==> 0 <= idx[m] < |all| && all[idx[m]] == xs[m]
  }

  // ---------------------------------------------------------------- winners

  /** The highest positive rank among `cs`, 0 when there is none. */
  function MaxRank(cs: seq<Card>): (m: int)
    ensures m >= 0
    ensures forall i :: 0 <= i < |cs| ==> cs[i].number <= m
    ensures m > 0 ==> exists i :: 0 <= i < |cs| && cs[i].number == m
  {
    if cs == [] then 0
    else
      var m := MaxRank(cs[..|cs| - 1]);
      if cs[|cs| - 1].number > m then cs[|cs| - 1].number else m
  }

  /** The entries of `xs` whose card in `cs` has rank `m`, in order. */
  function RankedAt<T>(xs: seq<T>, cs: seq<Card>, m: int): (r: seq<T>)
    requires |xs| == |cs|
  {
    if xs == [] then []
    else RankedAt(xs[..|xs| - 1], cs[..|cs| - 1], m) + (if cs[|cs| - 1].number == m then [xs[|xs| - 1]] else [])
  }

  /** The entries of `xs` tied at the highest positive rank of `cs`, in order. */
  function Winners<T>(xs: seq<T>, cs: seq<Card>): (r: seq<T>)
    requires |xs| == |cs|
  {
    var m := MaxRank(cs);
    if m == 0 then [] else RankedAt(xs, cs, m)
  }

  lemma {:induction false} RankedAtMembers<T>(xs: seq<T>, cs: seq<Card>, m: int)
    requires |xs| == |cs| && Unique(xs)
    ensures Unique(RankedAt(xs, cs, m))
    ensures forall x :: x in RankedAt(xs, cs, m) ==> x in xs
    ensures forall i :: 0 <= i < |xs| ==> (xs[i] in RankedAt(xs, cs, m) <==> cs[i].number == m)
  {
    if xs != [] {
      var n := |xs| - 1;
      var init, cinit := xs[..n], cs[..n];
      RankedAtMembers(init, cinit, m);
      var r := RankedAt(init, cinit, m);
      assert xs[n] !in r by {
        forall i | 0 <= i < n ensures init[i] != xs[n] {
          assert init[i] == xs[i];
        }
      }
      forall i | 0 <= i < n
        ensures xs[i] in RankedAt(xs, cs, m) <==> cs[i].number == m
      {
        assert init[i] == xs[i] && cinit[i] == cs[i];
      }
    }
  }

  /** Nobody shows a rank above every card of the table. */
  lemma {:induction false} RankedAtAbove<T>(xs: seq<T>, cs: seq<Card>, m: int)
    requires |xs| == |cs|
    requires forall i :: 0 <= i < |cs| ==> cs[i].number < m
    ensures RankedAt(xs, cs, m) == []
  {
    if xs != [] {
      RankedAtAbove(xs[..|xs| - 1], cs[..|cs| - 1], m);
    }
  }

  /** Ranking commutes with looking entries up by position. */
  lemma {:induction false} RankedAtAt<T>(all: seq<T>, idx: seq<int>, xs: seq<T>, cs: seq<Card>, m: int)
    requires At(all, idx, xs) && |xs| == |cs|
    ensures At(all, RankedAt(idx, cs, m), RankedAt(xs, cs, m))
  {
    if xs != [] {
      var n := |xs| - 1;
      assert At(all, idx[..n], xs[..n]);
      RankedAtAt(all, idx[..n], xs[..n], cs[..n], m);
    }
  }

  /** `find_winning_players` returns exactly the entries whose card is real
      and of the highest rank on the table, each once; it returns nobody
      exactly when no card of positive rank was played. */
  lemma WinnersAreTopPlayers<T>(xs: seq<T>, cs: seq<Card>)
    requires |xs| == |cs| && Unique(xs)
    ensures Unique(Winners(xs, cs))
    ensures forall x :: x in Winners(xs, cs) ==> x in xs
    ensures forall i :: 0 <= i < |xs| ==>
      (xs[i] in Winners(xs, cs) <==> cs[i].number > 0 && forall j :: 0 <= j < |cs| ==> cs[j].number <= cs[i].number)
    ensures Winners(xs, cs) == [] <==> forall i :: 0 <= i < |cs| ==> cs[i].number <= 0
  {
    var m := MaxRank(cs);
    RankedAtMembers(xs, cs, m);
    if m > 0 {
      var i :| 0 <= i < |cs| && cs[i].number == m;
      assert xs[i] in Winners(xs, cs);
    }
  }

  /** What a round needs of the winners of a table of deck cards and
      sentinels: they are distinct players of the table, and there are none
      exactly when no real card was played. */
  lemma WinnersOfTable<T>(xs: seq<T>, cs: seq<Card>)
    requires |xs| == |cs| && Unique(xs) && ValidTable(cs)
    ensures Unique(Winners(xs, cs))
    ensures forall x :: x in Winners(xs, cs) ==> x in xs
    ensures Winners(xs, cs) == [] <==> RealCards(cs) == []
  {
    WinnersAreTopPlayers(xs, cs);
    var w := Winners(xs, cs);
    if w == [] {
      forall i | 0 <= i < |cs| ensures cs[i] == NoCard {
        assert ValidOrNoCard(cs[i]);
      }
      RealCardsOfValid(cs);
    } else {
      var i :| 0 <= i < |cs| && cs[i].number > 0;
      RealCardsKeeps(cs, i);
    }
  }

  /** The winners found among the players are the players at the winning
      positions. */
  lemma WinnersAt<T>(all: seq<T>, idx: seq<int>, xs: seq<T>, cs: seq<Card>)
    requires At(all, idx, xs) && |xs| == |cs|
    ensures At(all, Winners(idx, cs), Winners(xs, cs))
  {
    var m := MaxRank(cs);
    if m != 0 {
      RankedAtAt(all, idx, xs, cs, m);
    }
  }

  // ------------------------------------------------------------------ plays

  /** The players at positions `idx` played `cs`, in that order, one card
      each, and nobody else changed. */
  ghost predicate Plays(before: seq<Holding>, idx: seq<int>, cs: seq<Card>, after: seq<Holding>) {
    |before| == |after| && |idx| == |cs| && Unique(idx) &&
    (forall m :: 0 <= m < |idx| ==> 0 <= idx[m] < |before| && PlayStep(before[idx[m]], cs[m], after[idx[m]])) &&
    (forall j :: 0 <= j < |before| && j !in idx ==> after[j] == before[j])
  }

  /** Plays keep every player holding deck cards only and put deck cards
      or sentinels on the table. */
  lemma PlaysValid(before: seq<Holding>, idx: seq<int>, cs: seq<Card>, after: seq<Holding>)
    requires Plays(before, idx, cs, after) && AllHoldingValid(before)
    ensures AllHoldingValid(after) && ValidTable(cs)
  {
    forall j | 0 <= j < |after| ensures HoldingValid(after[j]) {
      if j in idx {
        var m :| 0 <= m < |idx| && idx[m] == j;
        PlayStepAccounts(before[j], cs[m], after[j]);
      }
    }
    forall m | 0 <= m < |cs| ensures ValidOrNoCard(cs[m]) {
      PlayStepAccounts(before[idx[m]], cs[m], after[idx[m]]);
    }
  }

  /** Undoing the last play leaves the earlier plays. */
  lemma PlaysUndoLast(before: seq<Holding>, idx: seq<int>, cs: seq<Card>, after: seq<Holding>)
    requires Plays(before, idx, cs, after) && cs != []
    ensures Plays(before, idx[..|cs| - 1], cs[..|cs| - 1], after[idx[|cs| - 1] := before[idx[|cs| - 1]]])
  {
    var l := |cs| - 1;
    var idx', cs', mid := idx[..l], cs[..l], after[idx[l] := before[idx[l]]];
    forall m | 0 <= m < |idx'| ensures PlayStep(before[idx'[m]], cs'[m], mid[idx'[m]]) {
      assert idx[m] != idx[l];
    }
    forall j | 0 <= j < |before| && j !in idx' ensures mid[j] == before[j] {
      if j != idx[l] {
        assert j !in idx by {
          forall m | 0 <= m < |idx| ensures idx[m] != j {
            if m < l {
              assert idx'[m] == idx[m];
            }
          }
        }
      }
    }
  }

  /** The real cards of a played table are exactly what its players hold
      fewer between them. */
  lemma {:induction false} PlaysHeld(before: seq<Holding>, idx: seq<int>, cs: seq<Card>, after: seq<Holding>)
    requires Plays(before, idx, cs, after) && AllHoldingValid(before)
    ensures HeldAll(after) + multiset(RealCards(cs)) == HeldAll(before)
    decreases |cs|
  {
    if cs == [] {
      assert after == before;
    } else {
      var l := |cs| - 1;
      var j := idx[l];
      var mid := after[j := before[j]];
      assert HeldAll(mid) + multiset(RealCards(cs[..l])) == HeldAll(before) by {
        PlaysUndoLast(before, idx, cs, after);
        PlaysHeld(before, idx[..l], cs[..l], mid);
      }
      assert HeldAll(after) + HeldCards(before[j]) == HeldAll(mid) + HeldCards(after[j]) by {
        assert after == mid[j := after[j]];
        HeldAllUpdate(mid, j, after[j]);
      }
      PlayStepAccounts(before[j], cs[l], after[j]);
      RealCardsLast(cs);
      Unplay(HeldAll(after), HeldAll(mid), HeldAll(before), HeldCards(before[j]), HeldCards(after[j]),
             multiset(RealCards(cs[..l])), multiset(RealCards([cs[l]])));
    }
  }

  /** The bookkeeping step of `PlaysHeld`. */
  lemma Unplay(after: multiset<Card>, mid: multiset<Card>, before: multiset<Card>,
               had: multiset<Card>, has: multiset<Card>, earlier: multiset<Card>, last: multiset<Card>)
    requires mid + earlier == before
    requires after + had == mid + has
    requires had == has + last
    ensures after + (earlier + last) == before
  {
    forall c ensures (after + (earlier + last))[c] == before[c] {
      assert (mid + earlier)[c] == before[c];
      assert (after + had)[c] == (mid + has)[c];
      assert had[c] == (has + last)[c];
    }
  }

  /** The same plays, counted: the players hold as many cards fewer as
      there are real cards on the table. */
  lemma PlaysCount(before: seq<Holding>, idx: seq<int>, cs: seq<Card>, after: seq<Holding>)
    requires Plays(before, idx, cs, after) && AllHoldingValid(before)
    ensures Total(after) + |RealCards(cs)| == Total(before)
  {
    PlaysHeld(before, idx, cs, after);
    TotalIsHeld(before);
    TotalIsHeld(after);
  }

  /** A played table has no real card exactly when none of its players
      held anything. */
  lemma PlaysReal(before: seq<Holding>, idx: seq<int>, cs: seq<Card>, after: seq<Holding>)
    requires Plays(before, idx, cs, after) && AllHoldingValid(before)
    ensures RealCards(cs) == [] <==> forall m :: 0 <= m < |idx| ==> HoldingScore(before[idx[m]]) == 0
  {
    forall m | 0 <= m < |idx| ensures IsReal(cs[m]) <==> HoldingScore(before[idx[m]]) > 0 {
      PlayStepAccounts(before[idx[m]], cs[m], after[idx[m]]);
    }
    if RealCards(cs) == [] {
      forall m | 0 <= m < |cs| ensures !IsReal(cs[m]) {
        assert cs[m] in cs;
      }
    } else {
      var c := RealCards(cs)[0];
      assert c in RealCards(cs);
      var m :| 0 <= m < |cs| && cs[m] == c;
      assert HoldingScore(before[idx[m]]) > 0;
    }
  }

  // ------------------------------------------------------------------ award

  /** Player `w` adds `gained` to the back of their won pile; nobody else
      changes. */
  function Award(hs: seq<Holding>, w: int, gained: seq<Card>): (r: seq<Holding>)
    requires 0 <= w < |hs|
    ensures |r| == |hs|
  {
    hs[w := Holding(hs[w].hand, hs[w].won + gained)]
  }

  /** An award adds exactly the cards gained, and deck cards keep everybody
      holding deck cards only. */
  lemma AwardHeld(hs: seq<Holding>, w: int, gained: seq<Card>)
    requires 0 <= w < |hs|
    ensures HeldAll(Award(hs, w, gained)) == HeldAll(hs) + multiset(gained)
    ensures Total(Award(hs, w, gained)) == Total(hs) + |gained|
    ensures AllHoldingValid(hs) && AllValid(gained) ==> AllHoldingValid(Award(hs, w, gained))
  {
    AwardGains(hs, w, gained);
    TotalUpdate(hs, w, Holding(hs[w].hand, hs[w].won + gained));
    if AllHoldingValid(hs) && AllValid(gained) {
      AwardValid(hs, w, gained);
    }
  }

  /** The cards held after an award: those held before and those gained. */
  lemma AwardGains(hs: seq<Holding>, w: int, gained: seq<Card>)
    requires 0 <= w < |hs|
    ensures HeldAll(Award(hs, w, gained)) == HeldAll(hs) + multiset(gained)
  {
    var h := Holding(hs[w].hand, hs[w].won + gained);
    HeldAllUpdate(hs, w, h);
    assert HeldCards(h) == HeldCards(hs[w]) + multiset(gained);
    Cancel(HeldAll(hs[w := h]), HeldAll(hs), HeldCards(hs[w]), multiset(gained));
  }

  /** Awarding deck cards keeps everybody holding deck cards only. */
  lemma AwardValid(hs: seq<Holding>, w: int, gained: seq<Card>)
    requires 0 <= w < |hs| && AllHoldingValid(hs) && AllValid(gained)
    ensures AllHoldingValid(Award(hs, w, gained))
  {
    AllValidAppend(hs[w].won, gained);
  }

  /** The bookkeeping step of `AwardGains`. */
  lemma Cancel(after: multiset<Card>, before: multiset<Card>, had: multiset<Card>, gained: multiset<Card>)
    requires after + had == before + (had + gained)
    ensures after == before + gained
  {
    forall c ensures after[c] == (before + gained)[c] {
      assert (after + had)[c] == (before + (had + gained))[c];
    }
  }

  // ------------------------------------------------------------------ round

  /** A round as it was played, layer by layer. Each layer records the
      positions that played, the table they put down and what everybody held
      afterwards. A `War` layer also records the face-down cards of the tied
      players and what everybody held after those, then the next layer,
      played by the tied players. */
  datatype Round =
    | Settled(idx: seq<int>, table: seq<Card>, played: seq<Holding>, winner: int)
    | Failed(idx: seq<int>, table: seq<Card>, played: seq<Holding>)
    | War(idx: seq<int>, table: seq<Card>, played: seq<Holding>,
          faceDown: seq<Card>, down: seq<Holding>, next: Round)

  /** How many tables a round took: one, plus one per war. */
  function Layers(r: Round): (n: nat)
    ensures n >= 1
  {
    match r
    case War(_, _, _, _, _, next) => 1 + Layers(next)
    case _ => 1
  }

  /** The layer that ended the round. */
  function Last(r: Round): (l: Round)
    ensures !l.War?
  {
    match r
    case War(_, _, _, _, _, next) => Last(next)
    case _ => r
  }

  /** `playRound(ps, field)` played as `r`: the players at positions `idx`
      start from `before` with `field` on the table and leave everybody
      holding `after`, the table holding `fieldAfter`, and report whether
      someone collected. One winner collects the table and the field; no
      winner (no real card played) ends the round with nobody collecting;
      several tied winners each add a face-down card to the field and play
      again among themselves. */
  ghost predicate RoundOf(before: seq<Holding>, idx: seq<int>, field: seq<Card>, r: Round,
                          after: seq<Holding>, fieldAfter: seq<Card>, resolved: bool)
    decreases r
  {
    match r
    case Settled(seats, table, played, w) =>
      seats == idx && Plays(before, idx, table, played) &&
      Winners(idx, table) == [w] && 0 <= w < |played| && resolved && fieldAfter == field &&
      after == Award(played, w, RealCards(table) + RealCards(field))
    case Failed(seats, table, played) =>
      seats == idx && Plays(before, idx, table, played) &&
      Winners(idx, table) == [] && !resolved && fieldAfter == field && after == played
    case War(seats, table, played, faceDown, down, next) =>
      seats == idx && Plays(before, idx, table, played) &&
      |Winners(idx, table)| > 1 && Plays(played, Winners(idx, table), faceDown, down) &&
      RoundOf(down, Winners(idx, table), field + table + faceDown, next, after, fieldAfter, resolved)
  }
  /** A table with one top card makes a settled round. */
  lemma SettledRound(before: seq<Holding>, idx: seq<int>, field: seq<Card>, table: seq<Card>,
                     played: seq<Holding>, w: int, after: seq<Holding>)
    requires Plays(before, idx, table, played) && Winners(idx, table) == [w] && 0 <= w < |played|
    requires after == Award(played, w, RealCards(table) + RealCards(field))
    ensures RoundOf(before, idx, field, Settled(idx, table, played, w), after, field, true)
  {
  }

  /** A table without a real card makes a failed round. */
  lemma FailedRound(before: seq<Holding>, idx: seq<int>, field: seq<Card>, table: seq<Card>, played: seq<Holding>)
    requires Plays(before, idx, table, played) && Winners(idx, table) == []
    ensures RoundOf(before, idx, field, Failed(idx, table, played), played, field, false)
  {
  }

  /** A tie, the face-down cards and the round the tied players play next
      make a war. */
  lemma WarRound(before: seq<Holding>, idx: seq<int>, field: seq<Card>, table: seq<Card>, played: seq<Holding>,
                 faceDown: seq<Card>, down: seq<Holding>, next: Round,
                 after: seq<Holding>, fieldAfter: seq<Card>, resolved: bool)
    requires Plays(before, idx, table, played) && |Winners(idx, table)| > 1
    requires Plays(played, Winners(idx, table), faceDown, down)
    requires RoundOf(down, Winners(idx, table), field + table + faceDown, next, after, fieldAfter, resolved)
    ensures RoundOf(before, idx, field, War(idx, table, played, faceDown, down, next), after, fieldAfter, resolved)
  {
  }


  /** A round keeps everybody holding deck cards only and the table holding
      deck cards and sentinels. */
  lemma {:induction false} RoundValid(before: seq<Holding>, idx: seq<int>, field: seq<Card>, r: Round,
                                      after: seq<Holding>, fieldAfter: seq<Card>, resolved: bool)
    requires RoundOf(before, idx, field, r, after, fieldAfter, resolved)
    requires AllHoldingValid(before) && ValidTable(field)
    ensures AllHoldingValid(after) && ValidTable(fieldAfter)
    decreases r
  {
    PlaysValid(before, idx, r.table, r.played);
    match r
    case Settled(_, table, played, w) =>
      RealCardsOfTable(table);
      RealCardsOfTable(field);
      AllValidAppend(RealCards(table), RealCards(field));
      AwardHeld(played, w, RealCards(table) + RealCards(field));
    case Failed(_, _, _) =>
    case War(_, table, played, faceDown, down, next) =>
      var ws := Winners(idx, table);
      PlaysValid(played, ws, faceDown, down);
      ValidTableAppend(field, table);
      ValidTableAppend(field + table, faceDown);
      RoundValid(down, ws, field + table + faceDown, next, after, fieldAfter, resolved);
  }

  /** Cards are neither created nor lost in a round: what the players held
      and the field's real cards end up with the players, except for the
      real cards left on the field when nobody could collect. */
  lemma {:induction false} RoundHeld(before: seq<Holding>, idx: seq<int>, field: seq<Card>, r: Round,
                                     after: seq<Holding>, fieldAfter: seq<Card>, resolved: bool)
    requires RoundOf(before, idx, field, r, after, fieldAfter, resolved)
    requires AllHoldingValid(before) && ValidTable(field)
    ensures resolved ==> HeldAll(after) == HeldAll(before) + multiset(RealCards(field))
    ensures !resolved ==>
      HeldAll(after) + multiset(RealCards(fieldAfter)) == HeldAll(before) + multiset(RealCards(field))
    decreases r
  {
    match r
    case Settled(_, table, played, w) =>
      SettledHeld(before, idx, table, played, w, field, after);
    case Failed(_, table, played) =>
      PlaysHeld(before, idx, table, played);
      PlaysValid(before, idx, table, played);
      WinnersOfTable(idx, table);
    case War(_, table, played, faceDown, down, next) =>
      WarHeld(before, idx, table, played, faceDown, down, field);
      RoundHeld(down, Winners(idx, table), field + table + faceDown, next, after, fieldAfter, resolved);
  }

  /** `RoundHeld` for a layer with a single winner. */
  lemma SettledHeld(before: seq<Holding>, idx: seq<int>, table: seq<Card>, played: seq<Holding>,
                    w: int, field: seq<Card>, after: seq<Holding>)
    requires Plays(before, idx, table, played) && AllHoldingValid(before)
    requires 0 <= w < |played| && after == Award(played, w, RealCards(table) + RealCards(field))
    ensures HeldAll(after) == HeldAll(before) + multiset(RealCards(field))
  {
    PlaysHeld(before, idx, table, played);
    AwardHeld(played, w, RealCards(table) + RealCards(field));
  }

  /** `RoundHeld` for the two plays of a war: the field grows by the table
      and the face-down cards exactly as the players' holdings shrink. */
  lemma WarHeld(before: seq<Holding>, idx: seq<int>, table: seq<Card>, played: seq<Holding>,
                faceDown: seq<Card>, down: seq<Holding>, field: seq<Card>)
    requires Plays(before, idx, table, played) && |idx| == |table|
    requires Plays(played, Winners(idx, table), faceDown, down)
    requires AllHoldingValid(before) && ValidTable(field)
    ensures AllHoldingValid(down) && ValidTable(field + table + faceDown)
    ensures HeldAll(down) + multiset(RealCards(field + table + faceDown)) == HeldAll(before) + multiset(RealCards(field))
  {
    var ws := Winners(idx, table);
    PlaysHeld(before, idx, table, played);
    PlaysValid(before, idx, table, played);
    PlaysHeld(played, ws, faceDown, down);
    PlaysValid(played, ws, faceDown, down);
    ValidTableAppend(field, table);
    ValidTableAppend(field + table, faceDown);
    RealCardsAppend(field, table);
    RealCardsAppend(field + table, faceDown);
    WarStep(HeldAll(before), HeldAll(played), HeldAll(down), multiset(RealCards(field)),
            multiset(RealCards(table)), multiset(RealCards(faceDown)));
  }

  /** The bookkeeping step of `WarHeld`. */
  lemma WarStep(before: multiset<Card>, played: multiset<Card>, down: multiset<Card>,
                field: multiset<Card>, table: multiset<Card>, faceDown: multiset<Card>)
    requires played + table == before && down + faceDown == played
    ensures down + (field + table + faceDown) == before + field
  {
  }

  /** The same conservation, counted. */
  lemma RoundCount(before: seq<Holding>, idx: seq<int>, field: seq<Card>, r: Round,
                   after: seq<Holding>, fieldAfter: seq<Card>, resolved: bool)
    requires RoundOf(before, idx, field, r, after, fieldAfter, resolved)
    requires AllHoldingValid(before) && ValidTable(field)
    ensures resolved ==> Total(after) == Total(before) + |RealCards(field)|
    ensures !resolved ==> Total(after) + |RealCards(fieldAfter)| == Total(before) + |RealCards(field)|
  {
    RoundHeld(before, idx, field, r, after, fieldAfter, resolved);
    TotalIsHeld(before);
    TotalIsHeld(after);
    var left := if resolved then [] else RealCards(fieldAfter);
    SameSize(HeldAll(after), multiset(left), HeldAll(before), multiset(RealCards(field)));
  }

  /** Equal collections have equal sizes, counted part by part. */
  lemma SameSize(a: multiset<Card>, x: multiset<Card>, b: multiset<Card>, y: multiset<Card>)
    requires a + x == b + y
    ensures |a| + |x| == |b| + |y|
  {
    assert |a + x| == |b + y|;
  }

  /** The field only grows during a round: every war appends to it. */
  lemma {:induction false} RoundField(before: seq<Holding>, idx: seq<int>, field: seq<Card>, r: Round,
                                      after: seq<Holding>, fieldAfter: seq<Card>, resolved: bool)
    requires RoundOf(before, idx, field, r, after, fieldAfter, resolved)
    ensures field <= fieldAfter
    ensures r.War? ==> field + r.table + r.faceDown <= fieldAfter
    decreases r
  {
    match r
    case Settled(_, _, _, _) =>
    case Failed(_, _, _) =>
    case War(_, table, _, faceDown, down, next) =>
      var extended := field + table + faceDown;
      RoundField(down, Winners(idx, table), extended, next, after, fieldAfter, resolved);
      assert field <= extended;
  }

  /** Players who do not take part in a round end it holding what they held
      before it. */
  lemma {:induction false} RoundOutside(before: seq<Holding>, idx: seq<int>, field: seq<Card>, r: Round,
                                        after: seq<Holding>, fieldAfter: seq<Card>, resolved: bool)
    requires RoundOf(before, idx, field, r, after, fieldAfter, resolved)
    ensures |after| == |before|
    ensures forall j :: 0 <= j < |before| && j !in idx ==> after[j] == before[j]
    decreases r
  {
    match r
    case Settled(_, table, played, w) =>
      assert w in Winners(idx, table);
      RankedAtMembers(idx, table, MaxRank(table));
    case Failed(_, _, _) =>
    case War(_, table, played, faceDown, down, next) =>
      var ws := Winners(idx, table);
      RankedAtMembers(idx, table, MaxRank(table));
      RoundOutside(down, ws, field + table + faceDown, next, after, fieldAfter, resolved);
  }

  /** How a round ends. It ends with someone collecting exactly when its
      last table holds a real card; then that table had a single winner, a
      player of the round, who adds the last table's real cards and those
      of the whole field to their won pile while everybody else keeps what
      they held after the last table. */
  lemma {:induction false} RoundEnd(before: seq<Holding>, idx: seq<int>, field: seq<Card>, r: Round,
                                    after: seq<Holding>, fieldAfter: seq<Card>, resolved: bool)
    requires RoundOf(before, idx, field, r, after, fieldAfter, resolved)
    requires AllHoldingValid(before)
    ensures |Last(r).idx| == |Last(r).table|
    ensures resolved <==> Last(r).Settled?
    ensures resolved <==> RealCards(Last(r).table) != []
    ensures resolved ==>
      Winners(Last(r).idx, Last(r).table) == [Last(r).winner] && Last(r).winner in idx &&
      0 <= Last(r).winner < |Last(r).played| &&
      after == Award(Last(r).played, Last(r).winner, RealCards(Last(r).table) + RealCards(fieldAfter))
    decreases r
  {
    PlaysValid(before, idx, r.table, r.played);
    RankedAtMembers(idx, r.table, MaxRank(r.table));
    match r
    case Settled(_, table, played, w) =>
      WinnersOfTable(idx, table);
      assert w in Winners(idx, table);
    case Failed(_, table, played) =>
      WinnersOfTable(idx, table);
    case War(_, table, played, faceDown, down, next) =>
      var ws := Winners(idx, table);
      PlaysValid(played, ws, faceDown, down);
      RoundEnd(down, ws, field + table + faceDown, next, after, fieldAfter, resolved);
  }

  /** Every war takes at least one card from the players, so a round has at
      most one layer more than the cards the players hold. */
  lemma {:induction false} RoundLayers(before: seq<Holding>, idx: seq<int>, field: seq<Card>, r: Round,
                                       after: seq<Holding>, fieldAfter: seq<Card>, resolved: bool)
    requires RoundOf(before, idx, field, r, after, fieldAfter, resolved)
    requires AllHoldingValid(before)
    ensures r.War? ==> Total(r.down) < Total(before)
    ensures Layers(r) <= Total(before) + 1
    decreases r
  {
    PlaysValid(before, idx, r.table, r.played);
    PlaysCount(before, idx, r.table, r.played);
    match r
    case Settled(_, _, _, _) =>
    case Failed(_, _, _) =>
    case War(_, table, played, faceDown, down, next) =>
      var ws := Winners(idx, table);
      WinnersOfTable(idx, table);
      PlaysCount(played, ws, faceDown, down);
      PlaysValid(played, ws, faceDown, down);
      RoundLayers(down, ws, field + table + faceDown, next, after, fieldAfter, resolved);
  }

  // --------------------------------------------------------------- failures

  /** Players who hold nothing cannot end a round: they all put down the
      sentinel, there is no winner, and the lookup of the first winner
      fails before any war. */
  lemma NothingHeldFails(before: seq<Holding>, idx: seq<int>, field: seq<Card>, r: Round,
                         after: seq<Holding>, fieldAfter: seq<Card>, resolved: bool)
    requires RoundOf(before, idx, field, r, after, fieldAfter, resolved)
    requires AllHoldingValid(before)
    requires forall m :: 0 <= m < |idx| ==> HoldingScore(before[idx[m]]) == 0
    ensures r.Failed? && !resolved && fieldAfter == field
  {
    PlaysValid(before, idx, r.table, r.played);
    PlaysReal(before, idx, r.table, r.played);
    WinnersOfTable(idx, r.table);
  }

  /** A round on an empty field, as every round of the game loop is: when
      someone collects, the players end up holding exactly as many cards as
      before; when nobody holds a card, nobody collects. */
  lemma EmptyFieldRound(before: seq<Holding>, idx: seq<int>, r: Round,
                        after: seq<Holding>, fieldAfter: seq<Card>, resolved: bool)
    requires RoundOf(before, idx, [], r, after, fieldAfter, resolved)
    requires AllHoldingValid(before)
    ensures resolved ==> Total(after) == Total(before)
    ensures Total(before) == 0 ==> !resolved
  {
    RoundCount(before, idx, [], r, after, fieldAfter, resolved);
    if Total(before) == 0 {
      PlaysValid(before, idx, r.table, r.played);
      forall m | 0 <= m < |idx| ensures HoldingScore(before[idx[m]]) == 0 {
        TotalBounds(before, idx[m]);
      }
      NothingHeldFails(before, idx, [], r, after, fieldAfter, resolved);
    }
  }

  /** A war whose tied players have no card left after the tie: their
      face-down cards and their next table are sentinels, the next table
      has no winner, and the round fails with the real cards of the tie
      left on the field. */
  lemma ExhaustedWarFails(before: seq<Holding>, idx: seq<int>, field: seq<Card>, r: Round,
                          after: seq<Holding>, fieldAfter: seq<Card>, resolved: bool)
    requires RoundOf(before, idx, field, r, after, fieldAfter, resolved)
    requires AllHoldingValid(before) && r.War?
    requires forall m :: 0 <= m < |Winners(idx, r.table)| ==>
      HoldingScore(r.played[Winners(idx, r.table)[m]]) == 0
    ensures r.next.Failed? && !resolved
    ensures fieldAfter == field + r.table + r.faceDown && RealCards(r.table) != []
  {
    var ws := Winners(idx, r.table);
    PlaysValid(before, idx, r.table, r.played);
    PlaysValid(r.played, ws, r.faceDown, r.down);
    WinnersOfTable(idx, r.table);
    forall m | 0 <= m < |ws| ensures HoldingScore(r.down[ws[m]]) == 0 {
      PlayStepAccounts(r.played[ws[m]], r.faceDown[m], r.down[ws[m]]);
    }
    NothingHeldFails(r.down, ws, field + r.table + r.faceDown, r.next, after, fieldAfter, resolved);
  }

  /** Such a war happens: two players hold one card each, of the same rank,
      and both win the table; they are then out of cards, put down
      sentinels face down, and the next table has no winner. */
  lemma TieWithEmptyHands(c: Card, d: Card)
    requires ValidCard(c) && ValidCard(d) && c.number == d.number
    ensures Plays([Holding([c], []), Holding([d], [])], [0, 1], [c, d], [Holding([], []), Holding([], [])])
    ensures Winners([0, 1], [c, d]) == [0, 1]
    ensures Plays([Holding([], []), Holding([], [])], [0, 1], [NoCard, NoCard], [Holding([], []), Holding([], [])])
    ensures Winners([0, 1], [NoCard, NoCard]) == []
    ensures RealCards([c, d, NoCard, NoCard]) == [c, d]
  {
    OneCardEach(c, d);
    NothingEach();
    TiedPair(c, d);
    TiedPair(NoCard, NoCard);
    RealOfTie(c, d);
  }

  /** Two players holding one card each play exactly those cards. */
  lemma OneCardEach(c: Card, d: Card)
    requires ValidCard(c) && ValidCard(d)
    ensures Plays([Holding([c], []), Holding([d], [])], [0, 1], [c, d], [Holding([], []), Holding([], [])])
  {
    assert [c][1..] == [] && [d][1..] == [];
  }

  /** Two players holding nothing play sentinels and stay as they are. */
  lemma NothingEach()
    ensures Plays([Holding([], []), Holding([], [])], [0, 1], [NoCard, NoCard], [Holding([], []), Holding([], [])])
  {
    var empty := Holding([], []);
    assert PlayStep(empty, NoCard, empty);
  }

  /** The real cards of two deck cards followed by two sentinels. */
  lemma RealOfTie(c: Card, d: Card)
    requires ValidCard(c) && ValidCard(d)
    ensures RealCards([c, d, NoCard, NoCard]) == [c, d]
  {
    assert [c, d] + [NoCard, NoCard] == [c, d, NoCard, NoCard];
    RealCardsAppend([c, d], [NoCard, NoCard]);
    RealCardsOfValid([c, d]);
    RealCardsOfValid([NoCard, NoCard]);
  }

  /** Two cards of the same rank: both positions win when the rank is
      positive, and nobody does when both are sentinels. */
  lemma TiedPair(c: Card, d: Card)
    requires c.number == d.number && c.number >= 0
    ensures Winners([0, 1], [c, d]) == if c.number > 0 then [0, 1] else []
  {
    assert [c, d][..1] == [c] && [0, 1][..1] == [0] && [c][..0] == [] && [0][..0] == [];
    assert MaxRank([c]) == c.number;
    assert RankedAt([0], [c], c.number) == [0];
  }
}
