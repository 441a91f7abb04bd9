/** The round engine of "War" (`cardsWar`): dealing, one round with its
    recursive tie-break ("war"), awarding, the scoreboard and the win check.
    What the players hold and how a round changes it is stated with the
    values of the modules `Holdings`, `Dealing` and `Rounds`. */
module Game {
  import opened Cards
  import opened Players
  import opened Holdings
  import opened Dealing
  import opened Rounds

  datatype Option<T> = None | Some(value: T)

  /** One scoreboard row: the round number, each player's score in player
      order (the columns "Player 1", "Player 2", ...) and the "Total" column. */
  datatype Row = Row(round: int, scores: seq<nat>, total: int)

  /** How the top-level game loop stops: somebody holds the whole deck, a
      round ended with nobody able to collect (the first winner of an empty
      list of winners is asked for), or the bound on rounds given to the
      model ran out. */
  datatype GameOutcome = Won | Crashed | OutOfRounds

  /** `seat` tells where each player of `ps` sits: it inverts `ps`. */
  ghost predicate Seated(ps: seq<Player>, seat: map<Player, int>) {
    forall i :: 0 <= i < |ps| ==> ps[i] in seat && seat[ps[i]] == i
  }

  /** Players with a seat each are pairwise different. */
  lemma SeatedUnique(ps: seq<Player>, seat: map<Player, int>)
    requires Seated(ps, seat)
    ensures Unique(ps)
  {
    forall i, j | 0 <= i < j < |ps| ensures ps[i] != ps[j] {
      assert seat[ps[i]] == i && seat[ps[j]] == j;
    }
  }

  /** The players at different positions of pairwise different players are
      different. */
  lemma AtUnique(players: seq<Player>, idx: seq<int>, ps: seq<Player>)
    requires Unique(players) && At(players, idx, ps) && Unique(idx)
    ensures Unique(ps)
  {
    forall i, j | 0 <= i < j < |ps| ensures ps[i] != ps[j] {
      assert ps[i] == players[idx[i]] && ps[j] == players[idx[j]];
    }
  }

  /** Every position of `n` players, in order. */
  function Positions(n: nat): (idx: seq<int>)
    ensures |idx| == n && forall m :: 0 <= m < n ==> idx[m] == m
  {
    seq(n, m => m)
  }

  /** What each player of `ps` holds, in player order. */
  function States(ps: seq<Player>): (hs: seq<Holding>)
    reads ps
    ensures |hs| == |ps| && forall i :: 0 <= i < |ps| ==> hs[i] == ps[i].State()
  {
    seq(|ps|, i reads ps requires 0 <= i < |ps| => ps[i].State())
  }

  /** Each player's score, in player order. */
  function Scores(hs: seq<Holding>): (s: seq<nat>)
    ensures |s| == |hs| && forall i :: 0 <= i < |hs| ==> s[i] == HoldingScore(hs[i])
  {
    if hs == [] then [] else Scores(hs[..|hs| - 1]) + [HoldingScore(hs[|hs| - 1])]
  }

  function Sum(xs: seq<nat>): (n: nat) {
    if xs == [] then 0 else Sum(xs[..|xs| - 1]) + xs[|xs| - 1]
  }

  /** The sum of the players' scores is the number of cards they hold. */
  lemma {:induction false} ScoresTotal(hs: seq<Holding>)
    ensures Sum(Scores(hs)) == Total(hs)
  {
    if hs != [] {
      var n := |hs| - 1;
      ScoresTotal(hs[..n]);
    }
  }

  /** The scoreboard row for round `n` when the players hold `hs`: each
      player's score, and the number of cards held in the "Total" column,
      which is the sum of the scores. */
  function RowOf(n: int, hs: seq<Holding>): (row: Row)
    ensures row.round == n && |row.scores| == |hs|
    ensures forall i :: 0 <= i < |hs| ==> row.scores[i] == HoldingScore(hs[i])
    ensures row.total == Sum(row.scores)
  {
    ScoresTotal(hs);
    Row(n, Scores(hs), Total(hs))
  }

  /** `board` is `before` with the row for round `n` appended, and `latest`
      is that row. */
  ghost predicate Recorded(before: seq<Row>, board: seq<Row>, latest: Option<Row>, n: int, hs: seq<Holding>) {
    board == before + [RowOf(n, hs)] && latest == Some(RowOf(n, hs))
  }

  /** Recording a row for players who hold `dealt` cards keeps every row's
      total at `dealt`, and the first row stays first. */
  lemma RecordedTotals(before: seq<Row>, board: seq<Row>, latest: Option<Row>, n: int, hs: seq<Holding>, dealt: int)
    requires Recorded(before, board, latest, n, hs) && Total(hs) == dealt
    requires forall k :: 0 <= k < |before| ==> before[k].total == dealt
    ensures |board| == |before| + 1 && board[|before|].round == n
    ensures before != [] ==> board[0] == before[0]
    ensures forall k :: 0 <= k < |board| ==> board[k].total == dealt
  {
  }

  /** The round engine: the players, the round counter and the scoreboard. */
  class CardsWar {
    const players: seq<Player>
    /** Where each player sits in `players`. */
    ghost const seat: map<Player, int>
    var round: int
    var scoreboard: seq<Row>
    var latestResults: Option<Row>

    /** Players who sit at one place each, each holding deck cards only. */
    ghost predicate Valid()
      reads players
    {
      |players| >= 2 && Seated(players, seat) && AllHoldingValid(States(players))
    }

    /** The players of a round, `ps`, are distinct players of this game,
        sitting at the positions `idx`. */
    ghost predicate Active(ps: seq<Player>, idx: seq<int>) {
      At(players, idx, ps) && Unique(idx)
    }

    /** How many cards the players hold between them. */
    function TotalScore(): (n: nat)
      reads players
    {
      Total(States(players))
    }

    /** The constructor past its check: players "Player 1" .. "Player n",
        each holding nothing, round 0 and an empty scoreboard. */
    constructor (playersCount: int)
      requires ValidPlayerCount(playersCount)
      ensures Valid()
      ensures |players| == playersCount && round == 0 && scoreboard == [] && latestResults == None
      ensures forall i :: 0 <= i < |players| ==>
        fresh(players[i]) && players[i].name == "Player " + DecimalString(i + 1) &&
        players[i].hand == [] && players[i].wonCards == []
    {
      var ps: seq<Player> := [];
      ghost var seats: map<Player, int> := map[];
      for i := 0 to playersCount
        invariant |ps| == i && Seated(ps, seats)
        invariant forall k :: 0 <= k < i ==>
          fresh(ps[k]) && ps[k].name == "Player " + DecimalString(k + 1) &&
          ps[k].hand == [] && ps[k].wonCards == []
      {
        var p := new Player("Player " + DecimalString(i + 1));
        ps := ps + [p];
        seats := seats[p := i];
      }
      players := ps;
      seat := seats;
      round := 0;
      scoreboard := [];
      latestResults := None;
    }

    /** `cardsWar(playersCount)` with its check: no game (the assertion
        fails) unless the count is at least 2 and divides 56. */
    static method New(playersCount: int) returns (g: CardsWar?)
      ensures g == null <==> !ValidPlayerCount(playersCount)
      ensures g != null ==>
        fresh(g) && g.Valid() && |g.players| == playersCount &&
        g.round == 0 && g.scoreboard == [] && g.latestResults == None &&
        forall i :: 0 <= i < |g.players| ==>
          fresh(g.players[i]) && g.players[i].name == "Player " + DecimalString(i + 1) &&
          g.players[i].hand == [] && g.players[i].wonCards == []
    {
      if !ValidPlayerCount(playersCount) {
        return null;
      }
      g := new CardsWar(playersCount);
    }

    /** A fresh 52-card deck in some order. */
    method CreateShuffleDeck() returns (deck: seq<Card>)
      ensures multiset(deck) == multiset(StandardDeck())
      ensures |deck| == 52 && AllValid(deck)
    {
      var ordered := StandardDeck();
      deck :| multiset(deck) == multiset(ordered);
      ShuffledDeck(deck);
    }

    /** `distributeCards`: shuffle a fresh deck and deal it. `deck` is the
        shuffled deck the cards were dealt from; the players gain exactly
        its first `|players| * (52 / |players|)` cards. */
    method DistributeCards() returns (ghost deck: seq<Card>)
      requires Valid()
      modifies players
      ensures Valid()
      ensures multiset(deck) == multiset(StandardDeck()) && |deck| == 52
      ensures DealtTo(old(States(players)), deck, |players|, CardsPerPlayer(|players|), States(players))
      ensures HeldAll(States(players)) ==
        HeldAll(old(States(players))) + multiset(deck[..|players| * CardsPerPlayer(|players|)])
      ensures TotalScore() == old(TotalScore()) + |players| * CardsPerPlayer(|players|)
    {
      var shuffled := CreateShuffleDeck();
      deck := shuffled;
      DealCards(shuffled);
      DealingHeld(old(States(players)), deck, |players|, CardsPerPlayer(|players|), States(players));
    }

    /** The dealing loop: player `i` gets the `i`-th run of `52 / n` cards
        at the back of their hand; the remaining cards are not dealt. */
    method DealCards(deck: seq<Card>)
      requires Valid() && |deck| == 52 && AllValid(deck)
      modifies players
      ensures Valid()
      ensures DealtTo(old(States(players)), deck, |players|, CardsPerPlayer(|players|), States(players))
    {
      var n := |players|;
      var k := CardsPerPlayer(n);
      DealtFits(n);
      for i := 0 to n
        invariant forall j :: 0 <= j < i ==>
          players[j].hand == old(players[j].hand) + DealtSlice(deck, n, k, j) &&
          players[j].wonCards == old(players[j].wonCards)
        invariant forall j :: i <= j < n ==> players[j].State() == old(players[j].State())
      {
        var share := DealtSlice(deck, n, k, i);
        var p := players[i];
        p.hand := p.hand + share;
      }
      ghost var before, after := old(States(players)), States(players);
      assert DealtTo(before, deck, n, k, after);
      DealingHeld(before, deck, n, k, after);
    }

    /** `get_played_cards`: each player of `ps`, sitting at positions `idx`,
        plays once, in order, and nobody else changes. The players still
        hold deck cards only, and they hold as many cards fewer as there
        are real cards on the table. */
    method GetPlayedCards(ps: seq<Player>, ghost idx: seq<int>) returns (playedCards: seq<Card>)
      requires Valid() && Active(ps, idx)
      modifies ps
      ensures Valid() && unchanged(this)
      ensures Plays(old(States(players)), idx, playedCards, States(players))
      ensures ValidTable(playedCards)
      ensures TotalScore() + |RealCards(playedCards)| == old(TotalScore())
    {
      assert Unique(ps) by {
        SeatedUnique(players, seat);
        AtUnique(players, idx, ps);
      }
      playedCards := PlayInTurn(ps);
      ghost var before, after := old(States(players)), States(players);
      assert Plays(before, idx, playedCards, after) by {
        forall j | 0 <= j < |before| && j !in idx ensures after[j] == before[j] {
          forall m | 0 <= m < |ps| ensures ps[m] != players[j] {
            assert ps[m] == players[idx[m]] && seat[players[idx[m]]] == idx[m] && seat[players[j]] == j;
          }
        }
      }
      PlaysValid(before, idx, playedCards, after);
      PlaysCount(before, idx, playedCards, after);
    }

    /** The players of `ps` play a card each, in order. */
    method PlayInTurn(ps: seq<Player>) returns (playedCards: seq<Card>)
      requires Unique(ps)
      modifies ps
      ensures |playedCards| == |ps|
      ensures forall j :: 0 <= j < |ps| ==> PlayStep(old(ps[j].State()), playedCards[j], ps[j].State())
    {
      playedCards := [];
      for i := 0 to |ps|
        invariant |playedCards| == i
        invariant forall j :: 0 <= j < i ==> PlayStep(old(ps[j].State()), playedCards[j], ps[j].State())
        invariant forall j :: i <= j < |ps| ==> ps[j].State() == old(ps[j].State())
      {
        var c := ps[i].PlayCard();
        playedCards := playedCards + [c];
      }
    }

    /** `find_winning_players`: scan the table keeping the highest card so far
        and the players who showed it; sentinels are skipped. */
    method FindWinningPlayers(ps: seq<Player>, playedCards: seq<Card>) returns (winners: seq<Player>)
      requires |ps| == |playedCards|
      ensures winners == Winners(ps, playedCards)
    {
      winners := [];
      var highest := NoCard;
      for i := 0 to |playedCards|
        invariant highest.number == MaxRank(playedCards[..i])
        invariant winners == Winners(ps[..i], playedCards[..i])
      {
        var card := playedCards[i];
        assert playedCards[..i + 1][..i] == playedCards[..i];
        assert ps[..i + 1][..i] == ps[..i];
        if card.number == 0 {
          continue;
        } else if Greater(card, highest) {
          RankedAtAbove(ps[..i], playedCards[..i], card.number);
          winners := [ps[i]];
          highest := card;
        } else if Same(card, highest) {
          winners := winners + [ps[i]];
        }
      }
      assert ps[..|ps|] == ps && playedCards[..|playedCards|] == playedCards;
    }

    /** `update_scoreboard`: append a row with the round number, every
        player's score and their total; the total is the number of cards
        the players hold. */
    method UpdateScoreboard()
      requires Valid()
      modifies this`scoreboard, this`latestResults
      ensures Valid() && round == old(round) && unchanged(players)
      ensures Recorded(old(scoreboard), scoreboard, latestResults, round, States(players))
    {
      var scores := Scores(States(players));
      ScoresTotal(States(players));
      latestResults := Some(Row(round, scores, Sum(scores)));
      scoreboard := scoreboard + [Row(round, scores, Sum(scores))];
    }

    /** `award_cards`: the winner, at position `k`, collects the real played
        cards, in order, then the real field cards; nobody else changes. */
    method AwardCards(winner: Player, playedCards: seq<Card>, field: seq<Card>, ghost k: int)
      requires Valid() && 0 <= k < |players| && players[k] == winner
      requires ValidTable(playedCards) && ValidTable(field)
      modifies winner
      ensures winner.wonCards == old(winner.wonCards) + RealCards(playedCards) + RealCards(field)
      ensures winner.hand == old(winner.hand)
      ensures States(players) == Award(old(States(players)), k, RealCards(playedCards) + RealCards(field))
      ensures Valid() && unchanged(this)
    {
      ghost var before := States(players);
      winner.wonCards := winner.wonCards + RealCards(playedCards);
      winner.wonCards := winner.wonCards + RealCards(field);
      ghost var gained := RealCards(playedCards) + RealCards(field);
      assert winner.wonCards == before[k].won + gained;
      assert States(players) == Award(before, k, gained) by {
        forall i | 0 <= i < |players| && i != k ensures players[i] != winner {
          assert seat[players[i]] == i && seat[winner] == k;
        }
      }
      RealCardsOfTable(playedCards);
      RealCardsOfTable(field);
      AllValidAppend(RealCards(playedCards), RealCards(field));
      AwardHeld(before, k, gained);
    }

    /** `playRound(ps, field)`: the players `ps`, at positions `idx`, play a
        table onto the `field` left by the wars that led here, and the round
        goes as `r` records (`RoundOf`); `fieldAfter` is what the field list
        holds at the end. Every table played advances the round counter. A
        round that ends with a collection appends one scoreboard row; one
        that ends with nobody able to collect (the first of no winners is
        asked for) leaves the scoreboard alone and `resolved` false. */
    method PlayRound(ps: seq<Player>, field: seq<Card>, ghost idx: seq<int>)
      returns (resolved: bool, fieldAfter: seq<Card>, ghost r: Round)
      requires Valid() && Active(ps, idx) && ValidTable(field)
      modifies this, players
      decreases TotalScore(), 1
      ensures Valid()
      ensures RoundOf(old(States(players)), idx, field, r, States(players), fieldAfter, resolved)
      ensures round == old(round) + Layers(r)
      ensures resolved ==> Recorded(old(scoreboard), scoreboard, latestResults, round, States(players))
      ensures !resolved ==> scoreboard == old(scoreboard) && latestResults == old(latestResults)
    {
      round := round + 1;
      ghost var before := States(players);
      assert before == old(States(players));
      var playedCards := GetPlayedCards(ps, idx);
      resolved, fieldAfter, r := ResolveTable(ps, field, playedCards, idx, before, old(TotalScore()));
    }

    /** The rest of `playRound` once the table is down: find the winners, go
        to war on a tie, otherwise award the table. `before` is what
        everybody held before the table was played and `bound` its count. */
    method ResolveTable(ps: seq<Player>, field: seq<Card>, playedCards: seq<Card>,
                        ghost idx: seq<int>, ghost before: seq<Holding>, ghost bound: nat)
      returns (resolved: bool, fieldAfter: seq<Card>, ghost r: Round)
      requires Valid() && Active(ps, idx) && ValidTable(field) && ValidTable(playedCards)
      requires Plays(before, idx, playedCards, States(players))
      requires TotalScore() + |RealCards(playedCards)| == bound
      modifies this, players
      decreases bound, 0
      ensures Valid()
      ensures RoundOf(before, idx, field, r, States(players), fieldAfter, resolved)
      ensures round == old(round) + Layers(r) - 1
      ensures resolved ==> Recorded(old(scoreboard), scoreboard, latestResults, round, States(players))
      ensures !resolved ==> scoreboard == old(scoreboard) && latestResults == old(latestResults)
    {
      var winners := FindWinningPlayers(ps, playedCards);
      ghost var ws := Winners(idx, playedCards);
      assert At(players, ws, winners) && Unique(ws) && (ws == [] <==> RealCards(playedCards) == []) by {
        WinnersAt(players, idx, ps, playedCards);
        WinnersOfTable(idx, playedCards);
      }
      if |winners| > 1 {
        assert TotalScore() < bound;
        resolved, fieldAfter, r := BreakDraw(field, playedCards, winners, ws, before, idx);
        return;
      }
      fieldAfter := field;
      if winners == [] {
        resolved := false;
        r := Failed(idx, playedCards, States(players));
        FailedRound(before, idx, field, playedCards, States(players));
        return;
      }
      assert ws == [ws[0]];
      resolved := true;
      r := AwardRound(winners[0], playedCards, field, ws[0], before, idx);
    }

    /** The end of a round without a tie, after the table `playedCards` was
        played from `before` by the players at `idx`: the only winner,
        `winner` at position `k`, takes the table and the field, and a
        scoreboard row is appended. */
    method AwardRound(winner: Player, playedCards: seq<Card>, field: seq<Card>, ghost k: int,
                      ghost before: seq<Holding>, ghost idx: seq<int>)
      returns (ghost r: Round)
      requires Valid() && 0 <= k < |players| && players[k] == winner
      requires ValidTable(playedCards) && ValidTable(field)
      requires Plays(before, idx, playedCards, States(players)) && Winners(idx, playedCards) == [k]
      modifies this`scoreboard, this`latestResults, winner
      ensures Valid() && round == old(round) && Layers(r) == 1
      ensures winner.wonCards == old(winner.wonCards) + RealCards(playedCards) + RealCards(field)
      ensures RoundOf(before, idx, field, r, States(players), field, true)
      ensures Recorded(old(scoreboard), scoreboard, latestResults, round, States(players))
    {
      ghost var played := States(players);
      AwardCards(winner, playedCards, field, k);
      UpdateScoreboard();
      r := Settled(idx, playedCards, played, k);
      SettledRound(before, idx, field, playedCards, played, k, States(players));
    }

    /** `breakDraw`, after the table `playedCards` was played from `before`
        by the players at `idx` and tied between those at `ws`: each tied
        player plays one more card face down, the table and those cards go
        onto the field, and the tied players play a round for it all. */
    method BreakDraw(field: seq<Card>, playedCards: seq<Card>, winners: seq<Player>, ghost ws: seq<int>,
                     ghost before: seq<Holding>, ghost idx: seq<int>)
      returns (resolved: bool, fieldAfter: seq<Card>, ghost r: Round)
      requires Valid() && Active(winners, ws) && ValidTable(field) && ValidTable(playedCards)
      requires Plays(before, idx, playedCards, States(players)) && ws == Winners(idx, playedCards) && |ws| > 1
      modifies this, players
      decreases TotalScore(), 2
      ensures Valid()
      ensures RoundOf(before, idx, field, r, States(players), fieldAfter, resolved)
      ensures round == old(round) + Layers(r) - 1
      ensures resolved ==> Recorded(old(scoreboard), scoreboard, latestResults, round, States(players))
      ensures !resolved ==> scoreboard == old(scoreboard) && latestResults == old(latestResults)
    {
      ghost var played := States(players);
      var faceDown := GetPlayedCards(winners, ws);
      ghost var down := States(players);
      ghost var board, latest := scoreboard, latestResults;
      ValidTableAppend(field, playedCards);
      ValidTableAppend(field + playedCards, faceDown);
      ghost var inner;
      resolved, fieldAfter, inner := PlayRound(winners, field + playedCards + faceDown, ws);
      r := War(idx, playedCards, played, faceDown, down, inner);
      WarRound(before, idx, field, playedCards, played, faceDown, down, inner, States(players), fieldAfter, resolved);
      assert resolved ==> Recorded(board, scoreboard, latestResults, round, States(players));
      assert !resolved ==> scoreboard == board && latestResults == latest;
    }

    /** `isWinner`: does some player hold at least 52 cards? */
    method IsWinner() returns (w: bool)
      ensures w <==> exists p :: p in players && p.Score() >= 52
    {
      for i := 0 to |players|
        invariant forall j :: 0 <= j < i ==> players[j].Score() < 52
      {
        if players[i].Score() >= 52 {
          return true;
        }
      }
      return false;
    }

    /** The first two steps of `playGame`: deal a shuffled deck to players
        who hold nothing, then record round 0. The players hold the dealt
        cards, `|players| * (52 / |players|)` of them, and the one row says so. */
    method StartGame() returns (ghost deck: seq<Card>)
      requires Valid() && round == 0 && scoreboard == [] && TotalScore() == 0
      modifies this`scoreboard, this`latestResults, players
      ensures Valid() && round == 0
      ensures multiset(deck) == multiset(StandardDeck()) && |deck| == 52
      ensures TotalScore() == |players| * CardsPerPlayer(|players|)
      ensures Recorded([], scoreboard, latestResults, 0, States(players))
    {
      deck := DistributeCards();
      ghost var dealtTo := States(players);
      UpdateScoreboard();
      assert States(players) == dealtTo;
    }

    /** The round of `playGame`'s loop: all the players, at their own
        positions, play a round onto an empty field. A round in which
        someone collects leaves the players holding the `dealt` cards they
        held before it and appends one scoreboard row; one in which nobody
        can collect leaves the scoreboard alone. Players who hold no card
        at all cannot collect. */
    method PlayFullRound(dealt: int) returns (resolved: bool)
      requires Valid() && TotalScore() == dealt
      modifies this, players
      ensures Valid()
      ensures resolved ==> TotalScore() == dealt
      ensures resolved ==> Recorded(old(scoreboard), scoreboard, latestResults, round, States(players))
      ensures !resolved ==> scoreboard == old(scoreboard)
      ensures dealt == 0 ==> !resolved
    {
      ghost var before := States(players);
      ghost var all := Positions(|players|);
      assert Active(players, all);
      var fieldAfter;
      ghost var r;
      resolved, fieldAfter, r := PlayRound(players, [], all);
      EmptyFieldRound(before, all, r, States(players), fieldAfter, resolved);
    }

    /** One turn of `playGame`'s loop: a round among all the players with a
        fresh empty field, then the winner check. A round that ends with
        nobody able to collect stops the game (`Crashed`); otherwise the
        players still hold the `dealt` cards and the new row totals them. */
    method NextRound(dealt: int) returns (outcome: GameOutcome)
      requires Valid() && TotalScore() == dealt
      modifies this, players
      ensures Valid()
      ensures outcome != Crashed ==> TotalScore() == dealt
      ensures outcome == Crashed ==> scoreboard == old(scoreboard)
      ensures outcome != Crashed ==>
        Recorded(old(scoreboard), scoreboard, latestResults, round, States(players))
      ensures outcome == Won ==> exists p :: p in players && p.Score() >= 52
      ensures outcome == OutOfRounds ==> forall p :: p in players ==> p.Score() < 52
      ensures outcome == Won ==> dealt >= 52
      ensures dealt == 0 ==> outcome == Crashed
    {
      var resolved := PlayFullRound(dealt);
      if !resolved {
        return Crashed;
      }
      outcome := CheckWinner(dealt);
    }

    /** `playGame` on a fresh game: deal, record round 0, then play rounds
        with a fresh empty field until someone holds 52 cards. The loop
        stops early if a round fails, or after `maxRounds` rounds. While no
        round fails, the players hold as many cards as were dealt, and every
        row totals the number of cards dealt. */
    method PlayGame(maxRounds: nat) returns (outcome: GameOutcome, ghost deck: seq<Card>)
      requires Valid() && round == 0 && scoreboard == []
      requires forall i :: 0 <= i < |players| ==> players[i].hand == [] && players[i].wonCards == []
      modifies this, players
      ensures Valid()
      ensures multiset(deck) == multiset(StandardDeck()) && |deck| == 52
      ensures outcome != Crashed ==> TotalScore() == |players| * CardsPerPlayer(|players|)
      ensures 1 <= |scoreboard| && scoreboard[0].round == 0
      ensures forall k :: 0 <= k < |scoreboard| ==> scoreboard[k].total == |players| * CardsPerPlayer(|players|)
      ensures outcome == Won ==> exists p :: p in players && p.Score() >= 52
      ensures outcome == OutOfRounds ==> forall p :: p in players ==> p.Score() < 52
      ensures |players| * CardsPerPlayer(|players|) < 52 ==> outcome != Won
      ensures outcome != Crashed && IntendedPlayerCount(|players|) ==> TotalScore() == 52
    {
      ghost var before := States(players);
      assert forall i :: 0 <= i < |before| ==> before[i] == Holding([], []);
      TotalNothing(before);
      deck := StartGame();
      var dealt := |players| * CardsPerPlayer(|players|);
      RecordedTotals([], scoreboard, latestResults, 0, States(players), dealt);
      outcome := PlayRounds(dealt, maxRounds);
      if IntendedPlayerCount(|players|) {
        IntendedDealsAll(|players|);
      }
    }

    /** The loop of `playGame`: check for a winner, then play rounds with a
        fresh empty field until someone holds 52 cards, a round fails, or
        `maxRounds` rounds were played. The players keep holding the
        `dealt` cards while no round fails, and every row totals them. */
    method PlayRounds(dealt: int, maxRounds: nat) returns (outcome: GameOutcome)
      requires Valid() && TotalScore() == dealt
      requires 1 <= |scoreboard| && scoreboard[0].round == 0
      requires forall k :: 0 <= k < |scoreboard| ==> scoreboard[k].total == dealt
      modifies this, players
      ensures Valid()
      ensures outcome != Crashed ==> TotalScore() == dealt
      ensures 1 <= |scoreboard| && scoreboard[0].round == 0
      ensures forall k :: 0 <= k < |scoreboard| ==> scoreboard[k].total == dealt
      ensures outcome == Won ==> exists p :: p in players && p.Score() >= 52
      ensures outcome == OutOfRounds ==> forall p :: p in players ==> p.Score() < 52
      ensures dealt < 52 ==> outcome != Won
    {
      outcome := CheckWinner(dealt);
      var rounds := 0;
      while outcome == OutOfRounds && rounds < maxRounds
        invariant Valid()
        invariant outcome != Crashed ==> TotalScore() == dealt
        invariant 1 <= |scoreboard| && scoreboard[0].round == 0
        invariant forall k :: 0 <= k < |scoreboard| ==> scoreboard[k].total == dealt
        invariant outcome == Won ==> exists p :: p in players && p.Score() >= 52
        invariant outcome == OutOfRounds ==> forall p :: p in players ==> p.Score() < 52
        invariant dealt < 52 ==> outcome != Won
        decreases maxRounds - rounds
      {
        ghost var board := scoreboard;
        outcome := NextRound(dealt);
        if outcome != Crashed {
          RecordedTotals(board, scoreboard, latestResults, round, States(players), dealt);
        }
        rounds := rounds + 1;
      }
    }

    /** The loop's test: `Won` when somebody holds 52 cards, which needs the
        players to hold at least 52 between them. */
    method CheckWinner(dealt: int) returns (outcome: GameOutcome)
      requires TotalScore() == dealt
      ensures outcome == Won || outcome == OutOfRounds
      ensures outcome == Won <==> exists p :: p in players && p.Score() >= 52
      ensures outcome == Won ==> dealt >= 52
    {
      var won := IsWinner();
      if won {
        ghost var i :| 0 <= i < |players| && players[i].Score() >= 52;
        TotalBounds(States(players), i);
      }
      outcome := if won then Won else OutOfRounds;
    }
  }
}
