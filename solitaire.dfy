/**
 * The game engine object: the zones, points, high score and missions it
 * updates in place, and the saved game it keeps in the browser's storage.
 * Every method is proved to leave the object in the state the matching
 * function of `Moves`, `Codec` or `Setup` describes.
 */
module Engine {
  import opened Wrappers
  import opened Cards
  import opened Progression
  import opened Shuffle
  import opened Zones
  import opened Rules
  import opened Moves
  import opened Codec
  import opened Setup

  /** One recycle step: the waste's top card, turned over, goes on the deck built so far. */
  lemma RecycleStep(w: seq<Card>, n: nat)
    requires 0 < n <= |w|
    ensures FlipAll(Reverse(w[n..])) + [Flip(w[n - 1])] == FlipAll(Reverse(w[n - 1..]))
  {
    var a := FlipAll(Reverse(w[n..])) + [Flip(w[n - 1])];
    var b := FlipAll(Reverse(w[n - 1..]));
    assert |a| == |b|;
    forall k | 0 <= k < |a| ensures a[k] == b[k] {
      if k < |w| - n {
        assert w[n..][|w| - n - 1 - k] == w[n - 1..][|w| - n - k];
      }
    }
  }

  /** Visiting mission `i` pays its reward exactly when the event completes it. */
  lemma AwardStep(ms: seq<Mission>, i: nat, t: MissionType, s0: Score)
    requires i < |ms|
    ensures Progression.Award(ms[..i + 1], t, s0) ==
      if Completes(ms[i], t) then AddPoints(Progression.Award(ms[..i], t, s0), ms[i].reward)
      else Progression.Award(ms[..i], t, s0)
  {
    assert ms[..i + 1][..i] == ms[..i];
  }

  /**
   * A foundation move, step by step: refused, it changes nothing; legal, it
   * detaches the card, pushes it onto the foundation, scores and fires the event.
   */
  lemma FoundationMoveSteps(g: Game, card: Card, suit: Suit)
    requires WellFormed(g)
    ensures var foundation := g.foundations[suit];
      var legal := card.suit == suit && ((|foundation| == 0 && card.value == 1)
        || (|foundation| > 0 && card.value == foundation[|foundation| - 1].value + 1));
      && (!legal ==> MoveToFoundation(g, card, suit) == (false, g))
      && (legal ==>
            var placed := RemoveCard(g, card).(foundations := g.foundations[suit := foundation + [card]]);
            && WellFormed(RemoveCard(g, card)) && RemoveCard(g, card).foundations == g.foundations
            && WellFormed(placed)
            && MoveToFoundation(g, card, suit) == (true, MissionEvent(AwardPoints(placed, 10), FoundationMove)))
  {
  }

  /** The 52 new cards are created suit by suit, Ace to King. */
  lemma StandardDeckAt(s: nat, v: nat)
    requires s < 4 && 1 <= v <= 13
    ensures 13 * s + v - 1 < 52 && StandardDeck()[13 * s + v - 1] == NewCard(Suits[s], v)
  {
  }

  class Solitaire {
    var deck: seq<Card>
    var waste: seq<Card>
    var foundations: map<Suit, seq<Card>>
    var tableau: seq<seq<Card>>
    var points: int
    var highScore: int
    var missions: seq<Mission>
    /** The game state kept in storage, if any. */
    var savedGame: Option<Snapshot>

    /** The game as a value. */
    function State(): Game
      reads this
    {
      Game(deck, waste, foundations, tableau, Score(points, highScore), missions)
    }

    /** Four foundations and seven piles, and a saved game of seven piles. */
    predicate Valid()
      reads this
    {
      WellFormed(State()) && (savedGame.Some? ==> |savedGame.value.tableau| == TableauPiles)
    }

    /**
     * A new engine: the high score read from storage (0 when absent), the
     * day's missions, then the saved game when it loads and a new deal
     * otherwise.
     */
    constructor(storedHighScore: Option<int>, savedMissions: Option<seq<Mission>>, missionsDate: Option<Date>,
                today: Date, missionPicks: seq<int>, stored: Option<Snapshot>, now: int, dealPicks: seq<int>)
      requires ValidPicks(missionPicks, 5) && ValidPicks(dealPicks, 52)
      requires stored.Some? && !IsStale(now, stored.value.timestamp) ==> |stored.value.tableau| == TableauPiles
      ensures Valid()
      ensures savedGame == if stored.Some? && IsStale(now, stored.value.timestamp) then None else stored
      ensures missions == if savedMissions.Some? && missionsDate.Some? && IsSameDay(missionsDate.value, today)
                          then savedMissions.value else DailyMissions(missionPicks)
      ensures var start := Game([], [], EmptyFoundations(), seq(TableauPiles, _ => []),
                                Score(0, storedHighScore.GetOr(0)), missions);
              State() == if Load(start, stored, now).0 then Load(start, stored, now).1 else Deal(start, dealPicks)
    {
      deck := [];
      waste := [];
      foundations := EmptyFoundations();
      tableau := seq(TableauPiles, _ => []);
      points := 0;
      highScore := storedHighScore.GetOr(0);
      missions := [];
      savedGame := stored;
      new;
      InitializeMissions(savedMissions, missionsDate, today, missionPicks);
      var loaded := LoadGameState(now);
      if !loaded {
        InitializeGame(dealPicks);
      }
    }

    /** `addPoints`. */
    method AddPoints(amount: int)
      modifies this
      ensures State() == AwardPoints(old(State()), amount)
      ensures savedGame == old(savedGame)
    {
      points := points + amount;
      if points > highScore {
        highScore := points;
      }
    }

    /** `updateMissionProgress`: missions visited in order, each reward paid as its mission completes. */
    method UpdateMissionProgress(t: MissionType)
      modifies this
      ensures State() == MissionEvent(old(State()), t)
      ensures savedGame == old(savedGame)
    {
      ghost var g0 := State();
      ghost var ms := missions;
      var i := 0;
      while i < |missions|
        invariant 0 <= i <= |missions| == |ms|
        invariant forall j :: 0 <= j < i ==> missions[j] == Advance(ms[j], t)
        invariant forall j :: i <= j < |ms| ==> missions[j] == ms[j]
        invariant Score(points, highScore) == Progression.Award(ms[..i], t, g0.score)
        invariant deck == g0.deck && waste == g0.waste && foundations == g0.foundations && tableau == g0.tableau
        invariant savedGame == old(savedGame)
      {
        AwardStep(ms, i, t, g0.score);
        VisitMission(i, t);
        i := i + 1;
      }
      assert ms[..i] == ms;
      assert missions == AdvanceAll(ms, t);
    }

    /**
     * The body of the mission loop for mission `i`: an unfinished mission of
     * type `t` advances by one, and pays its reward when that finishes it.
     */
    method VisitMission(i: nat, t: MissionType)
      requires i < |missions|
      modifies this
      ensures missions == old(missions)[i := Advance(old(missions)[i], t)]
      ensures Score(points, highScore) ==
        if Completes(old(missions)[i], t) then Progression.AddPoints(old(Score(points, highScore)), old(missions)[i].reward)
        else old(Score(points, highScore))
      ensures deck == old(deck) && waste == old(waste) && foundations == old(foundations) && tableau == old(tableau)
      ensures savedGame == old(savedGame)
    {
      var m := missions[i];
      if m.kind == t && m.progress < m.target {
        missions := missions[i := m.(progress := m.progress + 1)];
        if missions[i].progress == missions[i].target {
          AddPoints(m.reward);
        }
      }
    }

    /** A click on the deck: draw one card, or, with the deck empty, turn the whole waste back into the deck. */
    method ClickDeck()
      modifies this
      ensures State() == DrawOrRecycle(old(State()))
      ensures savedGame == old(savedGame)
    {
      if |deck| == 0 {
        ghost var w := waste;
        while |waste| > 0
          invariant |waste| <= |w| && waste == w[..|waste|]
          invariant deck == FlipAll(Reverse(w[|waste|..]))
          invariant foundations == old(foundations) && tableau == old(tableau) && missions == old(missions)
          invariant points == old(points) && highScore == old(highScore) && savedGame == old(savedGame)
          decreases |waste|
        {
          var n := |waste|;
          var card := waste[n - 1];
          waste := waste[..n - 1];
          RecycleStep(w, n);
          deck := deck + [Flip(card)];
        }
        assert w[0..] == w;
      } else {
        var card := deck[|deck| - 1];
        deck := deck[..|deck| - 1];
        waste := waste + [Flip(card)];
      }
    }

    /** `removeCardFromCurrent`: see `Moves.RemoveCard`. */
    method RemoveCardFromCurrent(card: Card)
      requires Valid()
      modifies this
      ensures State() == RemoveCard(old(State()), card)
      ensures savedGame == old(savedGame) && Valid()
    {
      ghost var g := State();
      var k := Key(card);
      var inWaste := IndexOf(waste, k);
      if inWaste.Some? {
        var w := inWaste.value;
        RemoveCardInWaste(g, card, w);
        waste := waste[..w] + waste[w + 1..];
        return;
      }
      var p := 0;
      while p < |tableau|
        invariant 0 <= p <= |tableau|
        invariant FindInTableau(tableau, k, p) == FindInTableau(tableau, k, 0)
        invariant State() == g && savedGame == old(savedGame)
      {
        var index := IndexOf(tableau[p], k);
        if index.Some? {
          var i := index.value;
          assert FindCard(waste, tableau, k) == Some(InTableau(p, i));
          RemoveCardInTableau(g, card, p, i);
          DetachFromPile(p, i);
          return;
        }
        p := p + 1;
      }
      assert FindCard(waste, tableau, k).None?;
      RemoveCardMissing(g, card);
      RevealFirstFaceDown();
    }

    /**
     * The tableau branch of `removeCardFromCurrent`: card `i` of pile `p` is
     * taken out (only that card, see `Moves.PileWithout`) and a face-down card
     * left on top is turned over.
     */
    method DetachFromPile(p: nat, i: nat)
      requires Valid() && p < |tableau| && i < |tableau[p]|
      modifies this
      ensures var detached := old(State()).(tableau := old(tableau)[p := PileWithout(old(tableau)[p], i)]);
        State() == if Reveals(old(tableau)[p], i) then MissionEvent(detached, RevealCard) else detached
      ensures savedGame == old(savedGame) && Valid()
    {
      var pile := tableau[p];
      var cardsToMove := pile[i..];
      pile := pile[..i] + cardsToMove[1..];
      assert pile == Without(old(tableau)[p], i);
      if |pile| > 0 && !pile[|pile| - 1].faceUp {
        pile := pile[|pile| - 1 := Flip(pile[|pile| - 1])];
        assert pile == PileWithout(old(tableau)[p], i);
        tableau := tableau[p := pile];
        UpdateMissionProgress(RevealCard);
      } else {
        tableau := tableau[p := pile];
      }
    }

    /**
     * The last branch of `removeCardFromCurrent`, for a card found nowhere:
     * the first pile showing a face-down top has it turned over, for 5 points.
     */
    method RevealFirstFaceDown()
      requires Valid()
      modifies this
      ensures State() == match FirstFaceDownTop(old(tableau), 0)
        case Some(p) => MissionEvent(AwardPoints(old(State()).(tableau := old(tableau)[p := FlipTop(old(tableau)[p])]), 5), RevealCard)
        case None => old(State())
      ensures savedGame == old(savedGame) && Valid()
    {
      ghost var g := State();
      var p := 0;
      while p < |tableau|
        invariant 0 <= p <= |tableau|
        invariant FirstFaceDownTop(tableau, p) == FirstFaceDownTop(tableau, 0)
        invariant State() == g && savedGame == old(savedGame)
      {
        if |tableau[p]| > 0 && !tableau[p][|tableau[p]| - 1].faceUp {
          tableau := tableau[p := FlipTop(tableau[p])];
          AddPoints(5);
          UpdateMissionProgress(RevealCard);
          return;
        }
        p := p + 1;
      }
    }

    /** `tryMoveToFoundation`: see `Moves.MoveToFoundation`. */
    method TryMoveToFoundation(card: Card, suit: Suit) returns (moved: bool)
      requires Valid()
      modifies this
      ensures (moved, State()) == MoveToFoundation(old(State()), card, suit)
      ensures savedGame == old(savedGame) && Valid()
    {
      var foundation := foundations[suit];
      FoundationMoveSteps(State(), card, suit);
      if card.suit == suit {
        if (|foundation| == 0 && card.value == 1)
          || (|foundation| > 0 && card.value == foundation[|foundation| - 1].value + 1) {
          RemoveCardFromCurrent(card);
          foundations := foundations[suit := foundation + [card]];
          AddPoints(10);
          UpdateMissionProgress(FoundationMove);
          return true;
        }
      }
      return false;
    }

    /**
     * `tryMoveToTableau`: see `Moves.MoveToTableau`. The card lands on the
     * target pile as the removal left it (the source pushes onto the same
     * array the removal changed).
     */
    method TryMoveToTableau(card: Card, index: nat) returns (moved: bool)
      requires Valid() && index < |tableau|
      modifies this
      ensures (moved, State()) == MoveToTableau(old(State()), card, index)
      ensures savedGame == old(savedGame) && Valid()
    {
      var pile := tableau[index];
      if |pile| == 0 {
        if card.value == 13 {
          RemoveCardFromCurrent(card);
          tableau := tableau[index := tableau[index] + [card]];
          AddPoints(5);
          UpdateMissionProgress(KingMove);
          return true;
        }
      } else {
        var topCard := pile[|pile| - 1];
        if IsAlternatingColor(card, topCard) && card.value == topCard.value - 1 {
          RemoveCardFromCurrent(card);
          tableau := tableau[index := tableau[index] + [card]];
          AddPoints(2);
          UpdateMissionProgress(TableauMove);
          return true;
        }
      }
      return false;
    }

    /** `checkWinCondition`: see `Moves.CheckWin`. */
    method CheckWinCondition() returns (won: bool)
      requires Valid()
      modifies this
      ensures (won, State()) == CheckWin(old(State()))
      ensures savedGame == old(savedGame) && Valid()
    {
      AllFoundationsFullByName(State());
      won := |foundations[Hearts]| == 13 && |foundations[Diamonds]| == 13
        && |foundations[Clubs]| == 13 && |foundations[Spades]| == 13;
      if won {
        UpdateMissionProgress(WinGame);
        AddPoints(100);
      }
    }

    /** The drop handler: see `Moves.Drop`. */
    method Drop(dragged: seq<CardKey>, target: DropTarget)
      requires Valid() && (target.OnTableau? ==> target.index < TableauPiles)
      modifies this
      ensures State() == Moves.Drop(old(State()), dragged, target)
      ensures savedGame == old(savedGame) && Valid()
    {
      if |dragged| == 0 {
        return;
      }
      var found := FindCard(waste, tableau, dragged[0]);
      if found.None? {
        return;
      }
      var card := CardAt(waste, tableau, found.value);
      match target {
        case OnFoundation(s) =>
          if |dragged| == 1 {
            var moved := TryMoveToFoundation(card, s);
          }
        case OnTableau(i) =>
          var moved := TryMoveToTableau(card, i);
        case Elsewhere =>
      }
      var won := CheckWinCondition();
    }

    /** `initializeGame`: see `Setup.Deal`. */
    method InitializeGame(picks: seq<int>)
      requires Valid() && ValidPicks(picks, |deck| + 52)
      modifies this
      ensures State() == Deal(old(State()), picks)
      ensures savedGame == old(savedGame) && Valid()
    {
      CreateCards();
      ShuffleDeck(picks);
      ShuffledPermutes(old(deck) + StandardDeck(), picks);
      assert Remaining(0, 0) == 28;
      DealTableau();
    }

    /** The first step of `initializeGame`: the 52 cards, suit by suit and Ace to King, pushed onto the deck. */
    method CreateCards()
      modifies this
      ensures State() == old(State()).(deck := old(deck) + StandardDeck())
      ensures savedGame == old(savedGame)
    {
      var s := 0;
      while s < 4
        invariant 0 <= s <= 4
        invariant State() == old(State()).(deck := old(deck) + StandardDeck()[..13 * s])
        invariant savedGame == old(savedGame)
      {
        CreateSuit(s);
        s := s + 1;
      }
      assert StandardDeck()[..52] == StandardDeck();
    }

    /** The thirteen cards of suit `Suits[s]`, Ace to King, pushed onto the deck. */
    method CreateSuit(s: nat)
      requires s < 4
      modifies this
      ensures deck == old(deck) + StandardDeck()[13 * s..13 * s + 13]
      ensures State() == old(State()).(deck := deck)
      ensures savedGame == old(savedGame)
    {
      var value := 1;
      while value <= 13
        invariant 1 <= value <= 14
        invariant deck == old(deck) + StandardDeck()[13 * s..13 * s + value - 1]
        invariant State() == old(State()).(deck := deck)
        invariant savedGame == old(savedGame)
      {
        StandardDeckAt(s, value);
        assert StandardDeck()[13 * s..13 * s + value] == StandardDeck()[13 * s..13 * s + value - 1] + [NewCard(Suits[s], value)];
        deck := deck + [NewCard(Suits[s], value)];
        value := value + 1;
      }
    }

    /** The second step of `initializeGame`: the deck shuffled in place, position `i` swapped with `picks[i]`. */
    method ShuffleDeck(picks: seq<int>)
      requires ValidPicks(picks, |deck|)
      modifies this
      ensures State() == old(State()).(deck := Shuffled(old(deck), picks))
      ensures savedGame == old(savedGame)
    {
      var i := |deck| - 1;
      while i > 0
        invariant -1 <= i < |deck| == |old(deck)|
        invariant ShuffleFrom(deck, picks, i) == Shuffled(old(deck), picks)
        invariant State() == old(State()).(deck := deck)
        invariant savedGame == old(savedGame)
      {
        var j := picks[i];
        deck := deck[i := deck[j]][j := deck[i]];
        i := i - 1;
      }
    }

    /**
     * The last step of `initializeGame`: row by row, a card popped from the
     * deck onto each pile from the row's own pile on, that first one face up.
     */
    method DealTableau()
      requires |tableau| == TableauPiles && |deck| >= 28
      modifies this
      ensures (deck, tableau) == DealFrom(old(deck), old(tableau), 0, 0) && |tableau| == TableauPiles
      ensures State() == old(State()).(deck := deck, tableau := tableau)
      ensures savedGame == old(savedGame)
    {
      DealSize();
      var row := 0;
      while row < TableauPiles
        invariant 0 <= row <= TableauPiles && DealAt(deck, tableau, row, row)
        invariant DealFrom(deck, tableau, row, row) == DealFrom(old(deck), old(tableau), 0, 0)
        invariant State() == old(State()).(deck := deck, tableau := tableau)
        invariant savedGame == old(savedGame)
      {
        DealRow(row);
        row := row + 1;
      }
    }

    /** Row `row` of the deal: one card onto each pile from the row's own pile on. */
    method DealRow(row: nat)
      requires row < TableauPiles && DealAt(deck, tableau, row, row)
      modifies this
      ensures DealAt(deck, tableau, row + 1, row + 1)
      ensures DealFrom(deck, tableau, row + 1, row + 1) == DealFrom(old(deck), old(tableau), row, row)
      ensures State() == old(State()).(deck := deck, tableau := tableau)
      ensures savedGame == old(savedGame)
    {
      var pile := row;
      while pile < TableauPiles
        invariant row <= pile <= TableauPiles && DealAt(deck, tableau, row, pile)
        invariant DealFrom(deck, tableau, row, pile) == DealFrom(old(deck), old(tableau), row, row)
        invariant State() == old(State()).(deck := deck, tableau := tableau)
        invariant savedGame == old(savedGame)
      {
        DealCard(row, pile);
        pile := pile + 1;
      }
      DealRowEnd(deck, tableau, row);
    }

    /** One card of the deal: the deck's top card onto pile `pile`, face up when it is the row's own pile. */
    method DealCard(row: nat, pile: nat)
      requires row <= pile < TableauPiles && DealAt(deck, tableau, row, pile)
      modifies this
      ensures DealAt(deck, tableau, row, pile + 1)
      ensures DealFrom(deck, tableau, row, pile + 1) == DealFrom(old(deck), old(tableau), row, pile)
      ensures State() == old(State()).(deck := deck, tableau := tableau)
      ensures savedGame == old(savedGame)
    {
      assert Remaining(row, pile) > 0;
      var card := deck[|deck| - 1];
      deck := deck[..|deck| - 1];
      if row == pile {
        card := Flip(card);
      }
      tableau := tableau[pile := tableau[pile] + [card]];
      DealOneCard(old(deck), old(tableau), row, pile, card, deck, tableau);
    }

    /** `generateNewMissions`: see `Setup.DailyMissions`. */
    method GenerateNewMissions(picks: seq<int>)
      requires ValidPicks(picks, 5)
      modifies this
      ensures missions == DailyMissions(picks)
      ensures deck == old(deck) && waste == old(waste) && foundations == old(foundations) && tableau == old(tableau)
      ensures points == old(points) && highScore == old(highScore) && savedGame == old(savedGame)
    {
      var possible := Catalog();
      var arr := new Mission[5](k requires 0 <= k < 5 => possible[k]);
      assert arr[..] == possible;
      ShuffleArray(arr, picks);
      missions := arr[..3];
    }

    /** `initializeMissions`: the stored missions when they were stored today, new ones otherwise. */
    method InitializeMissions(savedMissions: Option<seq<Mission>>, missionsDate: Option<Date>, today: Date,
                              picks: seq<int>)
      requires ValidPicks(picks, 5)
      modifies this
      ensures missions == if savedMissions.Some? && missionsDate.Some? && IsSameDay(missionsDate.value, today)
                          then savedMissions.value else DailyMissions(picks)
      ensures deck == old(deck) && waste == old(waste) && foundations == old(foundations) && tableau == old(tableau)
      ensures points == old(points) && highScore == old(highScore) && savedGame == old(savedGame)
    {
      if savedMissions.Some? && missionsDate.Some? && IsSameDay(missionsDate.value, today) {
        missions := savedMissions.value;
      } else {
        GenerateNewMissions(picks);
      }
    }

    /** `saveGameState`: see `Codec.Capture`. */
    method SaveGameState(now: int)
      requires Valid()
      modifies this
      ensures savedGame == Some(Capture(old(State()), now))
      ensures State() == old(State()) && Valid()
    {
      savedGame := Some(Capture(State(), now));
    }

    /** `loadGameState`: see `Codec.Load`; a stale save is removed from storage. */
    method LoadGameState(now: int) returns (loaded: bool)
      requires WellFormed(State())
      requires savedGame.Some? && !IsStale(now, savedGame.value.timestamp) ==> |savedGame.value.tableau| == TableauPiles
      modifies this
      ensures (loaded, State()) == Load(old(State()), old(savedGame), now)
      ensures savedGame == if old(savedGame).Some? && IsStale(now, old(savedGame).value.timestamp)
                           then None else old(savedGame)
      ensures Valid()
    {
      if savedGame.None? {
        return false;
      }
      var state := savedGame.value;
      if now - state.timestamp > 24 * 60 * 60 * 1000 {
        savedGame := None;
        return false;
      }
      RestoreWellFormed(State(), state);
      deck := DeserializeCards(state.deck);
      waste := DeserializeCards(state.waste);
      foundations := map[Hearts := DeserializeCards(state.hearts), Diamonds := DeserializeCards(state.diamonds),
                         Clubs := DeserializeCards(state.clubs), Spades := DeserializeCards(state.spades)];
      tableau := seq(|state.tableau|, k requires 0 <= k < |state.tableau| => DeserializeCards(state.tableau[k]));
      points := state.points;
      return true;
    }

    /** `newGame`: the saved game dropped, zones and points cleared, a new deal. */
    method NewGame(picks: seq<int>)
      requires Valid() && ValidPicks(picks, 52)
      modifies this
      ensures State() == Deal(Cleared(old(State())), picks)
      ensures savedGame == None && Valid()
    {
      savedGame := None;
      deck := [];
      waste := [];
      foundations := EmptyFoundations();
      tableau := seq(TableauPiles, _ => []);
      points := 0;
      assert State() == Cleared(old(State()));
      InitializeGame(picks);
    }
  }
}
