/**
 * The state changes of the game, as functions from the game before to the
 * game after: drawing and recycling, detaching a card, the two moves, the win
 * check and the drop dispatch. The engine's methods are proved to do exactly
 * these; the lemmas here say what they mean.
 */
module Moves {
  import opened Wrappers
  import opened Cards
  import opened Progression
  import opened Zones
  import opened Rules

  /** `addPoints`. */
  function AwardPoints(g: Game, amount: int): (r: Game)
    ensures r == g.(score := r.score)
    ensures r.score.points == g.score.points + amount
    ensures r.score.highScore >= r.score.points && r.score.highScore >= g.score.highScore
  {
    g.(score := AddPoints(g.score, amount))
  }

  /** `updateMissionProgress`: advance the missions of type `t` and pay the rewards of those completed. */
  function MissionEvent(g: Game, t: MissionType): (r: Game)
    ensures r == g.(missions := r.missions, score := r.score)
    ensures r.missions == AdvanceAll(g.missions, t)
    ensures r.score.points == g.score.points + RewardSum(g.missions, t)
    ensures r.score.highScore >= g.score.highScore
  {
    AwardPaysCompletedRewards(g.missions, t, g.score);
    g.(missions := AdvanceAll(g.missions, t), score := Progression.Award(g.missions, t, g.score))
  }

  // ---------------------------------------------------------------------------
  // The deck click

  /** Flip every card, keeping the order. */
  function FlipAll(s: seq<Card>): (r: seq<Card>)
    ensures |r| == |s| && forall i :: 0 <= i < |s| ==> r[i] == Flip(s[i])
  {
    seq(|s|, i requires 0 <= i < |s| => Flip(s[i]))
  }

  function Reverse<T>(s: seq<T>): (r: seq<T>)
    ensures |r| == |s| && forall i :: 0 <= i < |s| ==> r[i] == s[|s| - 1 - i]
  {
    seq(|s|, i requires 0 <= i < |s| => s[|s| - 1 - i])
  }

  /**
   * A click on the deck: a non-empty deck moves its top card to the waste,
   * turned over; an empty deck takes the waste back, last card first, turning
   * each one over.
   */
  function DrawOrRecycle(g: Game): (r: Game)
    ensures r.foundations == g.foundations && r.tableau == g.tableau
    ensures r.score == g.score && r.missions == g.missions
    ensures |r.deck| + |r.waste| == |g.deck| + |g.waste|
  {
    if |g.deck| == 0 then g.(deck := FlipAll(Reverse(g.waste)), waste := [])
    else g.(deck := g.deck[..|g.deck| - 1], waste := g.waste + [Flip(Last(g.deck))])
  }

  /** A draw moves one card from the deck top to the waste top, turned over; nothing else changes. */
  lemma DrawMovesTopCard(g: Game)
    requires |g.deck| > 0
    ensures var r := DrawOrRecycle(g);
      && r.deck + [Last(g.deck)] == g.deck
      && r.waste == g.waste + [Flip(Last(g.deck))]
      && r.foundations == g.foundations && r.tableau == g.tableau
      && r.score == g.score && r.missions == g.missions
  {
  }

  /** Recycling leaves the waste empty and the deck equal to the former waste reversed, each card turned over. */
  lemma RecycleReversesWaste(g: Game)
    requires |g.deck| == 0
    ensures var r := DrawOrRecycle(g);
      && r.waste == [] && |r.deck| == |g.waste|
      && (forall i :: 0 <= i < |g.waste| ==> r.deck[i] == Flip(g.waste[|g.waste| - 1 - i]))
      && r.foundations == g.foundations && r.tableau == g.tableau && r.score == g.score
  {
  }

  /** After a recycle, the next draw brings back the first card of the former waste, as it was. */
  lemma RecycleThenDraw(g: Game)
    requires |g.deck| == 0 && |g.waste| > 0
    ensures DrawOrRecycle(DrawOrRecycle(g)).waste == [g.waste[0]]
  {
    var r := DrawOrRecycle(g);
    assert Last(r.deck) == Flip(g.waste[0]);
    FlipTwice(g.waste[0]);
  }

  /** Deck cards face down and waste cards face up: a deck click keeps that so. */
  predicate DeckDownWasteUp(g: Game) {
    (forall i :: 0 <= i < |g.deck| ==> !g.deck[i].faceUp) && (forall i :: 0 <= i < |g.waste| ==> g.waste[i].faceUp)
  }

  lemma DrawKeepsOrientation(g: Game)
    requires DeckDownWasteUp(g)
    ensures DeckDownWasteUp(DrawOrRecycle(g))
  {
  }

  lemma DrawConservesCards(g: Game)
    requires WellFormed(g)
    ensures WellFormed(DrawOrRecycle(g)) && GameBag(DrawOrRecycle(g)) == GameBag(g)
  {
    DrawKeepsDeckWasteKeys(g);
    DeckWasteBag(g, DrawOrRecycle(g));
  }

  /** A deck click keeps the identities held by the deck and the waste together. */
  lemma DrawKeepsDeckWasteKeys(g: Game)
    ensures var r := DrawOrRecycle(g);
      KeyBag(r.deck) + KeyBag(r.waste) == KeyBag(g.deck) + KeyBag(g.waste)
  {
    var r := DrawOrRecycle(g);
    if |g.deck| == 0 {
      assert Keys(FlipAll(Reverse(g.waste))) == Reverse(Keys(g.waste));
      ReverseIsPermutation(Keys(g.waste));
      assert KeyBag(r.deck) == KeyBag(g.waste);
    } else {
      var n := |g.deck| - 1;
      assert g.deck == g.deck[..n] + [Last(g.deck)];
      KeyBagConcat(g.deck[..n], [Last(g.deck)]);
      KeyBagConcat(g.waste, [Flip(Last(g.deck))]);
      assert KeyBag(r.deck) + KeyBag([Last(g.deck)]) == KeyBag(g.deck);
      assert KeyBag(r.waste) == KeyBag(g.waste) + KeyBag([Last(g.deck)]);
    }
  }

  /** Moving cards between the deck and the waste only keeps the cards of the game. */
  lemma DeckWasteBag(g: Game, h: Game)
    requires WellFormed(g) && h == g.(deck := h.deck, waste := h.waste)
    requires KeyBag(h.deck) + KeyBag(h.waste) == KeyBag(g.deck) + KeyBag(g.waste)
    ensures WellFormed(h) && GameBag(h) == GameBag(g)
  {
    forall e ensures GameBag(h)[e] == GameBag(g)[e] {
      assert (KeyBag(h.deck) + KeyBag(h.waste))[e] == (KeyBag(g.deck) + KeyBag(g.waste))[e];
    }
  }

  lemma {:induction false} ReverseIsPermutation<T>(s: seq<T>)
    ensures multiset(Reverse(s)) == multiset(s)
    decreases |s|
  {
    if s != [] {
      ReverseIsPermutation(s[1..]);
      assert Reverse(s) == Reverse(s[1..]) + [s[0]];
      assert s == [s[0]] + s[1..];
    }
  }

  // ---------------------------------------------------------------------------
  // Detaching a card

  /** The first pile at or after `i` that shows a face-down top. */
  function FirstFaceDownTop(t: seq<seq<Card>>, i: nat): (r: Option<nat>)
    requires i <= |t|
    ensures r.None? <==> forall p :: i <= p < |t| ==> !FaceDownTop(t, p)
    ensures r.Some? ==> i <= r.value < |t| && FaceDownTop(t, r.value)
    ensures r.Some? ==> forall p :: i <= p < r.value ==> !FaceDownTop(t, p)
    decreases |t| - i
  {
    if i == |t| then None
    else if FaceDownTop(t, i) then Some(i)
    else FirstFaceDownTop(t, i + 1)
  }

  /** Taking card `i` out of a pile leaves a face-down card on top. */
  predicate Reveals(pile: seq<Card>, i: nat)
    requires i < |pile|
  {
    var rest := Without(pile, i);
    |rest| > 0 && !Last(rest).faceUp
  }

  /**
   * A pile after the card at `i` is taken out: the cards above it drop one
   * place, and a face-down card left on top is turned up. The pile never ends
   * with a face-down top.
   */
  function PileWithout(pile: seq<Card>, i: nat): (r: seq<Card>)
    requires i < |pile|
    ensures |r| == |pile| - 1
    ensures Keys(r) == Keys(Without(pile, i))
    ensures KeyBag(r) + multiset{Key(pile[i])} == KeyBag(pile)
    ensures forall j :: 0 <= j < |r| - 1 ==> r[j] == Without(pile, i)[j]
    ensures |r| > 0 ==> Last(r).faceUp
    ensures !Reveals(pile, i) ==> r == Without(pile, i)
  {
    var rest := Without(pile, i);
    KeyBagWithout(pile, i);
    if |rest| > 0 && !Last(rest).faceUp then
      assert Keys(FlipTop(rest)) == Keys(rest);
      FlipTop(rest)
    else rest
  }

  /**
   * `removeCardFromCurrent`: take the ONE card with `card`'s identity out of the
   * waste, or else out of its tableau pile (turning over a face-down card left
   * on top, a reveal event without points). When the card is in neither, the
   * first pile showing a face-down top has it turned over, for 5 points and a
   * reveal event.
   */
  function RemoveCard(g: Game, card: Card): (r: Game)
    requires WellFormed(g)
    ensures r.deck == g.deck && r.foundations == g.foundations
    ensures |r.tableau| == |g.tableau| && WellFormed(r)
  {
    match FindCard(g.waste, g.tableau, Key(card))
    case Some(InWaste(i)) => g.(waste := Without(g.waste, i))
    case Some(InTableau(p, i)) =>
      var detached := g.(tableau := g.tableau[p := PileWithout(g.tableau[p], i)]);
      if Reveals(g.tableau[p], i) then MissionEvent(detached, RevealCard) else detached
    case None =>
      match FirstFaceDownTop(g.tableau, 0)
      case Some(p) => MissionEvent(AwardPoints(g.(tableau := g.tableau[p := FlipTop(g.tableau[p])]), 5), RevealCard)
      case None => g
  }

  /** `RemoveCard` on a card found in the waste. */
  lemma RemoveCardInWaste(g: Game, card: Card, i: nat)
    requires WellFormed(g) && FindCard(g.waste, g.tableau, Key(card)) == Some(InWaste(i))
    ensures i < |g.waste| && RemoveCard(g, card) == g.(waste := Without(g.waste, i))
  {
  }

  /** `RemoveCard` on a card found in a tableau pile. */
  lemma RemoveCardInTableau(g: Game, card: Card, p: nat, i: nat)
    requires WellFormed(g) && FindCard(g.waste, g.tableau, Key(card)) == Some(InTableau(p, i))
    ensures p < |g.tableau| && i < |g.tableau[p]|
    ensures var detached := g.(tableau := g.tableau[p := PileWithout(g.tableau[p], i)]);
      RemoveCard(g, card) == if Reveals(g.tableau[p], i) then MissionEvent(detached, RevealCard) else detached
  {
  }

  /** `RemoveCard` on a card found nowhere. */
  lemma RemoveCardMissing(g: Game, card: Card)
    requires WellFormed(g) && FindCard(g.waste, g.tableau, Key(card)).None?
    ensures RemoveCard(g, card) == match FirstFaceDownTop(g.tableau, 0)
      case Some(p) => MissionEvent(AwardPoints(g.(tableau := g.tableau[p := FlipTop(g.tableau[p])]), 5), RevealCard)
      case None => g
  {
  }

  /** Points and missions are not cards: changing them keeps every card identity. */
  lemma ScoreKeepsCards(g: Game, h: Game)
    requires WellFormed(g) && h == g.(score := h.score, missions := h.missions)
    ensures WellFormed(h) && GameBag(h) == GameBag(g)
  {
  }

  /** Taking a card out of the waste touches the waste only, and only that card. */
  lemma RemoveFromWaste(g: Game, card: Card, i: nat)
    requires WellFormed(g) && FindCard(g.waste, g.tableau, Key(card)) == Some(InWaste(i))
    ensures var r := RemoveCard(g, card);
      && r == g.(waste := r.waste)
      && i < |g.waste| && Key(g.waste[i]) == Key(card)
      && r.waste == g.waste[..i] + g.waste[i + 1..]
  {
  }

  /**
   * Taking a card out of tableau pile `p` changes that pile only (as
   * `PileWithout` says); a reveal is a mission event that pays no points of
   * its own, and without a reveal score and missions stay.
   */
  lemma RemoveFromTableau(g: Game, card: Card, p: nat, i: nat)
    requires WellFormed(g) && FindCard(g.waste, g.tableau, Key(card)) == Some(InTableau(p, i))
    ensures p < |g.tableau| && i < |g.tableau[p]| && Key(g.tableau[p][i]) == Key(card)
    ensures var r := RemoveCard(g, card);
      && r.deck == g.deck && r.waste == g.waste && r.foundations == g.foundations
      && r.tableau == g.tableau[p := PileWithout(g.tableau[p], i)]
      && (Reveals(g.tableau[p], i) ==>
            r.missions == AdvanceAll(g.missions, RevealCard)
            && r.score.points == g.score.points + RewardSum(g.missions, RevealCard))
      && (!Reveals(g.tableau[p], i) ==> r.missions == g.missions && r.score == g.score)
  {
  }

  /** When the card is not in the waste or the tableau, the first face-down pile top is turned up for 5 points. */
  lemma RemoveMissingCard(g: Game, card: Card)
    requires WellFormed(g) && FindCard(g.waste, g.tableau, Key(card)).None?
    ensures var r := RemoveCard(g, card);
      && r.deck == g.deck && r.waste == g.waste && r.foundations == g.foundations
      && ((forall p :: 0 <= p < |g.tableau| ==> !FaceDownTop(g.tableau, p)) ==> r == g)
      && (forall p :: FaceDownTop(g.tableau, p) && (forall q :: 0 <= q < p ==> !FaceDownTop(g.tableau, q)) ==>
            r.tableau == g.tableau[p := FlipTop(g.tableau[p])]
            && r.missions == AdvanceAll(g.missions, RevealCard)
            && r.score.points == g.score.points + 5 + RewardSum(g.missions, RevealCard))
  {
    forall p | FaceDownTop(g.tableau, p) && (forall q :: 0 <= q < p ==> !FaceDownTop(g.tableau, q))
      ensures FirstFaceDownTop(g.tableau, 0) == Some(p)
    {
    }
  }

  /** Replacing one tableau pile changes the game's cards by the difference between the two piles. */
  lemma ReplacePileBag(g: Game, p: nat, q: seq<Card>)
    requires WellFormed(g) && p < |g.tableau|
    ensures WellFormed(g.(tableau := g.tableau[p := q]))
    ensures GameBag(g.(tableau := g.tableau[p := q])) + KeyBag(g.tableau[p]) == GameBag(g) + KeyBag(q)
  {
    var h := g.(tableau := g.tableau[p := q]);
    TableauBagUpdate(g.tableau, p, q);
    var rest := KeyBag(g.deck) + KeyBag(g.waste) + FoundationBag(g.foundations);
    assert GameBag(h) == rest + TableauBag(g.tableau[p := q]);
    assert GameBag(g) == rest + TableauBag(g.tableau);
    AddToBoth(rest, TableauBag(g.tableau[p := q]), KeyBag(g.tableau[p]), TableauBag(g.tableau), KeyBag(q));
  }

  /** Taking card `i` out of the waste removes exactly its identity from the game. */
  lemma WasteRemovalConserves(g: Game, i: nat)
    requires WellFormed(g) && i < |g.waste|
    ensures WellFormed(g.(waste := Without(g.waste, i)))
    ensures GameBag(g.(waste := Without(g.waste, i))) + multiset{Key(g.waste[i])} == GameBag(g)
  {
    var r := g.(waste := Without(g.waste, i));
    KeyBagWithout(g.waste, i);
    var others := KeyBag(g.deck) + FoundationBag(g.foundations) + TableauBag(g.tableau);
    assert GameBag(r) == others + KeyBag(r.waste);
    assert GameBag(g) == others + KeyBag(g.waste);
    AddToBoth(others, KeyBag(r.waste), multiset{Key(g.waste[i])}, KeyBag(g.waste), multiset{});
  }

  /** Detaching card `i` of pile `p` removes exactly its identity from the game. */
  lemma PileRemovalConserves(g: Game, p: nat, i: nat)
    requires WellFormed(g) && p < |g.tableau| && i < |g.tableau[p]|
    ensures var detached := g.(tableau := g.tableau[p := PileWithout(g.tableau[p], i)]);
      WellFormed(detached) && GameBag(detached) + multiset{Key(g.tableau[p][i])} == GameBag(g)
  {
    var q := PileWithout(g.tableau[p], i);
    var detached := g.(tableau := g.tableau[p := q]);
    ReplacePileBag(g, p, q);
    TakeOut(GameBag(g), KeyBag(g.tableau[p]), KeyBag(q), multiset{Key(g.tableau[p][i])}, GameBag(detached));
  }

  /** When the card is found, detaching it removes exactly its identity from the game. */
  lemma RemoveCardConserves(g: Game, card: Card)
    requires WellFormed(g) && FindCard(g.waste, g.tableau, Key(card)).Some?
    ensures WellFormed(RemoveCard(g, card))
    ensures GameBag(RemoveCard(g, card)) + multiset{Key(card)} == GameBag(g)
  {
    match FindCard(g.waste, g.tableau, Key(card))
    case Some(InWaste(i)) =>
      RemoveCardInWaste(g, card, i);
      WasteRemovalConserves(g, i);
    case Some(InTableau(p, i)) =>
      RemoveCardInTableau(g, card, p, i);
      PileRemovalConserves(g, p, i);
      var detached := g.(tableau := g.tableau[p := PileWithout(g.tableau[p], i)]);
      if Reveals(g.tableau[p], i) {
        ScoreKeepsCards(detached, MissionEvent(detached, RevealCard));
      }
  }

  // ---------------------------------------------------------------------------
  // Moves

  /**
   * `tryMoveToFoundation`: legal when the card has the foundation's suit and the
   * foundation takes it; then the card is detached, pushed on the foundation,
   * 10 points are added and a foundation-move event follows.
   */
  function MoveToFoundation(g: Game, card: Card, suit: Suit): (r: (bool, Game))
    requires WellFormed(g)
    ensures r.0 <==> card.suit == suit && FoundationAccepts(g.foundations[suit], card)
    ensures !r.0 ==> r.1 == g
    ensures WellFormed(r.1)
  {
    var foundation := g.foundations[suit];
    if card.suit == suit && FoundationAccepts(foundation, card) then
      var detached := RemoveCard(g, card);
      var placed := detached.(foundations := detached.foundations[suit := foundation + [card]]);
      (true, MissionEvent(AwardPoints(placed, 10), FoundationMove))
    else (false, g)
  }

  /**
   * A successful foundation move puts the card on top of its foundation and
   * leaves the other foundations alone. Waste and tableau are as detaching the
   * card left them, and the points are those after detaching plus 10 plus the
   * rewards of the missions the foundation-move event completes.
   */
  lemma FoundationMoveEffect(g: Game, card: Card, suit: Suit)
    requires WellFormed(g) && MoveToFoundation(g, card, suit).0
    ensures var d := RemoveCard(g, card);
      var r := MoveToFoundation(g, card, suit).1;
      && r.foundations == g.foundations[suit := g.foundations[suit] + [card]]
      && Last(r.foundations[suit]) == card
      && r.deck == g.deck && r.waste == d.waste && r.tableau == d.tableau
      && r.missions == AdvanceAll(d.missions, FoundationMove)
      && r.score.points == d.score.points + 10 + RewardSum(d.missions, FoundationMove)
  {
  }

  /** From the waste, a foundation move adds 10 points plus the rewards of the missions it completes. */
  lemma FoundationMoveFromWaste(g: Game, card: Card, suit: Suit, i: nat)
    requires WellFormed(g) && MoveToFoundation(g, card, suit).0
    requires FindCard(g.waste, g.tableau, Key(card)) == Some(InWaste(i))
    ensures var r := MoveToFoundation(g, card, suit).1;
      && r.waste == g.waste[..i] + g.waste[i + 1..] && r.tableau == g.tableau
      && r.score.points == g.score.points + 10 + RewardSum(g.missions, FoundationMove)
  {
    FoundationMoveEffect(g, card, suit);
    RemoveFromWaste(g, card, i);
  }

  /** A successful foundation move of a card the game holds keeps every card identity. */
  lemma FoundationMoveConserves(g: Game, card: Card, suit: Suit)
    requires WellFormed(g) && FindCard(g.waste, g.tableau, Key(card)).Some?
    ensures WellFormed(MoveToFoundation(g, card, suit).1)
    ensures GameBag(MoveToFoundation(g, card, suit).1) == GameBag(g)
  {
    if MoveToFoundation(g, card, suit).0 {
      var detached := RemoveCard(g, card);
      RemoveCardConserves(g, card);
      FoundationBagPush(detached.foundations, suit, card);
    }
  }

  /** A foundation built only by legal moves holds its suit's Ace, 2, ... in order. */
  predicate OrderedFoundation(f: seq<Card>, s: Suit) {
    forall i :: 0 <= i < |f| ==> f[i].suit == s && f[i].value == i + 1
  }

  predicate OrderedFoundations(g: Game)
    requires WellFormed(g)
  {
    forall s: Suit :: OrderedFoundation(g.foundations[s], s)
  }

  lemma FoundationMoveKeepsOrder(g: Game, card: Card, suit: Suit)
    requires WellFormed(g) && OrderedFoundations(g)
    ensures WellFormed(MoveToFoundation(g, card, suit).1)
    ensures OrderedFoundations(MoveToFoundation(g, card, suit).1)
  {
    if MoveToFoundation(g, card, suit).0 {
      var f := g.foundations[suit];
      assert OrderedFoundation(f + [card], suit);
    }
  }

  /**
   * `tryMoveToTableau`: onto an empty pile only a King, for 5 points and a
   * king-move event; onto a pile, a card of the other colour one below its top,
   * for 2 points and a tableau-move event. The card is detached first and then
   * pushed on the pile as it is after the detaching.
   */
  function MoveToTableau(g: Game, card: Card, index: nat): (r: (bool, Game))
    requires WellFormed(g) && index < |g.tableau|
    ensures r.0 <==> TableauAccepts(g.tableau[index], card)
    ensures r.0 <==> ((|g.tableau[index]| == 0 && card.value == King)
                      || (|g.tableau[index]| > 0 && ColorOf(card.suit) != ColorOf(Last(g.tableau[index]).suit)
                          && card.value == Last(g.tableau[index]).value - 1))
    ensures !r.0 ==> r.1 == g
    ensures WellFormed(r.1)
  {
    var pile := g.tableau[index];
    if TableauAccepts(pile, card) then
      var detached := RemoveCard(g, card);
      var placed := detached.(tableau := detached.tableau[index := detached.tableau[index] + [card]]);
      if |pile| == 0 then (true, MissionEvent(AwardPoints(placed, 5), KingMove))
      else (true, MissionEvent(AwardPoints(placed, 2), TableauMove))
    else (false, g)
  }

  /**
   * A successful tableau move pushes the card on the target pile as detaching
   * left it, so the card is the new top; the points are those after detaching
   * plus 5 and a king-move event (onto an empty pile) or plus 2 and a
   * tableau-move event.
   */
  lemma TableauMoveEffect(g: Game, card: Card, index: nat)
    requires WellFormed(g) && index < |g.tableau| && MoveToTableau(g, card, index).0
    ensures var d := RemoveCard(g, card);
      var r := MoveToTableau(g, card, index).1;
      && index < |d.tableau|
      && r.tableau == d.tableau[index := d.tableau[index] + [card]]
      && Last(r.tableau[index]) == card
      && r.deck == g.deck && r.waste == d.waste && r.foundations == g.foundations
      && (|g.tableau[index]| == 0 ==>
            r.missions == AdvanceAll(d.missions, KingMove)
            && r.score.points == d.score.points + 5 + RewardSum(d.missions, KingMove))
      && (|g.tableau[index]| > 0 ==>
            r.missions == AdvanceAll(d.missions, TableauMove)
            && r.score.points == d.score.points + 2 + RewardSum(d.missions, TableauMove))
  {
  }

  /**
   * A successful tableau move of a waste card puts it on top of the target
   * pile and adds 5 points (onto an empty pile) or 2 points, plus the rewards
   * of the missions the event completes.
   */
  lemma TableauMoveFromWaste(g: Game, card: Card, index: nat)
    requires WellFormed(g) && index < |g.tableau| && MoveToTableau(g, card, index).0
    requires FindCard(g.waste, g.tableau, Key(card)).Some? && FindCard(g.waste, g.tableau, Key(card)).value.InWaste?
    ensures var r := MoveToTableau(g, card, index).1;
      && r.tableau == g.tableau[index := g.tableau[index] + [card]]
      && r.deck == g.deck && r.foundations == g.foundations
      && (|g.tableau[index]| == 0 ==>
            r.score.points == g.score.points + 5 + RewardSum(g.missions, KingMove))
      && (|g.tableau[index]| > 0 ==>
            r.score.points == g.score.points + 2 + RewardSum(g.missions, TableauMove))
  {
  }

  /**
   * Moving card `i` of pile `p` onto another pile `index`: pile `p` loses it
   * (turning up a face-down card left on top), pile `index` gains it on top, and
   * the points grow by the reveal rewards, if any, then 5 or 2 plus the rewards
   * of the move event, counted on the missions as the reveal left them.
   */
  lemma TableauMoveFromPile(g: Game, card: Card, index: nat, p: nat, i: nat)
    requires WellFormed(g) && index < |g.tableau| && MoveToTableau(g, card, index).0
    requires FindCard(g.waste, g.tableau, Key(card)) == Some(InTableau(p, i)) && p != index
    ensures p < |g.tableau| && i < |g.tableau[p]|
    ensures var r := MoveToTableau(g, card, index).1;
      var revealed := Reveals(g.tableau[p], i);
      var ms := if revealed then AdvanceAll(g.missions, RevealCard) else g.missions;
      var bonus := if revealed then RewardSum(g.missions, RevealCard) else 0;
      && r.tableau == g.tableau[p := PileWithout(g.tableau[p], i)][index := g.tableau[index] + [card]]
      && r.waste == g.waste
      && (|g.tableau[index]| == 0 ==> r.score.points == g.score.points + bonus + 5 + RewardSum(ms, KingMove))
      && (|g.tableau[index]| > 0 ==> r.score.points == g.score.points + bonus + 2 + RewardSum(ms, TableauMove))
  {
    RemoveFromTableau(g, card, p, i);
    TableauMoveEffect(g, card, index);
  }

  /** A successful tableau move of a card the game holds keeps every card identity. */
  lemma TableauMoveConserves(g: Game, card: Card, index: nat)
    requires WellFormed(g) && index < |g.tableau| && FindCard(g.waste, g.tableau, Key(card)).Some?
    ensures WellFormed(MoveToTableau(g, card, index).1)
    ensures GameBag(MoveToTableau(g, card, index).1) == GameBag(g)
  {
    if TableauAccepts(g.tableau[index], card) {
      var detached := RemoveCard(g, card);
      RemoveCardConserves(g, card);
      PileAppendBag(detached, index, card);
      var placed := detached.(tableau := detached.tableau[index := detached.tableau[index] + [card]]);
      ScoreKeepsCards(placed, MoveToTableau(g, card, index).1);
    }
  }

  /** A card pushed onto a pile is one more card in the game. */
  lemma PileAppendBag(g: Game, p: nat, c: Card)
    requires WellFormed(g) && p < |g.tableau|
    ensures var h := g.(tableau := g.tableau[p := g.tableau[p] + [c]]);
      WellFormed(h) && GameBag(h) == GameBag(g) + multiset{Key(c)}
  {
    var pile := g.tableau[p];
    var h := g.(tableau := g.tableau[p := pile + [c]]);
    ReplacePileBag(g, p, pile + [c]);
    KeyBagConcat(pile, [c]);
    assert KeyBag([c]) == multiset{Key(c)};
    PutIn(GameBag(g), KeyBag(pile), multiset{Key(c)}, GameBag(h));
  }

  // ---------------------------------------------------------------------------
  // Winning and the drop dispatch

  /** Every foundation holds 13 cards. */
  predicate AllFoundationsFull(g: Game)
    requires WellFormed(g)
  {
    forall s: Suit :: |g.foundations[s]| == 13
  }

  lemma AllFoundationsFullByName(g: Game)
    requires WellFormed(g)
    ensures AllFoundationsFull(g) <==> (|g.foundations[Hearts]| == 13 && |g.foundations[Diamonds]| == 13
                                        && |g.foundations[Clubs]| == 13 && |g.foundations[Spades]| == 13)
  {
    if |g.foundations[Hearts]| == 13 && |g.foundations[Diamonds]| == 13
      && |g.foundations[Clubs]| == 13 && |g.foundations[Spades]| == 13 {
      forall s: Suit ensures |g.foundations[s]| == 13 {
        match s
        case Hearts =>
        case Diamonds =>
        case Clubs =>
        case Spades =>
      }
    }
  }

  /**
   * `checkWinCondition`: when every foundation holds 13 cards, a win event
   * and then 100 bonus points, on every call that finds it so.
   */
  function CheckWin(g: Game): (r: (bool, Game))
    requires WellFormed(g)
    ensures r.0 <==> (|g.foundations[Hearts]| == 13 && |g.foundations[Diamonds]| == 13
                      && |g.foundations[Clubs]| == 13 && |g.foundations[Spades]| == 13)
    ensures r.0 ==> |FoundationBag(g.foundations)| == 52
    ensures !r.0 ==> r.1 == g
    ensures r.0 ==> r.1.score.points == g.score.points + RewardSum(g.missions, WinGame) + 100
    ensures r.0 ==> r.1.missions == AdvanceAll(g.missions, WinGame)
    ensures r.1.deck == g.deck && r.1.waste == g.waste && r.1.foundations == g.foundations && r.1.tableau == g.tableau
  {
    AllFoundationsFullByName(g);
    if AllFoundationsFull(g) then (true, AwardPoints(MissionEvent(g, WinGame), 100)) else (false, g)
  }

  /** The win bonus is not paid once: a second check of a won game pays it again. */
  lemma WinBonusRepeats(g: Game)
    requires WellFormed(g) && CheckWin(g).0
    ensures WellFormed(CheckWin(g).1) && CheckWin(CheckWin(g).1).0
    ensures CheckWin(CheckWin(g).1).1.score.points == g.score.points + 200
      + RewardSum(g.missions, WinGame) + RewardSum(AdvanceAll(g.missions, WinGame), WinGame)
  {
  }

  /** With foundations built by legal moves, a won game holds Ace to King of each suit. */
  lemma WonGameIsComplete(g: Game)
    requires WellFormed(g) && OrderedFoundations(g) && CheckWin(g).0
    ensures forall s: Suit, i :: 0 <= i < 13 ==> g.foundations[s][i].suit == s && g.foundations[s][i].value == i + 1
  {
    forall s: Suit ensures |g.foundations[s]| == 13 {
      match s
      case Hearts =>
      case Diamonds =>
      case Clubs =>
      case Spades =>
    }
  }

  /** Where a drag ends: a foundation, a tableau pile, or anywhere else. */
  datatype DropTarget = OnFoundation(suit: Suit) | OnTableau(index: nat) | Elsewhere

  /**
   * The move a drop of `card` asks for: onto a foundation only when it is the
   * one card dragged, onto a tableau pile always, and no move anywhere else.
   */
  function Place(g: Game, card: Card, target: DropTarget, single: bool): (r: Game)
    requires WellFormed(g)
    requires target.OnTableau? ==> target.index < |g.tableau|
    ensures WellFormed(r)
    ensures target.Elsewhere? || (target.OnFoundation? && !single) ==> r == g
    ensures target.OnFoundation? && single ==> r == MoveToFoundation(g, card, target.suit).1
    ensures target.OnTableau? ==> r == MoveToTableau(g, card, target.index).1
  {
    match target
    case OnFoundation(s) => if single then MoveToFoundation(g, card, s).1 else g
    case OnTableau(i) => MoveToTableau(g, card, i).1
    case Elsewhere => g
  }

  /**
   * The drop handler: the first dragged card is looked up; a single card may go
   * to a foundation, any drag to a tableau pile; the win check follows every
   * drop whose first card was found, even one that moved nothing.
   */
  function Drop(g: Game, dragged: seq<CardKey>, target: DropTarget): (r: Game)
    requires WellFormed(g)
    requires target.OnTableau? ==> target.index < |g.tableau|
    ensures |dragged| == 0 ==> r == g
    ensures |dragged| > 0 && FindCard(g.waste, g.tableau, dragged[0]).None? ==> r == g
    ensures (&& |dragged| > 0 && FindCard(g.waste, g.tableau, dragged[0]).Some?
             && (target.Elsewhere? || (target.OnFoundation? && |dragged| > 1))) ==> r == CheckWin(g).1
    ensures (&& |dragged| == 1 && FindCard(g.waste, g.tableau, dragged[0]).Some? && target.OnFoundation?)
            ==> var card := CardAt(g.waste, g.tableau, FindCard(g.waste, g.tableau, dragged[0]).value);
                r == CheckWin(MoveToFoundation(g, card, target.suit).1).1
    ensures (&& |dragged| > 0 && FindCard(g.waste, g.tableau, dragged[0]).Some? && target.OnTableau?)
            ==> var card := CardAt(g.waste, g.tableau, FindCard(g.waste, g.tableau, dragged[0]).value);
                r == CheckWin(MoveToTableau(g, card, target.index).1).1
  {
    if |dragged| == 0 then g
    else match FindCard(g.waste, g.tableau, dragged[0])
      case None => g
      case Some(loc) =>
        CheckWin(Place(g, CardAt(g.waste, g.tableau, loc), target, |dragged| == 1)).1
  }

  /** A drop never creates or loses a card. */
  lemma DropConserves(g: Game, dragged: seq<CardKey>, target: DropTarget)
    requires WellFormed(g)
    requires target.OnTableau? ==> target.index < |g.tableau|
    ensures WellFormed(Drop(g, dragged, target)) && GameBag(Drop(g, dragged, target)) == GameBag(g)
  {
    if |dragged| > 0 {
      match FindCard(g.waste, g.tableau, dragged[0])
      case None =>
      case Some(loc) =>
        var card := CardAt(g.waste, g.tableau, loc);
        assert Key(card) == dragged[0];
        match target
        case OnFoundation(s) => FoundationMoveConserves(g, card, s);
        case OnTableau(i) => TableauMoveConserves(g, card, i);
        case Elsewhere =>
    }
  }
}
