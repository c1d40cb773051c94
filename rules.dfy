/**
 * The placement rules and the read-only queries built on them: can a card go
 * to a foundation or to a tableau pile, is any move left, and which moves to
 * suggest as hints.
 */
module Rules {
  import opened Cards
  import opened Zones

  /** A foundation takes an Ace when empty, otherwise the value one above its top. */
  predicate FoundationAccepts(f: seq<Card>, c: Card) {
    (|f| == 0 && c.value == 1) || (|f| > 0 && c.value == Last(f).value + 1)
  }

  /** A tableau pile takes a King when empty, otherwise a card of the other colour one below its top. */
  predicate TableauAccepts(pile: seq<Card>, c: Card) {
    if |pile| == 0 then c.value == 13
    else IsAlternatingColor(c, Last(pile)) && c.value == Last(pile).value - 1
  }

  lemma OnlyAceStartsFoundation(c: Card)
    ensures FoundationAccepts([], c) <==> c.value == Ace
  {
  }

  lemma OnlyKingStartsPile(c: Card)
    ensures TableauAccepts([], c) <==> c.value == King
  {
  }

  /** `canMoveToFoundation`: the foundation of the card's own suit accepts it. */
  function CanMoveToFoundation(f: map<Suit, seq<Card>>, c: Card): (r: bool)
    requires forall s: Suit :: s in f
    ensures r <==> ((|f[c.suit]| == 0 && c.value == Ace)
                    || (|f[c.suit]| > 0 && c.value == Last(f[c.suit]).value + 1))
  {
    FoundationAccepts(f[c.suit], c)
  }

  /** Scans piles `from`.. for one other than `current` that accepts `c`. */
  function CanMoveToTableauFrom(t: seq<seq<Card>>, c: Card, current: int, from: nat): (r: bool)
    requires from <= |t|
    ensures r <==> exists i :: from <= i < |t| && i != current && TableauAccepts(t[i], c)
    decreases |t| - from
  {
    if from == |t| then false
    else if from != current && TableauAccepts(t[from], c) then true
    else CanMoveToTableauFrom(t, c, current, from + 1)
  }

  /**
   * `canMoveToTableau`: some tableau pile other than `current` accepts `c`
   * (the waste passes -1, which skips no pile).
   */
  function CanMoveToTableau(t: seq<seq<Card>>, c: Card, current: int): (r: bool)
    ensures r <==> exists i :: 0 <= i < |t| && i != current && TableauAccepts(t[i], c)
  {
    CanMoveToTableauFrom(t, c, current, 0)
  }

  // ---------------------------------------------------------------------------
  // checkAvailableMoves

  /** The top of the waste can go somewhere. */
  predicate WasteCanMove(g: Game)
    requires WellFormed(g)
  {
    |g.waste| > 0 && (CanMoveToFoundation(g.foundations, Last(g.waste)) || CanMoveToTableau(g.tableau, Last(g.waste), -1))
  }

  /** Card `j` of pile `i` is face up and can go to a foundation or to another pile. */
  predicate CardCanMove(g: Game, i: int, j: int)
    requires WellFormed(g)
  {
    && 0 <= i < |g.tableau| && 0 <= j < |g.tableau[i]|
    && g.tableau[i][j].faceUp
    && (CanMoveToFoundation(g.foundations, g.tableau[i][j]) || CanMoveToTableau(g.tableau, g.tableau[i][j], i))
  }

  /** Pile `i` shows a face-down top card. */
  predicate FaceDownTop(t: seq<seq<Card>>, i: int) {
    0 <= i < |t| && |t[i]| > 0 && !Last(t[i]).faceUp
  }

  /** Scans pile `i` from position `j` down to the bottom. */
  function AnyCardMoveInPile(g: Game, i: nat, j: int): (r: bool)
    requires WellFormed(g) && i < |g.tableau| && -1 <= j < |g.tableau[i]|
    ensures r <==> exists k :: 0 <= k <= j && CardCanMove(g, i, k)
    decreases j + 1
  {
    if j < 0 then false
    else if CardCanMove(g, i, j) then true
    else AnyCardMoveInPile(g, i, j - 1)
  }

  /** Scans piles `i`.. for a face-up card that can move. */
  function AnyCardMoveFrom(g: Game, i: nat): (r: bool)
    requires WellFormed(g) && i <= |g.tableau|
    ensures r <==> exists p, k :: i <= p < |g.tableau| && CardCanMove(g, p, k)
    decreases |g.tableau| - i
  {
    if i == |g.tableau| then false
    else if AnyCardMoveInPile(g, i, |g.tableau[i]| - 1) then true
    else AnyCardMoveFrom(g, i + 1)
  }

  /** Scans piles `i`.. for a face-down top card. */
  function AnyFaceDownTopFrom(t: seq<seq<Card>>, i: nat): (r: bool)
    requires i <= |t|
    ensures r <==> exists p :: i <= p < |t| && FaceDownTop(t, p)
    decreases |t| - i
  {
    if i == |t| then false
    else if FaceDownTop(t, i) then true
    else AnyFaceDownTopFrom(t, i + 1)
  }

  /**
   * `checkAvailableMoves`: the waste top can move, or ANY face-up tableau card
   * (not only a pile's top) can go to a foundation or another pile, or a pile
   * shows a face-down top, or the deck is not empty.
   */
  function CheckAvailableMoves(g: Game): (r: bool)
    requires WellFormed(g)
    ensures r <==> || WasteCanMove(g)
                   || (exists p, k :: CardCanMove(g, p, k))
                   || (exists p :: FaceDownTop(g.tableau, p))
                   || |g.deck| > 0
    ensures |g.deck| > 0 ==> r
  {
    if WasteCanMove(g) then true
    else if AnyCardMoveFrom(g, 0) then true
    else if AnyFaceDownTopFrom(g.tableau, 0) then true
    else |g.deck| > 0
  }

  // ---------------------------------------------------------------------------
  // getHint

  /** A hint the game can offer, in place of its text. */
  datatype Hint =
    | WasteToFoundation(card: Card)
    | WasteToTableau(card: Card)
    | TableauToFoundation(card: Card, pile: nat)
    | TableauToTableau(card: Card, pile: nat)
    | DrawFromDeck
    | ResetDeck
    | NoMovesLeft

  predicate IsMove(h: Hint) {
    h.WasteToFoundation? || h.WasteToTableau? || h.TableauToFoundation? || h.TableauToTableau?
  }

  /** The move a hint names can be made in `g`. */
  predicate HintHolds(g: Game, h: Hint)
    requires WellFormed(g)
  {
    match h
    case WasteToFoundation(c) => |g.waste| > 0 && c == Last(g.waste) && CanMoveToFoundation(g.foundations, c)
    case WasteToTableau(c) => |g.waste| > 0 && c == Last(g.waste) && CanMoveToTableau(g.tableau, c, -1)
    case TableauToFoundation(c, p) =>
      p < |g.tableau| && |g.tableau[p]| > 0 && c == Last(g.tableau[p]) && c.faceUp
      && CanMoveToFoundation(g.foundations, c)
    case TableauToTableau(c, p) =>
      p < |g.tableau| && |g.tableau[p]| > 0 && c == Last(g.tableau[p]) && c.faceUp
      && CanMoveToTableau(g.tableau, c, p)
    case _ => false
  }

  function WasteHints(g: Game): (r: seq<Hint>)
    requires WellFormed(g)
    ensures forall h :: h in r ==> (h.WasteToFoundation? || h.WasteToTableau?) && HintHolds(g, h)
  {
    if |g.waste| == 0 then []
    else
      var top := Last(g.waste);
      (if CanMoveToFoundation(g.foundations, top) then [WasteToFoundation(top)] else [])
      + (if CanMoveToTableau(g.tableau, top, -1) then [WasteToTableau(top)] else [])
  }

  /** Hints for the face-up tops of piles `i`.. */
  function TableauHints(g: Game, i: nat): (r: seq<Hint>)
    requires WellFormed(g) && i <= |g.tableau|
    ensures forall h :: h in r ==> (h.TableauToFoundation? || h.TableauToTableau?) && HintHolds(g, h) && h.pile >= i
    ensures forall p :: i <= p < |g.tableau| && |g.tableau[p]| > 0 && Last(g.tableau[p]).faceUp ==>
      (CanMoveToFoundation(g.foundations, Last(g.tableau[p])) ==> TableauToFoundation(Last(g.tableau[p]), p) in r)
      && (CanMoveToTableau(g.tableau, Last(g.tableau[p]), p) ==> TableauToTableau(Last(g.tableau[p]), p) in r)
    decreases |g.tableau| - i
  {
    if i == |g.tableau| then []
    else
      var pile := g.tableau[i];
      var here :=
        if |pile| == 0 || !Last(pile).faceUp then []
        else
          (if CanMoveToFoundation(g.foundations, Last(pile)) then [TableauToFoundation(Last(pile), i)] else [])
          + (if CanMoveToTableau(g.tableau, Last(pile), i) then [TableauToTableau(Last(pile), i)] else []);
      here + TableauHints(g, i + 1)
  }

  /** What the game suggests when no move is found: draw, else recycle, else a new game. */
  function Fallback(g: Game): Hint {
    if |g.deck| > 0 then DrawFromDeck else if |g.waste| > 0 then ResetDeck else NoMovesLeft
  }

  /**
   * The candidates `getHint` picks one from at random: every legal move of the
   * waste top and of each face-up pile top, or the single fallback when there
   * is none.
   */
  function HintCandidates(g: Game): (r: seq<Hint>)
    requires WellFormed(g)
    ensures |r| > 0
    ensures forall h :: h in r && IsMove(h) ==> HintHolds(g, h)
    ensures (exists h :: h in r && IsMove(h)) ==> forall h :: h in r ==> IsMove(h)
    ensures (forall h :: h in r ==> !IsMove(h)) ==> r == [Fallback(g)]
    ensures |g.waste| > 0 && CanMoveToFoundation(g.foundations, Last(g.waste)) ==> WasteToFoundation(Last(g.waste)) in r
    ensures |g.waste| > 0 && CanMoveToTableau(g.tableau, Last(g.waste), -1) ==> WasteToTableau(Last(g.waste)) in r
    ensures forall p :: 0 <= p < |g.tableau| && |g.tableau[p]| > 0 && Last(g.tableau[p]).faceUp ==>
      (CanMoveToFoundation(g.foundations, Last(g.tableau[p])) ==> TableauToFoundation(Last(g.tableau[p]), p) in r)
      && (CanMoveToTableau(g.tableau, Last(g.tableau[p]), p) ==> TableauToTableau(Last(g.tableau[p]), p) in r)
  {
    var moves := WasteHints(g) + TableauHints(g, 0);
    if |moves| > 0 then
      assert moves[0] in moves;
      moves
    else [Fallback(g)]
  }

  /** Every move hint is a move `checkAvailableMoves` also finds. */
  lemma HintMovesAreAvailable(g: Game, h: Hint)
    requires WellFormed(g)
    requires h in HintCandidates(g) && IsMove(h)
    ensures CheckAvailableMoves(g)
  {
    if h.TableauToFoundation? || h.TableauToTableau? {
      assert CardCanMove(g, h.pile, |g.tableau[h.pile]| - 1);
    }
  }

  /** When the game is stuck, the hint shown is to recycle the waste, or to start a new game. */
  lemma StuckHint(g: Game)
    requires WellFormed(g)
    requires !CheckAvailableMoves(g)
    ensures HintCandidates(g) == [if |g.waste| > 0 then ResetDeck else NoMovesLeft]
  {
    var r := HintCandidates(g);
    forall h | h in r ensures !IsMove(h) {
      if IsMove(h) {
        HintMovesAreAvailable(g, h);
      }
    }
  }
}
