/**
 * The saved game: every zone as a list of plain card records, the points and
 * the moment of saving. Saving and loading go through `SerializeCards` and
 * `DeserializeCards`; the high score and the missions are not part of it.
 */
module Codec {
  import opened Wrappers
  import opened Cards
  import opened Progression
  import opened Zones

  /** A card as it is written out: suit, value and orientation. */
  datatype CardRecord = CardRecord(suit: Suit, value: int, faceUp: bool)

  /** `serializeCards`: one record per card, in order. */
  function SerializeCards(cards: seq<Card>): (r: seq<CardRecord>)
    ensures |r| == |cards|
    ensures forall i :: 0 <= i < |cards| ==>
      r[i].suit == cards[i].suit && r[i].value == cards[i].value && r[i].faceUp == cards[i].faceUp
  {
    seq(|cards|, i requires 0 <= i < |cards| => CardRecord(cards[i].suit, cards[i].value, cards[i].faceUp))
  }

  /** A card rebuilt from its record: created face down, then turned over when the record says face up. */
  function Rebuild(rec: CardRecord): (c: Card)
    ensures c == Card(rec.suit, rec.value, rec.faceUp)
  {
    var created := NewCard(rec.suit, rec.value);
    if rec.faceUp then Flip(created) else created
  }

  /** `deserializeCards`. */
  function DeserializeCards(records: seq<CardRecord>): (r: seq<Card>)
    ensures |r| == |records|
    ensures forall i :: 0 <= i < |records| ==> r[i] == Rebuild(records[i])
  {
    seq(|records|, i requires 0 <= i < |records| => Rebuild(records[i]))
  }

  /** Reading back what was written gives the same cards, orientation included. */
  lemma CardsRoundTrip(cards: seq<Card>)
    ensures DeserializeCards(SerializeCards(cards)) == cards
  {
    var back := DeserializeCards(SerializeCards(cards));
    assert forall i :: 0 <= i < |cards| ==> back[i] == cards[i];
  }

  /** Writing out what was read gives the same records. */
  lemma RecordsRoundTrip(records: seq<CardRecord>)
    ensures SerializeCards(DeserializeCards(records)) == records
  {
    var back := SerializeCards(DeserializeCards(records));
    assert forall i :: 0 <= i < |records| ==> back[i] == records[i];
  }

  /** The saved game state. */
  datatype Snapshot = Snapshot(
    deck: seq<CardRecord>,
    waste: seq<CardRecord>,
    hearts: seq<CardRecord>,
    diamonds: seq<CardRecord>,
    clubs: seq<CardRecord>,
    spades: seq<CardRecord>,
    tableau: seq<seq<CardRecord>>,
    points: int,
    timestamp: int)

  /** Every pile of a tableau reads back from its records unchanged. */
  lemma PilesRoundTrip(tableau: seq<seq<Card>>)
    ensures forall i :: 0 <= i < |tableau| ==> DeserializeCards(SerializeCards(tableau[i])) == tableau[i]
  {
    forall i | 0 <= i < |tableau| ensures DeserializeCards(SerializeCards(tableau[i])) == tableau[i] {
      CardsRoundTrip(tableau[i]);
    }
  }

  /** Every list of records of a saved tableau is written back out unchanged. */
  lemma PileRecordsRoundTrip(tableau: seq<seq<CardRecord>>)
    ensures forall i :: 0 <= i < |tableau| ==> SerializeCards(DeserializeCards(tableau[i])) == tableau[i]
  {
    forall i | 0 <= i < |tableau| ensures SerializeCards(DeserializeCards(tableau[i])) == tableau[i] {
      RecordsRoundTrip(tableau[i]);
    }
  }

  /**
   * `saveGameState`: the zones and points of `g`, stamped with the time `now`.
   * Every zone of the snapshot reads back as the zone it was written from.
   */
  function Capture(g: Game, now: int): (snap: Snapshot)
    requires WellFormed(g)
    ensures DeserializeCards(snap.deck) == g.deck && DeserializeCards(snap.waste) == g.waste
    ensures DeserializeCards(snap.hearts) == g.foundations[Hearts]
    ensures DeserializeCards(snap.diamonds) == g.foundations[Diamonds]
    ensures DeserializeCards(snap.clubs) == g.foundations[Clubs]
    ensures DeserializeCards(snap.spades) == g.foundations[Spades]
    ensures |snap.tableau| == |g.tableau|
    ensures forall i :: 0 <= i < |g.tableau| ==> DeserializeCards(snap.tableau[i]) == g.tableau[i]
    ensures snap.points == g.score.points && snap.timestamp == now
  {
    CardsRoundTrip(g.deck);
    CardsRoundTrip(g.waste);
    CardsRoundTrip(g.foundations[Hearts]);
    CardsRoundTrip(g.foundations[Diamonds]);
    CardsRoundTrip(g.foundations[Clubs]);
    CardsRoundTrip(g.foundations[Spades]);
    PilesRoundTrip(g.tableau);
    Snapshot(
      SerializeCards(g.deck), SerializeCards(g.waste),
      SerializeCards(g.foundations[Hearts]), SerializeCards(g.foundations[Diamonds]),
      SerializeCards(g.foundations[Clubs]), SerializeCards(g.foundations[Spades]),
      seq(|g.tableau|, i requires 0 <= i < |g.tableau| => SerializeCards(g.tableau[i])),
      g.score.points, now)
  }

  /**
   * The zones and points of `g` replaced by those of `snap`; the high score and
   * the missions are kept. Every restored zone writes back out as the records
   * it was read from, and every suit has a foundation.
   */
  function Restore(g: Game, snap: Snapshot): (r: Game)
    ensures SerializeCards(r.deck) == snap.deck && SerializeCards(r.waste) == snap.waste
    ensures forall s: Suit :: s in r.foundations
    ensures SerializeCards(r.foundations[Hearts]) == snap.hearts
    ensures SerializeCards(r.foundations[Diamonds]) == snap.diamonds
    ensures SerializeCards(r.foundations[Clubs]) == snap.clubs
    ensures SerializeCards(r.foundations[Spades]) == snap.spades
    ensures |r.tableau| == |snap.tableau|
    ensures forall i :: 0 <= i < |snap.tableau| ==> SerializeCards(r.tableau[i]) == snap.tableau[i]
    ensures r.score == g.score.(points := snap.points) && r.missions == g.missions
  {
    RecordsRoundTrip(snap.deck);
    RecordsRoundTrip(snap.waste);
    RecordsRoundTrip(snap.hearts);
    RecordsRoundTrip(snap.diamonds);
    RecordsRoundTrip(snap.clubs);
    RecordsRoundTrip(snap.spades);
    PileRecordsRoundTrip(snap.tableau);
    var foundations := map[Hearts := DeserializeCards(snap.hearts), Diamonds := DeserializeCards(snap.diamonds),
                           Clubs := DeserializeCards(snap.clubs), Spades := DeserializeCards(snap.spades)];
    assert forall s: Suit :: s in foundations by {
      forall s: Suit ensures s in foundations {
        EverySuitListed(s);
      }
    }
    g.(deck := DeserializeCards(snap.deck),
       waste := DeserializeCards(snap.waste),
       foundations := foundations,
       tableau := seq(|snap.tableau|, i requires 0 <= i < |snap.tableau| => DeserializeCards(snap.tableau[i])),
       score := g.score.(points := snap.points))
  }

  /**
   * Loading a snapshot of `g` into any game `h` gives back the zones and points
   * of `g`, and keeps the high score and missions of `h`.
   */
  lemma SaveThenRestore(h: Game, g: Game, now: int)
    requires WellFormed(g)
    ensures Restore(h, Capture(g, now)) == g.(score := h.score.(points := g.score.points), missions := h.missions)
  {
    var r := Restore(h, Capture(g, now));
    assert r.tableau == g.tableau;
    forall s: Suit ensures r.foundations[s] == g.foundations[s] {
      match s
      case Hearts =>
      case Diamonds =>
      case Clubs =>
      case Spades =>
    }
    assert r.foundations.Keys == g.foundations.Keys;
    assert r.foundations == g.foundations;
  }

  /** A restored snapshot of seven piles is a well-formed game. */
  lemma RestoreWellFormed(g: Game, snap: Snapshot)
    requires |snap.tableau| == TableauPiles
    ensures WellFormed(Restore(g, snap))
  {
  }

  /**
   * `loadGameState`: nothing saved, or a save more than a day old at `now`,
   * loads nothing (and the stale save is discarded); otherwise the saved
   * zones and points are restored.
   */
  function Load(g: Game, saved: Option<Snapshot>, now: int): (r: (bool, Game))
    ensures !r.0 ==> r.1 == g
    ensures r.0 <==> saved.Some? && !IsStale(now, saved.value.timestamp)
    ensures r.0 ==> r.1 == Restore(g, saved.value)
  {
    match saved
    case None => (false, g)
    case Some(snap) => if IsStale(now, snap.timestamp) then (false, g) else (true, Restore(g, snap))
  }

  /**
   * A save of `g` loaded within a day into any game `h` succeeds and restores
   * the zones and points of `g`; loaded into `g` itself, it gives back `g`.
   */
  lemma SaveThenLoad(h: Game, g: Game, saved: int, now: int)
    requires WellFormed(g) && saved <= now <= saved + DayMillis
    ensures Load(h, Some(Capture(g, saved)), now) == (true, g.(score := h.score.(points := g.score.points), missions := h.missions))
    ensures Load(g, Some(Capture(g, saved)), now) == (true, g)
  {
    SaveThenRestore(h, g, saved);
    SaveThenRestore(g, g, saved);
  }
}
