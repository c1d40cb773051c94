/**
 * Starting a game and a day: the 52 cards created in order, shuffled, and
 * dealt from the top of the deck into the seven tableau piles (row by row,
 * the first card of each row turned up); and the three daily missions drawn
 * from the catalog.
 */
module Setup {
  import opened Cards
  import opened Progression
  import opened Shuffle
  import opened Zones
  import opened Moves

  /** Cards dealt by the rows after row `i`: row `r` deals one card to each of the piles `r`..6. */
  function RowsAfter(i: nat): nat
    decreases TableauPiles - i
  {
    if i + 1 >= TableauPiles then 0 else (TableauPiles - i - 1) + RowsAfter(i + 1)
  }

  /** Cards still to deal when row `i` is at pile `j`: the rest of this row and the rows after it. */
  function Remaining(i: nat, j: nat): nat
    requires i <= TableauPiles && i <= j <= TableauPiles
  {
    if i == TableauPiles then 0 else (TableauPiles - j) + RowsAfter(i)
  }

  /** The deal can go on from row `i`, pile `j`: seven piles, and enough cards left in the deck. */
  predicate DealAt(deck: seq<Card>, tableau: seq<seq<Card>>, i: nat, j: nat) {
    |tableau| == TableauPiles && i <= TableauPiles && i <= j <= TableauPiles && |deck| >= Remaining(i, j)
  }

  /**
   * The deal of `initializeGame` from row `i`, pile `j` on: each step pops the
   * deck's top card and pushes it on pile `j`, turning it over when it opens
   * its row (`i == j`). Returns the deck and the piles after the deal.
   */
  function DealFrom(deck: seq<Card>, tableau: seq<seq<Card>>, i: nat, j: nat): (r: (seq<Card>, seq<seq<Card>>))
    requires DealAt(deck, tableau, i, j)
    ensures |r.0| == |deck| - Remaining(i, j) && |r.1| == TableauPiles
    decreases TableauPiles - i, TableauPiles - j
  {
    if i == TableauPiles then (deck, tableau)
    else if j == TableauPiles then DealFrom(deck, tableau, i + 1, i + 1)
    else
      var card := Last(deck);
      var dealt := if i == j then Flip(card) else card;
      DealFrom(deck[..|deck| - 1], tableau[j := tableau[j] + [dealt]], i, j + 1)
  }

  /**
   * One card of the deal: the deck's top card, `dealt` face up when it goes on
   * the row's own pile, is moved onto pile `j`.
   */
  lemma DealOneCard(deck: seq<Card>, tableau: seq<seq<Card>>, i: nat, j: nat,
                    dealt: Card, deck': seq<Card>, tableau': seq<seq<Card>>)
    requires DealAt(deck, tableau, i, j) && j < TableauPiles
    requires |deck| > 0 && dealt == (if i == j then Flip(deck[|deck| - 1]) else deck[|deck| - 1])
    requires deck' == deck[..|deck| - 1] && tableau' == tableau[j := tableau[j] + [dealt]]
    ensures DealAt(deck', tableau', i, j + 1)
    ensures DealFrom(deck, tableau, i, j) == DealFrom(deck', tableau', i, j + 1)
    ensures DealtBag(deck, tableau, i, j) == DealtBag(deck', tableau', i, j + 1)
  {
  }

  /** The deal takes 28 cards: 7 + 6 + ... + 1. */
  lemma DealSize()
    ensures Remaining(0, 0) == 28
  {
  }

  /** The end of a row of the deal: the next row starts at its own pile. */
  lemma DealRowEnd(deck: seq<Card>, tableau: seq<seq<Card>>, i: nat)
    requires DealAt(deck, tableau, i, TableauPiles) && i < TableauPiles
    ensures DealAt(deck, tableau, i + 1, i + 1)
    ensures DealFrom(deck, tableau, i, TableauPiles) == DealFrom(deck, tableau, i + 1, i + 1)
    ensures DealtBag(deck, tableau, i, TableauPiles) == DealtBag(deck, tableau, i + 1, i + 1)
  {
  }

  /** How many cards pile `q` holds when the deal is at row `i`, pile `j`. */
  function PileCount(q: nat, i: nat, j: nat): nat {
    if q < i then q + 1 else if q < j then i + 1 else i
  }

  /** The piles as the deal has built them so far: pile `q` shows its card of row `q` face up, all others face down. */
  predicate DealtSoFar(tableau: seq<seq<Card>>, i: nat, j: nat) {
    |tableau| == TableauPiles
    && forall q :: 0 <= q < TableauPiles ==>
      |tableau[q]| == PileCount(q, i, j)
      && forall r :: 0 <= r < |tableau[q]| ==> (tableau[q][r].faceUp <==> r == q)
  }

  predicate AllFaceDown(s: seq<Card>) {
    forall k :: 0 <= k < |s| ==> !s[k].faceUp
  }

  /** One step of the deal keeps the piles as the deal builds them. */
  lemma DealStep(tableau: seq<seq<Card>>, i: nat, j: nat, dealt: Card)
    requires i <= j < TableauPiles && DealtSoFar(tableau, i, j) && (dealt.faceUp <==> i == j)
    ensures DealtSoFar(tableau[j := tableau[j] + [dealt]], i, j + 1)
  {
    var t: seq<seq<Card>> := tableau[j := tableau[j] + [dealt]];
    forall q | 0 <= q < TableauPiles
      ensures |t[q]| == PileCount(q, i, j + 1)
      ensures forall r :: 0 <= r < |t[q]| ==> (t[q][r].faceUp <==> r == q)
    {
      if q == j {
        assert t[q] == tableau[j] + [dealt];
      }
    }
  }

  /** The end of a row is the start of the next one. */
  lemma RowEnd(tableau: seq<seq<Card>>, i: nat)
    requires i < TableauPiles && DealtSoFar(tableau, i, TableauPiles)
    ensures DealtSoFar(tableau, i + 1, i + 1)
  {
    forall q | 0 <= q < TableauPiles ensures PileCount(q, i, TableauPiles) == PileCount(q, i + 1, i + 1) {
    }
  }

  /** The deal takes its cards from the top of the deck: what is left is the bottom of it. */
  lemma {:induction false} DealFromDeck(deck: seq<Card>, tableau: seq<seq<Card>>, i: nat, j: nat)
    requires DealAt(deck, tableau, i, j)
    ensures DealFrom(deck, tableau, i, j).0 == deck[..|deck| - Remaining(i, j)]
    decreases TableauPiles - i, TableauPiles - j
  {
    if i == TableauPiles {
    } else if j == TableauPiles {
      DealFromDeck(deck, tableau, i + 1, i + 1);
    } else {
      var n := |deck| - 1;
      var dealt := if i == j then Flip(Last(deck)) else Last(deck);
      DealFromDeck(deck[..n], tableau[j := tableau[j] + [dealt]], i, j + 1);
      assert deck[..n][..n - Remaining(i, j + 1)] == deck[..|deck| - Remaining(i, j)];
    }
  }

  /** From a face-down deck, the deal completes the piles: pile `q` holds `q + 1` cards, only its top face up. */
  lemma {:induction false} DealFromPiles(deck: seq<Card>, tableau: seq<seq<Card>>, i: nat, j: nat)
    requires DealAt(deck, tableau, i, j) && AllFaceDown(deck) && DealtSoFar(tableau, i, j)
    ensures DealtSoFar(DealFrom(deck, tableau, i, j).1, TableauPiles, TableauPiles)
    decreases TableauPiles - i, TableauPiles - j
  {
    if i == TableauPiles {
    } else if j == TableauPiles {
      RowEnd(tableau, i);
      DealFromPiles(deck, tableau, i + 1, i + 1);
    } else {
      var n := |deck| - 1;
      var dealt := if i == j then Flip(Last(deck)) else Last(deck);
      DealStep(tableau, i, j, dealt);
      assert AllFaceDown(deck[..n]);
      DealFromPiles(deck[..n], tableau[j := tableau[j] + [dealt]], i, j + 1);
    }
  }

  /** The cards the deal starting at row `i`, pile `j` ends with, as one bag. */
  function DealtBag(deck: seq<Card>, tableau: seq<seq<Card>>, i: nat, j: nat): multiset<CardKey>
    requires DealAt(deck, tableau, i, j)
  {
    var r := DealFrom(deck, tableau, i, j);
    KeyBag(r.0) + TableauBag(r.1)
  }

  /** The deal moves cards from the deck to the piles and loses or adds none. */
  lemma {:induction false} DealFromKeys(deck: seq<Card>, tableau: seq<seq<Card>>, i: nat, j: nat)
    requires DealAt(deck, tableau, i, j)
    ensures DealtBag(deck, tableau, i, j) == KeyBag(deck) + TableauBag(tableau)
    decreases TableauPiles - i, TableauPiles - j
  {
    if i == TableauPiles {
      assert DealtBag(deck, tableau, i, j) == KeyBag(deck) + TableauBag(tableau);
    } else if j == TableauPiles {
      DealRowEnd(deck, tableau, i);
      DealFromKeys(deck, tableau, i + 1, i + 1);
      assert DealtBag(deck, tableau, i, j) == KeyBag(deck) + TableauBag(tableau);
    } else {
      var dealt := if i == j then Flip(Last(deck)) else Last(deck);
      var deck', tableau' := deck[..|deck| - 1], tableau[j := tableau[j] + [dealt]];
      DealOneCard(deck, tableau, i, j, dealt, deck', tableau');
      DealFromKeys(deck', tableau', i, j + 1);
      DealKeysStep(deck, tableau, j, dealt, deck', tableau');
      assert DealtBag(deck, tableau, i, j) == KeyBag(deck) + TableauBag(tableau);
    }
  }

  /**
   * One step of the deal on the bags: the deck without its top and the piles
   * with it hold the same identities as before.
   */
  lemma DealKeysStep(deck: seq<Card>, tableau: seq<seq<Card>>, j: nat, dealt: Card,
                     deck': seq<Card>, tableau': seq<seq<Card>>)
    requires |deck| > 0 && j < |tableau| && Key(dealt) == Key(Last(deck))
    requires deck' == deck[..|deck| - 1] && tableau' == tableau[j := tableau[j] + [dealt]]
    ensures KeyBag(deck') + TableauBag(tableau') == KeyBag(deck) + TableauBag(tableau)
  {
    DeckStepKeys(deck);
    PileStepKeys(tableau, j, dealt);
    MoveOne(KeyBag(deck'), TableauBag(tableau), TableauBag(tableau'), multiset{Key(dealt)});
  }

  /** One step of the deal, on the deck: it loses its top identity. */
  lemma DeckStepKeys(deck: seq<Card>)
    requires |deck| > 0
    ensures KeyBag(deck) == KeyBag(deck[..|deck| - 1]) + multiset{Key(Last(deck))}
  {
    var n := |deck| - 1;
    assert deck == deck[..n] + [Last(deck)];
    KeyBagConcat(deck[..n], [Last(deck)]);
  }

  /** One step of the deal, on the piles: pile `j` gains the dealt identity. */
  lemma PileStepKeys(tableau: seq<seq<Card>>, j: nat, dealt: Card)
    requires j < |tableau|
    ensures TableauBag(tableau[j := tableau[j] + [dealt]]) == TableauBag(tableau) + multiset{Key(dealt)}
  {
    TableauBagUpdate(tableau, j, tableau[j] + [dealt]);
    KeyBagConcat(tableau[j], [dealt]);
    PutIn(TableauBag(tableau), KeyBag(tableau[j]), multiset{Key(dealt)}, TableauBag(tableau[j := tableau[j] + [dealt]]));
  }

  /** Moving `x` from one bag to another keeps their sum. */
  lemma MoveOne<T>(a: multiset<T>, b: multiset<T>, b': multiset<T>, x: multiset<T>)
    requires b' == b + x
    ensures a + b' == (a + x) + b
  {
  }

  /**
   * `initializeGame` on `g`: the 52 new cards go on top of its deck, the deck
   * is shuffled, then 28 cards of it are dealt; waste, foundations, score and
   * missions stay.
   */
  function Deal(g: Game, picks: seq<int>): (r: Game)
    requires WellFormed(g) && ValidPicks(picks, |g.deck| + 52)
    ensures WellFormed(r) && |r.deck| == |g.deck| + 52 - 28
    ensures r.waste == g.waste && r.foundations == g.foundations
    ensures r.score == g.score && r.missions == g.missions
  {
    var shuffled := Shuffled(g.deck + StandardDeck(), picks);
    ShuffledPermutes(g.deck + StandardDeck(), picks);
    DealSize();
    var (d, t) := DealFrom(shuffled, g.tableau, 0, 0);
    g.(deck := d, tableau := t)
  }

  /** The deal adds the 52 new cards to the game's cards and loses none. */
  lemma DealAddsNewCards(g: Game, picks: seq<int>)
    requires WellFormed(g) && ValidPicks(picks, |g.deck| + 52)
    ensures GameBag(Deal(g, picks)) == GameBag(g) + FullBag()
  {
    var all := g.deck + StandardDeck();
    var shuffled := Shuffled(all, picks);
    ShuffledPermutes(all, picks);
    DealSize();
    DealFromKeys(shuffled, g.tableau, 0, 0);
    ShuffledKeyBag(all, picks);
    KeyBagConcat(g.deck, StandardDeck());
    var r := Deal(g, picks);
    assert KeyBag(r.deck) + TableauBag(r.tableau) == KeyBag(g.deck) + FullBag() + TableauBag(g.tableau);
    var rest := KeyBag(g.waste) + FoundationBag(g.foundations);
    assert GameBag(r) == KeyBag(r.deck) + TableauBag(r.tableau) + rest;
    assert GameBag(g) == KeyBag(g.deck) + TableauBag(g.tableau) + rest;
  }

  function EmptyFoundations(): (f: map<Suit, seq<Card>>)
    ensures forall s: Suit :: s in f && f[s] == []
  {
    var f := map[Hearts := [], Diamonds := [], Clubs := [], Spades := []];
    assert forall s: Suit :: s in f && f[s] == [] by {
      forall s: Suit ensures s in f && f[s] == [] {
        EverySuitListed(s);
      }
    }
    f
  }

  /** The zones and points as a new game clears them; high score and missions stay. */
  function Cleared(g: Game): (r: Game)
    ensures WellFormed(r)
  {
    g.(deck := [], waste := [], foundations := EmptyFoundations(),
       tableau := seq(TableauPiles, _ => []), score := g.score.(points := 0))
  }

  /** The 52 distinct cards of the game, one of each suit and value. */
  function FullBag(): multiset<CardKey> {
    KeyBag(StandardDeck())
  }

  /** A new game's deal works on the 52 new cards alone, shuffled. */
  lemma DealOfCleared(g: Game, picks: seq<int>)
    requires ValidPicks(picks, 52)
    ensures var c := Cleared(g);
      var dealt := DealFrom(Shuffled(StandardDeck(), picks), c.tableau, 0, 0);
      Deal(c, picks) == c.(deck := dealt.0, tableau := dealt.1)
  {
    assert Cleared(g).deck + StandardDeck() == StandardDeck();
  }

  /** The new cards are all face down, so their shuffle is too. */
  lemma ShuffledFaceDown(picks: seq<int>)
    requires ValidPicks(picks, 52)
    ensures AllFaceDown(Shuffled(StandardDeck(), picks))
  {
    var shuffled := Shuffled(StandardDeck(), picks);
    ShuffledPermutes(StandardDeck(), picks);
    StandardDeckComplete();
    forall k | 0 <= k < |shuffled| ensures !shuffled[k].faceUp {
      assert shuffled[k] in multiset(StandardDeck());
    }
  }

  /**
   * A new deal: 24 face-down cards left in the deck (the bottom 24 of the
   * shuffled order), an empty waste and foundations, pile `q` holding `q + 1`
   * cards with only its top face up, and every one of the 52 cards exactly
   * once. Points are 0; high score and missions are untouched.
   */
  lemma NewDeal(g: Game, picks: seq<int>)
    requires ValidPicks(picks, 52)
    ensures var r := Deal(Cleared(g), picks);
      && r.deck == Shuffled(StandardDeck(), picks)[..24]
      && AllFaceDown(r.deck) && r.waste == []
      && (forall s: Suit :: r.foundations[s] == [])
      && DealtSoFar(r.tableau, TableauPiles, TableauPiles)
      && GameBag(r) == FullBag()
      && r.score == Score(0, g.score.highScore) && r.missions == g.missions
  {
    var c := Cleared(g);
    var shuffled := Shuffled(StandardDeck(), picks);
    DealOfCleared(g, picks);
    ShuffledFaceDown(picks);
    assert DealtSoFar(c.tableau, 0, 0);
    assert Remaining(0, 0) == 28;
    DealFromDeck(shuffled, c.tableau, 0, 0);
    DealFromPiles(shuffled, c.tableau, 0, 0);
    DealFromKeys(shuffled, c.tableau, 0, 0);
    TableauBagEmpty(c.tableau);
    ShuffledKeyBag(StandardDeck(), picks);
    var r := Deal(c, picks);
    assert FoundationBag(r.foundations) == multiset{};
    assert GameBag(r) == KeyBag(r.deck) + TableauBag(r.tableau);
  }

  /** Seven empty piles hold no card. */
  lemma {:induction false} TableauBagEmpty(t: seq<seq<Card>>)
    requires forall q :: 0 <= q < |t| ==> t[q] == []
    ensures TableauBag(t) == multiset{}
    decreases |t|
  {
    if t != [] {
      TableauBagEmpty(t[..|t| - 1]);
    }
  }

  /** Shuffling cards and then taking their identities is shuffling the identities. */
  lemma {:induction false} ShuffleFromKeys(s: seq<Card>, picks: seq<int>, i: int)
    requires ValidPicks(picks, |s|) && i < |s|
    ensures Keys(ShuffleFrom(s, picks, i)) == ShuffleFrom(Keys(s), picks, i)
    decreases i
  {
    if i > 0 {
      assert Keys(Swap(s, i, picks[i])) == Swap(Keys(s), i, picks[i]);
      ShuffleFromKeys(Swap(s, i, picks[i]), picks, i - 1);
    }
  }

  /** A shuffle keeps every card identity. */
  lemma ShuffledKeyBag(s: seq<Card>, picks: seq<int>)
    requires ValidPicks(picks, |s|)
    ensures KeyBag(Shuffled(s, picks)) == KeyBag(s)
  {
    ShuffleFromKeys(s, picks, |s| - 1);
    ShuffledPermutes(Keys(s), picks);
  }

  // ---------------------------------------------------------------------------
  // Daily missions

  predicate DistinctKinds(ms: seq<Mission>) {
    forall a, b :: 0 <= a < b < |ms| ==> ms[a].kind != ms[b].kind
  }

  /** A shuffle of missions of distinct types keeps their types distinct. */
  lemma {:induction false} ShuffleFromKeepsDistinct(ms: seq<Mission>, picks: seq<int>, i: int)
    requires ValidPicks(picks, |ms|) && i < |ms| && DistinctKinds(ms)
    ensures DistinctKinds(ShuffleFrom(ms, picks, i))
    decreases i
  {
    if i > 0 {
      var swapped := Swap(ms, i, picks[i]);
      assert DistinctKinds(swapped) by {
        forall a, b | 0 <= a < b < |swapped| ensures swapped[a].kind != swapped[b].kind {
          var a' := if a == i then picks[i] else if a == picks[i] then i else a;
          var b' := if b == i then picks[i] else if b == picks[i] then i else b;
          assert swapped[a] == ms[a'] && swapped[b] == ms[b'];
          assert a' != b';
        }
      }
      ShuffleFromKeepsDistinct(swapped, picks, i - 1);
    }
  }

  /**
   * `generateNewMissions`: the catalog shuffled, first three kept. They are
   * three different catalog missions, of three different types, none started.
   */
  function DailyMissions(picks: seq<int>): (r: seq<Mission>)
    requires ValidPicks(picks, 5)
    ensures |r| == 3 && DistinctKinds(r)
    ensures forall k :: 0 <= k < 3 ==> r[k] in Catalog() && r[k].progress == 0
    ensures AllInBounds(r)
  {
    var c := Catalog();
    assert forall k :: 0 <= k < |c| ==> c[k].progress == 0 && InBounds(c[k]);
    FirstThreeOfShuffle(c, picks);
    Shuffled(c, picks)[..3]
  }

  /** The first three of a shuffle are three different members, of different types, with what all members share. */
  lemma FirstThreeOfShuffle(c: seq<Mission>, picks: seq<int>)
    requires ValidPicks(picks, |c|) && |c| >= 3 && DistinctKinds(c)
    requires forall k :: 0 <= k < |c| ==> c[k].progress == 0 && InBounds(c[k])
    ensures var ms := Shuffled(c, picks)[..3];
      && DistinctKinds(ms)
      && (forall k :: 0 <= k < 3 ==> ms[k] in c && ms[k].progress == 0)
      && AllInBounds(ms)
  {
    var shuffled := Shuffled(c, picks);
    ShuffledPermutes(c, picks);
    ShuffleFromKeepsDistinct(c, picks, |c| - 1);
    forall k | 0 <= k < 3 ensures shuffled[k] in c && shuffled[k].progress == 0 && InBounds(shuffled[k]) {
      assert shuffled[k] in multiset(c);
    }
  }
}
