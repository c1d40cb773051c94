/**
 * The zones of a game and the searches over them. Every zone is a sequence of
 * cards whose top is its last element: the draw pile (`deck`), the `waste`,
 * one foundation per suit, and seven tableau piles.
 */
module Zones {
  import opened Wrappers
  import opened Cards
  import opened Progression

  /** The whole game state, as the engine object holds it. */
  datatype Game = Game(
    deck: seq<Card>,
    waste: seq<Card>,
    foundations: map<Suit, seq<Card>>,
    tableau: seq<seq<Card>>,
    score: Score,
    missions: seq<Mission>)

  const TableauPiles := 7

  /** Four foundations, one per suit, and seven tableau piles. */
  predicate WellFormed(g: Game) {
    (forall s: Suit :: s in g.foundations) && |g.tableau| == TableauPiles
  }

  function Last<T>(s: seq<T>): T
    requires |s| > 0
  {
    s[|s| - 1]
  }

  /** `s` with position `i` taken out; the other elements keep their order. */
  function Without<T>(s: seq<T>, i: nat): (r: seq<T>)
    requires i < |s|
    ensures |r| == |s| - 1
    ensures forall j :: 0 <= j < i ==> r[j] == s[j]
    ensures forall j :: i <= j < |r| ==> r[j] == s[j + 1]
  {
    s[..i] + s[i + 1..]
  }

  // ---------------------------------------------------------------------------
  // Card identities held by a zone, counted with multiplicity

  function Keys(s: seq<Card>): (r: seq<CardKey>)
    ensures |r| == |s|
    ensures forall i :: 0 <= i < |s| ==> r[i] == Key(s[i])
  {
    seq(|s|, i requires 0 <= i < |s| => Key(s[i]))
  }

  function KeyBag(s: seq<Card>): multiset<CardKey> {
    multiset(Keys(s))
  }

  lemma KeyBagConcat(a: seq<Card>, b: seq<Card>)
    ensures KeyBag(a + b) == KeyBag(a) + KeyBag(b)
  {
    assert Keys(a + b) == Keys(a) + Keys(b);
  }

  lemma KeyBagWithout(s: seq<Card>, i: nat)
    requires i < |s|
    ensures KeyBag(Without(s, i)) + multiset{Key(s[i])} == KeyBag(s)
  {
    assert s == s[..i] + [s[i]] + s[i + 1..];
    KeyBagConcat(s[..i], [s[i]]);
    KeyBagConcat(s[..i] + [s[i]], s[i + 1..]);
    KeyBagConcat(s[..i], s[i + 1..]);
  }

  /** Turning the top card over. */
  function FlipTop(pile: seq<Card>): (r: seq<Card>)
    requires |pile| > 0
    ensures |r| == |pile| && r[..|r| - 1] == pile[..|pile| - 1]
    ensures Last(r) == Flip(Last(pile))
    ensures KeyBag(r) == KeyBag(pile)
  {
    var r := pile[..|pile| - 1] + [Flip(Last(pile))];
    assert Keys(r) == Keys(pile);
    r
  }

  /** The identities in the tableau piles. */
  function TableauBag(t: seq<seq<Card>>): multiset<CardKey>
  {
    if t == [] then multiset{} else TableauBag(t[..|t| - 1]) + KeyBag(Last(t))
  }

  lemma {:induction false} TableauBagUpdate(t: seq<seq<Card>>, p: nat, q: seq<Card>)
    requires p < |t|
    ensures TableauBag(t[p := q]) + KeyBag(t[p]) == TableauBag(t) + KeyBag(q)
  {
    var n := |t| - 1;
    var u := t[p := q];
    if p == n {
      assert u[..n] == t[..n];
      calc {
        TableauBag(u) + KeyBag(t[p]);
        TableauBag(t[..n]) + KeyBag(q) + KeyBag(t[n]);
        TableauBag(t) + KeyBag(q);
      }
    } else {
      assert u[..n] == t[..n][p := q];
      TableauBagUpdate(t[..n], p, q);
      calc {
        TableauBag(u) + KeyBag(t[p]);
        TableauBag(t[..n][p := q]) + KeyBag(t[..n][p]) + KeyBag(t[n]);
        TableauBag(t[..n]) + KeyBag(q) + KeyBag(t[n]);
        TableauBag(t) + KeyBag(q);
      }
    }
  }

  /** The same bag added to both sides of an equation. */
  lemma AddToBoth<T>(rest: multiset<T>, a: multiset<T>, x: multiset<T>, b: multiset<T>, y: multiset<T>)
    requires a + x == b + y
    ensures rest + a + x == rest + b + y
  {
    assert rest + a + x == rest + (a + x);
    assert rest + b + y == rest + (b + y);
  }

  /** Taking `x` out of a part of a whole takes `x` out of the whole. */
  lemma TakeOut<T>(whole: multiset<T>, part: multiset<T>, rest: multiset<T>, x: multiset<T>, newWhole: multiset<T>)
    requires newWhole + part == whole + rest && rest + x == part
    ensures newWhole + x == whole
  {
    forall e ensures (newWhole + x)[e] == whole[e] {
      assert (newWhole + part)[e] == (whole + rest)[e];
      assert (rest + x)[e] == part[e];
    }
  }

  /** Adding `x` to a part of a whole adds `x` to the whole. */
  lemma PutIn<T>(whole: multiset<T>, part: multiset<T>, x: multiset<T>, newWhole: multiset<T>)
    requires newWhole + part == whole + (part + x)
    ensures newWhole == whole + x
  {
    forall e ensures newWhole[e] == (whole + x)[e] {
      assert (newWhole + part)[e] == (whole + (part + x))[e];
    }
  }

  /** The identities on the four foundations. */
  function FoundationBag(f: map<Suit, seq<Card>>): multiset<CardKey>
    requires forall s: Suit :: s in f
  {
    KeyBag(f[Hearts]) + KeyBag(f[Diamonds]) + KeyBag(f[Clubs]) + KeyBag(f[Spades])
  }

  lemma FoundationBagPush(f: map<Suit, seq<Card>>, s: Suit, c: Card)
    requires forall x: Suit :: x in f
    ensures FoundationBag(f[s := f[s] + [c]]) == FoundationBag(f) + multiset{Key(c)}
  {
    KeyBagConcat(f[s], [c]);
  }

  /** Every card identity in the game, counted with multiplicity. */
  function GameBag(g: Game): multiset<CardKey>
    requires WellFormed(g)
  {
    KeyBag(g.deck) + KeyBag(g.waste) + FoundationBag(g.foundations) + TableauBag(g.tableau)
  }

  // ---------------------------------------------------------------------------
  // Searches

  /** Where `findCard` locates a card. */
  datatype Location = InWaste(index: nat) | InTableau(pile: nat, index: nat)

  predicate Holds(s: seq<Card>, k: CardKey) {
    exists i :: 0 <= i < |s| && Key(s[i]) == k
  }

  /** The first position at or after `from` that holds `k`. */
  function IndexFrom(s: seq<Card>, k: CardKey, from: nat): (r: Option<nat>)
    requires from <= |s|
    ensures r.None? <==> forall i :: from <= i < |s| ==> Key(s[i]) != k
    ensures r.Some? ==> from <= r.value < |s| && Key(s[r.value]) == k
    ensures r.Some? ==> forall i :: from <= i < r.value ==> Key(s[i]) != k
    decreases |s| - from
  {
    if from == |s| then None
    else if Key(s[from]) == k then Some(from)
    else IndexFrom(s, k, from + 1)
  }

  /** `indexOf` / `findIndex` by identity: the first position holding `k`. */
  function IndexOf(s: seq<Card>, k: CardKey): (r: Option<nat>)
    ensures r.None? <==> !Holds(s, k)
    ensures r.Some? ==> r.value < |s| && Key(s[r.value]) == k
    ensures r.Some? ==> forall i :: 0 <= i < r.value ==> Key(s[i]) != k
  {
    IndexFrom(s, k, 0)
  }

  /** The first tableau pile at or after `p` that holds `k`, and the first position in it. */
  function FindInTableau(t: seq<seq<Card>>, k: CardKey, p: nat): (r: Option<Location>)
    requires p <= |t|
    ensures r.None? <==> forall q :: p <= q < |t| ==> !Holds(t[q], k)
    ensures r.Some? ==> r.value.InTableau? && p <= r.value.pile < |t|
    ensures r.Some? ==> var loc := r.value;
      && loc.index < |t[loc.pile]| && Key(t[loc.pile][loc.index]) == k
      && (forall i :: 0 <= i < loc.index ==> Key(t[loc.pile][i]) != k)
      && (forall q :: p <= q < loc.pile ==> !Holds(t[q], k))
    decreases |t| - p
  {
    if p == |t| then None
    else match IndexOf(t[p], k)
      case Some(i) => Some(InTableau(p, i))
      case None => FindInTableau(t, k, p + 1)
  }

  /** Whether `loc` points at a card of the zones. */
  predicate ValidLocation(waste: seq<Card>, tableau: seq<seq<Card>>, loc: Location) {
    match loc
    case InWaste(i) => i < |waste|
    case InTableau(p, i) => p < |tableau| && i < |tableau[p]|
  }

  function CardAt(waste: seq<Card>, tableau: seq<seq<Card>>, loc: Location): Card
    requires ValidLocation(waste, tableau, loc)
  {
    match loc
    case InWaste(i) => waste[i]
    case InTableau(p, i) => tableau[p][i]
  }

  /**
   * `findCard`: the first card with identity `k` in the whole waste (not only
   * its top), otherwise the first one in the first tableau pile holding it.
   * Foundations and the deck are not searched.
   */
  function FindCard(waste: seq<Card>, tableau: seq<seq<Card>>, k: CardKey): (r: Option<Location>)
    ensures r.None? <==> !Holds(waste, k) && forall q :: 0 <= q < |tableau| ==> !Holds(tableau[q], k)
    ensures r.Some? ==> ValidLocation(waste, tableau, r.value) && Key(CardAt(waste, tableau, r.value)) == k
    ensures r.Some? && r.value.InWaste? ==> forall i :: 0 <= i < r.value.index ==> Key(waste[i]) != k
    ensures r.Some? && r.value.InTableau? ==> var loc := r.value;
      && !Holds(waste, k)
      && (forall i :: 0 <= i < loc.index ==> Key(tableau[loc.pile][i]) != k)
      && (forall q :: 0 <= q < loc.pile ==> !Holds(tableau[q], k))
  {
    match IndexOf(waste, k)
    case Some(i) => Some(InWaste(i))
    case None => FindInTableau(tableau, k, 0)
  }

  /** Pile `p`, position `i` is where the tableau search meets identity `k` first. */
  predicate FirstInTableau(t: seq<seq<Card>>, k: CardKey, p: int, i: int) {
    && 0 <= p < |t| && 0 <= i && i < |t[p]| && Key(t[p][i]) == k
    && (forall q :: 0 <= q < p ==> !Holds(t[q], k))
    && (forall j :: 0 <= j < i ==> Key(t[p][j]) != k)
  }

  lemma FindInTableauFirst(t: seq<seq<Card>>, k: CardKey)
    ensures forall p, i :: FirstInTableau(t, k, p, i) ==> FindInTableau(t, k, 0) == Some(InTableau(p, i))
  {
    forall p, i | FirstInTableau(t, k, p, i) ensures FindInTableau(t, k, 0) == Some(InTableau(p, i)) {
      assert Holds(t[p], k);
    }
  }

  /**
   * `findStackFromCard`: for a card in a tableau pile, the identities of the
   * card and every card above it in that pile; for any other card, the card
   * alone.
   */
  function FindStackFromCard(t: seq<seq<Card>>, k: CardKey): (r: seq<CardKey>)
    ensures |r| >= 1 && r[0] == k
    ensures (forall q :: 0 <= q < |t| ==> !Holds(t[q], k)) ==> r == [k]
    ensures forall p, i :: FirstInTableau(t, k, p, i) ==> r == Keys(t[p][i..])
  {
    FindInTableauFirst(t, k);
    match FindInTableau(t, k, 0)
    case Some(loc) => Keys(t[loc.pile][loc.index..])
    case None => [k]
  }
}
