/**
 * The card model of the game: a suit, a value (Ace = 1 ... King = 13) and an
 * orientation. Suit and value never change once a card exists; `Flip` toggles
 * the orientation.
 */
module Cards {
  import opened Wrappers

  datatype Suit = Hearts | Diamonds | Clubs | Spades

  /** The four suits in the order the game builds its deck. */
  const Suits: seq<Suit> := [Hearts, Diamonds, Clubs, Spades]

  lemma EverySuitListed(s: Suit)
    ensures s in Suits
  {
    match s
    case Hearts =>
    case Diamonds =>
    case Clubs =>
    case Spades =>
  }

  const Ace := 1
  const King := 13

  datatype Card = Card(suit: Suit, value: int, faceUp: bool)

  /** What the game searches cards by: suit and value, never orientation. */
  datatype CardKey = CardKey(suit: Suit, value: int)

  function Key(c: Card): CardKey {
    CardKey(c.suit, c.value)
  }

  /** A card as the game creates it: face down. */
  function NewCard(suit: Suit, value: int): (c: Card)
    ensures Key(c) == CardKey(suit, value) && !c.faceUp
  {
    Card(suit, value, false)
  }

  /** Turn a card over. */
  function Flip(c: Card): (r: Card)
    ensures Key(r) == Key(c)
    ensures r.faceUp != c.faceUp
  {
    c.(faceUp := !c.faceUp)
  }

  lemma FlipTwice(c: Card)
    ensures Flip(Flip(c)) == c
  {
  }

  datatype Color = Red | Black

  /** The colour printed on a card of suit `s`. */
  function ColorOf(s: Suit): Color {
    match s
    case Hearts => Red
    case Diamonds => Red
    case Clubs => Black
    case Spades => Black
  }

  /** The game's colour rule: true when exactly one of the two cards has a red suit. */
  function IsAlternatingColor(a: Card, b: Card): (r: bool)
    ensures r <==> ColorOf(a.suit) != ColorOf(b.suit)
    ensures r ==> a.suit != b.suit
  {
    var redSuits := {Hearts, Diamonds};
    (a.suit in redSuits) != (b.suit in redSuits)
  }

  // ---------------------------------------------------------------------------
  // Display values

  function DigitChar(d: nat): (c: char)
    requires d < 10
    ensures '0' <= c <= '9'
  {
    (48 + d) as char
  }

  /** Decimal digits of `n`, most significant first, without leading zeros. */
  function NatToString(n: nat): (s: string)
    ensures |s| > 0
    ensures forall i :: 0 <= i < |s| ==> '0' <= s[i] <= '9'
    ensures n >= 10 ==> s[0] != '0'
  {
    if n < 10 then [DigitChar(n)] else NatToString(n / 10) + [DigitChar(n % 10)]
  }

  /** The decimal text of an integer, with a leading '-' when it is negative. */
  function IntToString(v: int): string {
    if v < 0 then "-" + NatToString(-v) else NatToString(v)
  }

  /** The text shown in a card's corner: A, J, Q, K for 1, 11, 12, 13, otherwise the decimal value. */
  function DisplayValue(v: int): (s: string)
    ensures |s| > 0
    ensures v == 1 ==> s == "A"
    ensures v == 11 ==> s == "J"
    ensures v == 12 ==> s == "Q"
    ensures v == 13 ==> s == "K"
    ensures 2 <= v <= 10 ==> s == NatToString(v)
  {
    if v == 1 then "A"
    else if v == 11 then "J"
    else if v == 12 then "Q"
    else if v == 13 then "K"
    else IntToString(v)
  }

  /** Reads back a string of decimal digits. */
  function ParseNat(s: string): Option<nat>
  {
    if |s| == 0 || !('0' <= s[|s| - 1] <= '9') then None
    else
      var d := s[|s| - 1] as int - 48;
      if |s| == 1 then Some(d)
      else match ParseNat(s[..|s| - 1])
        case None => None
        case Some(p) => Some(p * 10 + d)
  }

  /** Reads a display value back to the card value it shows. */
  function ParseDisplayValue(s: string): Option<int> {
    if s == "A" then Some(1)
    else if s == "J" then Some(11)
    else if s == "Q" then Some(12)
    else if s == "K" then Some(13)
    else if |s| > 0 && s[0] == '-' then
      match ParseNat(s[1..])
      case None => None
      case Some(n) => Some(-(n as int))
    else
      match ParseNat(s)
      case None => None
      case Some(n) => Some(n)
  }

  lemma {:induction false} ParseNatToString(n: nat)
    ensures ParseNat(NatToString(n)) == Some(n)
  {
    if n >= 10 {
      var s := NatToString(n);
      assert s[..|s| - 1] == NatToString(n / 10);
      ParseNatToString(n / 10);
    }
  }

  /** Different values are displayed differently: the display text determines the value. */
  lemma DisplayValueRoundTrip(v: int)
    ensures ParseDisplayValue(DisplayValue(v)) == Some(v)
  {
    var s := DisplayValue(v);
    if v !in {1, 11, 12, 13} {
      if v < 0 {
        var n := NatToString(-v);
        assert s == "-" + n;
        assert s[0] == '-' && s[1..] == n;
        assert s != "A" && s != "J" && s != "Q" && s != "K" by {
          assert '0' <= n[0] <= '9';
          assert |s| >= 2;
        }
        ParseNatToString(-v);
      } else {
        assert s == NatToString(v);
        assert '0' <= s[0] <= '9';
        assert s != "A" && s != "J" && s != "Q" && s != "K" by {
          assert s[0] != 'A' && s[0] != 'J' && s[0] != 'Q' && s[0] != 'K';
        }
        ParseNatToString(v);
      }
    }
  }

  // ---------------------------------------------------------------------------
  // The standard deck

  /** The 52 cards in the order the game creates them: each suit of `Suits`, values 1..13, all face down. */
  function StandardDeck(): (d: seq<Card>)
    ensures |d| == 52
    ensures forall i :: 0 <= i < 52 ==> d[i] == NewCard(Suits[i / 13], i % 13 + 1)
  {
    seq(52, i requires 0 <= i < 52 => NewCard(Suits[i / 13], i % 13 + 1))
  }

  /** The standard deck holds every (suit, 1..13) exactly once, face down. */
  lemma StandardDeckComplete()
    ensures forall i :: 0 <= i < 52 ==> !StandardDeck()[i].faceUp && 1 <= StandardDeck()[i].value <= 13
    ensures forall i, j :: 0 <= i < j < 52 ==> Key(StandardDeck()[i]) != Key(StandardDeck()[j])
    ensures forall k: CardKey :: 1 <= k.value <= 13 ==> exists i :: 0 <= i < 52 && Key(StandardDeck()[i]) == k
  {
    var d := StandardDeck();
    forall k: CardKey | 1 <= k.value <= 13 ensures exists i :: 0 <= i < 52 && Key(d[i]) == k {
      var s := match k.suit case Hearts => 0 case Diamonds => 1 case Clubs => 2 case Spades => 3;
      var i := 13 * s + k.value - 1;
      assert i / 13 == s && i % 13 == k.value - 1;
      assert Key(d[i]) == k;
    }
  }
}
