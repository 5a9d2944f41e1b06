/** Playing cards: the textual card spec, the rank score and the rank-only
    comparison of `Card` in src/poker.py. */
module Cards {
  import opened Outcomes
  import opened Seqs

  datatype Suit = Spades | Hearts | Diamonds | Clubs

  /** A rank as its index in `Card.values`: Two is 0, Ace is 12. */
  type Score = i: int | 0 <= i < 13

  /** `Card.values`: the rank tokens, indexed by score. */
  const Values: seq<string> := ["2", "3", "4", "5", "6", "7", "8", "9", "10", "J", "Q", "K", "A"]

  /** The rank and suit of a card, without its identity. */
  datatype Face = Face(score: Score, suit: Suit)

  /** The suit letter a card spec uses (the keys of `Card.suits`). */
  function SuitChar(s: Suit): char {
    match s
    case Spades => 'S'
    case Hearts => 'H'
    case Diamonds => 'D'
    case Clubs => 'C'
  }

  function SuitOfChar(c: char): (r: Option<Suit>)
    ensures r.Some? ==> SuitChar(r.value) == c
  {
    if c == 'S' then Some(Spades)
    else if c == 'H' then Some(Hearts)
    else if c == 'D' then Some(Diamonds)
    else if c == 'C' then Some(Clubs)
    else None
  }

  /** The characters Python's `str.isspace` accepts, which is also what the
      regular-expression class `\s` and `str.split()` treat as whitespace. */
  predicate IsSpace(c: char) {
    ('\t' <= c <= '\r') || ('\U{1C}' <= c <= '\U{1F}') || c == ' '
    || c == '\U{85}' || c == '\U{A0}' || c == '\U{1680}'
    || ('\U{2000}' <= c <= '\U{200A}') || c == '\U{2028}' || c == '\U{2029}'
    || c == '\U{202F}' || c == '\U{205F}' || c == '\U{3000}'
  }

  predicate AllSpace(w: string) {
    forall i | 0 <= i < |w| :: IsSpace(w[i])
  }

  /** The rank token `[AJQK2-9]|10` at the start of `s`, as its score and its
      length. */
  function RankPrefix(s: string): (r: Option<(Score, nat)>)
    ensures r.Some? ==> r.value.1 == |Values[r.value.0]| <= |s|
  {
    if |s| >= 1 && '2' <= s[0] <= '9' then Some((s[0] as int - '2' as int, 1))
    else if |s| >= 1 && s[0] == 'J' then Some((9, 1))
    else if |s| >= 1 && s[0] == 'Q' then Some((10, 1))
    else if |s| >= 1 && s[0] == 'K' then Some((11, 1))
    else if |s| >= 1 && s[0] == 'A' then Some((12, 1))
    else if |s| >= 2 && s[0] == '1' && s[1] == '0' then Some((8, 2))
    else None
  }

  /** `Card.__init__`'s match of `^(?P<value>[AJQK2-9]|10)\s*(?P<suit>[HDSC])$`
      and its `Card.values.index` of the rank token. */
  function ParseCard(s: string): (r: Result<Face, Error>)
    ensures r.Err? ==> r.error == InvalidCardSpec
  {
    match RankPrefix(s)
    case None => Err(InvalidCardSpec)
    case Some((v, n)) =>
      if n < |s| && SuitOfChar(s[|s| - 1]).Some? && AllSpace(s[n..|s| - 1])
      then Ok(Face(v, SuitOfChar(s[|s| - 1]).value))
      else Err(InvalidCardSpec)
  }

  lemma RankPrefixOfToken(v: Score, rest: string)
    ensures RankPrefix(Values[v] + rest) == Some((v, |Values[v]|))
  {
    var s := Values[v] + rest;
    assert s[0] == Values[v][0];
    if v == 8 {
      assert s[1] == '0';
    }
  }

  lemma RankPrefixIsToken(s: string)
    requires RankPrefix(s).Some?
    ensures s[..RankPrefix(s).value.1] == Values[RankPrefix(s).value.0]
  {
  }

  /** Every spec of the grammar parses, to the rank and suit it spells:
      a rank token, any amount of whitespace, one suit letter. */
  lemma ParseCardComplete(v: Score, w: string, su: Suit)
    requires AllSpace(w)
    ensures ParseCard(Values[v] + w + [SuitChar(su)]) == Ok(Face(v, su))
  {
    var s := Values[v] + w + [SuitChar(su)];
    RankPrefixOfToken(v, w + [SuitChar(su)]);
    assert s == Values[v] + (w + [SuitChar(su)]);
    var n := |Values[v]|;
    assert s[n..|s| - 1] == w;
    assert s[|s| - 1] == SuitChar(su);
  }

  /** Only specs of the grammar parse: an accepted spec is the rank token of
      its score, then whitespace, then the letter of its suit. */
  lemma ParseCardSound(s: string)
    requires ParseCard(s).Ok?
    ensures var f, n := ParseCard(s).value, |Values[ParseCard(s).value.score]|;
      n < |s| && AllSpace(s[n..|s| - 1])
      && s == Values[f.score] + s[n..|s| - 1] + [SuitChar(f.suit)]
  {
    RankPrefixIsToken(s);
    var n := RankPrefix(s).value.1;
    assert s == s[..n] + s[n..|s| - 1] + [s[|s| - 1]];
  }

  /** Ten specs, valid and invalid, as the regular expression reads them. */
  lemma ParseCardExamples()
    ensures ParseCard("AS") == Ok(Face(12, Spades))
    ensures ParseCard("10S") == Ok(Face(8, Spades))
    ensures ParseCard("2 \tH") == Ok(Face(0, Hearts))
    ensures ParseCard("QD") == Ok(Face(10, Diamonds))
    ensures ParseCard("1S").Err? && ParseCard("1 0S").Err? && ParseCard("11S").Err?
    ensures ParseCard("AX").Err? && ParseCard("as").Err? && ParseCard("S").Err?
  {
  }

  class Card {
    /** `Card.score`: the index of the rank in `Values`. */
    const score: Score
    /** `Card.suit`. */
    const suit: Suit

    constructor (face: Face)
      ensures score == face.score && suit == face.suit
    {
      score := face.score;
      suit := face.suit;
    }

    function FaceOf(): Face {
      Face(score, suit)
    }

    /** `Card.value`: the rank token. */
    function Value(): string {
      Values[score]
    }

    /** `Card.__eq__`: rank equality; the suit plays no part. */
    predicate Equal(other: Card) {
      score == other.score
    }

    /** `Card.__lt__`: by rank only. */
    predicate Less(other: Card) {
      score < other.score
    }

    // The comparisons `functools.total_ordering` derives from `__lt__` and `__eq__`.
    predicate LessOrEqual(other: Card) {
      Less(other) || Equal(other)
    }

    predicate Greater(other: Card) {
      !Less(other) && !Equal(other)
    }

    predicate GreaterOrEqual(other: Card) {
      !Less(other)
    }
  }

  /** The key `sorted` orders cards by (`Card.__lt__`). */
  function CardScore(c: Card): int { c.score }

  function CardFace(c: Card): Face { c.FaceOf() }

  /** The rank and suit of each card of a pile, in order. */
  function Faces(cs: seq<Card>): seq<Face> { Map(cs, CardFace) }

  /** `Card(s)`: a fresh card object for a valid spec, `ValueError` otherwise. */
  method NewCard(spec: string) returns (r: Result<Card, Error>)
    ensures r.Ok? <==> ParseCard(spec).Ok?
    ensures r.Ok? ==> fresh(r.value) && r.value.FaceOf() == ParseCard(spec).value
    ensures r.Err? ==> r.error == InvalidCardSpec
  {
    match ParseCard(spec)
    case Ok(face) =>
      var card := new Card(face);
      r := Ok(card);
    case Err(e) =>
      r := Err(e);
  }

  /** Formatting a card as `value + suit` and parsing it again gives back its
      rank and suit. */
  lemma ReparseCard(c: Card)
    ensures ParseCard(c.Value() + [SuitChar(c.suit)]) == Ok(c.FaceOf())
  {
    ParseCardComplete(c.score, [], c.suit);
    assert c.Value() + [] + [SuitChar(c.suit)] == c.Value() + [SuitChar(c.suit)];
  }

  /** Card comparison is a strict weak order on ranks: exactly one of
      `a < b`, `a == b`, `b < a` holds, `==` ignores the suit, and the
      derived comparisons agree with the ranks. */
  lemma CardComparisonByRank(a: Card, b: Card, c: Card)
    ensures a.Equal(b) <==> a.score == b.score
    ensures (a.Less(b) && !a.Equal(b) && !b.Less(a))
         || (!a.Less(b) && a.Equal(b) && !b.Less(a))
         || (!a.Less(b) && !a.Equal(b) && b.Less(a))
    ensures a.Less(b) && b.Less(c) ==> a.Less(c)
    ensures a.Equal(b) && b.Equal(c) ==> a.Equal(c)
    ensures a.Greater(b) <==> b.Less(a)
    ensures a.GreaterOrEqual(b) <==> b.LessOrEqual(a)
  {
  }

  /** The single-card checks of the test script: `AS == AD`, `AS != KS`,
      `AS > KS` and `not AS < KS`. */
  lemma TestScriptCards(aceSpades: Card, aceDiamonds: Card, kingSpades: Card)
    requires aceSpades.FaceOf() == ParseCard("AS").value
    requires aceDiamonds.FaceOf() == ParseCard("AD").value
    requires kingSpades.FaceOf() == ParseCard("KS").value
    ensures aceSpades.Equal(aceDiamonds)
    ensures !aceSpades.Equal(kingSpades)
    ensures aceSpades.Greater(kingSpades) && !aceSpades.Less(kingSpades)
  {
  }
}
