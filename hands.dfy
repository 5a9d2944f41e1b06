/** `Hand` of src/poker.py: five cards kept in ascending rank order, their
    category, the order on hands, and the exchange of cards with a deck. */
module Hands {
  import opened Outcomes
  import opened Seqs
  import opened Cards
  import opened Ranking
  import opened Decks

  // ---------------------------------------------------------------------
  // `str.split()` with no separator.

  predicate NoSpace(w: string) {
    forall i | 0 <= i < |w| :: !IsSpace(w[i])
  }

  /** The length of the run of non-whitespace that starts `s`. */
  function WordLength(s: string): (n: nat)
    requires s != [] && !IsSpace(s[0])
    ensures 1 <= n <= |s| && (n < |s| ==> IsSpace(s[n]))
    ensures NoSpace(s[..n])
    decreases |s|
  {
    if |s| == 1 || IsSpace(s[1]) then 1 else 1 + WordLength(s[1..])
  }

  /** The words of `s`: its maximal runs of non-whitespace, in order. */
  function Split(s: string): (words: seq<string>)
    ensures forall i | 0 <= i < |words| :: words[i] != [] && NoSpace(words[i])
    decreases |s|
  {
    if s == [] then []
    else if IsSpace(s[0]) then Split(s[1..])
    else
      var n := WordLength(s);
      [s[..n]] + Split(s[n..])
  }

  /** `' '.join(words)`. */
  function JoinSpaced(words: seq<string>): string {
    if words == [] then []
    else if |words| == 1 then words[0]
    else words[0] + " " + JoinSpaced(words[1..])
  }

  lemma WordLengthOf(w: string, t: string)
    requires w != [] && NoSpace(w) && (t == [] || IsSpace(t[0]))
    ensures WordLength(w + t) == |w|
    decreases |w|
  {
    if |w| > 1 {
      assert (w + t)[1..] == w[1..] + t;
      WordLengthOf(w[1..], t);
    }
  }

  /** Splitting words joined by single spaces gives the words back. */
  lemma {:induction false} SplitJoin(words: seq<string>)
    requires forall i | 0 <= i < |words| :: words[i] != [] && NoSpace(words[i])
    ensures Split(JoinSpaced(words)) == words
  {
    if words != [] {
      var w := words[0];
      if |words| == 1 {
        SplitWord(w);
      } else {
        SplitWordThen(w, JoinSpaced(words[1..]));
        SplitJoin(words[1..]);
        assert words == [w] + words[1..];
      }
    }
  }

  /** A single word splits into itself. */
  lemma SplitWord(w: string)
    requires w != [] && NoSpace(w)
    ensures Split(w) == [w]
  {
    WordLengthOf(w, []);
    assert w + [] == w;
    assert w[|w|..] == [];
  }

  /** A word followed by a space splits off as the first word. */
  lemma SplitWordThen(w: string, rest: string)
    requires w != [] && NoSpace(w)
    ensures Split(w + " " + rest) == [w] + Split(rest)
  {
    var s := w + " " + rest;
    assert s == w + (" " + rest);
    WordLengthOf(w, " " + rest);
    assert s[..|w|] == w;
    assert s[|w|..] == " " + rest;
    assert (" " + rest)[1..] == rest;
  }

  /** Whitespace before the first word changes nothing. */
  lemma {:induction false} SplitSkipsSpace(w: string, s: string)
    requires forall i | 0 <= i < |w| :: IsSpace(w[i])
    ensures Split(w + s) == Split(s)
  {
    if w != [] {
      assert (w + s)[0] == w[0] && IsSpace(w[0]) && (w + s)[1..] == w[1..] + s;
      assert forall i | 0 <= i < |w[1..]| :: w[1..][i] == w[i + 1];
      SplitSkipsSpace(w[1..], s);
    } else {
      assert w + s == s;
    }
  }

  // ---------------------------------------------------------------------
  // Building a hand.

  /** An element of the list `Hand.__init__` takes: a card, kept as it is, or
      a spec to parse. */
  datatype CardArg = Given(card: Card) | Spec(text: string)

  function SpecArg(text: string): CardArg { Spec(text) }

  predicate Parses(a: CardArg) {
    a.Spec? ==> ParseCard(a.text).Ok?
  }

  /** `c` is what the comprehension makes of `a`: the card itself, or a
      card with the parsed rank and suit. */
  predicate MadeFrom(a: CardArg, c: Card) {
    match a
    case Given(card) => c == card
    case Spec(text) => ParseCard(text) == Ok(c.FaceOf())
  }

  /** `[card if isinstance(card, Card) else Card(card) for card in cards]`:
      the first spec that does not parse raises. */
  method CardsOf(args: seq<CardArg>) returns (r: Result<seq<Card>, Error>)
    ensures r.Ok? <==> forall i | 0 <= i < |args| :: Parses(args[i])
    ensures r.Err? ==> r.error == InvalidCardSpec
    ensures r.Ok? ==>
      (|r.value| == |args|
       && (forall i | 0 <= i < |args| :: MadeFrom(args[i], r.value[i]))
       && (forall i | 0 <= i < |args| && args[i].Spec? :: fresh(r.value[i])))
  {
    var made: seq<Card> := [];
    var i := 0;
    while i < |args|
      invariant 0 <= i <= |args| && |made| == i
      invariant forall k | 0 <= k < i :: Parses(args[k]) && MadeFrom(args[k], made[k])
      invariant forall k | 0 <= k < i && args[k].Spec? :: fresh(made[k])
    {
      match args[i] {
        case Given(card) =>
          made := made + [card];
        case Spec(text) =>
          var c := NewCard(text);
          if c.Err? {
            return Err(InvalidCardSpec);
          }
          made := made + [c.value];
      }
      i := i + 1;
    }
    return Ok(made);
  }

  /** Cards in ascending rank order have faces in ascending rank order. */
  lemma SortedFaces(cs: seq<Card>)
    requires SortedBy(cs, CardScore)
    ensures SortedBy(Faces(cs), FaceScore)
  {
    var fs := Faces(cs);
    forall i, j | 0 <= i < j < |fs| ensures FaceScore(fs[i]) <= FaceScore(fs[j]) {
      assert CardScore(cs[i]) <= CardScore(cs[j]);
    }
  }

  // ---------------------------------------------------------------------
  // Exchanging cards with a deck.

  /** How the exchange finds the held card to give up: `list.remove` takes
      the first card equal to the named one, and `Card.__eq__` compares
      ranks; the corrected exchange takes the named card object itself. */
  datatype Removal = ByRank | ByIdentity

  predicate Matches(mode: Removal, held: Card, named: Card) {
    match mode
    case ByRank => held.Equal(named)
    case ByIdentity => held == named
  }

  /** The position `list.remove` removes: the first match. */
  function FirstMatch(mode: Removal, s: seq<Card>, x: Card): (r: Option<nat>)
    ensures r.Some? ==>
      (r.value < |s| && Matches(mode, s[r.value], x)
       && forall k | 0 <= k < r.value :: !Matches(mode, s[k], x))
    ensures r.None? ==> forall k | 0 <= k < |s| :: !Matches(mode, s[k], x)
  {
    if s == [] then None
    else if Matches(mode, s[0], x) then Some(0)
    else match FirstMatch(mode, s[1..], x)
      case None => None
      case Some(i) => Some(i + 1)
  }

  /** The hand's cards, the deck's draw pile and its discard pile. */
  datatype Piles = Piles(held: seq<Card>, draw: seq<Card>, discard: seq<Card>)

  function AllCards(p: Piles): seq<Card> {
    p.held + p.draw + p.discard
  }

  /** The piles where the exchange loop stopped, and the exception that
      stopped it, if any. */
  datatype Outcome = Outcome(piles: Piles, error: Option<Error>)

  /** `s` without its `i`-th card. */
  function Without(s: seq<Card>, i: nat): seq<Card>
    requires i < |s|
  {
    s[..i] + s[i + 1..]
  }

  /** One whole step: the `i`-th held card leaves the hand, `x` goes on the
      discard pile and the top card of the draw pile joins the hand. */
  function Swap(p: Piles, i: nat, x: Card): Piles
    requires i < |p.held| && p.draw != []
  {
    Piles(Without(p.held, i) + [p.draw[|p.draw| - 1]], p.draw[..|p.draw| - 1], p.discard + [x])
  }

  /** The loop of `Hand.exchange`, one named card at a time: remove a
      matching held card (`CardNotHeld` if there is none), discard the named
      card (`CardInDeck` if it is in the draw pile), then draw a card into
      the hand (`EmptyDeck` if there is none). A failed step keeps what the
      steps before it, and its own completed part, did. */
  function Steps(mode: Removal, p: Piles, named: seq<Card>): Outcome
    decreases |named|
  {
    if named == [] then Outcome(p, None)
    else
      var x := named[0];
      match FirstMatch(mode, p.held, x)
      case None => Outcome(p, Some(CardNotHeld))
      case Some(i) =>
        if x in p.draw then Outcome(p.(held := Without(p.held, i)), Some(CardInDeck))
        else if p.draw == [] then Outcome(Piles(Without(p.held, i), [], p.discard + [x]), Some(EmptyDeck))
        else Steps(mode, Swap(p, i, x), named[1..])
  }

  /** Comparing ranks position by position is comparing the rank sequences. */
  lemma RanksAgree(a: seq<Card>, b: seq<Card>)
    requires |a| == |b|
    ensures (forall i | 0 <= i < |a| :: a[i].score == b[i].score) <==> Scores(Faces(a)) == Scores(Faces(b))
  {
    if forall i | 0 <= i < |a| :: a[i].score == b[i].score {
      assert forall i | 0 <= i < |a| :: Scores(Faces(a))[i] == a[i].score;
    } else {
      var i :| 0 <= i < |a| && a[i].score != b[i].score;
      assert Scores(Faces(a))[i] != Scores(Faces(b))[i];
    }
  }

  class Hand {
    /** `Hand._cards`. */
    var cards: seq<Card>

    /** What every way of building a hand leaves: five cards in ascending
        rank order. */
    ghost predicate Valid()
      reads this
    {
      |cards| == 5 && SortedBy(cards, CardScore)
    }

    /** `self._cards = sorted(cards)` once the length check has passed. */
    constructor (cs: seq<Card>)
      requires |cs| == 5
      ensures cards == SortBy(cs, CardScore)
      ensures Valid() && multiset(cards) == multiset(cs)
    {
      cards := SortBy(cs, CardScore);
      SortByCorrect(cs, CardScore);
    }

    /** `Hand(cards)` for a list of cards and specs: a spec that does not
        parse raises first, then a list that does not make five cards. */
    static method FromCards(args: seq<CardArg>) returns (r: Result<Hand, Error>, ghost made: seq<Card>)
      ensures r.Ok? <==> |args| == 5 && forall i | 0 <= i < |args| :: Parses(args[i])
      ensures r.Err? ==> r.error == if forall i | 0 <= i < |args| :: Parses(args[i])
                                    then InvalidHandSize else InvalidCardSpec
      ensures r.Ok? ==>
        (fresh(r.value) && r.value.Valid()
         && |made| == 5 && (forall i | 0 <= i < 5 :: MadeFrom(args[i], made[i]))
         && (forall i | 0 <= i < 5 && args[i].Spec? :: fresh(made[i]))
         && r.value.cards == SortBy(made, CardScore))
    {
      var cs := CardsOf(args);
      made := [];
      if cs.Err? {
        return Err(InvalidCardSpec), made;
      }
      var list := cs.value;
      made := list;
      if |list| != 5 {
        return Err(InvalidHandSize), made;
      }
      var h := new Hand(list);
      r := Ok(h);
    }

    /** `Hand(s)` for a string: one spec per whitespace-separated word. */
    static method FromString(s: string) returns (r: Result<Hand, Error>, ghost made: seq<Card>)
      ensures r.Ok? <==> |Split(s)| == 5 && forall i | 0 <= i < 5 :: ParseCard(Split(s)[i]).Ok?
      ensures r.Err? ==> r.error == if forall i | 0 <= i < |Split(s)| :: ParseCard(Split(s)[i]).Ok?
                                    then InvalidHandSize else InvalidCardSpec
      ensures r.Ok? ==>
        (fresh(r.value) && r.value.Valid()
         && |made| == 5 && (forall i | 0 <= i < 5 :: ParseCard(Split(s)[i]) == Ok(made[i].FaceOf()))
         && (forall i | 0 <= i < 5 :: fresh(made[i]))
         && r.value.cards == SortBy(made, CardScore))
    {
      var words := Split(s);
      r, made := FromCards(Map(words, SpecArg));
    }

    /** `Hand(deck)`: the hand takes the top five cards of the deck. */
    static method FromDeck(deck: Deck) returns (r: Result<Hand, Error>)
      modifies deck
      ensures |old(deck.cards)| < 5 ==> r == Err(InsufficientCards) && deck.cards == old(deck.cards)
      ensures |old(deck.cards)| >= 5 ==>
        r.Ok? && fresh(r.value) && r.value.Valid()
        && r.value.cards == SortBy(Reverse(old(deck.cards)[|old(deck.cards)| - 5..]), CardScore)
        && deck.cards == old(deck.cards)[..|old(deck.cards)| - 5]
      ensures deck.discardPile == old(deck.discardPile)
      ensures old(deck.Valid()) ==>
        deck.Valid() && deck.Out() == old(deck.Out()) + (if r.Ok? then Elems(r.value.cards) else {})
    {
      var dealt := deck.Deal(5);
      if dealt.Err? {
        return Err(InsufficientCards);
      }
      var h := new Hand(dealt.value);
      SameElems(h.cards, dealt.value);
      r := Ok(h);
    }

    /** `Hand.__contains__`: whether this very card object is held. */
    predicate Contains(card: Card)
      reads this
    {
      card in cards
    }

    /** `Hand.hand`; None where the category table has no entry. The result
        is the category the ranks and suits of the five cards call for. */
    function Classification(): (r: Option<Category>)
      reads this
      requires Valid()
      ensures r == ReferenceCategory(multiset(Scores(Faces(cards))), multiset(Suits(Faces(cards))))
    {
      SortedFaces(cards);
      ClassifyMatchesReference(Faces(cards));
      Classify(Faces(cards))
    }

    /** `Hand.score`: the index of the category's name, or the `KeyError`
        of `Hand.hand`. */
    function Score(): (r: Result<nat, Error>)
      reads this
      requires Valid()
      ensures r.Ok? <==> Classification().Some?
      ensures r.Ok? ==> r.value == Ordinal(Classification().value) < 10
      ensures r.Err? ==> r.error == MissingCategory
    {
      match Classification()
      case None => Err(MissingCategory)
      case Some(c) =>
        CategoryScoreIsOrdinal(c);
        Ok(CategoryScore(c))
    }

    /** `Hand.__eq__`: the same score and the same ranks position by
        position, which is equality of the two keys. */
    function Equal(other: Hand): (r: Result<bool, Error>)
      reads this, other
      requires Valid() && other.Valid()
      ensures r.Err? <==> KeyOf(Faces(cards)).None? || KeyOf(Faces(other.cards)).None?
      ensures r.Err? ==> r.error == MissingCategory
      ensures r.Ok? ==> r.value == KeyEqual(KeyOf(Faces(cards)).value, KeyOf(Faces(other.cards)).value)
    {
      var a, b := Score(), other.Score();
      if a.Err? || b.Err? then Err(MissingCategory)
      else
        RanksAgree(cards, other.cards);
        Ok(a.value == b.value && forall i | 0 <= i < 5 :: cards[i].score == other.cards[i].score)
    }

    /** The loop of `Hand.__lt__` over the reversed pairs of ranks: the first
        pair that differs decides, and equal ranks throughout are not less. */
    method RanksLess(other: Hand) returns (less: bool)
      requires |cards| == |other.cards|
      ensures less == RevLexLess(Scores(Faces(cards)), Scores(Faces(other.cards)))
    {
      ghost var x, y := Scores(Faces(cards)), Scores(Faces(other.cards));
      assert x[..|x|] == x && y[..|y|] == y;
      var i := |cards|;
      while i > 0
        invariant 0 <= i <= |cards|
        invariant RevLexLess(x, y) == RevLexLess(x[..i], y[..i])
      {
        assert x[..i][..i - 1] == x[..i - 1] && y[..i][..i - 1] == y[..i - 1];
        assert x[i - 1] == cards[i - 1].score && y[i - 1] == other.cards[i - 1].score;
        i := i - 1;
        if cards[i].score < other.cards[i].score {
          return true;
        } else if cards[i].score > other.cards[i].score {
          return false;
        }
      }
      return false;
    }

    /** `Hand.__lt__`: a lower score, or the same score and, scanning from
        the highest card down, a lower rank at the first position where the
        ranks differ. */
    method Less(other: Hand) returns (r: Result<bool, Error>)
      requires Valid() && other.Valid()
      ensures r.Err? <==> KeyOf(Faces(cards)).None? || KeyOf(Faces(other.cards)).None?
      ensures r.Err? ==> r.error == MissingCategory
      ensures r.Ok? ==> r.value == KeyLess(KeyOf(Faces(cards)).value, KeyOf(Faces(other.cards)).value)
    {
      var a, b := Score(), other.Score();
      HandKey(this);
      HandKey(other);
      if a.Err? || b.Err? {
        return Err(MissingCategory);
      }
      if a.value < b.value {
        return Ok(true);
      }
      if a.value == b.value {
        var less := RanksLess(other);
        return Ok(less);
      }
      return Ok(false);
    }

    /** The loop of `Hand.exchange`: Steps on the hand and the deck, stopping
        at the first exception; a loop that ran to the end keeps the hand's
        size. */
    method RunSteps(mode: Removal, deck: Deck, named: seq<Card>) returns (err: Option<Error>)
      modifies this, deck
      ensures var o := Steps(mode, old(Piles(cards, deck.cards, deck.discardPile)), named);
        err == o.error && cards == o.piles.held
        && deck.cards == o.piles.draw && deck.discardPile == o.piles.discard
      ensures err.None? ==> |cards| == old(|cards|)
    {
      ghost var start := Piles(cards, deck.cards, deck.discardPile);
      var j := 0;
      while j < |named|
        invariant 0 <= j <= |named|
        invariant Steps(mode, start, named) == Steps(mode, Piles(cards, deck.cards, deck.discardPile), named[j..])
        invariant |cards| == |start.held|
      {
        var x := named[j];
        ghost var p := Piles(cards, deck.cards, deck.discardPile);
        assert named[j..][0] == x && named[j..][1..] == named[j + 1..];
        var found := FirstMatch(mode, cards, x);
        if found.None? {
          return Some(CardNotHeld);
        }
        cards := cards[..found.value] + cards[found.value + 1..];
        var d := deck.Discard(x);
        if d.Err? {
          return Some(d.error);
        }
        var c := deck.Draw();
        if c.Err? {
          return Some(c.error);
        }
        cards := cards + [c.value];
        j := j + 1;
      }
      assert Steps(mode, Piles(cards, deck.cards, deck.discardPile), named[j..]) == Outcome(Piles(cards, deck.cards, deck.discardPile), None);
      return None;
    }

    /** `Hand.exchange` with the given way of finding the card to give up:
        the steps of Steps on the hand and the deck, then the sort, which
        only a loop that ran to the end reaches. The deck keeps its
        partition when the named cards are distinct and were dealt out of it. */
    method ExchangeWith(mode: Removal, deck: Deck, named: seq<Card>) returns (err: Option<Error>)
      modifies this, deck
      ensures var o := Steps(mode, old(Piles(cards, deck.cards, deck.discardPile)), named);
        err == o.error
        && cards == (if err.None? then SortBy(o.piles.held, CardScore) else o.piles.held)
        && deck.cards == o.piles.draw && deck.discardPile == o.piles.discard
      ensures err.None? && old(Valid()) ==> Valid()
      ensures |deck.cards| <= |old(deck.cards)| && deck.cards == old(deck.cards)[..|deck.cards|]
      ensures var d := |deck.discardPile| - |old(deck.discardPile)|;
        0 <= d <= |named| && deck.discardPile == old(deck.discardPile) + named[..d]
      ensures old(deck.Valid()) && Distinct(named) && Elems(named) <= old(deck.Out()) ==>
        deck.Valid()
        && deck.Out() == old(deck.Out()) + Elems(old(deck.cards)[|deck.cards|..])
                         - Elems(named[..|deck.discardPile| - |old(deck.discardPile)|])
    {
      ghost var start := Piles(cards, deck.cards, deck.discardPile);
      ghost var o := Steps(mode, start, named);
      ghost var dealtOut := deck.Valid() && Distinct(named) && Elems(named) <= deck.Out();
      StepsShape(mode, start, named);
      err := RunSteps(mode, deck, named);
      assert deck.cards == o.piles.draw && deck.discardPile == o.piles.discard;
      if dealtOut {
        ExchangeKeepsPartition(deck, start.draw, start.discard, named);
      }
      if err.None? {
        SortByCorrect(cards, CardScore);
        cards := SortBy(cards, CardScore);
      }
    }

    /** `Hand.exchange` as written: each named card takes out the first held
        card of its rank. */
    method ExchangeAsWritten(deck: Deck, named: seq<Card>) returns (err: Option<Error>)
      modifies this, deck
      ensures var o := Steps(ByRank, old(Piles(cards, deck.cards, deck.discardPile)), named);
        err == o.error
        && cards == (if err.None? then SortBy(o.piles.held, CardScore) else o.piles.held)
        && deck.cards == o.piles.draw && deck.discardPile == o.piles.discard
      ensures err.None? && old(Valid()) ==> Valid()
      ensures |deck.cards| <= |old(deck.cards)| && deck.cards == old(deck.cards)[..|deck.cards|]
      ensures var d := |deck.discardPile| - |old(deck.discardPile)|;
        0 <= d <= |named| && deck.discardPile == old(deck.discardPile) + named[..d]
      ensures old(deck.Valid()) && Distinct(named) && Elems(named) <= old(deck.Out()) ==>
        deck.Valid()
        && deck.Out() == old(deck.Out()) + Elems(old(deck.cards)[|deck.cards|..])
                         - Elems(named[..|deck.discardPile| - |old(deck.discardPile)|])
    {
      err := ExchangeWith(ByRank, deck, named);
    }

    /** The exchange the game means: each named card object itself leaves
        the hand for the discard pile and the top card of the deck replaces
        it. */
    method Exchange(deck: Deck, named: seq<Card>) returns (err: Option<Error>)
      modifies this, deck
      ensures var o := Steps(ByIdentity, old(Piles(cards, deck.cards, deck.discardPile)), named);
        err == o.error
        && cards == (if err.None? then SortBy(o.piles.held, CardScore) else o.piles.held)
        && deck.cards == o.piles.draw && deck.discardPile == o.piles.discard
      ensures err.None? && old(Valid()) ==> Valid()
      ensures |deck.cards| <= |old(deck.cards)| && deck.cards == old(deck.cards)[..|deck.cards|]
      ensures var d := |deck.discardPile| - |old(deck.discardPile)|;
        0 <= d <= |named| && deck.discardPile == old(deck.discardPile) + named[..d]
      ensures old(deck.Valid()) && Distinct(named) && Elems(named) <= old(deck.Out()) ==>
        deck.Valid()
        && deck.Out() == old(deck.Out()) + Elems(old(deck.cards)[|deck.cards|..])
                         - Elems(named[..|deck.discardPile| - |old(deck.discardPile)|])
    {
      err := ExchangeWith(ByIdentity, deck, named);
    }
  }

  /** The deck part of the test script: a new deck holds 52 cards, and the
      two hands dealt from it one after the other hold five each. */
  method TestScriptDeal() returns (deckSize: nat, firstSize: nat, secondSize: nat)
    ensures deckSize == 52 && firstSize == 5 && secondSize == 5
  {
    var deck := new Deck();
    deckSize := |deck.cards|;
    var first := Hand.FromDeck(deck);
    var second := Hand.FromDeck(deck);
    firstSize := |first.value.cards|;
    secondSize := |second.value.cards|;
  }

  /** The words of `s` parse, one by one, to `faces`. */
  predicate ParsesTo(s: string, faces: seq<Face>) {
    |Split(s)| == |faces| && forall i | 0 <= i < |faces| :: ParseCard(Split(s)[i]) == Ok(faces[i])
  }

  /** The words of the test script's royal flush, in the order it writes them. */
  const RoyalFlushWordList: seq<string> := ["AS", "10S", "JS", "QS", "KS"]

  /** Joined by spaces, they are the test script's string. */
  lemma RoyalFlushText()
    ensures JoinSpaced(RoyalFlushWordList) == "AS 10S JS QS KS"
  {
  }

  /** Splitting that string gives the words back. */
  lemma RoyalFlushSplit()
    ensures Split(JoinSpaced(RoyalFlushWordList)) == RoyalFlushWordList
  {
    SplitJoin(RoyalFlushWordList);
  }

  /** Each word of the royal flush parses to its face. */
  lemma RoyalFlushCards()
    ensures ParseCard("AS") == Ok(F(12, S)) && ParseCard("10S") == Ok(F(8, S))
    ensures ParseCard("JS") == Ok(F(9, S)) && ParseCard("QS") == Ok(F(10, S))
    ensures ParseCard("KS") == Ok(F(11, S))
  {
  }

  /** The string of the test script's royal flush parses to the faces its
      hand is written with. */
  lemma RoyalFlushWords()
    ensures ParsesTo(JoinSpaced(RoyalFlushWordList), RoyalFlushHandSpec)
  {
    RoyalFlushSplit();
    RoyalFlushCards();
  }

  /** A hand built from cards whose faces, in the order given, are `spec`
      has the key of `spec` once sorted. */
  lemma KeyOfMadeHand(h: Hand, made: seq<Card>, spec: seq<Face>)
    requires h.Valid() && h.cards == SortBy(made, CardScore) && Faces(made) == spec && |spec| == 5
    ensures KeyOf(Faces(h.cards)) == KeyOf(InHandOrder(spec))
  {
    SortByCorrect(made, CardScore);
    SortedFaces(h.cards);
    MapPermutation(h.cards, made, CardFace);
    KeyOfSorted(spec, Faces(h.cards));
  }

  /** `Hand('AS 10S JS QS KS')` of the test script: the string is split, each
      word parsed into a fresh card, and the hand built from them is classified
      as a royal flush. */
  method ClassifyScriptRoyalFlush() returns (c: Option<Category>)
    ensures c == Some(RoyalFlush)
  {
    var s := JoinSpaced(RoyalFlushWordList);
    RoyalFlushWords();
    var h, made := Hand.FromString(s);
    assert Faces(made) == RoyalFlushHandSpec by {
      forall i | 0 <= i < 5 ensures Faces(made)[i] == RoyalFlushHandSpec[i] {
        assert ParseCard(Split(s)[i]) == Ok(made[i].FaceOf());
      }
    }
    KeyOfMadeHand(h.value, made, RoyalFlushHandSpec);
    TestRoyalFlushHand();
    c := h.value.Classification();
    assert c == Classify(Faces(h.value.cards));
  }

  /** `royal_flush.hand == 'royal flush'` of the test script. */
  method TestScriptRoyalFlush() returns (name: string)
    ensures name == "royal flush"
  {
    var c := ClassifyScriptRoyalFlush();
    name := Name(c.value);
  }

  /** What `Hand.score` and the hand's ranks make of the key of its faces. */
  lemma HandKey(h: Hand)
    requires h.Valid()
    ensures h.Score().Ok? <==> KeyOf(Faces(h.cards)).Some?
    ensures h.Score().Ok? ==>
      KeyOf(Faces(h.cards)).value.ranks == Scores(Faces(h.cards))
      && Ordinal(KeyOf(Faces(h.cards)).value.category) == h.Score().value
  {
  }

  // ---------------------------------------------------------------------
  // What the exchange does to the cards.

  lemma RemoveAt(s: seq<Card>, i: nat)
    requires i < |s|
    ensures multiset(Without(s, i)) + multiset{s[i]} == multiset(s)
  {
    assert s == s[..i] + [s[i]] + s[i + 1..];
  }

  lemma MultisetOfAll(p: Piles)
    ensures multiset(AllCards(p)) == multiset(p.held) + multiset(p.draw) + multiset(p.discard)
  {
  }

  /** One step that finds the card and draws one moves cards between the
      piles without making or losing any. */
  lemma StepConserves(p: Piles, i: nat, x: Card)
    requires i < |p.held| && p.held[i] == x && p.draw != []
    ensures multiset(AllCards(Swap(p, i, x))) == multiset(AllCards(p))
  {
    var n := |p.draw|;
    var held, top, rest := Without(p.held, i), p.draw[n - 1], p.draw[..n - 1];
    var q := Swap(p, i, x);
    RemoveAt(p.held, i);
    assert p.draw == rest + [top];
    var mt: multiset<Card> := multiset{top};
    var mx: multiset<Card> := multiset{x};
    assert multiset(p.draw) == multiset(rest) + mt;
    assert multiset(held + [top]) == multiset(held) + mt;
    assert multiset(p.discard + [x]) == multiset(p.discard) + mx;
    MultisetOfAll(p);
    MultisetOfAll(q);
  }

  /** A completed exchange keeps the hand's size; a failed one leaves it a
      card short when it stopped after the removal. */
  lemma {:induction false} StepsKeepHandSize(mode: Removal, p: Piles, named: seq<Card>)
    ensures var o := Steps(mode, p, named);
      |o.piles.held| == |p.held| - (if o.error == Some(EmptyDeck) || o.error == Some(CardInDeck) then 1 else 0)
    decreases |named|
  {
    if named != [] {
      match FirstMatch(mode, p.held, named[0])
      case None =>
      case Some(i) =>
        if named[0] !in p.draw && p.draw != [] {
          StepsKeepHandSize(mode, Swap(p, i, named[0]), named[1..]);
        }
    }
  }

  /** A held card of distinct piles is in neither pile of the deck. */
  lemma HeldNotInDeck(p: Piles, x: Card)
    requires Distinct(AllCards(p)) && x in p.held
    ensures x !in p.draw && x !in p.discard
  {
    MultisetOfAll(p);
    assert x in AllCards(p);
    assert multiset(p.held)[x] >= 1;
  }

  /** After the first named card leaves the hand, the other named cards
      are still held. */
  lemma RestStillHeld(named: seq<Card>, held: seq<Card>, i: nat, newHeld: seq<Card>)
    requires Distinct(named) && named != [] && i < |held| && held[i] == named[0]
    requires forall k | 0 <= k < |named| :: named[k] in held
    requires multiset(Without(held, i)) <= multiset(newHeld)
    ensures Distinct(named[1..])
    ensures forall k | 0 <= k < |named[1..]| :: named[1..][k] in newHeld
  {
    var x := named[0];
    assert named == [x] + named[1..];
    var mx: multiset<Card> := multiset{x};
    assert multiset(named) == mx + multiset(named[1..]);
    DistinctSub(named, named[1..]);
    RemoveAt(held, i);
    forall k | 0 <= k < |named[1..]| ensures named[1..][k] in newHeld {
      var y := named[1..][k];
      assert y == named[k + 1] && y in held;
      assert y != x by {
        assert multiset(named)[x] == 1;
      }
      assert y in multiset(held);
      assert y in multiset(Without(held, i));
    }
  }

  /** One step of a corrected exchange that finds the card and a card to
      draw: Steps goes on from Swap. */
  lemma StepsSwap(p: Piles, named: seq<Card>, i: nat)
    requires named != [] && FirstMatch(ByIdentity, p.held, named[0]) == Some(i)
    requires named[0] !in p.draw && p.draw != []
    ensures Steps(ByIdentity, p, named) == Steps(ByIdentity, Swap(p, i, named[0]), named[1..])
  {
  }

  /** The corrected exchange conserves the cards: hand, draw pile and
      discard pile hold the same cards before and after, each once, however
      the exchange ends; and a named card is never found still in the deck. */
  lemma {:induction false} ExchangeConserves(p: Piles, named: seq<Card>)
    requires Distinct(AllCards(p))
    ensures var o := Steps(ByIdentity, p, named);
      multiset(AllCards(o.piles)) == multiset(AllCards(p))
      && Distinct(AllCards(o.piles))
      && o.error != Some(CardInDeck)
    decreases |named|
  {
    if named != [] {
      var x := named[0];
      match FirstMatch(ByIdentity, p.held, x)
      case None =>
      case Some(i) =>
        HeldNotInDeck(p, x);
        if p.draw == [] {
          var q := Piles(Without(p.held, i), [], p.discard + [x]);
          RemoveAt(p.held, i);
          var mx: multiset<Card> := multiset{x};
          assert multiset(p.discard + [x]) == multiset(p.discard) + mx;
          MultisetOfAll(p);
          MultisetOfAll(q);
          DistinctSub(AllCards(p), AllCards(q));
        } else {
          var q := Swap(p, i, x);
          StepConserves(p, i, x);
          DistinctSub(AllCards(p), AllCards(q));
          StepsSwap(p, named, i);
          ExchangeConserves(q, named[1..]);
        }
    }
  }

  /** The corrected exchange of distinct held cards, with enough cards in
      the deck, succeeds: the named cards go to the discard pile in order,
      the top cards of the deck replace them, and the draw pile shrinks by
      as many. */
  lemma {:induction false} ExchangeSucceeds(p: Piles, named: seq<Card>)
    requires Distinct(AllCards(p)) && Distinct(named)
    requires forall k | 0 <= k < |named| :: named[k] in p.held
    requires |named| <= |p.draw|
    ensures var o := Steps(ByIdentity, p, named);
      var m, n := |named|, |p.draw|;
      o.error.None?
      && o.piles.draw == p.draw[..n - m]
      && o.piles.discard == p.discard + named
      && multiset(o.piles.held) + multiset(named) == multiset(p.held) + multiset(p.draw[n - m..])
    decreases |named|
  {
    var m, n := |named|, |p.draw|;
    if named == [] {
      assert p.discard + named == p.discard && p.draw[n - m..] == [] && p.draw[..n - m] == p.draw;
    } else {
      var x := named[0];
      assert FirstMatch(ByIdentity, p.held, x).Some?;
      var i := FirstMatch(ByIdentity, p.held, x).value;
      HeldNotInDeck(p, x);
      var q := Swap(p, i, x);
      StepConserves(p, i, x);
      DistinctSub(AllCards(p), AllCards(q));
      RemoveAt(p.held, i);
      RestStillHeld(named, p.held, i, q.held);
      StepsSwap(p, named, i);
      ExchangeSucceeds(q, named[1..]);
      ghost var o := Steps(ByIdentity, q, named[1..]);
      assert o.error.None? && o.piles.draw == q.draw[..|q.draw| - |named[1..]|];
      assert o.piles.discard == q.discard + named[1..];
      assert multiset(o.piles.held) + multiset(named[1..]) == multiset(q.held) + multiset(q.draw[|q.draw| - |named[1..]|..]);
      SwapThenRest(p, named, i, q, o);
    }
  }

  /** One successful step followed by a successful rest, as ExchangeSucceeds
      states them. */
  lemma SwapThenRest(p: Piles, named: seq<Card>, i: nat, q: Piles, o: Outcome)
    requires named != [] && i < |p.held| && p.held[i] == named[0] && |named| <= |p.draw|
    requires q == Swap(p, i, named[0])
    requires var m, n := |named[1..]|, |q.draw|;
      o.error.None?
      && o.piles.draw == q.draw[..n - m]
      && o.piles.discard == q.discard + named[1..]
      && multiset(o.piles.held) + multiset(named[1..]) == multiset(q.held) + multiset(q.draw[n - m..])
    ensures var m, n := |named|, |p.draw|;
      o.piles.draw == p.draw[..n - m]
      && o.piles.discard == p.discard + named
      && multiset(o.piles.held) + multiset(named) == multiset(p.held) + multiset(p.draw[n - m..])
  {
    PilesAfterSwap(p, named, i, q, o.piles.draw, o.piles.discard);
    ReplaceCounts(p.held, i, p.draw, named, o.piles.held);
  }

  /** The two piles of the deck after one step and a successful rest. */
  lemma PilesAfterSwap(p: Piles, named: seq<Card>, i: nat, q: Piles, draw: seq<Card>, discard: seq<Card>)
    requires named != [] && i < |p.held| && |named| <= |p.draw|
    requires q == Swap(p, i, named[0])
    requires draw == q.draw[..|q.draw| - |named[1..]|] && discard == q.discard + named[1..]
    ensures draw == p.draw[..|p.draw| - |named|] && discard == p.discard + named
  {
    var m, n := |named|, |p.draw|;
    var x, rest := named[0], named[1..];
    var d := p.draw[..n - 1];
    assert q.draw == d && q.discard == p.discard + [x];
    assert |d| == n - 1 && |rest| == m - 1;
    assert d[..n - 1 - (m - 1)] == p.draw[..n - m];
    assert named == [x] + rest;
    assert (p.discard + [x]) + rest == p.discard + named;
  }

  /** The multiset bookkeeping of one successful step of ExchangeSucceeds. */
  lemma ReplaceCounts(held: seq<Card>, i: nat, draw: seq<Card>, named: seq<Card>, final: seq<Card>)
    requires named != [] && i < |held| && held[i] == named[0] && |named| <= |draw|
    requires var n, m := |draw|, |named|;
      multiset(final) + multiset(named[1..])
      == multiset(Without(held, i) + [draw[n - 1]]) + multiset(draw[..n - 1][n - 1 - (m - 1)..])
    ensures var n, m := |draw|, |named|;
      multiset(final) + multiset(named) == multiset(held) + multiset(draw[n - m..])
  {
    var n, m := |draw|, |named|;
    var x, top := named[0], draw[n - 1];
    RemoveAt(held, i);
    var mx: multiset<Card> := multiset{x};
    var mt: multiset<Card> := multiset{top};
    var w := Without(held, i);
    var tail := draw[..n - 1][n - 1 - (m - 1)..];
    assert multiset(held) == multiset(w) + mx;
    assert named == [x] + named[1..];
    assert multiset(named) == mx + multiset(named[1..]);
    assert multiset(w + [top]) == multiset(w) + mt;
    assert draw[n - m..] == tail + [top];
    assert multiset(draw[n - m..]) == multiset(tail) + mt;
    calc {
      multiset(final) + multiset(named);
      multiset(final) + multiset(named[1..]) + mx;
      multiset(w) + mt + multiset(tail) + mx;
      multiset(held) + multiset(draw[n - m..]);
    }
  }

  /** With fewer cards in the deck than named (and the same conditions
      otherwise), the exchange stops at the first draw from the empty pile:
      the hand is left a card short and unsorted. */
  lemma {:induction false} ExchangeRunsOut(p: Piles, named: seq<Card>)
    requires Distinct(AllCards(p)) && Distinct(named)
    requires forall k | 0 <= k < |named| :: named[k] in p.held
    requires |named| > |p.draw|
    ensures var o := Steps(ByIdentity, p, named);
      o.error == Some(EmptyDeck) && o.piles.draw == [] && |o.piles.held| == |p.held| - 1
    decreases |p.draw|
  {
    StepsKeepHandSize(ByIdentity, p, named);
    var x := named[0];
    assert FirstMatch(ByIdentity, p.held, x).Some?;
    var i := FirstMatch(ByIdentity, p.held, x).value;
    HeldNotInDeck(p, x);
    if p.draw != [] {
      var q := Swap(p, i, x);
      StepConserves(p, i, x);
      DistinctSub(AllCards(p), AllCards(q));
      RemoveAt(p.held, i);
      RestStillHeld(named, p.held, i, q.held);
      StepsSwap(p, named, i);
      ExchangeRunsOut(q, named[1..]);
    }
  }

  /** The exchange as written, when the first held card of the named card's
      rank is another object (say `AS` before the named `AD`): that other
      card vanishes from the game, and the named card ends up both in the
      hand and on the discard pile. */
  lemma AsWrittenLosesACard(p: Piles, b: Card)
    requires Distinct(AllCards(p)) && p.draw != []
    requires FirstMatch(ByRank, p.held, b).Some?
    requires b in p.held && p.held[FirstMatch(ByRank, p.held, b).value] != b
    ensures var o := Steps(ByRank, p, [b]);
      var a := p.held[FirstMatch(ByRank, p.held, b).value];
      o.error.None?
      && b in o.piles.held && b in o.piles.discard
      && a !in AllCards(o.piles)
      && multiset(AllCards(o.piles)) != multiset(AllCards(p))
  {
    var i := FirstMatch(ByRank, p.held, b).value;
    var a := p.held[i];
    HeldNotInDeck(p, b);
    var q := Swap(p, i, b);
    assert Steps(ByRank, p, [b]) == Outcome(q, None) by {
      assert [b][1..] == [];
    }
    RemoveAt(p.held, i);
    assert b in Without(p.held, i) by {
      assert b in multiset(p.held);
    }
    SwapCounts(p, i, b);
    assert a in AllCards(p);
    assert multiset(AllCards(p))[a] == 1;
    assert multiset(AllCards(q))[a] == 0;
  }

  /** `o` took cards only from the top of the draw pile of `p`, and put only
      a prefix of `named`, in order, on its discard pile. */
  ghost predicate Shaped(p: Piles, named: seq<Card>, o: Piles) {
    |o.draw| <= |p.draw| && o.draw == p.draw[..|o.draw|]
    && |p.discard| <= |o.discard| <= |p.discard| + |named|
    && o.discard == p.discard + named[..|o.discard| - |p.discard|]
  }

  /** In either removal mode the exchange takes cards only from the top of
      the draw pile, and puts only the named cards, in order, on the discard
      pile. */
  lemma {:induction false} StepsShape(mode: Removal, p: Piles, named: seq<Card>)
    ensures Shaped(p, named, Steps(mode, p, named).piles)
    decreases |named|
  {
    if named == [] {
      assert p.discard + named[..0] == p.discard;
    } else {
      var x := named[0];
      match FirstMatch(mode, p.held, x)
      case None =>
        assert p.discard + named[..0] == p.discard;
      case Some(i) =>
        if x in p.draw {
          assert p.discard + named[..0] == p.discard;
        } else if p.draw == [] {
          assert named[..1] == [x];
        } else {
          StepsShape(mode, Swap(p, i, x), named[1..]);
          SwapShape(p, i, named, Steps(mode, Swap(p, i, x), named[1..]).piles);
        }
    }
  }

  /** One whole step followed by a rest of the right shape has the right
      shape. */
  lemma SwapShape(p: Piles, i: nat, named: seq<Card>, o: Piles)
    requires named != [] && i < |p.held| && p.draw != []
    requires Shaped(Swap(p, i, named[0]), named[1..], o)
    ensures Shaped(p, named, o)
  {
    var e := |o.discard| - |p.discard| - 1;
    PrefixOfPrefix(p.draw, |p.draw| - 1, |o.draw|);
    assert named[..e + 1] == [named[0]] + named[1..][..e];
  }

  /** The deck after an exchange that took cards only from the top of its
      draw pile (`draw` before) and put only named cards, in order, on its
      discard pile (`discard` before). */
  lemma ExchangeKeepsPartition(deck: Deck, draw: seq<Card>, discard: seq<Card>, named: seq<Card>)
    requires |deck.all| == 52
    requires forall c, e | c in deck.all && e in deck.all && c != e :: c.FaceOf() != e.FaceOf()
    requires Distinct(draw + discard) && Elems(draw + discard) <= deck.all
    requires Distinct(named) && Elems(named) <= deck.all - Elems(draw) - Elems(discard)
    requires |deck.cards| <= |draw| && deck.cards == draw[..|deck.cards|]
    requires |discard| <= |deck.discardPile| <= |discard| + |named|
    requires deck.discardPile == discard + named[..|deck.discardPile| - |discard|]
    ensures deck.Valid()
    ensures deck.Out() == deck.all - Elems(draw) - Elems(discard) + Elems(draw[|deck.cards|..])
                          - Elems(named[..|deck.discardPile| - |discard|])
  {
    assert forall k | 0 <= k < |named| :: named[k] in Elems(named);
    DeckAfterExchange(deck.all, draw, discard, named, |deck.cards|, |deck.discardPile| - |discard|);
  }

  /** The deck's partition after an exchange of distinct cards that were
      dealt out of it: cards drawn from the top join the dealt-out set, and
      the named cards that reached the discard pile leave it. */
  lemma DeckAfterExchange(all: set<Card>, draw: seq<Card>, discard: seq<Card>, named: seq<Card>, n: nat, d: nat)
    requires n <= |draw| && d <= |named|
    requires Distinct(draw + discard) && Elems(draw + discard) <= all
    requires Distinct(named) && forall k | 0 <= k < |named| :: named[k] in all - Elems(draw) - Elems(discard)
    ensures var draw', discard' := draw[..n], discard + named[..d];
      Distinct(draw' + discard') && Elems(draw' + discard') <= all
      && all - Elems(draw') - Elems(discard')
         == all - Elems(draw) - Elems(discard) + Elems(draw[n..]) - Elems(named[..d])
  {
    var top, put := draw[..n], named[..d];
    assert draw == top + draw[n..];
    TakeOut(draw, top, draw[n..], discard, all);
    assert multiset(put) <= multiset(named) by {
      assert named == put + named[d..];
    }
    DistinctSub(named, put);
    assert forall x | x in top + discard :: x !in put;
    DistinctAppend(top + discard, put);
    assert top + discard + put == top + (discard + put);
    assert Elems(discard + put) == Elems(discard) + Elems(put);
    forall x | x in put ensures x in all {
      var k :| 0 <= k < d && put[k] == x;
      assert named[k] == x;
    }
  }

  /** One whole step moves the `i`-th held card out of the game and puts
      `x` in: the cards of the game change by exactly that. */
  lemma SwapCounts(p: Piles, i: nat, x: Card)
    requires i < |p.held| && p.draw != []
    ensures multiset(AllCards(Swap(p, i, x)))
         == multiset(AllCards(p)) - multiset{p.held[i]} + multiset{x}
  {
    var q := Swap(p, i, x);
    RemoveAt(p.held, i);
    var w := Without(p.held, i);
    var n := |p.draw|;
    var top := p.draw[n - 1];
    var ma: multiset<Card> := multiset{p.held[i]};
    var mx: multiset<Card> := multiset{x};
    var mt: multiset<Card> := multiset{top};
    assert multiset(p.held) == multiset(w) + ma;
    assert p.draw == p.draw[..n - 1] + [top];
    assert multiset(p.draw) == multiset(p.draw[..n - 1]) + mt;
    assert multiset(q.held) == multiset(w) + mt;
    assert multiset(q.discard) == multiset(p.discard) + mx;
    MultisetOfAll(p);
    MultisetOfAll(q);
  }
}
