/** `Deck` of src/poker.py: a draw pile used as a stack (its end is the top)
    and a discard pile, over the 52 card objects the deck made. */
module Decks {
  import opened Outcomes
  import opened Seqs
  import opened Cards

  /** The suits in the order `product` visits the keys of `Card.suits`. */
  const SuitOrder: seq<Suit> := [Spades, Hearts, Diamonds, Clubs]

  /** `product(Card.values, Card.suits)`: every rank, and within a rank every
      suit. */
  function FullFaces(): (faces: seq<Face>)
    ensures |faces| == 52
  {
    seq(52, i requires 0 <= i < 52 => Face(i / 4, SuitOrder[i % 4]))
  }

  function SuitIndex(su: Suit): nat {
    match su
    case Spades => 0
    case Hearts => 1
    case Diamonds => 2
    case Clubs => 3
  }

  /** Different positions of the full deck hold different faces. */
  lemma FullFacesDiffer()
    ensures |FullFaces()| == 52
    ensures forall i, j | 0 <= i < 52 && 0 <= j < 52 && i != j :: FullFaces()[i] != FullFaces()[j]
  {
    var r := FullFaces();
    forall i, j | 0 <= i < 52 && 0 <= j < 52 && i != j ensures r[i] != r[j] {
      assert i == 4 * (i / 4) + i % 4 && j == 4 * (j / 4) + j % 4;
    }
  }

  /** A new deck's faces are the 52 (rank, suit) pairs, each exactly once. */
  lemma FullFacesOnce()
    ensures |FullFaces()| == 52
    ensures forall f: Face :: multiset(FullFaces())[f] == 1
  {
    var r := FullFaces();
    FullFacesDiffer();
    DistinctByIndex(r);
    forall f: Face ensures multiset(r)[f] == 1 {
      var k := 4 * f.score + SuitIndex(f.suit);
      assert k / 4 == f.score && k % 4 == SuitIndex(f.suit);
      assert r[k] == f;
      assert f in r;
    }
  }

  /** The loop of `Deck.__init__`'s list comprehension: one fresh card per
      face of the full deck, in its order. */
  method MakeCards() returns (made: seq<Card>)
    ensures Faces(made) == FullFaces()
    ensures forall k, l | 0 <= k < l < |made| :: made[k] != made[l]
    ensures forall c | c in made :: fresh(c)
  {
    made := [];
    var i := 0;
    while i < 52
      invariant 0 <= i <= 52 && |made| == i
      invariant forall k | 0 <= k < i :: made[k].FaceOf() == FullFaces()[k]
      invariant forall k | 0 <= k < i :: fresh(made[k])
      invariant forall k, l | 0 <= k < l < i :: made[k] != made[l]
    {
      var v, su := i / 4, SuitOrder[i % 4];
      ParseCardComplete(v, [], su);
      assert Values[v] + [] + [SuitChar(su)] == Values[v] + [SuitChar(su)];
      var r := NewCard(Values[v] + [SuitChar(su)]);
      made := made + [r.value];
      i := i + 1;
    }
  }

  class Deck {
    /** `Deck._cards`: the draw pile; the last card is the top. */
    var cards: seq<Card>
    /** `Deck._discard`. */
    var discardPile: seq<Card>
    /** The card objects the deck was built with. */
    ghost const all: set<Card>

    /** The partition the deck keeps: 52 cards of different faces, each in
        the draw pile, in the discard pile or dealt out, and nowhere twice. */
    ghost predicate Valid()
      reads this
    {
      |all| == 52
      && (forall c, d | c in all && d in all && c != d :: c.FaceOf() != d.FaceOf())
      && Distinct(cards + discardPile)
      && Elems(cards + discardPile) <= all
    }

    /** The cards dealt out: in neither pile. */
    ghost function Out(): set<Card>
      reads this
    {
      all - Elems(cards) - Elems(discardPile)
    }

    /** `Deck.__init__`: one fresh card per face, shuffled, nothing discarded. */
    constructor ()
      ensures Valid() && |cards| == 52 && discardPile == [] && Out() == {}
      ensures multiset(Faces(cards)) == multiset(FullFaces())
      ensures forall c | c in cards :: fresh(c)
    {
      var made := MakeCards();
      assert Faces(made) == FullFaces();
      DistinctByIndex(made);
      DistinctCardinality(made);
      FullFacesOnce();
      var shuffled := Shuffle(made);
      MapPermutation(made, shuffled, CardFace);
      cards := shuffled;
      discardPile := [];
      all := Elems(made);
      new;
      assert cards + discardPile == cards;
      DistinctSub(made, cards);
      SameElems(cards, made);
      forall c | c in cards ensures fresh(c) {
        assert c in made;
      }
      forall c, d | c in all && d in all && c != d ensures c.FaceOf() != d.FaceOf() {
        var k :| 0 <= k < 52 && made[k] == c;
        var l :| 0 <= l < 52 && made[l] == d;
        assert Faces(made)[k] == c.FaceOf() && Faces(made)[l] == d.FaceOf();
        FullFacesDiffer();
      }
    }

    /** `Deck.__contains__`: whether this very card object is in the draw
        pile, whatever other cards of the same rank and suit there are. */
    predicate Contains(card: Card)
      reads this
    {
      card in cards
    }

    /** `Deck.draw`: pops the top card; an empty pile raises. */
    method Draw() returns (r: Result<Card, Error>)
      modifies this
      ensures old(cards) == [] ==> r == Err(EmptyDeck) && cards == []
      ensures old(cards) != [] ==>
        r == Ok(old(cards)[|old(cards)| - 1]) && cards == old(cards)[..|old(cards)| - 1]
      ensures discardPile == old(discardPile)
      ensures old(Valid()) ==> Valid() && Out() == old(Out()) + (if r.Ok? then {r.value} else {})
    {
      if cards == [] {
        r := Err(EmptyDeck);
      } else {
        ghost var before := cards;
        var top := cards[|cards| - 1];
        cards := cards[..|cards| - 1];
        r := Ok(top);
        assert before == cards + [top];
        if old(Valid()) {
          TakeOut(before, cards, [top], discardPile, all);
        }
      }
    }

    /** `Deck.deal(n)`: the top `n` cards, the top one first, and raises
        without drawing anything when fewer than `n` are left. */
    method Deal(n: int) returns (r: Result<seq<Card>, Error>)
      modifies this
      ensures |old(cards)| < n ==> r == Err(InsufficientCards) && cards == old(cards)
      ensures |old(cards)| >= n ==>
        var k := if n > 0 then n else 0;
        r.Ok? && r.value == Reverse(old(cards)[|old(cards)| - k..])
        && cards == old(cards)[..|old(cards)| - k]
      ensures discardPile == old(discardPile)
      ensures old(Valid()) ==> Valid() && Out() == old(Out()) + (if r.Ok? then Elems(r.value) else {})
    {
      if |cards| < n {
        r := Err(InsufficientCards);
        return;
      }
      ghost var start := cards;
      var dealt: seq<Card> := [];
      var i := 0;
      while i < n
        invariant 0 <= i <= (if n > 0 then n else 0) <= |start|
        invariant cards == start[..|start| - i]
        invariant dealt == Reverse(start[|start| - i..])
        invariant discardPile == old(discardPile) && start == old(cards)
      {
        PrefixOfPrefix(start, |start| - i, |start| - (i + 1));
        var c := Draw();
        assert start[|start| - (i + 1)..] == [c.value] + start[|start| - i..];
        dealt := dealt + [c.value];
        i := i + 1;
      }
      assert i == (if n > 0 then n else 0) && start == old(cards);
      r := Ok(dealt);
      if old(Valid()) {
        DealtOut(all, start, cards, dealt, discardPile);
        assert old(Out()) == all - Elems(start) - Elems(discardPile);
      }
    }

    /** `Deck.discard`: appends the card once it has checked (by identity)
        that the card is not in the draw pile. The check misses a card
        already discarded and a card that came from another deck: the
        partition survives exactly when the card was dealt out of this one. */
    method Discard(card: Card) returns (r: Result<(), Error>)
      modifies this
      ensures Contains(card) ==> r == Err(CardInDeck) && discardPile == old(discardPile)
      ensures !Contains(card) ==> r == Ok(()) && discardPile == old(discardPile) + [card]
      ensures cards == old(cards)
      ensures old(Valid()) && r.Ok? ==> (Valid() <==> card in old(Out()))
      ensures old(Valid()) && r.Ok? && card in old(Out()) ==> Out() == old(Out()) - {card}
    {
      if card in cards {
        r := Err(CardInDeck);
        return;
      }
      ghost var before := discardPile;
      discardPile := discardPile + [card];
      r := Ok(());
      if old(Valid()) {
        PutBack(cards, before, card, all);
      }
    }

    /** `Deck.reshuffle`: the discard pile goes back under the draw pile and
        the whole pile is shuffled. */
    method Reshuffle()
      modifies this
      ensures multiset(cards) == multiset(old(cards) + old(discardPile))
      ensures discardPile == []
      ensures old(Valid()) ==> Valid() && Out() == old(Out())
    {
      ghost var pile := cards + discardPile;
      cards := Shuffle(cards + discardPile);
      discardPile := [];
      assert cards + discardPile == cards;
      if old(Valid()) {
        DistinctSub(pile, cards);
        SameElems(cards, pile);
      }
    }
  }

  /** Taking cards off the top of the pile moves them to the dealt-out set. */
  lemma TakeOut(before: seq<Card>, rest: seq<Card>, taken: seq<Card>, discard: seq<Card>, all: set<Card>)
    requires before == rest + taken
    requires Distinct(before + discard) && Elems(before + discard) <= all
    ensures Distinct(rest + discard) && Elems(rest + discard) <= all
    ensures all - Elems(rest) - Elems(discard) == all - Elems(before) - Elems(discard) + Elems(taken)
  {
    assert before + discard == rest + taken + discard;
    assert multiset(rest + discard) <= multiset(before + discard);
    DistinctSub(before + discard, rest + discard);
    forall c | c in taken ensures c !in rest && c !in discard {
      assert multiset(before + discard)[c] == 1;
      assert multiset(before + discard) == multiset(rest) + multiset(taken) + multiset(discard);
    }
  }

  /** Dealing the top cards of the pile, in reverse order, moves them to the
      dealt-out set. */
  lemma DealtOut(all: set<Card>, start: seq<Card>, rest: seq<Card>, dealt: seq<Card>, discard: seq<Card>)
    requires |rest| <= |start| && rest == start[..|rest|] && dealt == Reverse(start[|rest|..])
    requires Distinct(start + discard) && Elems(start + discard) <= all
    ensures Distinct(rest + discard) && Elems(rest + discard) <= all
    ensures all - Elems(rest) - Elems(discard) == all - Elems(start) - Elems(discard) + Elems(dealt)
  {
    var taken := start[|rest|..];
    assert start == rest + taken;
    TakeOut(start, rest, taken, discard, all);
    ReverseElems(taken);
  }

  /** Putting a card on the discard pile keeps the partition exactly when the
      card was out. */
  lemma PutBack(pile: seq<Card>, discard: seq<Card>, card: Card, all: set<Card>)
    requires card !in pile
    requires Distinct(pile + discard) && Elems(pile + discard) <= all
    ensures (Distinct(pile + (discard + [card])) && Elems(pile + (discard + [card])) <= all)
        <==> card in all - Elems(pile) - Elems(discard)
    ensures card in all - Elems(pile) - Elems(discard) ==>
      all - Elems(pile) - Elems(discard + [card]) == all - Elems(pile) - Elems(discard) - {card}
  {
    var s: seq<Card> := pile + (discard + [card]);
    var one: multiset<Card> := multiset{card};
    assert s == (pile + discard) + [card];
    assert multiset(s) == multiset(pile + discard) + one;
    if card in discard {
      assert card in pile + discard;
      assert multiset(s)[card] == 2;
    }
    if card in all - Elems(pile) - Elems(discard) {
      assert card !in pile + discard;
      forall x | x in s ensures multiset(s)[x] == 1 {
        if x != card {
          assert x in pile + discard;
        }
      }
    }
  }

  /** Every card the deck made is in exactly one place: the two piles and
      the cards dealt out always add up to 52. */
  lemma CardsAddUp(d: Deck)
    requires d.Valid()
    ensures |d.cards| + |d.discardPile| + |d.Out()| == 52
  {
    var pile := d.cards + d.discardPile;
    DistinctCardinality(pile);
    assert Elems(pile) == Elems(d.cards) + Elems(d.discardPile);
    assert d.Out() == d.all - Elems(pile);
  }

  /** `in` on a deck goes by identity: while one card object is in a valid
      deck, no other object, not even one of the same rank and suit, is. */
  lemma ContainsIsIdentity(d: Deck, c: Card, e: Card)
    requires d.Valid() && d.Contains(c) && c != e
    ensures d.Contains(e) ==> c.FaceOf() != e.FaceOf()
  {
    if d.Contains(e) {
      assert c in d.cards + d.discardPile && e in d.cards + d.discardPile;
    }
  }
}
