/** Failure-carrying results shared by the card, deck and hand modules. */
module Outcomes {

  datatype Option<+T> = None | Some(value: T)

  datatype Result<+T, +E> = Ok(value: T) | Err(error: E)

  /** The exceptions the game library raises: `ValueError`s with different
      messages, except `CardInDeck`, the failed `assert` of `Deck.discard`,
      and `MissingCategory`, the `KeyError` of the category table lookup. */
  datatype Error =
    | InvalidCardSpec     // "... is not a valid card spec"
    | InvalidHandSize     // "hand must consist of 5 cards"
    | EmptyDeck           // "cannot draw from empty deck"
    | InsufficientCards   // "insufficient cards left to deal"
    | CardInDeck          // the `AssertionError` of discarding a card still in the draw pile
    | CardNotHeld         // `list.remove` found no matching card in the hand
    | MissingCategory     // the rank-group pattern is not in the category table
}
