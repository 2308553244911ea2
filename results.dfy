/** Failure channel shared by the deck, the hand and the table. */
module Results {

  datatype Option<T> = None | Some(value: T)

  /** The exceptions the game objects raise. */
  datatype Error =
    | InsufficientCards  // draw asked for more cards than the deck holds (IndexError)
    | EmptyHand          // use_card on a hand with no cards (IndexError)
    | IndexOutOfRange    // use_card with an index outside the hand (IndexError)
    | CardNotFound       // use_card with a card the hand does not hold (ValueError)

  datatype Result<T> = Success(value: T) | Failure(error: Error)
}
