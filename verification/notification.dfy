/**
 * The cart notification shared by the home page and the product detail
 * page: a message is shown in the error style exactly when it mentions
 * logging in or a failure.
 */
module Notification {
  import opened AsciiText

  const LoginPhrase: string := "Please log in"
  const FailurePhrase: string := "Failed to"

  /** `message.includes("Please log in") || message.includes("Failed to")`. */
  predicate IsError(message: string) {
    Includes(message, LoginPhrase) || Includes(message, FailurePhrase)
  }

  /** The error style is chosen exactly when one of the two phrases occurs somewhere in the message. */
  lemma IsErrorIffPhraseOccurs(message: string)
    ensures IsError(message) <==>
      (exists i :: OccursAt(message, LoginPhrase, i)) || (exists i :: OccursAt(message, FailurePhrase, i))
  {
    IncludesIffOccurs(message, LoginPhrase);
    IncludesIffOccurs(message, FailurePhrase);
  }

  /** A message that carries a phrase at a known position is an error. */
  lemma PhraseAtMakesError(message: string, i: int)
    requires OccursAt(message, LoginPhrase, i) || OccursAt(message, FailurePhrase, i)
    ensures IsError(message)
  {
    IsErrorIffPhraseOccurs(message);
  }

  /** A message that opens with one of the phrases is an error. */
  lemma OpeningPhraseMakesError(message: string)
    requires StartsWith(message, LoginPhrase) || StartsWith(message, FailurePhrase)
    ensures IsError(message)
  {
  }

  /** A message too short for either phrase is never an error. */
  lemma ShortMessageIsNotError(message: string)
    requires |message| < |FailurePhrase|
    ensures !IsError(message)
  {
    IsErrorIffPhraseOccurs(message);
  }
}
