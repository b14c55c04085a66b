/** What a judge can say about an answer (`core/outcome.rs`). */
module Verdicts {
  datatype Verdict = Correct | Partial | Incorrect | NotJudged {
    function Score(): real {
      match this
      case Correct => 1.0
      case Partial => 0.5
      case Incorrect => 0.0
      case NotJudged => 0.0
    }

    predicate IsGraded() { this != NotJudged }
  }
}
