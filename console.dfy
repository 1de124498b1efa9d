/** The two decisions the script takes on the operator's input. */
module Console {
  import opened Wrappers

  /** Python's `not value` on an argparse attribute: true for None and for the empty string. */
  predicate Missing(value: Option<string>) {
    value.None? || value.value == ""
  }

  /** Credential fallback: a supplied, non-empty value is kept; otherwise the answer typed
      at the prompt is used as it is, even when it is empty. */
  function Fallback(supplied: Option<string>, answer: string): (value: string)
    ensures value == answer || supplied == Some(value)
    ensures value == "" ==> Missing(supplied)
  {
    if Missing(supplied) then answer else supplied.value
  }

  /** The result is still missing exactly when the value was missing and the operator
      typed nothing: the script does not ask twice. */
  lemma FallbackMissing(supplied: Option<string>, answer: string)
    ensures Missing(Some(Fallback(supplied, answer))) <==> Missing(supplied) && answer == ""
    ensures !Missing(supplied) ==> Fallback(supplied, answer) == supplied.value
  {
  }

  /** The yes/no test used at every confirmation: exactly `Y` or `y`. */
  predicate Affirmative(answer: string)
    ensures Affirmative(answer) ==> |answer| == 1
  {
    answer == "Y" || answer == "y"
  }

  /** Only one-character answers can confirm; in particular neither the empty answer nor
      `yes` does. */
  lemma AffirmativeIsOneLetter(answer: string)
    ensures Affirmative(answer) <==> |answer| == 1 && (answer[0] == 'Y' || answer[0] == 'y')
    ensures !Affirmative("") && !Affirmative("yes") && !Affirmative("Yes")
  {
    if |answer| == 1 {
      assert answer == [answer[0]];
    }
  }
}
