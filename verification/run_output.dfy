/** What the editor shows in its output box after the Run button: the
    remote execution service answers with an object holding an `error` and an
    `output` string, and the page combines the two.  The HTTP call and the
    JSON decoding are outside the model; a response arrives here either
    already decoded or as a failure of any of those steps.
 */
module RunOutput {

  /** The outcome of one run request.  `Failed` stands for what reaches the
      page's `catch`: a rejected fetch, an unreadable body, a body that is
      not JSON, or the JSON value `null` (reading its `error` field throws).
      A JSON body without string `error` and `output` fields does not throw
      and is outside this model. */
  datatype Response = Decoded(error: string, output: string) | Failed

  /** The text shown for a decoded response: the error text (when there is
      one) followed by the program's output.  The branch never changes the
      result: for string fields the shown text is always the error followed
      by the output, so both parts can be read back from it. */
  function FinalOutput(error: string, output: string): (r: string)
    ensures r == error + output
    ensures r[..|error|] == error && r[|error|..] == output
  {
    if error != "" then error + output else output
  }

  /** The rule as the page states it: a non-empty error is shown in front of
      the output, an empty error shows the output alone. */
  lemma FinalOutputRule(error: string, output: string)
    ensures error != "" ==> FinalOutput(error, output) == error + output
    ensures error == "" ==> FinalOutput(error, output) == output
  {
  }

  /** The output box after a run: a decoded response replaces it, a failure
      is only logged and leaves the previous text in place. */
  function Displayed(shown: string, response: Response): (r: string)
    ensures response.Failed? ==> r == shown
    ensures response.Decoded? ==> r == response.error + response.output
  {
    match response
    case Decoded(error, output) => FinalOutput(error, output)
    case Failed => shown
  }

  /** Showing the same response twice shows the same text as showing it once. */
  lemma DisplayedIdempotent(shown: string, response: Response)
    ensures Displayed(Displayed(shown, response), response) == Displayed(shown, response)
  {
  }

  /** The worked cases: a clean run shows the output alone, a failing run
      with no output shows the error text alone. */
  lemma FinalOutputExamples()
    ensures FinalOutput("", "1\n") == "1\n"
    ensures FinalOutput("SyntaxError", "") == "SyntaxError"
    ensures Displayed("old", Failed) == "old"
  {
  }

}
