/**
 * What `main` in index.py does once a question fires: the model is asked
 * only when every OCR'd answer option is non-empty, and the answer it
 * returns is matched against the options by case-insensitive substring
 * search, the first matching option winning and being reported 1-based.
 */
module OptionMatch {
  import opened Wrappers
  import opened Text
  import AnswerTag

  /** `answer.lower() in option.lower()`. */
  predicate Mentions(option: string, answer: string)
  {
    Contains(Lower(option), Lower(answer))
  }

  /**
   * `next((i for i, option in enumerate(options) if answer.lower() in
   * option.lower()), None)`: the first option that contains the answer.
   */
  function MatchOption(answer: string, options: seq<string>): (r: Option<nat>)
    ensures r.Some? ==> r.value < |options| && Mentions(options[r.value], answer)
    ensures r.Some? ==> forall j :: 0 <= j < r.value ==> !Mentions(options[j], answer)
    ensures r.None? <==> forall j :: 0 <= j < |options| ==> !Mentions(options[j], answer)
    decreases |options|
  {
    if options == [] then None
    else if Mentions(options[0], answer) then Some(0)
    else match MatchOption(answer, options[1..])
      case None => None
      case Some(i) => Some(i + 1)
  }

  /** An empty answer is contained in every option, so it always selects the first one. */
  lemma EmptyAnswerSelectsFirst(options: seq<string>)
    requires |options| > 0
    ensures MatchOption("", options) == Some(0)
  {
    assert OccursAt(Lower(options[0]), Lower(""), 0);
  }

  /** What the processing of a fired question ends in. */
  datatype Outcome =
    | Skipped          // some option was read as empty text; the model is not asked
    | NoAnswer         // the reply carried no answer
    | Unmatched        // the answer is contained in no option
    | Chosen(option: nat)  // the 1-based number of the first option containing the answer

  /**
   * The processing after a question fires, given the OCR'd options and the
   * answer parsed from the model's reply (the request itself is outside
   * the model, so its parsed answer is a parameter).
   */
  function Report(options: seq<string>, predicted: Option<string>): (r: Outcome)
    ensures r == Skipped <==> exists i :: 0 <= i < |options| && options[i] == ""
    ensures r == NoAnswer <==> (forall i :: 0 <= i < |options| ==> options[i] != "") && predicted.None?
    ensures r.Chosen? ==>
              && predicted.Some? && 1 <= r.option <= |options|
              && Mentions(options[r.option - 1], predicted.value)
              && forall j :: 0 <= j < r.option - 1 ==> !Mentions(options[j], predicted.value)
    ensures r == Unmatched <==>
              && (forall i :: 0 <= i < |options| ==> options[i] != "")
              && predicted.Some?
              && forall j :: 0 <= j < |options| ==> !Mentions(options[j], predicted.value)
  {
    if exists i :: 0 <= i < |options| && options[i] == "" then Skipped
    else match predicted
      case None => NoAnswer
      case Some(answer) =>
        match MatchOption(answer, options)
        case None => Unmatched
        case Some(i) => Chosen(i + 1)
  }

  /**
   * A reply that lost its opening marker and whose first closing marker
   * starts at or before index 7 is parsed as the empty answer, which every
   * option contains, so option 1 is reported; the checked parser reports
   * that no answer came back.
   */
  lemma MissingOpenMarkerChoosesFirstOption(content: string, e: int, options: seq<string>)
    requires !Contains(content, AnswerTag.Open) && FirstAt(content, AnswerTag.Close, e) && e <= 7
    requires |options| > 0 && forall i :: 0 <= i < |options| ==> options[i] != ""
    ensures Report(options, AnswerTag.ExtractAnswer(content)) == Chosen(1)
    ensures Report(options, AnswerTag.ExtractAnswerChecked(content)) == NoAnswer
  {
    AnswerTag.ExtractWithoutOpenMarker(content, e);
    EmptyAnswerSelectsFirst(options);
  }
}
