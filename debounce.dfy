/**
 * The polling loop of `main` in index.py. Each iteration reads the question
 * counter through OCR. A recognised reading that differs from the last
 * processed question increments a counter; a reading equal to it resets the
 * counter; an unrecognised reading changes nothing. When the counter reaches
 * five the question is processed, the counter returns to zero and the
 * reading becomes the last processed question.
 */
module Debounce {
  import opened QuestionNumber

  /** Consecutive differing readings needed before a question is processed. */
  const Threshold: nat := 5

  /** The loop's state: `previous_question_number` and `consecutive_different_text_count`. */
  datatype Watch = Watch(previous: string, count: nat)

  /** The state before the first iteration. */
  const Initial: Watch := Watch("", 0)

  datatype StepResult = StepResult(next: Watch, fire: bool)

  /** One iteration of the loop on one OCR reading; `fire` means the question is processed. */
  function Step(w: Watch, reading: string): StepResult
  {
    if !Recognised(reading) then StepResult(w, false)
    else if reading == w.previous then StepResult(Watch(w.previous, 0), false)
    else if w.count + 1 == Threshold then StepResult(Watch(reading, 0), true)
    else StepResult(Watch(w.previous, w.count + 1), false)
  }

  /**
   * What one iteration does. An unrecognised reading changes nothing;
   * reading the last processed question again (compared unstripped) resets
   * the counter; a recognised reading that differs from it counts, and the
   * fifth such reading fires, resets the counter and becomes the last
   * question. The last question changes only when a step fires.
   */
  lemma StepCases(w: Watch, reading: string)
    ensures Step(w, reading).fire <==> Recognised(reading) && reading != w.previous && w.count == Threshold - 1
    ensures Step(w, reading).fire ==> Step(w, reading).next == Watch(reading, 0)
    ensures !Step(w, reading).fire ==> Step(w, reading).next.previous == w.previous
    ensures !Recognised(reading) ==> Step(w, reading).next == w
    ensures Recognised(reading) && reading == w.previous ==> Step(w, reading).next.count == 0
    ensures Recognised(reading) && reading != w.previous && !Step(w, reading).fire ==>
      Step(w, reading).next.count == w.count + 1
  {
  }

  /** Every step keeps the counter in 0..4. */
  lemma StepKeepsCountBelowThreshold(w: Watch, reading: string)
    requires w.count < Threshold
    ensures Step(w, reading).next.count < Threshold
  {
  }

  /** The state after the loop has consumed `readings`, in order. */
  function Run(w: Watch, readings: seq<string>): Watch
    decreases |readings|
  {
    if readings == [] then w
    else Step(Run(w, readings[..|readings| - 1]), readings[|readings| - 1]).next
  }

  /** The readings at which the loop processed a question, in order. */
  function Processed(w: Watch, readings: seq<string>): seq<string>
    decreases |readings|
  {
    if readings == [] then []
    else
      var init, last := readings[..|readings| - 1], readings[|readings| - 1];
      Processed(w, init) + (if Step(Run(w, init), last).fire then [last] else [])
  }

  /** The counter never leaves 0..4 however many readings are consumed. */
  lemma {:induction false} RunKeepsCountBelowThreshold(w: Watch, readings: seq<string>)
    requires w.count < Threshold
    ensures Run(w, readings).count < Threshold
    decreases |readings|
  {
    if readings != [] {
      RunKeepsCountBelowThreshold(w, readings[..|readings| - 1]);
    }
  }

  /** Readings the format check rejects change nothing and process nothing. */
  lemma {:induction false} UnrecognisedReadingsChangeNothing(w: Watch, readings: seq<string>)
    requires forall k :: 0 <= k < |readings| ==> !Recognised(readings[k])
    ensures Run(w, readings) == w && Processed(w, readings) == []
    decreases |readings|
  {
    if readings != [] {
      UnrecognisedReadingsChangeNothing(w, readings[..|readings| - 1]);
    }
  }

  /** One step keeps the last question equal to the last processed reading (or the initial one). */
  lemma LastAfterStep(before: seq<string>, previous: string, initial: string, s: StepResult, last: string)
    requires before == [] ==> previous == initial
    requires before != [] ==> previous == before[|before| - 1]
    requires s.fire ==> s.next.previous == last
    requires !s.fire ==> s.next.previous == previous
    ensures var after := before + (if s.fire then [last] else []);
      (after == [] ==> s.next.previous == initial) && (after != [] ==> s.next.previous == after[|after| - 1])
  {
  }

  /** The last question is the last processed reading, or the initial one if nothing was processed. */
  lemma {:induction false} PreviousIsLastProcessed(w: Watch, readings: seq<string>)
    ensures Processed(w, readings) == [] ==> Run(w, readings).previous == w.previous
    ensures Processed(w, readings) != [] ==>
      Run(w, readings).previous == Processed(w, readings)[|Processed(w, readings)| - 1]
    decreases |readings|
  {
    if readings != [] {
      var init, last := readings[..|readings| - 1], readings[|readings| - 1];
      PreviousIsLastProcessed(w, init);
      StepCases(Run(w, init), last);
      LastAfterStep(Processed(w, init), Run(w, init).previous, w.previous, Step(Run(w, init), last), last);
    }
  }

  /** Every processed reading passed the format check. */
  lemma {:induction false} ProcessedAreRecognised(w: Watch, readings: seq<string>)
    ensures forall k :: 0 <= k < |Processed(w, readings)| ==> Recognised(Processed(w, readings)[k])
    decreases |readings|
  {
    if readings != [] {
      var init, last := readings[..|readings| - 1], readings[|readings| - 1];
      ProcessedAreRecognised(w, init);
      if Step(Run(w, init), last).fire {
        StepCases(Run(w, init), last);
      }
    }
  }

  /** The same question is never processed twice in a row. */
  lemma {:induction false} ProcessedNeverRepeats(w: Watch, readings: seq<string>)
    ensures |Processed(w, readings)| > 0 ==> Processed(w, readings)[0] != w.previous
    ensures forall k :: 0 < k < |Processed(w, readings)| ==>
      Processed(w, readings)[k] != Processed(w, readings)[k - 1]
    decreases |readings|
  {
    if readings != [] {
      var init, last := readings[..|readings| - 1], readings[|readings| - 1];
      ProcessedNeverRepeats(w, init);
      PreviousIsLastProcessed(w, init);
    }
  }

  /**
   * Recognised readings that all differ from the last question, fewer than
   * needed to reach five, only raise the counter.
   */
  lemma {:induction false} DifferingReadingsCount(w: Watch, readings: seq<string>)
    requires w.count + |readings| < Threshold
    requires forall k :: 0 <= k < |readings| ==> Recognised(readings[k]) && readings[k] != w.previous
    ensures Run(w, readings) == Watch(w.previous, w.count + |readings|)
    ensures Processed(w, readings) == []
    decreases |readings|
  {
    if readings != [] {
      DifferingReadingsCount(w, readings[..|readings| - 1]);
    }
  }

  /**
   * From a reset counter, five consecutive recognised readings that differ
   * from the last question process exactly the fifth one.
   */
  lemma {:induction false} FiveDifferingReadingsFire(w: Watch, readings: seq<string>)
    requires w.count == 0 && |readings| == Threshold
    requires forall k :: 0 <= k < |readings| ==> Recognised(readings[k]) && readings[k] != w.previous
    ensures Processed(w, readings) == [readings[Threshold - 1]]
    ensures Run(w, readings) == Watch(readings[Threshold - 1], 0)
  {
    DifferingReadingsCount(w, readings[..Threshold - 1]);
  }

  /**
   * The loop as `main` writes it, over a finite sequence of OCR readings:
   * returns the final state and the readings at which a question was
   * processed.
   */
  method Poll(readings: seq<string>) returns (final: Watch, processed: seq<string>)
    ensures final == Run(Initial, readings)
    ensures processed == Processed(Initial, readings)
    ensures final.count < Threshold
    ensures forall k :: 0 < k < |processed| ==> processed[k] != processed[k - 1]
  {
    var previousQuestionNumber := "";
    var consecutiveDifferentTextCount: nat := 0;
    processed := [];
    var i := 0;
    while i < |readings|
      invariant 0 <= i <= |readings|
      invariant Watch(previousQuestionNumber, consecutiveDifferentTextCount) == Run(Initial, readings[..i])
      invariant processed == Processed(Initial, readings[..i])
    {
      var currentQuestionNumber := readings[i];
      var text := RemoveSpaces(currentQuestionNumber);
      if MatchesFormat(text) {
        if currentQuestionNumber != previousQuestionNumber {
          consecutiveDifferentTextCount := consecutiveDifferentTextCount + 1;
          if consecutiveDifferentTextCount == Threshold {
            processed := processed + [currentQuestionNumber];
            consecutiveDifferentTextCount := 0;
            previousQuestionNumber := currentQuestionNumber;
          }
        } else {
          consecutiveDifferentTextCount := 0;
        }
      }
      assert readings[..i + 1][..i] == readings[..i];
      i := i + 1;
    }
    assert readings[..i] == readings;
    final := Watch(previousQuestionNumber, consecutiveDifferentTextCount);
    RunKeepsCountBelowThreshold(Initial, readings);
    ProcessedNeverRepeats(Initial, readings);
  }
}
