/**
 * Parsing of the language model's reply: `get_answer_from_groq` (index.py)
 * and `get_answer_from_claude` (claude.py) share the same code, which looks
 * for the literal markers `<ANSWER>` and `</ANSWER>` and returns the stripped
 * text between them.
 *
 * The code adds the length of the opening marker to the result of `find`
 * before testing it against -1, so the test can never fail and a reply
 * without `<ANSWER>` is sliced from index 7 (= -1 + 8) instead of being
 * rejected. `ExtractAnswer` keeps that behaviour; `ExtractAnswerChecked`
 * is the version that tests the opening marker.
 */
module AnswerTag {
  import opened Wrappers
  import opened Text

  const Open: string := "<ANSWER>"
  const Close: string := "</ANSWER>"

  /** The reply parser as written: `start = find(Open) + 8`, `end = find(Close)`. */
  function ExtractAnswer(content: string): (r: Option<string>)
    ensures r.None? <==> !Contains(content, Close)
  {
    var start := Find(content, Open) + |Open|;
    var end := Find(content, Close);
    if start != -1 && end != -1 then Some(Strip(Slice(content, start, end)))
    else None
  }

  /** The two markers cannot overlap: neither contains a '<' after its first character. */
  lemma MarkersDoNotOverlap(content: string, o: int, e: int)
    requires OccursAt(content, Open, o) && OccursAt(content, Close, e)
    ensures o != e
    ensures o < e ==> o + |Open| <= e
    ensures e < o ==> e + |Close| <= o
  {
    assert content[o] == Open[0] && content[e] == Close[0];
    assert content[o + 1] == Open[1] && content[e + 1] == Close[1];
    assert forall k :: 0 < k < |Open| ==> content[o + k] == Open[k] != '<';
    assert forall k :: 0 < k < |Close| ==> content[e + k] == Close[k] != '<';
  }

  /** Both markers present, closing after opening: the stripped text strictly between them. */
  lemma {:induction false} ExtractBetweenMarkers(content: string, o: int, e: int)
    requires FirstAt(content, Open, o) && FirstAt(content, Close, e)
    requires o < e
    ensures o + |Open| <= e
    ensures ExtractAnswer(content) == Some(Strip(content[o + |Open|..e]))
  {
    MarkersDoNotOverlap(content, o, e);
    FindIsFirst(content, Open, o);
    FindIsFirst(content, Close, e);
  }

  /** Closing marker before the opening one: the slice is reversed, hence empty. */
  lemma {:induction false} ExtractCloseBeforeOpen(content: string, o: int, e: int)
    requires FirstAt(content, Open, o) && FirstAt(content, Close, e)
    requires e < o
    ensures ExtractAnswer(content) == Some("")
  {
    FindIsFirst(content, Open, o);
    FindIsFirst(content, Close, e);
    assert Slice(content, o + |Open|, e) == "";
    StripEmpty();
  }

  /**
   * No opening marker: the reply is still accepted, and the answer is the
   * stripped text from index 7 up to the closing marker (empty when the
   * closing marker starts at or before index 7).
   */
  lemma {:induction false} ExtractWithoutOpenMarker(content: string, e: int)
    requires !Contains(content, Open)
    requires FirstAt(content, Close, e)
    ensures e <= 7 ==> ExtractAnswer(content) == Some("")
    ensures e > 7 ==> ExtractAnswer(content) == Some(Strip(content[7..e]))
  {
    FindIsFirst(content, Close, e);
    if e <= 7 {
      assert Slice(content, 7, e) == "";
      StripEmpty();
    }
  }

  /** A reply whose only marker is a closing one still yields an answer: the empty string. */
  lemma ExtractAcceptsMissingOpenMarker()
    ensures !Contains("B</ANSWER>", Open)
    ensures ExtractAnswer("B</ANSWER>") == Some("")
  {
    var c := "B</ANSWER>";
    assert FirstAt(c, Close, 1) by {
      assert c[1..] == Close;
      assert c[0] != Close[0];
    }
    assert !Contains(c, Open) by {
      assert c[0] != '<' && c[2] != 'A' && c[2] != '<';
      assert forall i :: 0 <= i <= |c| && OccursAt(c, Open, i) ==> c[i] == '<' && c[i + 1] == 'A';
    }
    ExtractWithoutOpenMarker(c, 1);
  }

  /** The parser with the presence test on the opening marker itself, before the offset is added. */
  function ExtractAnswerChecked(content: string): (r: Option<string>)
    ensures r.None? <==> !Contains(content, Open) || !Contains(content, Close)
    ensures Contains(content, Open) ==> r == ExtractAnswer(content)
  {
    var open := Find(content, Open);
    var end := Find(content, Close);
    if open != -1 && end != -1 then Some(Strip(Slice(content, open + |Open|, end)))
    else None
  }

  /** The checked parser returns the text strictly between the first markers, and nothing without both. */
  lemma {:induction false} CheckedExtractBetweenMarkers(content: string, o: int, e: int)
    requires FirstAt(content, Open, o) && FirstAt(content, Close, e)
    requires o < e
    ensures o + |Open| <= e
    ensures ExtractAnswerChecked(content) == Some(Strip(content[o + |Open|..e]))
  {
    ExtractBetweenMarkers(content, o, e);
  }
}
