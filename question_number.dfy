/**
 * The check that an OCR reading looks like a question counter such as
 * "Q3 of 10" (index.py): spaces are removed, then the text must begin with
 * the regular expression `Q\d+0f\d+|Q\d+of\d+|Q\d+o0f\d+` (a `re.match`, so
 * anything may follow). The three alternatives accept the OCR confusing the
 * letter o with the digit 0.
 */
module QuestionNumber {

  /** An ASCII decimal digit (`\d`). */
  predicate IsDigit(c: char)
  {
    '0' <= c <= '9'
  }

  predicate AllDigits(s: string)
  {
    forall k :: 0 <= k < |s| ==> IsDigit(s[k])
  }

  /** Python's `s.replace(" ", "")`: every U+0020 removed, everything else kept in order. */
  function RemoveSpaces(s: string): (r: string)
    ensures |r| <= |s|
    ensures forall k :: 0 <= k < |r| ==> r[k] != ' '
    ensures (forall k :: 0 <= k < |s| ==> s[k] != ' ') ==> r == s
  {
    if s == [] then []
    else (if s[0] == ' ' then [] else [s[0]]) + RemoveSpaces(s[1..])
  }

  /**
   * Removing spaces keeps every other character, as often as it occurs; a
   * single character is dropped exactly when it is a space.
   */
  lemma {:induction false} RemoveSpacesKeepsOthers(s: string)
    ensures multiset(RemoveSpaces(s)) == multiset(s)[' ' := 0]
    ensures |s| == 1 ==> RemoveSpaces(s) == (if s[0] == ' ' then [] else s)
  {
    if s != [] {
      assert s == [s[0]] + s[1..];
      RemoveSpacesKeepsOthers(s[1..]);
    }
  }

  lemma {:induction false} RemoveSpacesAppend(a: string, b: string)
    ensures RemoveSpaces(a + b) == RemoveSpaces(a) + RemoveSpaces(b)
  {
    if a == [] {
      assert a + b == b;
    } else {
      assert (a + b)[0] == a[0] && (a + b)[1..] == a[1..] + b;
      RemoveSpacesAppend(a[1..], b);
    }
  }

  /**
   * `w` is matched, as a whole, by the alternative `Q\d+` sep `\d+` of the
   * pattern, with the first run of digits ending just before index `d`.
   */
  ghost predicate WholeAlternative(w: string, sep: string, d: int)
  {
    2 <= d && d + |sep| < |w| && w[0] == 'Q' && AllDigits(w[1..d])
    && w[d..d + |sep|] == sep && AllDigits(w[d + |sep|..])
  }

  /** `w` belongs to the language of `Q\d+0f\d+|Q\d+of\d+|Q\d+o0f\d+`. */
  ghost predicate InPattern(w: string)
  {
    exists d :: WholeAlternative(w, "0f", d) || WholeAlternative(w, "of", d) || WholeAlternative(w, "o0f", d)
  }

  /** What `re.match` decides: some prefix of `t` belongs to the pattern's language. */
  ghost predicate PrefixMatch(t: string)
  {
    exists p :: 0 <= p <= |t| && InPattern(t[..p])
  }

  /** The end of the maximal run of digits that starts at `i`. */
  function DigitsEnd(t: string, i: nat): (j: nat)
    requires i <= |t|
    ensures i <= j <= |t|
    ensures AllDigits(t[i..j])
    ensures j < |t| ==> !IsDigit(t[j])
    decreases |t| - i
  {
    if i < |t| && IsDigit(t[i]) then DigitsEnd(t, i + 1) else i
  }

  /** `sep` occurs at `j` and is followed by a digit. */
  predicate SeparatorThenDigit(t: string, j: int, sep: string)
  {
    0 <= j && j + |sep| < |t| && t[j..j + |sep|] == sep && IsDigit(t[j + |sep|])
  }

  /**
   * The recogniser, written without backtracking: take the maximal run of
   * digits after `Q`; then either its last digit is the `0` of "0f", or
   * "of" / "o0f" follows it; and a digit comes next.
   */
  function MatchesFormat(t: string): (ok: bool)
    ensures ok ==> 5 <= |t| && t[0] == 'Q' && IsDigit(t[1])
  {
    |t| > 0 && t[0] == 'Q' &&
    var j := DigitsEnd(t, 1);
    j >= 2 &&
    ((j >= 3 && SeparatorThenDigit(t, j - 1, "0f"))
     || SeparatorThenDigit(t, j, "of")
     || SeparatorThenDigit(t, j, "o0f"))
  }

  /** A run of digits from `i` to `m` followed by a non-digit (or the end) is the maximal run. */
  lemma {:induction false} DigitsEndAt(t: string, i: nat, m: int)
    requires i <= m <= |t| && AllDigits(t[i..m]) && (m == |t| || !IsDigit(t[m]))
    ensures DigitsEnd(t, i) == m
    decreases m - i
  {
    if i < m {
      assert t[i..m][0] == t[i];
      assert t[i + 1..m] == t[i..m][1..];
      DigitsEndAt(t, i + 1, m);
    }
  }

  /** An alternative matched at the start of `t`, with a digit after the separator, is a matching prefix. */
  lemma WitnessPrefix(t: string, sep: string, d: int)
    requires sep == "0f" || sep == "of" || sep == "o0f"
    requires |t| > 0 && t[0] == 'Q' && 2 <= d && SeparatorThenDigit(t, d, sep) && AllDigits(t[1..d])
    ensures PrefixMatch(t)
  {
    var p := d + |sep| + 1;
    var w := t[..p];
    assert w[1..d] == t[1..d];
    assert w[d..d + |sep|] == t[d..d + |sep|];
    assert w[d + |sep|..] == [t[d + |sep|]];
    assert WholeAlternative(w, sep, d);
    assert InPattern(t[..p]);
  }

  lemma MatchesFormatImpliesPrefixMatch(t: string)
    requires MatchesFormat(t)
    ensures PrefixMatch(t)
  {
    var j := DigitsEnd(t, 1);
    if j >= 3 && SeparatorThenDigit(t, j - 1, "0f") {
      var run, digits := t[1..j - 1], t[1..j];
      forall k | 0 <= k < |run| ensures IsDigit(run[k]) {
        assert run[k] == digits[k];
      }
      WitnessPrefix(t, "0f", j - 1);
    } else if SeparatorThenDigit(t, j, "of") {
      WitnessPrefix(t, "of", j);
    } else {
      WitnessPrefix(t, "o0f", j);
    }
  }

  /** A prefix matched by one alternative says the same of `t` itself, with a digit after the separator. */
  lemma AlternativeOnText(t: string, p: int, sep: string, d: int)
    requires 0 <= p <= |t| && WholeAlternative(t[..p], sep, d)
    ensures |t| > 0 && t[0] == 'Q' && 2 <= d && SeparatorThenDigit(t, d, sep) && AllDigits(t[1..d])
  {
    var w := t[..p];
    assert t[1..d] == w[1..d];
    assert t[d..d + |sep|] == w[d..d + |sep|];
    assert w[d + |sep|..][0] == t[d + |sep|];
  }

  /** With "of" or "o0f" the digit run is the recogniser's maximal one. */
  lemma LetterSeparatorMatches(t: string, sep: string, d: int)
    requires sep == "of" || sep == "o0f"
    requires |t| > 0 && t[0] == 'Q' && 2 <= d && SeparatorThenDigit(t, d, sep) && AllDigits(t[1..d])
    ensures MatchesFormat(t)
  {
    assert t[d] == t[d..d + |sep|][0] == 'o';
    DigitsEndAt(t, 1, d);
  }

  /** With "0f" the separator's 0 is the last digit of the recogniser's maximal run. */
  lemma ZeroSeparatorMatches(t: string, d: int)
    requires |t| > 0 && t[0] == 'Q' && 2 <= d && SeparatorThenDigit(t, d, "0f") && AllDigits(t[1..d])
    ensures MatchesFormat(t)
  {
    assert t[d] == t[d..d + 2][0] == '0';
    assert t[d + 1] == t[d..d + 2][1] == 'f';
    assert t[1..d + 1] == t[1..d] + [t[d]];
    DigitsEndAt(t, 1, d + 1);
    var j := DigitsEnd(t, 1);
    assert t[j - 1..j + 1] == t[d..d + 2];
    assert SeparatorThenDigit(t, j - 1, "0f");
  }

  /** The recogniser accepts exactly the texts the regular expression matches at their start. */
  lemma MatchesFormatIffPrefixMatch(t: string)
    ensures MatchesFormat(t) <==> PrefixMatch(t)
  {
    if MatchesFormat(t) {
      MatchesFormatImpliesPrefixMatch(t);
    }
    if PrefixMatch(t) {
      var p :| 0 <= p <= |t| && InPattern(t[..p]);
      var d :| WholeAlternative(t[..p], "0f", d) || WholeAlternative(t[..p], "of", d) || WholeAlternative(t[..p], "o0f", d);
      if WholeAlternative(t[..p], "0f", d) {
        AlternativeOnText(t, p, "0f", d);
        ZeroSeparatorMatches(t, d);
      } else if WholeAlternative(t[..p], "of", d) {
        AlternativeOnText(t, p, "of", d);
        LetterSeparatorMatches(t, "of", d);
      } else {
        AlternativeOnText(t, p, "o0f", d);
        LetterSeparatorMatches(t, "o0f", d);
      }
    }
  }

  /** Whatever follows a recognised counter is ignored. */
  lemma MatchesFormatIgnoresSuffix(t: string, u: string)
    requires MatchesFormat(t)
    ensures MatchesFormat(t + u)
  {
    MatchesFormatIffPrefixMatch(t);
    var p :| 0 <= p <= |t| && InPattern(t[..p]);
    assert (t + u)[..p] == t[..p];
    MatchesFormatIffPrefixMatch(t + u);
  }

  /** The test applied to a raw OCR reading. */
  predicate Recognised(reading: string): (ok: bool)
    ensures ok ==> 5 <= |reading|
  {
    MatchesFormat(RemoveSpaces(reading))
  }

  /** A reading is recognised iff, once its spaces are removed, the pattern matches a prefix of it. */
  lemma RecognisedIffPrefixMatch(reading: string)
    ensures Recognised(reading) <==> PrefixMatch(RemoveSpaces(reading))
  {
    MatchesFormatIffPrefixMatch(RemoveSpaces(reading));
  }

  /** Text after a recognised reading (OCR noise, a newline) never makes it unrecognised. */
  lemma RecognisedIgnoresSuffix(reading: string, noise: string)
    requires Recognised(reading)
    ensures Recognised(reading + noise)
  {
    RemoveSpacesAppend(reading, noise);
    MatchesFormatIgnoresSuffix(RemoveSpaces(reading), RemoveSpaces(noise));
  }
}
