/** The tag colour validator: a regular expression for `#` followed by three or six
    hexadecimal digits, searched the way Python's `re` does. */
module HexColor {
  import opened Common

  const ColorMessage: string := "Неверный формат цвета. "

  predicate IsHexDigit(c: char)
  {
    '0' <= c <= '9' || 'a' <= c <= 'f' || 'A' <= c <= 'F'
  }

  /** The colours the validator is meant to admit: `#` and then exactly three or
      exactly six hex digits, in either case. */
  predicate HexColorString(s: string)
  {
    (|s| == 4 || |s| == 7) && s[0] == '#' && forall i :: 1 <= i < |s| ==> IsHexDigit(s[i])
  }

  /** How many hex digits s starts with: how far `[A-Fa-f0-9]` repeats greedily. */
  function HexRunLength(s: string): (n: nat)
    ensures n <= |s|
    ensures forall i :: 0 <= i < n ==> IsHexDigit(s[i])
    ensures n < |s| ==> !IsHexDigit(s[n])
  {
    if s == [] || !IsHexDigit(s[0]) then 0 else 1 + HexRunLength(s[1..])
  }

  /** Where `$` may match: at the end of the text, or (without MULTILINE, in
      Python) just before a newline that ends it. The intended end-of-text anchor
      accepts only the first. */
  predicate EndAt(s: string, i: nat, beforeFinalNewline: bool)
  {
    i == |s| || (beforeFinalNewline && i + 1 == |s| && s[i] == '\n')
  }

  /** `^#([A-Fa-f0-9]{6}|[A-Fa-f0-9]{3})$`: after `#`, the six-digit alternative is
      tried first, then the three-digit one, each followed by the end anchor. */
  predicate MatchesWith(s: string, beforeFinalNewline: bool)
  {
    |s| > 0 && s[0] == '#' &&
    var k := HexRunLength(s[1..]);
    (k >= 6 && EndAt(s, 7, beforeFinalNewline)) || (k >= 3 && EndAt(s, 4, beforeFinalNewline))
  }

  /** `hex_color_regex` as written: Python's `$` also matches before a final newline. */
  predicate Matches(s: string)
  {
    MatchesWith(s, true)
  }

  /** The intended validator: the same pattern anchored at the very end of the text. */
  predicate FullMatches(s: string)
  {
    MatchesWith(s, false)
  }

  /** `hex_color_regex`, the validator the tag's colour field runs, as written: no
      error for a colour, or for a colour followed by one final newline; otherwise the
      format message. */
  function ColorError(value: string): (r: Option<string>)
    ensures r.None? <==> HexColorString(value) || (|value| > 0 && value[|value| - 1] == '\n' && HexColorString(value[..|value| - 1]))
    ensures r.Some? ==> r.value == ColorMessage
  {
    MatchesAsWritten(value);
    if Matches(value) then None else Some(ColorMessage)
  }

  /** The intended validator: no error exactly for a colour. */
  function ColorErrorCorrected(value: string): (r: Option<string>)
    ensures r.None? <==> HexColorString(value)
    ensures r.Some? ==> r.value == ColorMessage
  {
    FullMatchesExactly(value);
    if FullMatches(value) then None else Some(ColorMessage)
  }

  /** The intended validator admits exactly the three- and six-digit colours. */
  lemma FullMatchesExactly(s: string)
    ensures FullMatches(s) <==> HexColorString(s)
  {
    if |s| > 0 && s[0] == '#' {
      var t := s[1..];
      var k := HexRunLength(t);
      if HexColorString(s) {
        forall i | 0 <= i < |t| ensures IsHexDigit(t[i]) {
          assert t[i] == s[i + 1];
        }
        assert k == |t|;
      }
      if FullMatches(s) {
        forall i | 1 <= i < |s| ensures IsHexDigit(s[i]) {
          assert s[i] == t[i - 1];
        }
      }
    }
  }

  /** As written, the validator admits exactly the intended colours and the same
      followed by one newline. */
  lemma MatchesAsWritten(s: string)
    ensures Matches(s) <==> HexColorString(s) || (|s| > 0 && s[|s| - 1] == '\n' && HexColorString(s[..|s| - 1]))
  {
    if |s| > 0 && s[0] == '#' {
      var t := s[1..];
      var k := HexRunLength(t);
      var u := s[..|s| - 1];
      if HexColorString(s) {
        forall i | 0 <= i < |t| ensures IsHexDigit(t[i]) {
          assert t[i] == s[i + 1];
        }
      }
      if |s| > 1 && s[|s| - 1] == '\n' && HexColorString(u) {
        forall i | 0 <= i < |u| - 1 ensures IsHexDigit(t[i]) {
          assert t[i] == u[i + 1];
        }
        assert !IsHexDigit(t[|u| - 1]);
        assert k == |u| - 1;
      }
      if Matches(s) && !HexColorString(s) {
        assert |s| == 5 || |s| == 8;
        forall i | 1 <= i < |u| ensures IsHexDigit(u[i]) {
          assert u[i] == t[i - 1];
        }
      }
      if Matches(s) && HexColorString(s) {
      }
    }
  }

  /** Six digits, three digits, and either case of letter are accepted. */
  lemma AcceptedColors()
    ensures ColorError("#AABBCC").None? && ColorError("#abc").None? && ColorError("#aB3f09").None?
    ensures ColorErrorCorrected("#AABBCC").None? && ColorErrorCorrected("#abc").None?
  {
    assert HexColorString("#AABBCC");
    assert HexColorString("#abc");
    assert HexColorString("#aB3f09");
  }

  /** A missing `#`, a non-hex character or a digit count other than three or six is
      refused with the format message. */
  lemma RejectedColors()
    ensures ColorError("AABBCC") == Some(ColorMessage)
    ensures ColorError("#abcd") == Some(ColorMessage)
    ensures ColorError("#abcdefa") == Some(ColorMessage)
    ensures ColorError("#ggg") == Some(ColorMessage)
    ensures ColorError("#ab") == Some(ColorMessage)
  {
    assert !IsHexDigit("#ggg"[1]);
  }

  /** As written, "#abc" followed by a newline passes the validator although it is not
      a colour; the intended validator refuses it. */
  lemma TrailingNewlineAccepted()
    ensures Matches("#abc\n") && !HexColorString("#abc\n") && !FullMatches("#abc\n")
    ensures ColorError("#abc\n") == None && ColorErrorCorrected("#abc\n") == Some(ColorMessage)
  {
    MatchesAsWritten("#abc\n");
    assert "#abc\n"[..4] == "#abc";
    FullMatchesExactly("#abc\n");
  }
}
