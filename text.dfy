/** Python's notion of a blank string, as used by the guard `not user_message.strip()`.
    `str.strip()` with no argument removes leading and trailing characters for which
    `str.isspace()` holds; the guard fires exactly when nothing is left. */
module PyText {

  /** The characters Python's `str.isspace()` accepts. */
  predicate IsSpace(c: char) {
    ('\t' <= c <= '\r')                  // tab, line feed, vertical tab, form feed, carriage return
    || ('\U{1C}' <= c <= '\U{1F}')       // file, group, record and unit separators
    || c == ' ' || c == '\U{85}' || c == '\U{A0}' || c == '\U{1680}'
    || ('\U{2000}' <= c <= '\U{200A}')
    || c == '\U{2028}' || c == '\U{2029}' || c == '\U{202F}' || c == '\U{205F}' || c == '\U{3000}'
  }

  /** Every character of `s` is whitespace (the empty string included). */
  predicate IsBlank(s: string) {
    forall i :: 0 <= i < |s| ==> IsSpace(s[i])
  }

  /** `r` is the piece of `s` that starts at index `a`. */
  predicate SliceAt(s: string, a: int, r: string) {
    0 <= a <= |s| - |r| && r == s[a..a + |r|]
  }

  /** `s` with its leading whitespace removed. */
  function StripLeading(s: string): (r: string)
    ensures |r| <= |s| && r == s[|s| - |r|..]
    ensures forall i :: 0 <= i < |s| - |r| ==> IsSpace(s[i])
    ensures r != [] ==> !IsSpace(r[0])
  {
    if s != [] && IsSpace(s[0]) then StripLeading(s[1..]) else s
  }

  /** `s` with its trailing whitespace removed. */
  function StripTrailing(s: string): (r: string)
    ensures |r| <= |s| && r == s[..|r|]
    ensures forall i :: |r| <= i < |s| ==> IsSpace(s[i])
    ensures r != [] ==> !IsSpace(r[|r| - 1])
  {
    if s != [] && IsSpace(s[|s| - 1]) then StripTrailing(s[..|s| - 1]) else s
  }

  /** Python's `s.strip()`: a string that neither starts nor ends with whitespace, and is
      empty exactly when `s` is blank. `StripIsSlice` shows it is a piece of `s`. */
  function Strip(s: string): (r: string)
    ensures |r| <= |s|
    ensures r != [] ==> !IsSpace(r[0]) && !IsSpace(r[|r| - 1])
    ensures r == [] <==> IsBlank(s)
  {
    var lead := StripLeading(s);
    var r := StripTrailing(lead);
    assert r == [] ==> IsBlank(s) by {
      if r == [] {
        assert lead == [];
      }
    }
    assert r != [] ==> !IsBlank(s) by {
      if r != [] {
        var a := |s| - |lead|;
        assert s[a] == r[0];
      }
    }
    r
  }

  /** What `strip()` returns is a contiguous piece of its input. */
  lemma StripIsSlice(s: string)
    ensures exists a :: SliceAt(s, a, Strip(s))
  {
    var lead := StripLeading(s);
    var r := StripTrailing(lead);
    assert r == Strip(s);
    var a := |s| - |lead|;
    assert lead == s[a..] && r == lead[..|r|];
    assert s[a..][..|r|] == s[a..a + |r|];
    assert SliceAt(s, a, r);
  }
}
