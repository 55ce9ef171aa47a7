/** JavaScript's `String.prototype.trim`, the only text processing the pages do. */
module Text {

  /** The characters `trim` strips: ECMAScript WhiteSpace (tab, vertical tab, form feed, space,
      no-break space, byte-order mark and the Unicode space separators) and LineTerminator
      (line feed, carriage return, line and paragraph separators). */
  predicate IsSpace(c: char) {
    || c == '\t' || c == '\n' || c == '\U{000B}' || c == '\U{000C}' || c == '\r'
    || c == ' ' || c == '\U{00A0}' || c == '\U{1680}'
    || ('\U{2000}' <= c <= '\U{200A}')
    || c == '\U{2028}' || c == '\U{2029}' || c == '\U{202F}' || c == '\U{205F}'
    || c == '\U{3000}' || c == '\U{FEFF}'
  }

  /** Strips leading whitespace; the result is a suffix of `s`. */
  function TrimStart(s: string): (r: string)
    ensures |r| <= |s| && r == s[|s| - |r|..]
    ensures |r| == 0 || !IsSpace(r[0])
    ensures forall i :: 0 <= i < |s| - |r| ==> IsSpace(s[i])
    decreases |s|
  {
    if |s| > 0 && IsSpace(s[0]) then TrimStart(s[1..]) else s
  }

  /** Strips trailing whitespace; the result is a prefix of `s`. */
  function TrimEnd(s: string): (r: string)
    ensures |r| <= |s| && r == s[..|r|]
    ensures |r| == 0 || !IsSpace(r[|r| - 1])
    ensures forall i :: |r| <= i < |s| ==> IsSpace(s[i])
    decreases |s|
  {
    if |s| > 0 && IsSpace(s[|s| - 1]) then TrimEnd(s[..|s| - 1]) else s
  }

  /** Number of leading whitespace characters of `s`. */
  function Lead(s: string): nat {
    |s| - |TrimStart(s)|
  }

  /** Trimming the end of a suffix `u` of `s` leaves a slice of `s` followed only by
      whitespace, and keeps the first character of `u`. */
  lemma TrimEndOfSuffix(s: string, u: string)
    requires |u| <= |s| && u == s[|s| - |u|..]
    ensures |TrimEnd(u)| > 0 ==> TrimEnd(u)[0] == u[0]
    ensures |s| - |u| + |TrimEnd(u)| <= |s|
    ensures TrimEnd(u) == s[|s| - |u|..|s| - |u| + |TrimEnd(u)|]
    ensures forall i :: |s| - |u| + |TrimEnd(u)| <= i < |s| ==> IsSpace(s[i])
  {
    var k := |s| - |u|;
    assert forall i :: k <= i < |s| ==> s[i] == u[i - k];
  }

  /** `s.trim()`: the slice of `s` left after removing whitespace at both ends. */
  function Trim(s: string): (r: string)
    ensures Lead(s) + |r| <= |s| && r == s[Lead(s)..Lead(s) + |r|]
    ensures |r| == 0 || (!IsSpace(r[0]) && !IsSpace(r[|r| - 1]))
    ensures forall i :: 0 <= i < Lead(s) ==> IsSpace(s[i])
    ensures forall i :: Lead(s) + |r| <= i < |s| ==> IsSpace(s[i])
  {
    TrimEndOfSuffix(s, TrimStart(s));
    TrimEnd(TrimStart(s))
  }

  /** JavaScript's `!s.trim()`: the trimmed string is the empty, falsy string. */
  predicate IsBlank(s: string) {
    Trim(s) == []
  }

  /** A string is blank exactly when every character of it is whitespace; in particular a
      string with one visible character trims to a non-empty string. */
  lemma BlankIffAllSpace(s: string)
    ensures IsBlank(s) <==> forall i :: 0 <= i < |s| ==> IsSpace(s[i])
  {
    var u := TrimStart(s);
    assert |u| > 0 ==> u[0] == s[Lead(s)];
    assert |u| > 0 ==> |TrimEnd(u)| > 0;
  }

  /** Trimming an already trimmed string changes nothing. */
  lemma TrimIdempotent(s: string)
    ensures Trim(Trim(s)) == Trim(s)
  {
    var t := Trim(s);
    assert TrimStart(t) == t;
    assert TrimEnd(t) == t;
  }

  /** A string that starts and ends with a visible character is its own trim, and is not
      blank. */
  lemma TrimVisibleEnds(s: string)
    requires |s| > 0 && !IsSpace(s[0]) && !IsSpace(s[|s| - 1])
    ensures Trim(s) == s && !IsBlank(s)
  {
    assert TrimStart(s) == s;
    assert TrimEnd(s) == s;
  }

  /** A non-blank string trims to a non-empty string that starts and ends with a visible
      character. */
  lemma TrimmedNonBlank(s: string)
    requires !IsBlank(s)
    ensures |Trim(s)| > 0 && !IsSpace(Trim(s)[0]) && !IsSpace(Trim(s)[|Trim(s)| - 1])
    ensures !IsBlank(Trim(s))
  {
    TrimIdempotent(s);
  }
}
