/**
 * String operations used by the browser client and the analysis service:
 * trimming whitespace, substring search, removing every occurrence of a
 * pattern (Python's `str.replace(pat, "")`), and joining and splitting lines.
 */
module Text {

  /** The characters JavaScript's `String.prototype.trim` removes: WhiteSpace and LineTerminator. */
  const JsWhitespace: set<char> :=
    {'\t', '\n', '\U{B}', '\U{C}', '\r', ' ', '\U{A0}', '\U{1680}',
     '\U{2000}', '\U{2001}', '\U{2002}', '\U{2003}', '\U{2004}', '\U{2005}', '\U{2006}', '\U{2007}',
     '\U{2008}', '\U{2009}', '\U{200A}', '\U{2028}', '\U{2029}', '\U{202F}', '\U{205F}', '\U{3000}',
     '\U{FEFF}'}

  /** The characters Python's `str.strip()` removes when given no argument (`str.isspace`). */
  const PyWhitespace: set<char> :=
    {'\t', '\n', '\U{B}', '\U{C}', '\r', '\U{1C}', '\U{1D}', '\U{1E}',
     '\U{1F}', ' ', '\U{85}', '\U{A0}', '\U{1680}', '\U{2000}', '\U{2001}', '\U{2002}',
     '\U{2003}', '\U{2004}', '\U{2005}', '\U{2006}', '\U{2007}', '\U{2008}', '\U{2009}', '\U{200A}',
     '\U{2028}', '\U{2029}', '\U{202F}', '\U{205F}', '\U{3000}'}

  // ---------------------------------------------------------------------------
  // Trimming

  /** `s` without its leading characters from `ws`. */
  function TrimStart(s: string, ws: set<char>): (r: string)
    ensures |r| <= |s| && r == s[|s| - |r|..]
    ensures r == [] || r[0] !in ws
  {
    if |s| > 0 && s[0] in ws then TrimStart(s[1..], ws) else s
  }

  /** Every character `TrimStart` drops is in `ws`. */
  lemma {:induction false} TrimStartDropsOnlyWhitespace(s: string, ws: set<char>)
    ensures forall i :: 0 <= i < |s| - |TrimStart(s, ws)| ==> s[i] in ws
    decreases |s|
  {
    if |s| > 0 && s[0] in ws {
      TrimStartDropsOnlyWhitespace(s[1..], ws);
    }
  }

  /** `s` without its trailing characters from `ws`. */
  function TrimEnd(s: string, ws: set<char>): (r: string)
    ensures |r| <= |s| && r == s[..|r|]
    ensures r == [] || r[|r| - 1] !in ws
  {
    if |s| > 0 && s[|s| - 1] in ws then TrimEnd(s[..|s| - 1], ws) else s
  }

  /** Every character `TrimEnd` drops is in `ws`. */
  lemma {:induction false} TrimEndDropsOnlyWhitespace(s: string, ws: set<char>)
    ensures forall i :: |TrimEnd(s, ws)| <= i < |s| ==> s[i] in ws
    decreases |s|
  {
    if |s| > 0 && s[|s| - 1] in ws {
      TrimEndDropsOnlyWhitespace(s[..|s| - 1], ws);
    }
  }

  /** `s` without leading and trailing characters from `ws` (JavaScript `trim`, Python `strip`). */
  function Trim(s: string, ws: set<char>): (r: string)
    ensures r == [] || (r[0] !in ws && r[|r| - 1] !in ws)
  {
    TrimEnd(TrimStart(s, ws), ws)
  }

  /** Trimming gives the empty string exactly when every character is in `ws`. */
  lemma TrimEmptyIffAllWhitespace(s: string, ws: set<char>)
    ensures Trim(s, ws) == [] <==> forall i :: 0 <= i < |s| ==> s[i] in ws
  {
    var t := TrimStart(s, ws);
    TrimStartDropsOnlyWhitespace(s, ws);
    TrimEndDropsOnlyWhitespace(t, ws);
    if Trim(s, ws) == [] {
      assert t == [];
    }
  }

  /** Trimming a string with no border whitespace leaves it as it is. */
  lemma TrimUnbordered(s: string, ws: set<char>)
    requires s == [] || (s[0] !in ws && s[|s| - 1] !in ws)
    ensures Trim(s, ws) == s
  {
  }

  /** Trimming is idempotent. */
  lemma TrimIdempotent(s: string, ws: set<char>)
    ensures Trim(Trim(s, ws), ws) == Trim(s, ws)
  {
    TrimUnbordered(Trim(s, ws), ws);
  }

  /** The trimmed string is a contiguous part of the original: a suffix of a prefix. */
  lemma TrimIsInfix(s: string, ws: set<char>)
    ensures var t := TrimStart(s, ws); Trim(s, ws) == t[..|Trim(s, ws)|] && t == s[|s| - |t|..]
  {
  }

  // ---------------------------------------------------------------------------
  // Substring search

  /** Python's `pat in s`: `pat` occurs somewhere in `s`. */
  predicate Contains(s: string, pat: string)
    decreases |s|
  {
    pat <= s || (|s| > 0 && Contains(s[1..], pat))
  }

  /** An occurrence is never longer than the string it occurs in. */
  lemma {:induction false} ContainsIsShorter(s: string, pat: string)
    requires Contains(s, pat)
    ensures |pat| <= |s|
    decreases |s|
  {
    if !(pat <= s) {
      ContainsIsShorter(s[1..], pat);
    }
  }

  /** An occurrence in a suffix is an occurrence in the whole. */
  lemma {:induction false} ContainsInSuffix(s: string, k: nat, pat: string)
    requires k <= |s| && Contains(s[k..], pat)
    ensures Contains(s, pat)
    decreases k
  {
    if k > 0 {
      assert s[1..][k - 1..] == s[k..];
      ContainsInSuffix(s[1..], k - 1, pat);
    }
  }

  /** An occurrence in a prefix is an occurrence in the whole. */
  lemma {:induction false} ContainsInPrefix(s: string, k: nat, pat: string)
    requires k <= |s| && Contains(s[..k], pat)
    ensures Contains(s, pat)
    decreases k
  {
    if pat <= s[..k] {
      assert pat <= s;
    } else {
      assert s[..k][1..] == s[1..][..k - 1];
      ContainsInPrefix(s[1..], k - 1, pat);
    }
  }

  /** Wherever `p + q` occurs, `p` occurs. */
  lemma {:induction false} ContainsLonger(s: string, p: string, q: string)
    requires Contains(s, p + q)
    ensures Contains(s, p)
    decreases |s|
  {
    if p + q <= s {
      assert p <= s by { assert p == (p + q)[..|p|]; }
    } else {
      ContainsLonger(s[1..], p, q);
    }
  }

  /** Trimming never creates an occurrence. */
  lemma TrimKeepsAbsence(s: string, ws: set<char>, pat: string)
    requires !Contains(s, pat)
    ensures !Contains(Trim(s, ws), pat)
  {
    var t := TrimStart(s, ws);
    var r := Trim(s, ws);
    TrimIsInfix(s, ws);
    if Contains(r, pat) {
      ContainsInPrefix(t, |r|, pat);
      ContainsInSuffix(s, |s| - |t|, pat);
    }
  }

  // ---------------------------------------------------------------------------
  // Removing occurrences

  /**
   * Python's `s.replace(pat, "")`: scanning left to right, every
   * non-overlapping occurrence of `pat` is dropped.
   */
  function RemoveAll(s: string, pat: string): (r: string)
    requires |pat| > 0
    ensures |r| <= |s|
    ensures !Contains(s, pat) ==> r == s
    decreases |s|
  {
    if |s| < |pat| then s
    else if pat <= s then RemoveAll(s[|pat|..], pat)
    else [s[0]] + RemoveAll(s[1..], pat)
  }

  // ---------------------------------------------------------------------------
  // Lines

  /** JavaScript's `lines.join(sep)` for a one-character separator. */
  function Join(lines: seq<string>, sep: char): string
  {
    if |lines| == 0 then ""
    else if |lines| == 1 then lines[0]
    else lines[0] + [sep] + Join(lines[1..], sep)
  }

  /** JavaScript's `s.split(sep)` for a one-character separator: always at least one piece. */
  function Split(s: string, sep: char): (r: seq<string>)
    ensures |r| > 0
    decreases |s|
  {
    if |s| == 0 then [""]
    else
      var rest := Split(s[1..], sep);
      if s[0] == sep then [""] + rest else [[s[0]] + rest[0]] + rest[1..]
  }

  /** A separator-free prefix glues onto the first piece of what follows it. */
  lemma {:induction false} SplitFreePrefix(a: string, s: string, sep: char)
    requires sep !in a
    ensures Split(a + s, sep) == [a + Split(s, sep)[0]] + Split(s, sep)[1..]
    decreases |a|
  {
    if a != [] {
      var whole := Split(s, sep);
      assert (a + s)[0] == a[0] != sep;
      assert (a + s)[1..] == a[1..] + s;
      SplitFreePrefix(a[1..], s, sep);
      var rest := Split(a[1..] + s, sep);
      assert rest == [a[1..] + whole[0]] + whole[1..];
      assert Split(a + s, sep) == [[a[0]] + rest[0]] + rest[1..];
      assert [a[0]] + (a[1..] + whole[0]) == a + whole[0];
    } else {
      assert a + s == s;
      assert a + Split(s, sep)[0] == Split(s, sep)[0];
    }
  }

  /** Splitting what `Join` produced gives back the lines, when no line holds the separator. */
  lemma {:induction false} SplitJoin(lines: seq<string>, sep: char)
    requires |lines| > 0
    requires forall i :: 0 <= i < |lines| ==> sep !in lines[i]
    ensures Split(Join(lines, sep), sep) == lines
    decreases |lines|
  {
    if |lines| == 1 {
      SplitFreePrefix(lines[0], "", sep);
      assert lines[0] + "" == lines[0];
    } else {
      var rest := Join(lines[1..], sep);
      SplitJoin(lines[1..], sep);
      assert Split([sep] + rest, sep) == [""] + Split(rest, sep);
      assert lines[0] + [sep] + rest == lines[0] + ([sep] + rest);
      SplitFreePrefix(lines[0], [sep] + rest, sep);
      assert lines[0] + "" == lines[0];
    }
  }
}
