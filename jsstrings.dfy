/** The JavaScript string built-ins the core relies on: `trim`, `split`, `join`, `includes`
    and the decimal rendering of a count inside a template literal. */
module JsStrings {

  /** ECMAScript WhiteSpace and LineTerminator code points: what `String.prototype.trim` removes. */
  predicate IsWhiteSpace(c: char) {
    c == '\t' || c == '\n' || c == '\U{000B}' || c == '\U{000C}' || c == '\r' || c == ' ' ||
    c == '\U{00A0}' || c == '\U{1680}' || ('\U{2000}' <= c <= '\U{200A}') ||
    c == '\U{2028}' || c == '\U{2029}' || c == '\U{202F}' || c == '\U{205F}' || c == '\U{3000}' ||
    c == '\U{FEFF}'
  }

  predicate AllWhiteSpace(s: string) {
    forall i :: 0 <= i < |s| ==> IsWhiteSpace(s[i])
  }

  /** `s` with its leading white space removed. */
  function TrimStart(s: string): (r: string)
    ensures |r| <= |s| && r == s[|s| - |r|..]
    ensures AllWhiteSpace(s[..|s| - |r|])
    ensures |r| > 0 ==> !IsWhiteSpace(r[0])
  {
    if |s| > 0 && IsWhiteSpace(s[0]) then TrimStart(s[1..]) else s
  }

  /** `s` with its trailing white space removed. */
  function TrimEnd(s: string): (r: string)
    ensures |r| <= |s| && r == s[..|r|]
    ensures AllWhiteSpace(s[|r|..])
    ensures |r| > 0 ==> !IsWhiteSpace(r[|r| - 1])
  {
    if |s| > 0 && IsWhiteSpace(s[|s| - 1]) then TrimEnd(s[..|s| - 1]) else s
  }

  /** `String.prototype.trim`. */
  function Trim(s: string): (r: string)
  {
    TrimEnd(TrimStart(s))
  }

  /** Removing the leading white space leaves nothing exactly when there is only white space. */
  lemma {:induction false} TrimStartEmptyIffBlank(s: string)
    ensures TrimStart(s) == "" <==> AllWhiteSpace(s)
  {
    if |s| > 0 && IsWhiteSpace(s[0]) {
      TrimStartEmptyIffBlank(s[1..]);
      if AllWhiteSpace(s[1..]) {
        forall i | 0 < i < |s| ensures IsWhiteSpace(s[i]) {
          assert s[i] == s[1..][i - 1];
        }
      }
    }
  }

  /** `s.trim()` is the empty (falsy) string exactly when `s` holds only white space;
      otherwise the trimmed string starts and ends with a visible character. */
  lemma TrimEmptyIffBlank(s: string)
    ensures Trim(s) == "" <==> AllWhiteSpace(s)
    ensures Trim(s) != "" ==> !IsWhiteSpace(Trim(s)[0]) && !IsWhiteSpace(Trim(s)[|Trim(s)| - 1])
  {
    var t := TrimStart(s);
    TrimStartEmptyIffBlank(s);
    if t != "" {
      assert !IsWhiteSpace(t[0]);
    }
  }

  /** A string that neither starts nor ends with white space is its own trim. */
  lemma TrimVisibleEnds(s: string)
    requires |s| > 0 && !IsWhiteSpace(s[0]) && !IsWhiteSpace(s[|s| - 1])
    ensures Trim(s) == s
  {
  }

  /** Trimming twice is trimming once. */
  lemma TrimIdempotent(s: string)
    ensures Trim(Trim(s)) == Trim(s)
  {
    TrimEmptyIffBlank(s);
    if Trim(s) != "" {
      TrimVisibleEnds(Trim(s));
    }
  }

  /** `String.prototype.split(sep)` for a one-character separator: the pieces between separators,
      including the empty ones; the empty string splits into one empty piece. */
  function Split(s: string, sep: char): (r: seq<string>)
    ensures |r| >= 1
    ensures forall k :: 0 <= k < |r| ==> sep !in r[k]
  {
    if |s| == 0 then [""]
    else
      var rest := Split(s[1..], sep);
      if s[0] == sep then [""] + rest
      else [[s[0]] + rest[0]] + rest[1..]
  }

  /** `Array.prototype.join(sep)`. */
  function Join(pieces: seq<string>, sep: string): string {
    if |pieces| == 0 then ""
    else if |pieces| == 1 then pieces[0]
    else pieces[0] + sep + Join(pieces[1..], sep)
  }

  /** Splitting loses nothing: joining the pieces back with the separator gives the string again. */
  lemma {:induction false} JoinSplit(s: string, sep: char)
    ensures Join(Split(s, sep), [sep]) == s
  {
    if |s| > 0 {
      var rest := Split(s[1..], sep);
      JoinSplit(s[1..], sep);
      if s[0] == sep {
        assert ([""] + rest)[1..] == rest;
      } else {
        var pieces := [[s[0]] + rest[0]] + rest[1..];
        assert pieces[1..] == rest[1..];
        if |rest| > 1 {
          assert rest == [rest[0]] + rest[1..];
        }
      }
    }
  }

  /** A string without the separator is one piece. */
  lemma {:induction false} SplitNoSeparator(a: string, sep: char)
    requires sep !in a
    ensures Split(a, sep) == [a]
  {
    if |a| > 0 {
      SplitNoSeparator(a[1..], sep);
      assert [a[0]] + a[1..] == a;
    }
  }

  /** The text before the first separator is the first piece. */
  lemma {:induction false} SplitAtSeparator(a: string, rest: string, sep: char)
    requires sep !in a
    ensures Split(a + [sep] + rest, sep) == [a] + Split(rest, sep)
  {
    if |a| == 0 {
      assert a + [sep] + rest == [sep] + rest;
      assert ([sep] + rest)[1..] == rest;
    } else {
      var s := a + [sep] + rest;
      assert s[1..] == a[1..] + [sep] + rest;
      SplitAtSeparator(a[1..], rest, sep);
      assert [a[0]] + a[1..] == a;
    }
  }

  /** Joining pieces that do not contain the separator and splitting again gives the pieces back. */
  lemma {:induction false} SplitJoin(pieces: seq<string>, sep: char)
    requires |pieces| > 0
    requires forall k :: 0 <= k < |pieces| ==> sep !in pieces[k]
    ensures Split(Join(pieces, [sep]), sep) == pieces
  {
    if |pieces| == 1 {
      SplitNoSeparator(pieces[0], sep);
    } else {
      SplitJoin(pieces[1..], sep);
      SplitAtSeparator(pieces[0], Join(pieces[1..], [sep]), sep);
      assert [pieces[0]] + pieces[1..] == pieces;
    }
  }

  /** `tokens.filter(t => t.trim())`: keep the pieces that are not blank. */
  function NonBlank(tokens: seq<string>): (r: seq<string>)
    ensures |r| <= |tokens|
    ensures forall k :: 0 <= k < |r| ==> r[k] in tokens && Trim(r[k]) != ""
  {
    if |tokens| == 0 then []
    else
      var rest := NonBlank(tokens[1..]);
      if Trim(tokens[0]) != "" then [tokens[0]] + rest else rest
  }

  /** Filtering drops exactly the blank pieces: every non-blank piece is kept. */
  lemma {:induction false} NonBlankKeeps(tokens: seq<string>, t: string)
    requires t in tokens && Trim(t) != ""
    ensures t in NonBlank(tokens)
  {
    if tokens[0] != t {
      NonBlankKeeps(tokens[1..], t);
    }
  }

  /** Filtering a list with no blank piece keeps all of it. */
  lemma {:induction false} NonBlankAll(tokens: seq<string>)
    requires forall k :: 0 <= k < |tokens| ==> Trim(tokens[k]) != ""
    ensures NonBlank(tokens) == tokens
  {
    if |tokens| > 0 {
      NonBlankAll(tokens[1..]);
      assert [tokens[0]] + tokens[1..] == tokens;
    }
  }

  /** `haystack.includes(needle)`. */
  predicate Includes(haystack: string, needle: string) {
    needle <= haystack || (|haystack| > 0 && Includes(haystack[1..], needle))
  }

  lemma {:induction false} IncludesAt(haystack: string, needle: string, i: nat)
    requires i + |needle| <= |haystack| && haystack[i..i + |needle|] == needle
    ensures Includes(haystack, needle)
  {
    if i > 0 {
      assert haystack[1..][i - 1..i - 1 + |needle|] == needle;
      IncludesAt(haystack[1..], needle, i - 1);
    }
  }

  /** Where `includes` finds the needle. */
  lemma {:induction false} IncludesMatch(haystack: string, needle: string) returns (i: nat)
    requires Includes(haystack, needle)
    ensures i + |needle| <= |haystack| && haystack[i..i + |needle|] == needle
  {
    if needle <= haystack {
      i := 0;
      assert haystack[..|needle|] == needle;
    } else {
      var j := IncludesMatch(haystack[1..], needle);
      assert haystack[1..][j..j + |needle|] == haystack[j + 1..j + 1 + |needle|];
      i := j + 1;
    }
  }

  /** A text inside a text inside `a` is inside `a`. */
  lemma IncludesTransitive(a: string, b: string, c: string)
    requires Includes(a, b) && Includes(b, c)
    ensures Includes(a, c)
  {
    var i := IncludesMatch(a, b);
    var j := IncludesMatch(b, c);
    forall k | 0 <= k < |c| ensures a[i + j + k] == c[k] {
      assert a[i..i + |b|][j + k] == b[j + k];
    }
    assert a[i + j..i + j + |c|] == c;
    IncludesAt(a, c, i + j);
  }

  /** A needle with a character the haystack lacks is not in it. */
  lemma NotIncludedByChar(haystack: string, needle: string, k: nat)
    requires k < |needle| && needle[k] !in haystack
    ensures !Includes(haystack, needle)
  {
    if Includes(haystack, needle) {
      var i := IncludesMatch(haystack, needle);
    }
  }

  /** A needle whose k-th character occurs in the haystack only at position p, and that does not
      start at p - k, is not in it. */
  lemma NotIncludedByUniqueChar(haystack: string, needle: string, k: nat, p: nat)
    requires k < |needle| && p < |haystack|
    requires forall j | 0 <= j < |haystack| && j != p :: haystack[j] != needle[k]
    requires k <= p && p - k + |needle| <= |haystack| ==> haystack[p - k..p - k + |needle|] != needle
    ensures !Includes(haystack, needle)
  {
    if Includes(haystack, needle) {
      var i := IncludesMatch(haystack, needle);
    }
  }

  function DigitChar(d: nat): char
    requires d < 10
  {
    "0123456789"[d]
  }

  /** Decimal rendering of a count, as a template literal prints a non-negative integer. */
  function NatToString(n: nat): (r: string)
    ensures |r| > 0
    ensures forall i :: 0 <= i < |r| ==> '0' <= r[i] <= '9'
    decreases n
  {
    if n < 10 then [DigitChar(n)] else NatToString(n / 10) + [DigitChar(n % 10)]
  }

  /** The value a string of decimal digits denotes. */
  function DecimalValue(s: string): nat
    requires forall i :: 0 <= i < |s| ==> '0' <= s[i] <= '9'
  {
    if |s| == 0 then 0 else 10 * DecimalValue(s[..|s| - 1]) + (s[|s| - 1] - '0') as nat
  }

  /** The rendering reads back as the number it was made from. */
  lemma {:induction false} NatToStringRoundTrip(n: nat)
    ensures DecimalValue(NatToString(n)) == n
  {
    if n >= 10 {
      NatToStringRoundTrip(n / 10);
      var r := NatToString(n);
      assert r[..|r| - 1] == NatToString(n / 10);
    }
  }
}
