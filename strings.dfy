/**
 * The JavaScript string operations the bot relies on, stated over `seq<char>`:
 * prefix/suffix tests, substring search, `split(/ +/)`, `join`, `trim`,
 * ASCII `toLowerCase`, `split(".")[0]`, `String(n)` and `replace` with a
 * literal pattern.
 */
module Strings {

  /** U+00A0, the no-break space `formatDate` and `timeago` put between parts. */
  const NoBreakSpace: char := '\U{00A0}'

  // ---------------------------------------------------------------------
  // Prefixes, suffixes, occurrences
  // ---------------------------------------------------------------------

  /** `s.startsWith(prefix)`: literal and case-sensitive. */
  predicate StartsWith(s: string, prefix: string) {
    |prefix| <= |s| && s[..|prefix|] == prefix
  }

  /** `s.endsWith(suffix)`. */
  predicate EndsWith(s: string, suffix: string) {
    |suffix| <= |s| && s[|s| - |suffix|..] == suffix
  }

  /** `t` occurs in `s` starting at index `i`. */
  predicate OccursAt(s: string, t: string, i: int) {
    0 <= i && i + |t| <= |s| && s[i..i + |t|] == t
  }

  /** `s` contains `t` as a substring (a regular expression made of literal alternatives tests this). */
  predicate Contains(s: string, t: string) {
    exists i :: 0 <= i <= |s| - |t| && OccursAt(s, t, i)
  }

  /** `s.indexOf(t, from)`: the first occurrence at or after `from`, or -1. */
  function IndexFrom(s: string, t: string, from: nat): (r: int)
    ensures r == -1 || (from <= r && OccursAt(s, t, r))
    ensures forall j :: from <= j && (r == -1 || j < r) ==> !OccursAt(s, t, j)
    decreases |s| - from
  {
    if from + |t| > |s| then -1
    else if s[from..from + |t|] == t then from
    else IndexFrom(s, t, from + 1)
  }

  /** `s.indexOf(t)`: -1 exactly when `t` does not occur; otherwise the first occurrence. */
  function IndexOf(s: string, t: string): (r: int)
    ensures r == -1 <==> !Contains(s, t)
    ensures r != -1 ==> OccursAt(s, t, r) && forall j :: 0 <= j < r ==> !OccursAt(s, t, j)
  {
    IndexFrom(s, t, 0)
  }

  /**
   * `s.replace(pattern, x)` with a string pattern: the first occurrence of
   * `pattern` is replaced by `x`; a string without one is returned unchanged.
   */
  function ReplaceFirst(s: string, pattern: string, x: string): (r: string)
    ensures !Contains(s, pattern) ==> r == s
    ensures Contains(s, pattern) ==>
      exists i :: OccursAt(s, pattern, i) && r == s[..i] + x + s[i + |pattern|..]
  {
    var i := IndexOf(s, pattern);
    if i == -1 then s else s[..i] + x + s[i + |pattern|..]
  }

  /**
   * The text `s.replace(pattern, replacement)` inserts for a string pattern:
   * in `replacement`, `$$` stands for `$`, `$&` for the matched text,
   * `` $` `` for the text before the match and `$'` for the text after it;
   * every other character, other `$` included, stands for itself.
   */
  function Expand(replacement: string, matched: string, before: string, after: string): (r: string)
    ensures '$' !in replacement ==> r == replacement
    decreases |replacement|
  {
    if replacement == [] then []
    else if replacement[0] == '$' && |replacement| >= 2 && replacement[1] in "$&`'" then
      var special :=
        match replacement[1]
        case '$' => "$"
        case '&' => matched
        case '`' => before
        case _ => after;
      special + Expand(replacement[2..], matched, before, after)
    else
      [replacement[0]] + Expand(replacement[1..], matched, before, after)
  }

  /**
   * `s.replace(pattern, replacement)` with a string pattern, as JavaScript
   * does it: the first occurrence is replaced by the expanded replacement;
   * a replacement without `$` is inserted as it is.
   */
  function JsReplace(s: string, pattern: string, replacement: string): (r: string)
    ensures '$' !in replacement ==> r == ReplaceFirst(s, pattern, replacement)
    ensures !Contains(s, pattern) ==> r == s
  {
    var i := IndexOf(s, pattern);
    if i == -1 then s
    else s[..i] + Expand(replacement, pattern, s[..i], s[i + |pattern|..]) + s[i + |pattern|..]
  }

  /** `"$&" + rest` inserts the match followed by the expansion of `rest`; with a `$`-free rest, that rest itself. */
  lemma ExpandMatchThen(rest: string, matched: string, before: string, after: string)
    ensures Expand("$&" + rest, matched, before, after) == matched + Expand(rest, matched, before, after)
    ensures '$' !in rest ==> Expand("$&" + rest, matched, before, after) == matched + rest
  {
    assert ("$&" + rest)[2..] == rest;
  }

  /** In the inserted text `$&` stands for the match and `$$` for one `$`. */
  lemma DollarPatternsExpand(matched: string)
    ensures Expand("$&", matched, "", "") == matched
    ensures Expand("$$", matched, "", "") == "$"
  {
    assert "$&"[2..] == [] && "$$"[2..] == [];
  }

  // ---------------------------------------------------------------------
  // Joining and splitting
  // ---------------------------------------------------------------------

  /** `parts.join(sep)`. */
  function Join(parts: seq<string>, sep: string): string {
    if |parts| == 0 then ""
    else if |parts| == 1 then parts[0]
    else parts[0] + sep + Join(parts[1..], sep)
  }

  /** Joining a list with a part in front adds the part and one separator. */
  lemma JoinCons(first: string, rest: seq<string>, sep: string)
    requires |rest| >= 1
    ensures Join([first] + rest, sep) == first + sep + Join(rest, sep)
  {
    assert ([first] + rest)[1..] == rest;
  }

  /** Joining a list extended at the end adds one separator and the new part. */
  lemma {:induction false} JoinSnoc(parts: seq<string>, last: string, sep: string)
    requires |parts| >= 1
    ensures Join(parts + [last], sep) == Join(parts, sep) + sep + last
  {
    if |parts| == 1 {
      assert (parts + [last])[1..] == [last];
    } else {
      assert (parts + [last])[1..] == parts[1..] + [last];
      JoinSnoc(parts[1..], last, sep);
    }
  }

  /** Index of the first space in `s`, or `|s|` if there is none. */
  function FirstSpace(s: string): (r: nat)
    ensures r <= |s|
    ensures r < |s| ==> s[r] == ' '
    ensures forall j :: 0 <= j < r ==> s[j] != ' '
  {
    if s == [] then 0
    else if s[0] == ' ' then 0
    else 1 + FirstSpace(s[1..])
  }

  /** The suffix of `s` left after dropping its leading spaces. */
  function DropSpaces(s: string): (r: string)
    ensures |r| <= |s| && r == s[|s| - |r|..]
    ensures r == [] || r[0] != ' '
    ensures forall j :: 0 <= j < |s| - |r| ==> s[j] == ' '
  {
    if s != [] && s[0] == ' ' then DropSpaces(s[1..]) else s
  }

  /** `s` with every maximal run of spaces shortened to one space. */
  function Squeeze(s: string): string
    decreases |s|
  {
    if s == [] then []
    else if s[0] == ' ' then
      var rest := DropSpaces(s);
      assert rest != s;
      " " + Squeeze(rest)
    else [s[0]] + Squeeze(s[1..])
  }

  /** The number of maximal runs of spaces in `s`. */
  function SpaceRuns(s: string): nat
    decreases |s|
  {
    if s == [] then 0
    else if s[0] == ' ' then
      var rest := DropSpaces(s);
      assert rest != s;
      1 + SpaceRuns(rest)
    else SpaceRuns(s[1..])
  }

  /** A prefix without spaces is kept as it is and starts no run. */
  lemma {:induction false} SqueezeWord(w: string, x: string)
    requires ' ' !in w
    ensures Squeeze(w + x) == w + Squeeze(x)
    ensures SpaceRuns(w + x) == SpaceRuns(x)
  {
    if w != [] {
      assert (w + x)[0] == w[0] && (w + x)[1..] == w[1..] + x;
      assert w[0] in w;
      SqueezeWord(w[1..], x);
      assert [w[0]] + w[1..] == w;
    } else {
      assert w + x == x;
    }
  }

  /**
   * `s.split(/ +/)`: cut at every maximal run of spaces. Empty tokens from a
   * leading or trailing run survive, and `""` gives `[""]`.
   */
  function SplitSpaces(s: string): (r: seq<string>)
    ensures |r| >= 1
    ensures forall i :: 0 <= i < |r| ==> ' ' !in r[i]
    ensures forall i :: 0 < i < |r| - 1 ==> r[i] != ""
    decreases |s|
  {
    var i := FirstSpace(s);
    if i == |s| then [s]
    else
      var rest := DropSpaces(s[i..]);
      var tail := SplitSpaces(rest);
      assert rest == [] ==> tail == [""];
      [s[..i]] + tail
  }

  /**
   * The tokens of `s.split(/ +/)`, joined with single spaces, give back
   * `s` with each run of spaces shortened to one space, and there is one
   * token more than there are runs.
   */
  lemma {:induction false} SplitSpacesSqueezes(s: string)
    ensures Join(SplitSpaces(s), " ") == Squeeze(s)
    ensures |SplitSpaces(s)| == SpaceRuns(s) + 1
    decreases |s|
  {
    var i := FirstSpace(s);
    if i == |s| {
      SqueezeWord(s, []);
      assert s + [] == s;
    } else {
      var w, t := s[..i], s[i..];
      var rest := DropSpaces(t);
      SplitSpacesSqueezes(rest);
      FirstWord(s, i);
      SqueezeCut(w, t);
      JoinCons(w, SplitSpaces(rest), " ");
    }
  }

  /** Up to a first space at `i`, `s` is a word, and from there on it starts with a space. */
  lemma FirstWord(s: string, i: nat)
    requires i < |s| && s[i] == ' ' && forall j :: 0 <= j < i ==> s[j] != ' '
    ensures ' ' !in s[..i] && s[i..] != [] && s[i..][0] == ' ' && s == s[..i] + s[i..]
  {
    assert forall j :: 0 <= j < i ==> s[..i][j] != ' ';
  }

  /** A run of spaces at the front becomes one space and counts one run. */
  lemma SqueezeSpace(t: string)
    requires t != [] && t[0] == ' '
    ensures Squeeze(t) == " " + Squeeze(DropSpaces(t))
    ensures SpaceRuns(t) == 1 + SpaceRuns(DropSpaces(t))
  {
  }

  /** A word, then a run of spaces: the word, one space, and what follows the run. */
  lemma SqueezeCut(w: string, t: string)
    requires ' ' !in w && t != [] && t[0] == ' '
    ensures Squeeze(w + t) == w + " " + Squeeze(DropSpaces(t))
    ensures SpaceRuns(w + t) == 1 + SpaceRuns(DropSpaces(t))
  {
    SqueezeWord(w, t);
    SqueezeSpace(t);
    ConcatAssoc(w, " ", Squeeze(DropSpaces(t)));
  }

  lemma ConcatAssoc(a: string, b: string, c: string)
    ensures a + (b + c) == a + b + c
  {
  }

  /** A word of a command line: not empty, no space in it. */
  predicate IsWord(w: string) {
    w != "" && ' ' !in w
  }

  /** The first word of `w + rest` is `w` when `rest` is empty or starts with a space. */
  lemma SplitSpacesFirst(w: string, rest: string)
    requires ' ' !in w
    requires rest == [] || rest[0] == ' '
    ensures SplitSpaces(w + rest) == [w] + (if rest == [] then [] else SplitSpaces(DropSpaces(rest)))
  {
    var s := w + rest;
    var i := FirstSpace(s);
    assert forall j :: 0 <= j < |w| ==> s[j] == w[j] && w[j] in w;
    assert |w| < |s| ==> s[|w|] == ' ';
    assert i == |w|;
    assert s[..|w|] == w;
    assert s[|w|..] == rest;
    if rest == [] {
      assert s == w;
    } else {
      assert SplitSpaces(s) == [s[..i]] + SplitSpaces(DropSpaces(s[i..]));
    }
  }

  /** Round trip: splitting words joined by single spaces gives the words back. */
  lemma {:induction false} SplitJoinRoundTrip(words: seq<string>)
    requires |words| >= 1
    requires forall i :: 0 <= i < |words| ==> IsWord(words[i])
    ensures SplitSpaces(Join(words, " ")) == words
  {
    if |words| == 1 {
      SplitSpacesFirst(words[0], "");
      assert words[0] + "" == words[0];
    } else {
      var tail := words[1..];
      assert forall i :: 0 <= i < |tail| ==> IsWord(tail[i]) by {
        forall i | 0 <= i < |tail| ensures IsWord(tail[i]) {
          assert tail[i] == words[i + 1];
        }
      }
      calc {
        SplitSpaces(Join(words, " "));
        SplitSpaces(words[0] + " " + Join(tail, " "));
        { JoinHead(tail); assert IsWord(words[0]); SplitConsWord(words[0], Join(tail, " ")); }
        [words[0]] + SplitSpaces(Join(tail, " "));
        { SplitJoinRoundTrip(tail); }
        [words[0]] + tail;
        words;
      }
    }
  }

  /** A word, one space and a text that starts with no space split into the word and the text's tokens. */
  lemma SplitConsWord(w: string, rest: string)
    requires IsWord(w) && rest != "" && rest[0] != ' '
    ensures SplitSpaces(w + " " + rest) == [w] + SplitSpaces(rest)
  {
    DropOneSpace(rest);
    assert w + " " + rest == w + (" " + rest);
    SplitSpacesFirst(w, " " + rest);
  }

  /** A join of words does not start with a space. */
  lemma {:induction false} JoinHead(words: seq<string>)
    requires |words| >= 1
    requires forall i :: 0 <= i < |words| ==> IsWord(words[i])
    ensures Join(words, " ") != "" && Join(words, " ")[0] != ' '
  {
    assert IsWord(words[0]);
    if |words| > 1 {
      assert Join(words, " ") == words[0] + (" " + Join(words[1..], " "));
    }
  }

  /** Dropping the spaces before a word drops exactly one space. */
  lemma DropOneSpace(rest: string)
    requires rest != "" && rest[0] != ' '
    ensures DropSpaces(" " + rest) == rest
  {
    assert (" " + rest)[1..] == rest;
  }

  // ---------------------------------------------------------------------
  // Trimming and case
  // ---------------------------------------------------------------------

  /** The characters `String.prototype.trim` removes (ECMAScript WhiteSpace and LineTerminator). */
  predicate IsJsWhitespace(c: char) {
    c == '\t' || c == '\n' || c == '\U{000B}' || c == '\U{000C}' || c == '\r' || c == ' ' ||
    c == '\U{00A0}' || c == '\U{1680}' || ('\U{2000}' <= c <= '\U{200A}') || c == '\U{2028}' ||
    c == '\U{2029}' || c == '\U{202F}' || c == '\U{205F}' || c == '\U{3000}' || c == '\U{FEFF}'
  }

  /** `s` with its leading whitespace removed. */
  function TrimStart(s: string): (r: string)
    ensures |r| <= |s| && r == s[|s| - |r|..]
    ensures r == [] || !IsJsWhitespace(r[0])
    ensures forall j :: 0 <= j < |s| - |r| ==> IsJsWhitespace(s[j])
  {
    if s != [] && IsJsWhitespace(s[0]) then TrimStart(s[1..]) else s
  }

  /** `s` with its trailing whitespace removed. */
  function TrimEnd(s: string): (r: string)
    ensures |r| <= |s| && r == s[..|r|]
    ensures r == [] || !IsJsWhitespace(r[|r| - 1])
    ensures forall j :: |r| <= j < |s| ==> IsJsWhitespace(s[j])
  {
    if s != [] && IsJsWhitespace(s[|s| - 1]) then TrimEnd(s[..|s| - 1]) else s
  }

  /**
   * `r` is the slice of `s` starting at `i`, and everything of `s` before and
   * after that slice is whitespace.
   */
  predicate IsTrimmedSlice(s: string, r: string, i: int) {
    0 <= i <= |s| - |r| && r == s[i..i + |r|] &&
    (forall j :: 0 <= j < i ==> IsJsWhitespace(s[j])) &&
    (forall j :: i + |r| <= j < |s| ==> IsJsWhitespace(s[j]))
  }

  /** `s.trim()`: the middle slice of `s` that neither starts nor ends with whitespace. */
  function Trim(s: string): (r: string)
    ensures exists i :: IsTrimmedSlice(s, r, i)
    ensures r == [] || (!IsJsWhitespace(r[0]) && !IsJsWhitespace(r[|r| - 1]))
  {
    var t := TrimStart(s);
    var r := TrimEnd(t);
    var i := |s| - |t|;
    assert r == s[i..i + |r|];
    assert IsTrimmedSlice(s, r, i);
    r
  }

  /** A string without whitespace is its own trim. */
  lemma TrimUnchanged(s: string)
    requires forall j :: 0 <= j < |s| ==> !IsJsWhitespace(s[j])
    ensures Trim(s) == s
  {
    var r := Trim(s);
    var i :| IsTrimmedSlice(s, r, i);
    if s != [] {
      assert !IsJsWhitespace(s[0]) && !IsJsWhitespace(s[|s| - 1]);
      assert i == 0 && i + |r| == |s|;
    }
  }

  /** Lower-case of one character; only ASCII letters are mapped. */
  function LowerChar(c: char): char {
    if 'A' <= c <= 'Z' then (c as int + 32) as char else c
  }

  /** `s.toLowerCase()`, for ASCII letters. */
  function ToLower(s: string): (r: string)
    ensures |r| == |s|
    ensures forall i :: 0 <= i < |s| ==> r[i] == LowerChar(s[i])
  {
    seq(|s|, i requires 0 <= i < |s| => LowerChar(s[i]))
  }

  /** Lower-casing twice is lower-casing once, so a lower-cased token is its own key. */
  lemma ToLowerIdempotent(s: string)
    ensures ToLower(ToLower(s)) == ToLower(s)
  {
  }

  /** `s.split(c)[0]`: the longest prefix of `s` without `c`. */
  function UpToFirst(s: string, c: char): (r: string)
    ensures StartsWith(s, r)
    ensures c !in r
    ensures |r| < |s| ==> s[|r|] == c
  {
    if s == [] || s[0] == c then [] else [s[0]] + UpToFirst(s[1..], c)
  }

  /** Keeps the entries of `xs` that end with `suffix`, in their order (`filter` with `endsWith`). */
  function KeepEndingWith(xs: seq<string>, suffix: string): (r: seq<string>)
    ensures |r| <= |xs|
    ensures forall x :: x in r <==> x in xs && EndsWith(x, suffix)
  {
    if xs == [] then []
    else
      var init := KeepEndingWith(xs[..|xs| - 1], suffix);
      var x := xs[|xs| - 1];
      assert forall y :: y in xs <==> y in xs[..|xs| - 1] || y == x;
      if EndsWith(x, suffix) then init + [x] else init
  }

  /** Filtering a concatenation filters each part and keeps them in order. */
  lemma {:induction false} KeepEndingWithAppend(xs: seq<string>, ys: seq<string>, suffix: string)
    ensures KeepEndingWith(xs + ys, suffix) == KeepEndingWith(xs, suffix) + KeepEndingWith(ys, suffix)
    decreases |ys|
  {
    if ys == [] {
      assert xs + ys == xs;
    } else {
      var n := |ys| - 1;
      var zs := xs + ys;
      assert zs[..|zs| - 1] == xs + ys[..n] && zs[|zs| - 1] == ys[n];
      KeepEndingWithAppend(xs, ys[..n], suffix);
      var front := KeepEndingWith(xs, suffix);
      var back := KeepEndingWith(ys[..n], suffix);
      if EndsWith(ys[n], suffix) {
        calc {
          KeepEndingWith(zs, suffix);
          KeepEndingWith(xs + ys[..n], suffix) + [ys[n]];
          (front + back) + [ys[n]];
          front + (back + [ys[n]]);
          front + KeepEndingWith(ys, suffix);
        }
      } else {
        calc {
          KeepEndingWith(zs, suffix);
          KeepEndingWith(xs + ys[..n], suffix);
          front + back;
          front + KeepEndingWith(ys, suffix);
        }
      }
    }
  }

  // ---------------------------------------------------------------------
  // Numbers as text
  // ---------------------------------------------------------------------

  predicate IsDigit(c: char) {
    '0' <= c <= '9'
  }

  predicate AllDigits(s: string) {
    forall i :: 0 <= i < |s| ==> IsDigit(s[i])
  }

  /** The value of `s` read as decimal digits, each character counting `c - '0'`. */
  function DigitsValue(s: string): int {
    if s == [] then 0 else 10 * DigitsValue(s[..|s| - 1]) + (s[|s| - 1] as int - '0' as int)
  }

  /** `String(n)` for a natural number: its decimal digits, which read back as `n`. */
  function NatToString(n: nat): (r: string)
    ensures DigitsValue(r) == n
  {
    var d := ['0' + (n % 10) as char];
    if n < 10 then d
    else
      var front := NatToString(n / 10);
      var r := front + d;
      assert r[..|r| - 1] == front;
      r
  }

  /** `String(n)` is one or more digits with no leading zero. */
  lemma {:induction false} NatToStringDigits(n: nat)
    ensures |NatToString(n)| >= 1 && AllDigits(NatToString(n))
    ensures |NatToString(n)| > 1 ==> NatToString(n)[0] != '0'
  {
    if n >= 10 {
      NatToStringDigits(n / 10);
      var front := NatToString(n / 10);
      if n / 10 < 10 {
        assert front == ['0' + (n / 10 % 10) as char];
      }
    }
  }

  /** `String(n)` for an integer: a minus sign before the digits of `-n` when `n` is negative. */
  function IntToString(n: int): string {
    if n < 0 then "-" + NatToString(-n) else NatToString(n)
  }
}
