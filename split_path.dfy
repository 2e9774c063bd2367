/** The SVG path tokeniser of the map module (`splitPath` in ts/Maps/Map.ts).

    A path given as a string is taken apart in four steps: every ASCII letter is
    padded with a space on each side, leading and trailing whitespace is removed,
    the rest is split on runs of spaces, commas and semicolons, and every token is
    classified: a token holding a character of the range `A`..`z` stays a string,
    any other token goes to `parseFloat`. A path given as an array is passed on
    unchanged. Both results go to the renderer's `pathToSegments`, which is a
    parameter here. */
module SplitPath {

  /** A number in a path array: one the caller wrote, or `parseFloat` of a token. */
  datatype NumberValue = Literal(value: real) | ParseFloat(text: string)

  /** One element of a path array, `string | number`. */
  datatype PathItem = Text(s: string) | Number(n: NumberValue)

  /** The argument of `splitPath`: `string | Array<string | number>`. */
  datatype PathInput = PathString(s: string) | PathArray(items: seq<PathItem>)

  /** `[A-Za-z]`, the class the first replacement pads with spaces. */
  predicate IsAsciiLetter(c: char) {
    ('A' <= c <= 'Z') || ('a' <= c <= 'z')
  }

  /** `[A-za-z]`, the class the classification tests for: `A`..`z` covers the
      letters and also `[`, `\`, `]`, `^`, `_` and the backtick. */
  predicate InLetterRange(c: char) {
    'A' <= c <= 'z'
  }

  /** `[ ,;]`, the characters a run of which separates two tokens. */
  predicate IsSeparator(c: char) {
    c == ' ' || c == ',' || c == ';'
  }

  /** `\s` of a JavaScript regular expression: the ECMAScript white space and
      line terminator characters. */
  predicate IsJsWhitespace(c: char) {
    c == ' ' || c == '\t' || c == '\n' || c == '\U{B}' || c == '\U{C}' || c == '\r'
    || c == '\U{A0}' || c == '\U{1680}' || ('\U{2000}' <= c <= '\U{200A}')
    || c == '\U{2028}' || c == '\U{2029}' || c == '\U{202F}' || c == '\U{205F}'
    || c == '\U{3000}' || c == '\U{FEFF}'
  }

  ghost predicate AllWhitespace(s: string) {
    forall i :: 0 <= i < |s| ==> IsJsWhitespace(s[i])
  }

  // ---------------------------------------------------------------------------
  // The pipeline
  // ---------------------------------------------------------------------------

  /** `.replace(/([A-Za-z])/g, ' $1 ')`. */
  function PadLetters(s: string): string {
    if s == [] then []
    else (if IsAsciiLetter(s[0]) then [' ', s[0], ' '] else [s[0]]) + PadLetters(s[1..])
  }

  /** `.replace(/^\s*\/, '')`: the suffix left after the leading whitespace. */
  function TrimStart(s: string): (r: string)
    ensures |r| <= |s| && r == s[|s| - |r|..]
    ensures AllWhitespace(s[..|s| - |r|])
    ensures r != [] ==> !IsJsWhitespace(r[0])
  {
    if s != [] && IsJsWhitespace(s[0]) then TrimStart(s[1..]) else s
  }

  /** `.replace(/\s*$/, '')`: the prefix left before the trailing whitespace. */
  function TrimEnd(s: string): (r: string)
    ensures |r| <= |s| && r == s[..|r|]
    ensures AllWhitespace(s[|r|..])
    ensures r != [] ==> !IsJsWhitespace(r[|r| - 1])
  {
    if s != [] && IsJsWhitespace(s[|s| - 1]) then TrimEnd(s[..|s| - 1]) else s
  }

  /** Both replacements: a slice of `s` that neither begins nor ends with
      whitespace, and everything cut away is whitespace. */
  function Trim(s: string): (r: string)
    ensures r != [] ==> !IsJsWhitespace(r[0]) && !IsJsWhitespace(r[|r| - 1])
  {
    TrimEnd(TrimStart(s))
  }

  /** Length of the longest prefix of `s` without a separator. */
  function FieldLength(s: string): (k: nat)
    ensures k <= |s|
    ensures k < |s| ==> IsSeparator(s[k])
  {
    if s == [] || IsSeparator(s[0]) then 0 else 1 + FieldLength(s[1..])
  }

  /** The prefix `FieldLength` measures holds no separator. */
  lemma {:induction false} FieldLengthPrefix(s: string)
    ensures forall i :: 0 <= i < FieldLength(s) ==> !IsSeparator(s[i])
  {
    if s != [] && !IsSeparator(s[0]) {
      FieldLengthPrefix(s[1..]);
      assert forall i :: 1 <= i < FieldLength(s) ==> s[i] == s[1..][i - 1];
    }
  }

  /** What is left of `s` after the run of separators it starts with. */
  function SkipSeparators(s: string): (r: string)
    ensures |r| <= |s|
    ensures r != [] ==> !IsSeparator(r[0])
  {
    if s != [] && IsSeparator(s[0]) then SkipSeparators(s[1..]) else s
  }

  /** `SkipSeparators` leaves a suffix, and what it skips are separators. */
  lemma {:induction false} SkipSeparatorsSuffix(s: string)
    ensures SkipSeparators(s) == s[|s| - |SkipSeparators(s)|..]
    ensures forall i :: 0 <= i < |s| - |SkipSeparators(s)| ==> IsSeparator(s[i])
  {
    if s != [] && IsSeparator(s[0]) {
      SkipSeparatorsSuffix(s[1..]);
      assert forall i :: 1 <= i < |s| ==> s[i] == s[1..][i - 1];
    }
  }

  /** `.split(/[ ,;]+/)`: the pieces between maximal runs of separators; a
      separator at either end gives an empty first or last piece, and the empty
      string gives one empty piece. */
  function Fields(s: string): (r: seq<string>)
    ensures |r| >= 1
    decreases |s|
  {
    var k := FieldLength(s);
    if k == |s| then [s] else [s[..k]] + Fields(SkipSeparators(s[k..]))
  }

  /** `/[A-za-z]/.test(item)`. */
  predicate HasLetterRangeChar(t: string) {
    exists i :: 0 <= i < |t| && InLetterRange(t[i])
  }

  /** The `map` callback: a token is kept as a string exactly when it holds a
      character of the range `A`..`z`, otherwise it is read by `parseFloat`. */
  function Classify(t: string): (item: PathItem)
    ensures item.Text? <==> HasLetterRangeChar(t)
    ensures item.Text? ==> item.s == t
    ensures item.Number? ==> item.n == ParseFloat(t)
  {
    if !HasLetterRangeChar(t) then Number(ParseFloat(t)) else Text(t)
  }

  /** The tokens of a string path, before classification. */
  function Tokens(s: string): seq<string> {
    Fields(Trim(PadLetters(s)))
  }

  /** `split.map(...)`: one item per token, in token order. */
  function ClassifyAll(toks: seq<string>): (items: seq<PathItem>)
    ensures |items| == |toks|
    ensures forall i :: 0 <= i < |toks| ==> items[i] == Classify(toks[i])
  {
    if toks == [] then [] else [Classify(toks[0])] + ClassifyAll(toks[1..])
  }

  /** The array `splitPath` hands to `pathToSegments`. */
  function PathArrayOf(path: PathInput): (arr: seq<PathItem>)
    ensures path.PathArray? ==> arr == path.items
  {
    match path
    case PathString(s) => ClassifyAll(Tokens(s))
    case PathArray(items) => items
  }

  /** `splitPath`, with the renderer's `pathToSegments` as a parameter. */
  function SplitPath<S>(path: PathInput, pathToSegments: seq<PathItem> -> S): (r: S)
    ensures path.PathArray? ==> r == pathToSegments(path.items)
  {
    pathToSegments(PathArrayOf(path))
  }

  // ---------------------------------------------------------------------------
  // Trimming
  // ---------------------------------------------------------------------------

  /** The trimmed string is a slice of the padded one, and everything cut away
      on either side is whitespace. */
  lemma TrimSlice(s: string) returns (a: nat, b: nat)
    ensures a <= b <= |s| && Trim(s) == s[a..b]
    ensures AllWhitespace(s[..a]) && AllWhitespace(s[b..])
  {
    var t := TrimStart(s);
    var r := TrimEnd(t);
    a, b := |s| - |t|, |s| - |t| + |r|;
    assert r == t[..|r|];
    assert s[b..] == t[|r|..];
  }

  // ---------------------------------------------------------------------------
  // No token holds a separator
  // ---------------------------------------------------------------------------

  predicate NoSeparatorIn(t: string) {
    forall i :: 0 <= i < |t| ==> !IsSeparator(t[i])
  }

  /** Runs of separators are the only thing `Fields` removes, and they are
      removed entirely: no piece contains a space, comma or semicolon. */
  lemma {:induction false} FieldsHaveNoSeparator(s: string)
    ensures forall j :: 0 <= j < |Fields(s)| ==> NoSeparatorIn(Fields(s)[j])
    decreases |s|
  {
    var k := FieldLength(s);
    FieldLengthPrefix(s);
    if k < |s| {
      var rest := SkipSeparators(s[k..]);
      FieldsHaveNoSeparator(rest);
      assert Fields(s) == [s[..k]] + Fields(rest);
    }
  }

  /** No token of a string path contains a space, comma or semicolon. */
  lemma TokensHaveNoSeparator(s: string)
    ensures forall j :: 0 <= j < |Tokens(s)| ==> NoSeparatorIn(Tokens(s)[j])
  {
    FieldsHaveNoSeparator(Trim(PadLetters(s)));
  }

  // ---------------------------------------------------------------------------
  // Every ASCII letter is a token of its own
  // ---------------------------------------------------------------------------

  /** Every ASCII letter of `t` has a space, or an end of `t`, on each side. */
  ghost predicate LettersIsolated(t: string) {
    forall i :: 0 <= i < |t| && IsAsciiLetter(t[i]) ==>
      (i == 0 || t[i - 1] == ' ') && (i == |t| - 1 || t[i + 1] == ' ')
  }

  /** Every ASCII letter of `t` has a space on each side. */
  ghost predicate LettersPadded(t: string) {
    forall i :: 0 <= i < |t| && IsAsciiLetter(t[i]) ==> 0 < i < |t| - 1 && t[i - 1] == ' ' && t[i + 1] == ' '
  }

  /** A token that holds an ASCII letter is that letter alone. */
  ghost predicate LetterAlone(t: string) {
    forall i :: 0 <= i < |t| && IsAsciiLetter(t[i]) ==> |t| == 1
  }

  lemma {:induction false} PadLettersPads(s: string)
    ensures LettersPadded(PadLetters(s))
  {
    if s != [] {
      var head := if IsAsciiLetter(s[0]) then [' ', s[0], ' '] else [s[0]];
      var tail := PadLetters(s[1..]);
      PadLettersPads(s[1..]);
      assert PadLetters(s) == head + tail;
      forall i | 0 <= i < |head + tail| && IsAsciiLetter((head + tail)[i])
        ensures 0 < i < |head + tail| - 1 && (head + tail)[i - 1] == ' ' && (head + tail)[i + 1] == ' '
      {
        if i >= |head| {
          assert (head + tail)[i] == tail[i - |head|];
          assert (head + tail)[i + 1] == tail[i + 1 - |head|];
          assert (head + tail)[i - 1] == tail[i - 1 - |head|];
        }
      }
    }
  }

  /** Undoes the padding: a letter between two spaces gives the letter back,
      any other character is kept. */
  function Unpad(p: string): string
    decreases |p|
  {
    if |p| >= 3 && p[0] == ' ' && IsAsciiLetter(p[1]) && p[2] == ' ' then [p[1]] + Unpad(p[3..])
    else if p == [] then []
    else [p[0]] + Unpad(p[1..])
  }

  /** The padded string never starts with a letter. */
  lemma PaddedStart(s: string)
    ensures PadLetters(s) != [] ==> !IsAsciiLetter(PadLetters(s)[0])
  {
  }

  /** Padding inserts nothing but the two spaces around each letter:
      removing them gives back the path. */
  lemma {:induction false} UnpadPadLetters(s: string)
    ensures Unpad(PadLetters(s)) == s
  {
    if s != [] {
      var tail := PadLetters(s[1..]);
      UnpadPadLetters(s[1..]);
      if IsAsciiLetter(s[0]) {
        var p := [' ', s[0], ' '] + tail;
        assert PadLetters(s) == p;
        assert p[3..] == tail;
      } else {
        var p := [s[0]] + tail;
        assert PadLetters(s) == p;
        PaddedStart(s[1..]);
        assert |p| >= 3 ==> p[1] == tail[0];
        assert p[1..] == tail;
      }
    }
  }

  /** Isolation survives cutting a slice out of the string. */
  lemma SliceKeepsLettersIsolated(t: string, a: nat, b: nat)
    requires a <= b <= |t|
    requires LettersIsolated(t)
    ensures LettersIsolated(t[a..b])
  {
    var u := t[a..b];
    forall i | 0 <= i < |u| && IsAsciiLetter(u[i])
      ensures (i == 0 || u[i - 1] == ' ') && (i == |u| - 1 || u[i + 1] == ' ')
    {
      assert u[i] == t[a + i];
      if i > 0 { assert u[i - 1] == t[a + i - 1]; }
      if i < |u| - 1 { assert u[i + 1] == t[a + i + 1]; }
    }
  }

  /** The first piece of a string whose letters are isolated. */
  lemma FirstFieldLetterAlone(t: string)
    requires LettersIsolated(t)
    ensures LetterAlone(t[..FieldLength(t)])
  {
    var k := FieldLength(t);
    FieldLengthPrefix(t);
    if k >= 2 {
      // a letter inside a piece of two or more characters would have a
      // non-separator beside it
      forall i | 0 <= i < k ensures !IsAsciiLetter(t[i]) {
        if i > 0 {
          assert !IsSeparator(t[i - 1]);
        } else {
          assert !IsSeparator(t[i + 1]);
        }
      }
      assert forall i :: 0 <= i < k ==> t[..k][i] == t[i];
    }
  }

  lemma ConsKeepsLetterAlone(x: string, ys: seq<string>)
    requires LetterAlone(x)
    requires forall j :: 0 <= j < |ys| ==> LetterAlone(ys[j])
    ensures forall j :: 0 <= j < |[x] + ys| ==> LetterAlone(([x] + ys)[j])
  {
    forall j | 0 <= j < |[x] + ys| ensures LetterAlone(([x] + ys)[j]) {
      if j > 0 {
        assert ([x] + ys)[j] == ys[j - 1];
      }
    }
  }

  /** In a string whose letters are isolated, a piece holding a letter is
      exactly that letter. */
  lemma {:induction false} IsolatedLettersAreSingleFields(t: string)
    requires LettersIsolated(t)
    ensures forall j :: 0 <= j < |Fields(t)| ==> LetterAlone(Fields(t)[j])
    decreases |t|
  {
    var k := FieldLength(t);
    FirstFieldLetterAlone(t);
    if k < |t| {
      var rest := SkipSeparators(t[k..]);
      SkipSeparatorsSuffix(t[k..]);
      assert rest == t[|t| - |rest|..];
      SliceKeepsLettersIsolated(t, |t| - |rest|, |t|);
      IsolatedLettersAreSingleFields(rest);
      assert Fields(t) == [t[..k]] + Fields(rest);
      ConsKeepsLetterAlone(t[..k], Fields(rest));
    } else {
      assert t[..k] == t;
    }
  }

  /** The letters of the padded path stay isolated after trimming. */
  lemma TrimmedPaddingIsolated(s: string)
    ensures LettersIsolated(Trim(PadLetters(s)))
  {
    var p := PadLetters(s);
    PadLettersPads(s);
    assert LettersIsolated(p);
    var a, b := TrimSlice(p);
    SliceKeepsLettersIsolated(p, a, b);
  }

  /** Every ASCII letter of a string path ends up as a token of its own, so
      `1e5` gives the three tokens `1`, `e` and `5`. */
  lemma LetterTokensAreSingle(s: string)
    ensures forall j :: 0 <= j < |Tokens(s)| ==> LetterAlone(Tokens(s)[j])
  {
    TrimmedPaddingIsolated(s);
    IsolatedLettersAreSingleFields(Trim(PadLetters(s)));
  }

  /** A character that is not a letter is copied as it is. */
  lemma PadNonLetter(c: char, rest: string)
    requires !IsAsciiLetter(c)
    ensures PadLetters([c] + rest) == [c] + PadLetters(rest)
  {
    assert ([c] + rest)[1..] == rest;
  }

  /** A letter gets a space on each side. */
  lemma PadLetter(c: char, rest: string)
    requires IsAsciiLetter(c)
    ensures PadLetters([c] + rest) == [' ', c, ' '] + PadLetters(rest)
  {
    assert ([c] + rest)[1..] == rest;
  }

  /** A letter between two other characters, as the exponent of `1e5`. */
  lemma PadExponent(x: char, e: char, y: char)
    requires !IsAsciiLetter(x) && IsAsciiLetter(e) && !IsAsciiLetter(y)
    ensures PadLetters([x, e, y]) == [x, ' ', e, ' ', y]
  {
    PadNonLetter(y, []);
    assert [y] == [y] + [];
    PadLetter(e, [y]);
    assert [e, y] == [e] + [y];
    PadNonLetter(x, [e, y]);
    assert [x, e, y] == [x] + [e, y];
    assert [x] + ([' ', e, ' '] + [y]) == [x, ' ', e, ' ', y];
  }

  /** Nothing is trimmed from a string that starts and ends with no whitespace. */
  lemma TrimNothing(t: string)
    requires t != [] && !IsJsWhitespace(t[0]) && !IsJsWhitespace(t[|t| - 1])
    ensures Trim(t) == t
  {
    assert TrimStart(t) == t;
  }

  /** A single character that is no separator is a single piece. */
  lemma FieldsOfChar(c: char)
    requires !IsSeparator(c)
    ensures Fields([c]) == [[c]]
  {
    assert [c][1..] == [];
    assert FieldLength([c]) == 1;
  }

  /** A space is a run of one separator when what follows is none. */
  lemma SkipOneSpace(rest: string)
    requires rest != [] && !IsSeparator(rest[0])
    ensures FieldLength([' '] + rest) == 0
    ensures SkipSeparators([' '] + rest) == rest
  {
    assert ([' '] + rest)[1..] == rest;
  }

  /** A character followed by one space: its piece has length one. */
  lemma FieldLengthOfSpaced(c: char, rest: string)
    requires !IsSeparator(c) && rest != [] && !IsSeparator(rest[0])
    ensures FieldLength([c, ' '] + rest) == 1
  {
    var s := [c, ' '] + rest;
    assert s[1..] == [' '] + rest;
    SkipOneSpace(rest);
  }

  /** A character followed by one separator and a piece that starts with no
      separator: the character is the first piece. */
  lemma FieldsOfSpaced(c: char, rest: string)
    requires !IsSeparator(c) && rest != [] && !IsSeparator(rest[0])
    ensures Fields([c, ' '] + rest) == [[c]] + Fields(rest)
  {
    var s := [c, ' '] + rest;
    FieldLengthOfSpaced(c, rest);
    assert s[1..] == [' '] + rest;
    SkipOneSpace(rest);
    assert s[..1] == [c];
  }

  /** Three characters that are no separators, spaced out, are three pieces. */
  lemma FieldsOfThree(x: char, e: char, y: char)
    requires !IsSeparator(x) && !IsSeparator(e) && !IsSeparator(y)
    ensures Fields([x, ' ', e, ' ', y]) == [[x], [e], [y]]
  {
    FieldsOfChar(y);
    FieldsOfSpaced(e, [y]);
    assert [e, ' ', y] == [e, ' '] + [y];
    FieldsOfSpaced(x, [e, ' ', y]);
    assert [x, ' ', e, ' ', y] == [x, ' '] + [e, ' ', y];
  }

  /** `1e5` and every other digit, letter, digit: the exponent letter is a
      token of its own, so the number is split in three and only the digits
      go to `parseFloat`. */
  lemma ExponentIsSplit(x: char, e: char, y: char)
    requires '0' <= x <= '9' && IsAsciiLetter(e) && '0' <= y <= '9'
    ensures Tokens([x, e, y]) == [[x], [e], [y]]
    ensures PathArrayOf(PathString([x, e, y])) == [Number(ParseFloat([x])), Text([e]), Number(ParseFloat([y]))]
  {
    PadExponent(x, e, y);
    TrimNothing([x, ' ', e, ' ', y]);
    FieldsOfThree(x, e, y);
    var toks := Tokens([x, e, y]);
    assert !HasLetterRangeChar([x]) && !HasLetterRangeChar([y]);
    assert InLetterRange([e][0]);
    var arr := ClassifyAll(toks);
    assert arr == [arr[0], arr[1], arr[2]];
  }

  /** The classification range is wider than the letters: `_` is no letter,
      yet a `_` token stays a string. */
  lemma UnderscoreStaysText()
    ensures !IsAsciiLetter('_') && Classify("_") == Text("_")
  {
    assert InLetterRange("_"[0]);
  }

  // ---------------------------------------------------------------------------
  // Tokens keep the order of the letters
  // ---------------------------------------------------------------------------

  predicate HasAsciiLetter(t: string) {
    exists i :: 0 <= i < |t| && IsAsciiLetter(t[i])
  }

  /** The ASCII letters of `s`, in order. */
  function Letters(s: string): string {
    if s == [] then [] else (if IsAsciiLetter(s[0]) then [s[0]] else []) + Letters(s[1..])
  }

  function Flatten(ss: seq<string>): string {
    if ss == [] then [] else ss[0] + Flatten(ss[1..])
  }

  /** The tokens that contain an ASCII letter, in order. */
  function LetterTokens(toks: seq<string>): seq<string> {
    if toks == [] then [] else (if HasAsciiLetter(toks[0]) then [toks[0]] else []) + LetterTokens(toks[1..])
  }

  /** Each character of `s` as a one-character string. */
  function Singletons(s: string): seq<string> {
    if s == [] then [] else [[s[0]]] + Singletons(s[1..])
  }

  lemma {:induction false} LettersOfConcat(a: string, b: string)
    ensures Letters(a + b) == Letters(a) + Letters(b)
  {
    if a == [] {
      assert a + b == b;
    } else {
      var head := if IsAsciiLetter(a[0]) then [a[0]] else [];
      assert (a + b)[0] == a[0];
      assert (a + b)[1..] == a[1..] + b;
      calc {
        Letters(a + b);
        head + Letters(a[1..] + b);
        { LettersOfConcat(a[1..], b); }
        head + (Letters(a[1..]) + Letters(b));
        (head + Letters(a[1..])) + Letters(b);
      }
    }
  }

  lemma {:induction false} NoLetters(s: string)
    requires forall i :: 0 <= i < |s| ==> !IsAsciiLetter(s[i])
    ensures Letters(s) == []
  {
    if s != [] {
      NoLetters(s[1..]);
    }
  }

  lemma LettersOfChar(c: char)
    ensures Letters([c]) == if IsAsciiLetter(c) then [c] else []
  {
    assert [c][1..] == [];
  }

  lemma {:induction false} PadLettersKeepsLetters(s: string)
    ensures Letters(PadLetters(s)) == Letters(s)
  {
    if s != [] {
      PadLettersKeepsLetters(s[1..]);
      LettersOfChar(s[0]);
      if IsAsciiLetter(s[0]) {
        LettersOfChar(' ');
        LettersOfConcat([' '], [s[0]]);
        LettersOfConcat([' '] + [s[0]], [' ']);
        assert [' ', s[0], ' '] == [' '] + [s[0]] + [' '];
        LettersOfConcat([' ', s[0], ' '], PadLetters(s[1..]));
      } else {
        LettersOfConcat([s[0]], PadLetters(s[1..]));
      }
      assert s == [s[0]] + s[1..];
      LettersOfConcat([s[0]], s[1..]);
    }
  }

  lemma WhitespaceHasNoLetters(s: string)
    requires AllWhitespace(s)
    ensures Letters(s) == []
  {
    forall i | 0 <= i < |s| ensures !IsAsciiLetter(s[i]) {
      assert IsJsWhitespace(s[i]);
    }
    NoLetters(s);
  }

  lemma LettersBetweenNoLetters(front: string, middle: string, back: string)
    requires Letters(front) == [] && Letters(back) == []
    ensures Letters(front + middle + back) == Letters(middle)
  {
    LettersOfConcat(front + middle, back);
    LettersOfConcat(front, middle);
    assert [] + Letters(middle) + [] == Letters(middle);
  }

  lemma SliceInThree(p: string, a: nat, b: nat)
    requires a <= b <= |p|
    ensures p[..a] + p[a..b] + p[b..] == p
  {
  }

  lemma TrimKeepsLetters(p: string)
    ensures Letters(Trim(p)) == Letters(p)
  {
    var a, b := TrimSlice(p);
    var front, middle, back := p[..a], p[a..b], p[b..];
    WhitespaceHasNoLetters(front);
    WhitespaceHasNoLetters(back);
    SliceInThree(p, a, b);
    LettersBetweenNoLetters(front, middle, back);
  }

  lemma {:induction false} SkipSeparatorsKeepsLetters(u: string)
    ensures Letters(SkipSeparators(u)) == Letters(u)
  {
    if u != [] && IsSeparator(u[0]) {
      SkipSeparatorsKeepsLetters(u[1..]);
      assert u == [u[0]] + u[1..];
      LettersOfConcat([u[0]], u[1..]);
      LettersOfChar(u[0]);
    }
  }

  lemma {:induction false} FieldsKeepLetters(t: string)
    ensures Letters(Flatten(Fields(t))) == Letters(t)
    decreases |t|
  {
    var k := FieldLength(t);
    if k < |t| {
      var first, rest := t[..k], SkipSeparators(t[k..]);
      assert Fields(t) == [first] + Fields(rest);
      assert t == first + t[k..];
      calc {
        Letters(Flatten(Fields(t)));
        { assert ([first] + Fields(rest))[1..] == Fields(rest); }
        Letters(first + Flatten(Fields(rest)));
        { LettersOfConcat(first, Flatten(Fields(rest))); }
        Letters(first) + Letters(Flatten(Fields(rest)));
        { FieldsKeepLetters(rest); }
        Letters(first) + Letters(rest);
        { SkipSeparatorsKeepsLetters(t[k..]); }
        Letters(first) + Letters(t[k..]);
        { LettersOfConcat(first, t[k..]); }
        Letters(t);
      }
    } else {
      assert Fields(t) == [t];
      assert Flatten([t]) == t + Flatten([]);
      assert t + [] == t;
    }
  }

  /** A list of tokens in which every token holding a letter is that letter
      alone: its letter tokens are the letters of its concatenation, one each. */
  lemma {:induction false} LetterTokensOfSingles(toks: seq<string>)
    requires forall j :: 0 <= j < |toks| ==> LetterAlone(toks[j])
    ensures LetterTokens(toks) == Singletons(Letters(Flatten(toks)))
  {
    if toks != [] {
      var t, more := toks[0], toks[1..];
      var rest := Letters(Flatten(more));
      LetterTokensOfSingles(more);
      assert Flatten(toks) == t + Flatten(more);
      LettersOfConcat(t, Flatten(more));
      if HasAsciiLetter(t) {
        var i :| 0 <= i < |t| && IsAsciiLetter(t[i]);
        assert t == [t[0]];
        LettersOfChar(t[0]);
        calc {
          Singletons(Letters(Flatten(toks)));
          Singletons([t[0]] + rest);
          { assert ([t[0]] + rest)[1..] == rest; }
          [[t[0]]] + Singletons(rest);
          [t] + LetterTokens(more);
          LetterTokens(toks);
        }
      } else {
        NoLetters(t);
        assert Letters(Flatten(toks)) == [] + rest;
        assert [] + rest == rest;
      }
    }
  }

  /** Tokens keep the order of the source: the tokens holding a letter are,
      in order, the letters of the path, one letter each. */
  lemma LetterTokensInSourceOrder(s: string)
    ensures LetterTokens(Tokens(s)) == Singletons(Letters(s))
  {
    var t := Trim(PadLetters(s));
    assert Tokens(s) == Fields(t);
    LetterTokensAreSingle(s);
    LetterTokensOfSingles(Fields(t));
    FieldsKeepLetters(t);
    TrimKeepsLetters(PadLetters(s));
    PadLettersKeepsLetters(s);
  }

  // ---------------------------------------------------------------------------
  // The fields are the maximal runs of non-separators
  // ---------------------------------------------------------------------------

  /** The characters of `s` that are no separator, in order. */
  function NonSeparators(s: string): string {
    if s == [] then [] else (if IsSeparator(s[0]) then [] else [s[0]]) + NonSeparators(s[1..])
  }

  lemma {:induction false} NonSeparatorsOfConcat(a: string, b: string)
    ensures NonSeparators(a + b) == NonSeparators(a) + NonSeparators(b)
  {
    if a == [] {
      assert a + b == b;
    } else {
      assert (a + b)[0] == a[0];
      assert (a + b)[1..] == a[1..] + b;
      NonSeparatorsOfConcat(a[1..], b);
    }
  }

  lemma {:induction false} NonSeparatorsOfField(s: string)
    requires NoSeparatorIn(s)
    ensures NonSeparators(s) == s
  {
    if s != [] {
      assert NoSeparatorIn(s[1..]) by {
        assert forall i :: 0 <= i < |s[1..]| ==> s[1..][i] == s[i + 1];
      }
      NonSeparatorsOfField(s[1..]);
    }
  }

  lemma {:induction false} SkipSeparatorsKeepsNonSeparators(u: string)
    ensures NonSeparators(SkipSeparators(u)) == NonSeparators(u)
  {
    if u != [] && IsSeparator(u[0]) {
      SkipSeparatorsKeepsNonSeparators(u[1..]);
    }
  }

  /** Splitting removes the separators and nothing else: the fields, put back
      together, are the non-separator characters of the string, in order. */
  lemma {:induction false} FieldsKeepNonSeparators(t: string)
    ensures Flatten(Fields(t)) == NonSeparators(t)
    decreases |t|
  {
    var k := FieldLength(t);
    FieldLengthPrefix(t);
    if k < |t| {
      var first, rest := t[..k], SkipSeparators(t[k..]);
      assert Fields(t) == [first] + Fields(rest);
      assert ([first] + Fields(rest))[1..] == Fields(rest);
      assert Flatten(Fields(t)) == first + Flatten(Fields(rest));
      FieldsKeepNonSeparators(rest);
      SkipSeparatorsKeepsNonSeparators(t[k..]);
      assert NoSeparatorIn(first);
      NonSeparatorsOfField(first);
      assert t == first + t[k..];
      NonSeparatorsOfConcat(first, t[k..]);
    } else {
      assert Fields(t) == [t];
      assert Flatten([t]) == t + Flatten([]);
      assert t + [] == t;
      assert NoSeparatorIn(t);
      NonSeparatorsOfField(t);
    }
  }

  /** A string that starts with a non-separator has a non-empty first field. */
  lemma FirstFieldNonEmpty(t: string)
    requires t != [] && !IsSeparator(t[0])
    ensures Fields(t)[0] != []
  {
    if FieldLength(t) < |t| {
      assert Fields(t)[0] == t[..FieldLength(t)];
    }
  }

  /** The runs of separators are maximal: only the first and the last field
      can be empty, when the string starts or ends with a separator. */
  lemma {:induction false} FieldsInteriorNonEmpty(t: string)
    ensures forall j :: 0 < j < |Fields(t)| - 1 ==> Fields(t)[j] != []
    decreases |t|
  {
    var k := FieldLength(t);
    if k < |t| {
      var rest := SkipSeparators(t[k..]);
      assert Fields(t) == [t[..k]] + Fields(rest);
      FieldsInteriorNonEmpty(rest);
      forall j | 0 < j < |Fields(t)| - 1
        ensures Fields(t)[j] != []
      {
        assert Fields(t)[j] == Fields(rest)[j - 1];
        if j == 1 && rest != [] {
          FirstFieldNonEmpty(rest);
        }
      }
    }
  }

  /** A non-empty string made only of separators. */
  ghost predicate SeparatorRun(r: string) {
    r != [] && forall i :: 0 <= i < |r| ==> IsSeparator(r[i])
  }

  /** The fields with a run between each two of them, put back in order. */
  function Interleave(fs: seq<string>, runs: seq<string>): string
    requires |runs| + 1 == |fs|
    decreases |fs|
  {
    if |fs| == 1 then fs[0] else fs[0] + runs[0] + Interleave(fs[1..], runs[1..])
  }

  /** A string that starts with a separator loses at least that one. */
  lemma SkipSeparatorsShortens(u: string)
    requires u != [] && IsSeparator(u[0])
    ensures |SkipSeparators(u)| < |u|
  {
    assert SkipSeparators(u) == SkipSeparators(u[1..]);
  }

  lemma InterleaveCons(f: string, fs: seq<string>, run: string, more: seq<string>)
    requires |more| + 1 == |fs|
    ensures Interleave([f] + fs, [run] + more) == f + run + Interleave(fs, more)
  {
    assert ([f] + fs)[1..] == fs;
    assert ([run] + more)[1..] == more;
  }

  lemma RunsCons(run: string, more: seq<string>)
    requires SeparatorRun(run)
    requires forall j :: 0 <= j < |more| ==> SeparatorRun(more[j])
    ensures forall j :: 0 <= j < |[run] + more| ==> SeparatorRun(([run] + more)[j])
  {
    forall j | 0 <= j < |[run] + more| ensures SeparatorRun(([run] + more)[j]) {
      if j > 0 {
        assert ([run] + more)[j] == more[j - 1];
      }
    }
  }

  /** The first field of `t`, the run of separators after it, and the rest. */
  lemma FirstRun(t: string) returns (run: string)
    requires FieldLength(t) < |t|
    ensures SeparatorRun(run)
    ensures t == t[..FieldLength(t)] + run + SkipSeparators(t[FieldLength(t)..])
  {
    var u := t[FieldLength(t)..];
    var rest := SkipSeparators(u);
    SkipSeparatorsSuffix(u);
    SkipSeparatorsShortens(u);
    run := u[..|u| - |rest|];
    assert forall i :: 0 <= i < |run| ==> run[i] == u[i];
    assert u == run + rest;
  }

  /** The split cuts only at runs of separators: the string is its fields
      with a non-empty run of separators between each two, and nothing else
      (together with `FieldsHaveNoSeparator` this fixes the fields). */
  lemma {:induction false} FieldsSplitAtRuns(t: string) returns (runs: seq<string>)
    ensures |runs| + 1 == |Fields(t)|
    ensures forall j :: 0 <= j < |runs| ==> SeparatorRun(runs[j])
    ensures t == Interleave(Fields(t), runs)
    decreases |t|
  {
    var k := FieldLength(t);
    if k < |t| {
      var rest := SkipSeparators(t[k..]);
      var run := FirstRun(t);
      var more := FieldsSplitAtRuns(rest);
      runs := [run] + more;
      assert Fields(t) == [t[..k]] + Fields(rest);
      RunsCons(run, more);
      InterleaveCons(t[..k], Fields(rest), run, more);
    } else {
      runs := [];
      assert Fields(t) == [t];
    }
  }
}
