/** The filter-expression lexer: the four catchable lexeme patterns, the
    whitespace and single-character fall-back patterns, and the
    classification of every lexeme into a token kind (`getType`). */
module Lexer {
  import opened Wrappers
  import opened Tokens
  import opened Text

  // ---------------------------------------------------------------------
  // Classification of one lexeme
  // ---------------------------------------------------------------------

  /** A kind together with the lexeme text as `getType` leaves it in its
      by-reference argument. */
  datatype Typed = Typed(kind: TokenKind, value: string)

  function DigitsEnd(s: string, i: nat): (j: nat)
    requires i <= |s|
    ensures i <= j <= |s|
    ensures forall k :: i <= k < j ==> IsDigit(s[k])
    ensures j < |s| ==> !IsDigit(s[j])
    decreases |s| - i
  {
    if i < |s| && IsDigit(s[i]) then DigitsEnd(s, i + 1) else i
  }

  /** End of the optional exponent `[eE][+-]?[0-9]+` starting at `j`, or `j`
      when there is none. */
  function ExponentEnd(s: string, j: nat): (e: nat)
    requires j <= |s|
    ensures j <= e <= |s|
  {
    if j < |s| && (s[j] == 'e' || s[j] == 'E') then
      var k := if j + 1 < |s| && (s[j + 1] == '+' || s[j + 1] == '-') then j + 2 else j + 1;
      if k < |s| && IsDigit(s[k]) then DigitsEnd(s, k) else j
    else j
  }

  /** PHP's `is_numeric`, on the lexeme shapes the scanner can produce:
      digits, at most one `.digits` fraction, an optional exponent. */
  predicate IsNumeric(s: string)
  {
    var d := DigitsEnd(s, 0);
    0 < d &&
    var f := if d + 1 < |s| && s[d] == '.' && IsDigit(s[d + 1]) then DigitsEnd(s, d + 1) else d;
    ExponentEnd(s, f) == |s|
  }

  predicate AllDigits(s: string)
  {
    |s| > 0 && forall i :: 0 <= i < |s| ==> IsDigit(s[i])
  }

  /** `substr($value, 1, strlen($value) - 2)`: the text between the quotes
      (empty for a lone quote). */
  function Inner(v: string): string
  {
    if |v| >= 2 then v[1..|v| - 1] else ""
  }

  /** `str_replace("''", "'", s)`: every doubled quote, scanning left to
      right without overlap, becomes one quote. */
  function Unescape(s: string): string
  {
    if |s| >= 2 && s[0] == '\'' && s[1] == '\'' then "'" + Unescape(s[2..])
    else if s == [] then []
    else [s[0]] + Unescape(s[1..])
  }

  /** The uppercase spellings of the ten keywords. */
  const KeywordNames: set<string> :=
    {"AND", "BETWEEN", "FALSE", "IN", "IS", "LIKE", "NOT", "NULL", "OR", "TRUE"}

  /** The single punctuation characters that have a kind of their own. */
  function PunctuationKind(v: string): TokenKind
  {
    match v
    case "," => COMMA
    case "(" => OPEN_PARENTHESIS
    case ")" => CLOSE_PARENTHESIS
    case "=" => EQUALS
    case ">" => GREATER_THAN
    case "<" => LOWER_THAN
    case "!" => NEGATE
    case _ => NONE
  }

  predicate IsPunctuation(v: string)
  {
    v in {",", "(", ")", "=", ">", "<", "!"}
  }

  /** An alphabetic or `_` first character: the lexeme is looked up as a
      keyword constant and is an identifier otherwise. */
  predicate IsWordStart(v: string)
  {
    |v| > 0 && (IsAsciiLetter(v[0]) || v[0] == '_')
  }

  function WordKind(v: string): TokenKind
  {
    match ConstantNamed(Upper(v))
    case Some(k) => if Code(k) > 100 then k else IDENTIFIER
    case None => IDENTIFIER
  }

  /** `getType`: classifies a lexeme and unescapes string lexemes. It never
      fails, and only a lexeme starting with a quote is a STRING, the only
      kind whose text is rewritten. */
  function GetType(v: string): (r: Typed)
    ensures r.kind == STRING <==> |v| > 0 && v[0] == '\''
    ensures r.kind == STRING ==> r.value == Unescape(Inner(v))
    ensures r.kind != STRING ==> r.value == v
  {
    NumericShape(v);
    if IsNumeric(v) then
      Typed(if '.' in v || 'e' in v || 'E' in v then FLOAT else INTEGER, v)
    else if |v| > 0 && v[0] == '\'' then
      Typed(STRING, Unescape(Inner(v)))
    else if IsWordStart(v) then
      Typed(WordKind(v), v)
    else
      Typed(PunctuationKind(v), v)
  }

  /** The text of a punctuation kind. */
  function PunctuationText(k: TokenKind): string
  {
    match k
    case COMMA => ","
    case OPEN_PARENTHESIS => "("
    case CLOSE_PARENTHESIS => ")"
    case EQUALS => "="
    case GREATER_THAN => ">"
    case LOWER_THAN => "<"
    case NEGATE => "!"
    case _ => ""
  }

  /** A numeric lexeme starts with a digit; past its leading digits comes
      either nothing or a `.`, `e` or `E`. */
  lemma NumericShape(v: string)
    ensures IsNumeric(v) ==> IsDigit(v[0])
    ensures IsNumeric(v) ==> (AllDigits(v) <==> !('.' in v || 'e' in v || 'E' in v))
  {
    if IsNumeric(v) {
      var d := DigitsEnd(v, 0);
      if d == |v| {
        assert AllDigits(v);
        forall c | c in v
          ensures IsDigit(c)
        {
          var i :| 0 <= i < |v| && v[i] == c;
        }
      } else {
        assert v[d] == '.' || v[d] == 'e' || v[d] == 'E';
        assert v[d] in v;
      }
    }
  }

  /** Numbers: a lexeme is INTEGER exactly when it is numeric and all
      digits, and FLOAT exactly when it is numeric with a fraction or an
      exponent. */
  lemma GetTypeNumbers(v: string)
    ensures GetType(v).kind == INTEGER <==> IsNumeric(v) && AllDigits(v)
    ensures GetType(v).kind == FLOAT <==> IsNumeric(v) && !AllDigits(v)
  {
    NumericShape(v);
    if !IsNumeric(v) && IsWordStart(v) {
      WordKindIsWord(v);
    }
  }

  /** An upper-cased name is a keyword's exactly when its constant exists
      and is coded above 100. */
  lemma KeywordLookup(n: string)
    ensures n in KeywordNames <==> ConstantNamed(n).Some? && Code(ConstantNamed(n).value) > 100
  {
    var c := ConstantNamed(n);
    if c.Some? {
      CodeLayout(c.value);
    }
  }

  /** A word lexeme is a keyword or an identifier, never anything else. */
  lemma WordKindIsWord(v: string)
    ensures WordKind(v) == IDENTIFIER || IsKeyword(WordKind(v))
    ensures IsKeyword(WordKind(v)) <==> Upper(v) in KeywordNames
    ensures IsKeyword(WordKind(v)) ==> Name(WordKind(v)) == Upper(v)
  {
    KeywordLookup(Upper(v));
    var c := ConstantNamed(Upper(v));
    if c.Some? {
      CodeLayout(c.value);
    }
  }

  /** Keywords and identifiers: a lexeme is a keyword exactly when its
      upper-case spelling is one of the ten keyword names, and that keyword
      is the one so named; it is IDENTIFIER exactly when it starts with a
      letter or `_` and is not a keyword (so `none`, `comma` and
      `identifier` are identifiers). */
  lemma GetTypeWords(v: string)
    ensures IsKeyword(GetType(v).kind) <==> Upper(v) in KeywordNames
    ensures IsKeyword(GetType(v).kind) ==> Name(GetType(v).kind) == Upper(v)
    ensures GetType(v).kind == IDENTIFIER <==> IsWordStart(v) && Upper(v) !in KeywordNames
  {
    if IsWordStart(v) {
      WordGetType(v);
      WordKindIsWord(v);
    } else {
      KeywordsAreWords(v);
      OtherGetType(v);
    }
  }

  /** A lexeme starting with a letter or `_` is classified as a word. */
  lemma WordGetType(v: string)
    requires IsWordStart(v)
    ensures GetType(v).kind == WordKind(v)
  {
    NumericShape(v);
  }

  /** Any other lexeme is neither a keyword nor an identifier. */
  lemma OtherGetType(v: string)
    requires !IsWordStart(v)
    ensures GetType(v).kind != IDENTIFIER && !IsKeyword(GetType(v).kind)
  {
    PunctuationIsNotWord(v);
  }

  /** Every keyword name is spelled from a letter on. */
  lemma KeywordsAreWords(v: string)
    ensures Upper(v) in KeywordNames ==> IsWordStart(v)
  {
    if Upper(v) in KeywordNames {
      KeywordInitial(Upper(v));
      assert Upper(v)[0] == UpperChar(v[0]);
      UpperCharClasses(v[0]);
    }
  }

  lemma KeywordInitial(n: string)
    requires n in KeywordNames
    ensures |n| > 0 && 'A' <= n[0] <= 'Z'
  {
  }

  lemma PunctuationIsNotWord(v: string)
    ensures PunctuationKind(v) != IDENTIFIER && !IsKeyword(PunctuationKind(v))
  {
  }

  /** How upper-casing acts on the character classes the lexer tests. */
  lemma UpperCharClasses(c: char)
    ensures IsDigit(UpperChar(c)) <==> IsDigit(c)
    ensures UpperChar(c) == '.' <==> c == '.'
    ensures UpperChar(c) == '\'' <==> c == '\''
    ensures UpperChar(c) == '_' <==> c == '_'
    ensures (UpperChar(c) == '+' || UpperChar(c) == '-') <==> (c == '+' || c == '-')
    ensures (UpperChar(c) == 'e' || UpperChar(c) == 'E') <==> (c == 'e' || c == 'E')
    ensures IsAsciiLetter(UpperChar(c)) <==> IsAsciiLetter(c)
    ensures 'A' <= UpperChar(c) <= 'Z' ==> IsAsciiLetter(c)
  {
  }

  /** Punctuation: the seven single characters `, ( ) = > < !` get kinds of
      their own, and those kinds come from nothing else. */
  lemma GetTypePunctuation(v: string)
    ensures GetType(v).kind in {COMMA, OPEN_PARENTHESIS, CLOSE_PARENTHESIS, EQUALS, GREATER_THAN, LOWER_THAN, NEGATE}
            <==> IsPunctuation(v)
    ensures IsPunctuation(v) ==> v == PunctuationText(GetType(v).kind)
  {
    NumericShape(v);
    if IsWordStart(v) {
      WordGetType(v);
      WordKindIsWord(v);
    } else if !IsNumeric(v) && !(|v| > 0 && v[0] == '\'') {
      PunctuationExact(v);
    }
  }

  /** The punctuation table is exact, and each kind's text is its key. */
  lemma PunctuationExact(v: string)
    ensures PunctuationKind(v) in {COMMA, OPEN_PARENTHESIS, CLOSE_PARENTHESIS, EQUALS, GREATER_THAN, LOWER_THAN, NEGATE}
            <==> IsPunctuation(v)
    ensures IsPunctuation(v) ==> v == PunctuationText(PunctuationKind(v))
  {
  }

  /** Everything else is NONE: `.`, `?1`, `:name`, a `\`-leading name or
      `1.2.3`. */
  lemma GetTypeNone(v: string)
    ensures GetType(v).kind == NONE <==>
              !IsNumeric(v) && !(|v| > 0 && v[0] == '\'') && !IsWordStart(v) && !IsPunctuation(v)
  {
    NumericShape(v);
    if IsWordStart(v) {
      WordKindIsWord(v);
    }
  }

  /** Keyword recognition ignores letter case: a lexeme and its upper-case
      spelling always get the same kind. */
  lemma {:induction false} KindIgnoresCase(v: string)
    ensures GetType(Upper(v)).kind == GetType(v).kind
  {
    UpperIdempotent(v);
    var u := Upper(v);
    UpperPreservesNumeric(v);
    NumericShape(v);
    NumericShape(u);
    if |v| > 0 {
      assert u[0] == UpperChar(v[0]);
      UpperCharClasses(v[0]);
      if IsWordStart(v) {
        assert IsWordStart(u);
        assert WordKind(u) == WordKind(v);
      } else if IsPunctuation(v) || IsPunctuation(u) {
        assert u == [UpperChar(v[0])];
        assert u == v;
      }
    }
  }

  /** Upper-casing does not change whether a lexeme is numeric (only an
      exponent marker `e` changes, into `E`). */
  lemma UpperPreservesNumeric(v: string)
    ensures IsNumeric(Upper(v)) == IsNumeric(v)
    ensures AllDigits(Upper(v)) == AllDigits(v)
  {
    var u := Upper(v);
    UpperDigitsEnd(v, u, 0);
    var d := DigitsEnd(v, 0);
    var f := if d + 1 < |v| && v[d] == '.' && IsDigit(v[d + 1]) then DigitsEnd(v, d + 1) else d;
    if d + 1 < |v| {
      UpperCharClasses(v[d]);
      UpperCharClasses(v[d + 1]);
      assert u[d] == UpperChar(v[d]) && u[d + 1] == UpperChar(v[d + 1]);
      UpperDigitsEnd(v, u, d + 1);
    }
    UpperExponentEnd(v, u, f);
    if AllDigits(v) {
      forall i | 0 <= i < |u|
        ensures IsDigit(u[i])
      {
        UpperCharClasses(v[i]);
      }
    }
    if AllDigits(u) {
      forall i | 0 <= i < |v|
        ensures IsDigit(v[i])
      {
        UpperCharClasses(v[i]);
      }
    }
  }

  lemma UpperDigitsEnd(v: string, u: string, i: nat)
    requires u == Upper(v) && i <= |v|
    ensures DigitsEnd(u, i) == DigitsEnd(v, i)
    decreases |v| - i
  {
    if i < |v| {
      UpperCharClasses(v[i]);
      UpperDigitsEnd(v, u, i + 1);
    }
  }

  lemma UpperExponentEnd(v: string, u: string, j: nat)
    requires u == Upper(v) && j <= |v|
    ensures ExponentEnd(u, j) == ExponentEnd(v, j)
  {
    if j < |v| {
      UpperCharClasses(v[j]);
      if j + 1 < |v| {
        UpperCharClasses(v[j + 1]);
      }
      var k := if j + 1 < |v| && (v[j + 1] == '+' || v[j + 1] == '-') then j + 2 else j + 1;
      if k < |v| {
        UpperCharClasses(v[k]);
        UpperDigitsEnd(v, u, k);
      }
    }
  }

  // ---------------------------------------------------------------------
  // String literals
  // ---------------------------------------------------------------------

  /** Doubling every quote: how a quote is written inside a string literal. */
  function Escape(s: string): string
  {
    if s == [] then []
    else if s[0] == '\'' then "''" + Escape(s[1..])
    else [s[0]] + Escape(s[1..])
  }

  /** A string literal as it is written in an expression. */
  function Quote(s: string): string
  {
    "'" + Escape(s) + "'"
  }

  /** Unescaping undoes escaping. */
  lemma {:induction false} UnescapeEscape(s: string)
    ensures Unescape(Escape(s)) == s
  {
    if s != [] {
      UnescapeEscape(s[1..]);
      if s[0] == '\'' {
        assert Escape(s) == "''" + Escape(s[1..]);
        assert Escape(s)[2..] == Escape(s[1..]);
      } else {
        assert Escape(s) == [s[0]] + Escape(s[1..]);
        assert Escape(s)[1..] == Escape(s[1..]);
      }
    }
  }

  /** Every quoted string is classified as a STRING token whose value is the
      original text: `'it''s'` gives `it's`. */
  lemma QuotedStringRoundTrip(s: string)
    ensures GetType(Quote(s)) == Typed(STRING, s)
  {
    var q := Quote(s);
    assert q[0] == '\'';
    assert Inner(q) == Escape(s);
    UnescapeEscape(s);
  }

  // ---------------------------------------------------------------------
  // Splitting the input into lexemes
  // ---------------------------------------------------------------------

  /** `\s` of the split pattern. */
  predicate IsSpace(c: char)
  {
    c == ' ' || c == '\t' || c == '\n' || c == '\r' || c == '\U{B}' || c == '\U{C}'
  }

  /** `[a-z0-9_]`, case-insensitively. */
  predicate IsWordChar(c: char)
  {
    IsAsciiLetter(c) || IsDigit(c) || c == '_'
  }

  function SpaceEnd(s: string, i: nat): (j: nat)
    requires i <= |s|
    ensures i <= j <= |s|
    ensures forall k :: i <= k < j ==> IsSpace(s[k])
    ensures j < |s| ==> !IsSpace(s[j])
    decreases |s| - i
  {
    if i < |s| && IsSpace(s[i]) then SpaceEnd(s, i + 1) else i
  }

  function WordCharsEnd(s: string, i: nat): (j: nat)
    requires i <= |s|
    ensures i <= j <= |s|
    decreases |s| - i
  {
    if i < |s| && IsWordChar(s[i]) then WordCharsEnd(s, i + 1) else i
  }

  /** End of the run of `[a-z0-9_:\\]` starting at `i`. */
  function IdentifierBodyEnd(s: string, i: nat): (j: nat)
    requires i <= |s|
    ensures i <= j <= |s|
    decreases |s| - i
  {
    if i < |s| && (IsWordChar(s[i]) || s[i] == ':' || s[i] == '\\') then IdentifierBodyEnd(s, i + 1) else i
  }

  /** The largest `k` in `(lo, hi]` with `s[k-1]` a word character, or `lo`:
      where the greedy body gives back characters until the mandatory last
      `[a-z0-9_]` matches. */
  function LastWordCharEnd(s: string, lo: nat, hi: nat): (k: nat)
    requires lo <= hi <= |s|
    ensures lo <= k <= hi
    decreases hi
  {
    if hi <= lo then lo
    else if IsWordChar(s[hi - 1]) then hi
    else LastWordCharEnd(s, lo, hi - 1)
  }

  /** Length of the match of `[a-z_\\][a-z0-9_:\\]*[a-z0-9_]` at `i` (0 when
      it does not match); the pattern needs at least two characters. */
  function IdentifierLength(s: string, i: nat): nat
    requires i < |s|
  {
    if IsAsciiLetter(s[i]) || s[i] == '_' || s[i] == '\\' then
      var k := LastWordCharEnd(s, i + 1, IdentifierBodyEnd(s, i + 1));
      if k > i + 1 then k - i else 0
    else 0
  }

  /** Length of the match of `[0-9]+(\.[0-9]+)*(e[+-]?[0-9]+)?` at `i`. */
  function NumberLength(s: string, i: nat): nat
    requires i < |s|
  {
    if IsDigit(s[i]) then ExponentEnd(s, FractionsEnd(s, DigitsEnd(s, i))) - i else 0
  }

  function FractionsEnd(s: string, j: nat): (e: nat)
    requires j <= |s|
    ensures j <= e <= |s|
    decreases |s| - j
  {
    if j + 1 < |s| && s[j] == '.' && IsDigit(s[j + 1]) then FractionsEnd(s, DigitsEnd(s, j + 1)) else j
  }

  /** Where `(?:[^']|'')*'` stops when it has reached `j`, `lastPair` being
      the start of the last `''` taken so far: a lone quote closes the
      literal; at the end of input the match falls back to the last pair. */
  function QuoteClose(s: string, j: nat, lastPair: Option<nat>): (e: Option<nat>)
    requires j <= |s|
    requires lastPair.Some? ==> lastPair.value < j
    ensures e.Some? ==> e.value <= |s|
    decreases |s| - j
  {
    if j == |s| then
      (if lastPair.Some? then Some(lastPair.value + 1) else None)
    else if s[j] != '\'' then QuoteClose(s, j + 1, lastPair)
    else if j + 1 < |s| && s[j + 1] == '\'' then QuoteClose(s, j + 2, Some(j))
    else Some(j + 1)
  }

  /** Length of the match of `'(?:[^']|'')*'` at `i`. */
  function StringLength(s: string, i: nat): nat
    requires i < |s|
  {
    if s[i] == '\'' then
      match QuoteClose(s, i + 1, None)
      case Some(e) => if e > i + 1 then e - i else 0
      case None => 0
    else 0
  }

  /** Length of the match of `\?[0-9]*|:[a-z][a-z0-9_]*` at `i`. */
  function ParameterLength(s: string, i: nat): nat
    requires i < |s|
  {
    if s[i] == '?' then DigitsEnd(s, i + 1) - i
    else if s[i] == ':' && i + 1 < |s| && IsAsciiLetter(s[i + 1]) then WordCharsEnd(s, i + 2) - i
    else 0
  }

  /** The length of the lexeme starting at a non-space character: the first
      catchable pattern that matches there, else the single character. */
  function LexemeLength(s: string, i: nat): (n: nat)
    requires i < |s|
    ensures 1 <= n <= |s| - i
    ensures IdentifierLength(s, i) > 0 ==> n == IdentifierLength(s, i)
    ensures IdentifierLength(s, i) == 0 && NumberLength(s, i) > 0 ==> n == NumberLength(s, i)
    ensures IdentifierLength(s, i) == 0 && NumberLength(s, i) == 0 && StringLength(s, i) > 0 ==> n == StringLength(s, i)
    ensures IdentifierLength(s, i) == 0 && NumberLength(s, i) == 0 && StringLength(s, i) == 0 && ParameterLength(s, i) > 0
            ==> n == ParameterLength(s, i)
    ensures IdentifierLength(s, i) == 0 && NumberLength(s, i) == 0 && StringLength(s, i) == 0 && ParameterLength(s, i) == 0
            ==> n == 1
  {
    var a := IdentifierLength(s, i);
    if a > 0 then a
    else
      var b := NumberLength(s, i);
      if b > 0 then b
      else
        var c := StringLength(s, i);
        if c > 0 then c
        else
          var d := ParameterLength(s, i);
          if d > 0 then d else 1
  }

  /** A lexeme with its character offset in the expression. */
  datatype Lexeme = Lexeme(text: string, offset: nat)

  /** The lexemes of `s` from offset `i` on; runs of whitespace separate
      lexemes and produce none. */
  function ScanFrom(s: string, i: nat): seq<Lexeme>
    requires i <= |s|
    decreases |s| - i
  {
    if i == |s| then []
    else if IsSpace(s[i]) then ScanFrom(s, SpaceEnd(s, i))
    else
      var n := LexemeLength(s, i);
      [Lexeme(s[i..i + n], i)] + ScanFrom(s, i + n)
  }

  function Scan(s: string): seq<Lexeme>
  {
    ScanFrom(s, 0)
  }

  predicate AllSpace(s: string, a: nat, b: nat)
    requires a <= b <= |s|
  {
    forall k :: a <= k < b ==> IsSpace(s[k])
  }

  /** `ls` lays the text of `s` from `i` on out as non-empty lexemes, in
      order, each copied from the input at its offset and starting with a
      non-space character, with nothing but whitespace between or after
      them. */
  ghost predicate Tiles(s: string, i: nat, ls: seq<Lexeme>)
    decreases |ls|
  {
    i <= |s| &&
    if ls == [] then AllSpace(s, i, |s|)
    else
      var l := ls[0];
      && i <= l.offset
      && l.offset + |l.text| <= |s|
      && |l.text| > 0
      && !IsSpace(l.text[0])
      && s[l.offset..l.offset + |l.text|] == l.text
      && AllSpace(s, i, l.offset)
      && Tiles(s, l.offset + |l.text|, ls[1..])
  }

  /** The scan loses no input: its lexemes tile the expression, with only
      whitespace left out. */
  lemma {:induction false} ScanTiles(s: string, i: nat)
    requires i <= |s|
    ensures Tiles(s, i, ScanFrom(s, i))
    decreases |s| - i
  {
    if i < |s| {
      if IsSpace(s[i]) {
        var j := SpaceEnd(s, i);
        ScanTiles(s, j);
        var ls := ScanFrom(s, j);
        if ls != [] {
          assert AllSpace(s, j, ls[0].offset);
        }
      } else {
        var n := LexemeLength(s, i);
        ScanTiles(s, i + n);
      }
    }
  }

  /** Turning every lexeme into a token with `getType`. */
  function Classify(ls: seq<Lexeme>): (ts: seq<Token>)
    ensures |ts| == |ls|
    ensures forall k :: 0 <= k < |ls| ==>
              ts[k] == Token(GetType(ls[k].text).kind, GetType(ls[k].text).value, ls[k].offset)
  {
    if ls == [] then []
    else [Token(GetType(ls[0].text).kind, GetType(ls[0].text).value, ls[0].offset)] + Classify(ls[1..])
  }

  /** The token list the lexer hands to the parser: one token per lexeme,
      each at the offset of a non-space character of the input, in
      increasing order of offset. */
  function Tokenize(s: string): (ts: seq<Token>)
    ensures |ts| == |Scan(s)|
    ensures forall k :: 0 <= k < |ts| ==> ts[k].position < |s| && !IsSpace(s[ts[k].position])
    ensures forall k :: 0 < k < |ts| ==> ts[k - 1].position < ts[k].position
  {
    ScanTiles(s, 0);
    TilesOffsets(s, 0, Scan(s));
    Classify(Scan(s))
  }

  /** What tiling says about the offsets: each lexeme starts at a
      non-space character at or after `i`, and each ends before the next
      one starts. */
  lemma {:induction false} TilesOffsets(s: string, i: nat, ls: seq<Lexeme>)
    requires Tiles(s, i, ls)
    ensures forall k :: 0 <= k < |ls| ==> i <= ls[k].offset < |s| && !IsSpace(s[ls[k].offset])
    ensures forall k :: 0 < k < |ls| ==> ls[k - 1].offset < ls[k].offset
    decreases |ls|
  {
    if ls != [] {
      var l := ls[0];
      assert s[l.offset..l.offset + |l.text|][0] == s[l.offset];
      TilesOffsets(s, l.offset + |l.text|, ls[1..]);
      forall k | 0 <= k < |ls|
        ensures i <= ls[k].offset < |s| && !IsSpace(s[ls[k].offset])
      {
        if k > 0 {
          assert ls[k] == ls[1..][k - 1];
        }
      }
      forall k | 0 < k < |ls|
        ensures ls[k - 1].offset < ls[k].offset
      {
        assert ls[k] == ls[1..][k - 1];
        if k > 1 {
          assert ls[k - 1] == ls[1..][k - 2];
        }
      }
    }
  }
}
