/**
 * The lexer (`Lexer` with its string source `StringLexer`).  It walks the
 * source one character at a time, holding the last character read in
 * `current`, skips whitespace and `#` comments, and appends tokens to a list.
 *
 * The pure functions `Step`, `Lex` and `Tokenize` say which tokens a run
 * produces; the class `StringLexer` does the work in place and is proved to
 * produce exactly those tokens.
 */
module Lexing {
  import opened Tokens

  // Character classes of <cctype> in the "C" locale.
  predicate IsSpace(c: char) {
    c == ' ' || c == '\t' || c == '\n' || c == '\U{B}' || c == '\U{C}' || c == '\r'
  }
  predicate IsAlpha(c: char) { 'a' <= c <= 'z' || 'A' <= c <= 'Z' }
  /** `isnumber`, which agrees with `isdigit` on these characters. */
  predicate IsDigit(c: char) { '0' <= c <= '9' }
  predicate IsAlnum(c: char) { IsAlpha(c) || IsDigit(c) }
  predicate NotNewline(c: char) { c != '\n' }

  /** `ValidInNumber`: the characters a number token absorbs; no structure is checked. */
  predicate ValidInNumber(c: char) {
    IsDigit(c) || c == 'E' || c == 'e' || c == '+' || c == '-' || c == '.'
  }

  /** The end of the maximal run of `keep` characters of `s` that starts at `p`. */
  function SpanEnd(s: string, p: nat, keep: char -> bool): (q: nat)
    requires p <= |s|
    ensures p <= q <= |s|
    decreases |s| - p
  {
    if p == |s| || !keep(s[p]) then p else SpanEnd(s, p + 1, keep)
  }

  /** `SpanEnd` finds a maximal run: every character before it is kept, the one at it is not. */
  lemma {:induction false} SpanEndRun(s: string, p: nat, keep: char -> bool)
    requires p <= |s|
    ensures var q := SpanEnd(s, p, keep);
            (forall i :: p <= i < q ==> keep(s[i])) && (q < |s| ==> !keep(s[q]))
    decreases |s| - p
  {
    if p < |s| && keep(s[p]) {
      SpanEndRun(s, p + 1, keep);
    }
  }

  /** Any position that ends a run of `keep` characters from `p` is the one `SpanEnd` finds. */
  lemma {:induction false} SpanEndUnique(s: string, p: nat, keep: char -> bool, k: nat)
    requires p <= k <= |s|
    requires forall i :: p <= i < k ==> keep(s[i])
    requires k < |s| ==> !keep(s[k])
    ensures SpanEnd(s, p, keep) == k
    decreases k - p
  {
    if p < k {
      SpanEndUnique(s, p + 1, keep, k);
    }
  }

  /** What one step of the lexer emits and the position it leaves `pos` at. */
  datatype Scan = Scan(emitted: seq<Token>, next: nat)

  /** The keyword reclassification of an identifier's text. */
  function Classify(text: string): (t: Token)
    ensures Canonical(t)
    ensures t.IsDef() <==> text == "def"
    ensures t.IsExtern() <==> text == "extern"
    ensures t.IsIdent() <==> text != "def" && text != "extern"
    ensures t.IsIdent() ==> t.GetContent() == text
  {
    if text == "def" then FromText(Def, "def")
    else if text == "extern" then FromText(Extern, "extern")
    else FromText(Ident, text)
  }

  /**
   * `ParseIdent` with `current == c` and `pos == p`: the text is `c` followed
   * by the maximal alphanumeric run from `p`.  When the run reaches the end of
   * the source, `pos` stays at the end.
   */
  function IdentStep(s: string, p: nat, c: char): (r: Scan)
    requires p < |s|
    ensures p < r.next <= |s|
    ensures |r.emitted| == 1 && !r.emitted[0].IsNumber() && !r.emitted[0].IsUnknown()
    ensures r.emitted[0].IsIdent() ==> |r.emitted[0].GetContent()| > 0 && r.emitted[0].GetContent()[0] == c
  {
    var q := SpanEnd(s, p, IsAlnum);
    Scan([Classify([c] + s[p..q])], if q < |s| then q + 1 else |s|)
  }

  /** `ParseNumber`: like `IdentStep` over the characters `ValidInNumber` accepts. */
  function NumberStep(s: string, p: nat, c: char): (r: Scan)
    requires p < |s|
    ensures p < r.next <= |s|
    ensures |r.emitted| == 1 && r.emitted[0].IsNumber()
    ensures |r.emitted[0].GetContent()| > 0 && r.emitted[0].GetContent()[0] == c
  {
    var q := SpanEnd(s, p, ValidInNumber);
    Scan([FromText(Number, [c] + s[p..q])], if q < |s| then q + 1 else |s|)
  }

  /**
   * `ParseComment`: read up to and including the next newline (or to the end),
   * then read one more character; nothing is emitted.
   */
  function CommentStep(s: string, p: nat, c: char): (r: Scan)
    requires p < |s|
    ensures r.emitted == [] && p < r.next <= |s|
    ensures c == '\n' ==> r.next == p + 1
    ensures c != '\n' ==> forall i | p <= i < r.next - 2 :: s[i] != '\n'
    ensures c != '\n' && r.next < |s| ==> p + 2 <= r.next && s[r.next - 2] == '\n'
  {
    SpanEndRun(s, p, NotNewline);
    // where `pos` is once the loop stops at a newline or at the end
    var q := if c == '\n' then p
             else var e := SpanEnd(s, p, NotNewline); if e < |s| then e + 1 else |s|;
    Scan([], if q < |s| then q + 1 else q)
  }

  /** `ParseUnknown`: one `Unknown` token carrying `c`, then one character is read. */
  function UnknownStep(s: string, p: nat, c: char): Scan
    requires p < |s|
  {
    Scan([FromChar(c)], p + 1)
  }

  /**
   * One round of `Parse` when the source is not exhausted: dispatch on the
   * class of `current`.  A whitespace character is dropped by reading the next one.
   */
  function Step(s: string, p: nat, c: char): (r: Scan)
    requires p < |s|
    ensures p < r.next <= |s|
    ensures |r.emitted| <= 1
  {
    if IsSpace(c) then Scan([], p + 1)
    else if IsAlpha(c) then IdentStep(s, p, c)
    else if IsDigit(c) then NumberStep(s, p, c)
    else if c == '#' then CommentStep(s, p, c)
    else UnknownStep(s, p, c)
  }

  /**
   * The tokens `Parse` appends from the state `pos == p`, `current == c`.  It
   * stops as soon as the source is exhausted, even though `current` still holds
   * the last character read.
   */
  function Lex(s: string, p: nat, c: char): seq<Token>
    decreases |s| - p
  {
    if p >= |s| then []
    else
      var r := Step(s, p, c);
      r.emitted + Lex(s, r.next, s[r.next - 1])
  }

  /** The tokens `Run` produces on a fresh lexer over `s`. */
  function Tokenize(s: string): seq<Token> {
    if |s| == 0 then [] else Lex(s, 1, s[0])
  }

  /** An identifier's text: one letter, then letters and digits. */
  predicate IsIdentText(t: string) {
    |t| > 0 && IsAlpha(t[0]) && forall i :: 1 <= i < |t| ==> IsAlnum(t[i])
  }

  /** A number's text: one digit, then any characters `ValidInNumber` accepts. */
  predicate IsNumberText(t: string) {
    |t| > 0 && IsDigit(t[0]) && forall i :: 1 <= i < |t| ==> ValidInNumber(t[i])
  }

  /** What every token of the lexer looks like. */
  predicate WellLexed(t: Token) {
    && Canonical(t)
    && (t.IsIdent() ==> IsIdentText(t.content) && t.content != "def" && t.content != "extern")
    && (t.IsNumber() ==> IsNumberText(t.content))
    && (t.IsUnknown() ==> !IsSpace(t.character) && !IsAlnum(t.character) && t.character != '#')
  }

  lemma StepWellLexed(s: string, p: nat, c: char)
    requires p < |s|
    ensures forall t | t in Step(s, p, c).emitted :: WellLexed(t)
  {
    if !IsSpace(c) && IsAlpha(c) {
      var q := SpanEnd(s, p, IsAlnum);
      SpanEndRun(s, p, IsAlnum);
      var text := [c] + s[p..q];
      assert forall i :: 1 <= i < |text| ==> text[i] == s[p + i - 1];
    } else if !IsSpace(c) && IsDigit(c) {
      var q := SpanEnd(s, p, ValidInNumber);
      SpanEndRun(s, p, ValidInNumber);
      var text := [c] + s[p..q];
      assert forall i :: 1 <= i < |text| ==> text[i] == s[p + i - 1];
    }
  }

  /**
   * Every token the lexer emits is well formed: identifiers are a letter and
   * alphanumerics and never the keywords, numbers start with a digit, and an
   * `Unknown` token never carries whitespace, a letter, a digit or `#`.
   */
  lemma {:induction false} LexWellLexed(s: string, p: nat, c: char)
    ensures forall t | t in Lex(s, p, c) :: WellLexed(t)
    decreases |s| - p
  {
    if p < |s| {
      var r := Step(s, p, c);
      StepWellLexed(s, p, c);
      LexWellLexed(s, r.next, s[r.next - 1]);
      LexUnfold(s, p, c);
    }
  }

  /** A fresh run emits only well-formed tokens, at most one per character of the source. */
  lemma TokenizeWellLexed(s: string)
    ensures forall t | t in Tokenize(s) :: WellLexed(t)
    ensures |Tokenize(s)| <= |s|
  {
    if |s| > 0 {
      LexWellLexed(s, 1, s[0]);
      LexLength(s, 1, s[0]);
    }
  }

  lemma {:induction false} LexLength(s: string, p: nat, c: char)
    requires p <= |s|
    ensures |Lex(s, p, c)| <= |s| - p
    decreases |s| - p
  {
    if p < |s| {
      var r := Step(s, p, c);
      LexUnfold(s, p, c);
      LexLength(s, r.next, s[r.next - 1]);
    }
  }

  lemma LexUnfold(s: string, p: nat, c: char)
    requires p < |s|
    ensures var r := Step(s, p, c); Lex(s, p, c) == r.emitted + Lex(s, r.next, s[r.next - 1])
  {
  }

  lemma LexAtEnd(s: string, c: char)
    ensures Lex(s, |s|, c) == []
  {
  }

  /** One step of the lexer moves its emitted tokens from the pending part of a run to the emitted part. */
  lemma {:induction false} LexAfterStep(s: string, p: nat, c: char, before: seq<Token>, after: seq<Token>, p': nat, c': char)
    requires p < |s|
    requires var r := Step(s, p, c); after == before + r.emitted && p' == r.next && c' == s[p' - 1]
    ensures before + Lex(s, p, c) == after + Lex(s, p', c')
  {
    var r := Step(s, p, c);
    LexUnfold(s, p, c);
    assert before + (r.emitted + Lex(s, p', c')) == (before + r.emitted) + Lex(s, p', c');
  }

  /** Whitespace is consumed and produces no token. */
  lemma SpaceSkipped(s: string, p: nat, c: char)
    requires p < |s| && IsSpace(c)
    ensures Lex(s, p, c) == Lex(s, p + 1, s[p])
  {
    assert Step(s, p, c) == Scan([], p + 1);
    LexUnfold(s, p, c);
  }

  /** A `#` discards everything up to and including the next newline, and produces no token. */
  lemma CommentSkipped(s: string, p: nat)
    requires p < |s|
    ensures var e := SpanEnd(s, p, NotNewline);
            Lex(s, p, '#') == if e + 1 < |s| then Lex(s, e + 2, s[e + 1]) else []
  {
    var e := SpanEnd(s, p, NotNewline);
    var n := if e + 1 < |s| then e + 2 else |s|;
    CommentStepScan(s, p);
    LexUnfold(s, p, '#');
    assert Lex(s, p, '#') == [] + Lex(s, n, s[n - 1]);
    if e + 1 >= |s| {
      LexAtEnd(s, s[n - 1]);
    }
  }

  /** One round on `#` emits nothing and resumes one character after the newline, or at the end. */
  lemma CommentStepScan(s: string, p: nat)
    requires p < |s|
    ensures var e := SpanEnd(s, p, NotNewline);
            Step(s, p, '#') == Scan([], if e + 1 < |s| then e + 2 else |s|)
  {
    assert Step(s, p, '#') == CommentStep(s, p, '#');
  }

  /** Any other character yields one `Unknown` token and the lexer moves on by one character. */
  lemma UnknownEmitted(s: string, p: nat, c: char)
    requires p < |s|
    requires !IsSpace(c) && !IsAlnum(c) && c != '#'
    ensures Lex(s, p, c) == [FromChar(c)] + Lex(s, p + 1, s[p])
  {
    assert Step(s, p, c) == Scan([FromChar(c)], p + 1);
    LexUnfold(s, p, c);
  }

  /**
   * An identifier token's text is the letter `c` followed by the maximal
   * alphanumeric run; `def` and `extern` are reclassified as keywords.
   */
  lemma IdentifierToken(s: string, p: nat, c: char)
    requires p < |s| && IsAlpha(c)
    ensures var q := SpanEnd(s, p, IsAlnum);
            Lex(s, p, c) == [Classify([c] + s[p..q])] + (if q < |s| then Lex(s, q + 1, s[q]) else [])
  {
    var q := SpanEnd(s, p, IsAlnum);
    var t := Classify([c] + s[p..q]);
    var n := if q < |s| then q + 1 else |s|;
    LetterStep(s, p, c);
    assert Step(s, p, c) == Scan([t], n);
    LexUnfold(s, p, c);
    assert Lex(s, p, c) == [t] + Lex(s, n, s[n - 1]);
    if q == |s| {
      LexAtEnd(s, s[|s| - 1]);
    }
  }

  lemma LetterStep(s: string, p: nat, c: char)
    requires p < |s| && IsAlpha(c)
    ensures var q := SpanEnd(s, p, IsAlnum);
            Step(s, p, c) == Scan([Classify([c] + s[p..q])], if q < |s| then q + 1 else |s|)
  {
    assert Step(s, p, c) == IdentStep(s, p, c);
  }

  /** A number token is the digit `c` followed by the maximal run of characters `ValidInNumber` accepts. */
  lemma NumberToken(s: string, p: nat, c: char)
    requires p < |s| && IsDigit(c)
    ensures var q := SpanEnd(s, p, ValidInNumber);
            Lex(s, p, c) == [FromText(Number, [c] + s[p..q])] + (if q < |s| then Lex(s, q + 1, s[q]) else [])
  {
    var q := SpanEnd(s, p, ValidInNumber);
    var t := FromText(Number, [c] + s[p..q]);
    var n := if q < |s| then q + 1 else |s|;
    DigitStep(s, p, c);
    assert Step(s, p, c) == Scan([t], n);
    LexUnfold(s, p, c);
    assert Lex(s, p, c) == [t] + Lex(s, n, s[n - 1]);
    if q == |s| {
      LexAtEnd(s, s[|s| - 1]);
    }
  }

  lemma DigitStep(s: string, p: nat, c: char)
    requires p < |s| && IsDigit(c)
    ensures var q := SpanEnd(s, p, ValidInNumber);
            Step(s, p, c) == Scan([FromText(Number, [c] + s[p..q])], if q < |s| then q + 1 else |s|)
  {
    assert Step(s, p, c) == NumberStep(s, p, c);
  }

  /** A final character that would start a new token is never tokenized: the `b` of `a+b` is lost. */
  lemma FinalCharacterDropped(s: string)
    requires s == "a+b"
    ensures Tokenize(s) == [FromText(Ident, "a"), FromChar('+')]
  {
    SpanEndUnique(s, 1, IsAlnum, 1);
    IdentifierToken(s, 1, 'a');
    assert [s[0]] + s[1..1] == "a";
    UnknownEmitted(s, 2, '+');
    LexAtEnd(s, 'b');
  }

  /** A final character that extends an identifier is kept: `a+bc` ends with the identifier `bc`. */
  lemma FinalCharacterExtendsIdentifier(s: string)
    requires s == "a+bc"
    ensures Tokenize(s) == [FromText(Ident, "a"), FromChar('+'), FromText(Ident, "bc")]
  {
    ExtendedTail(s);
    SpanEndUnique(s, 1, IsAlnum, 1);
    IdentifierToken(s, 1, 'a');
    assert [s[0]] + s[1..1] == "a";
  }

  /** The tail `+bc` of `a+bc`. */
  lemma ExtendedTail(s: string)
    requires s == "a+bc"
    ensures Lex(s, 2, '+') == [FromChar('+'), FromText(Ident, "bc")]
  {
    SpanEndUnique(s, 3, IsAlnum, 4);
    IdentifierToken(s, 3, 'b');
    assert [s[2]] + s[3..4] == "bc";
    UnknownEmitted(s, 2, '+');
  }

  /** A number absorbs any run of number characters: `1-2` and `1e+.` each become one token. */
  lemma NumbersAreNotValidated(s: string, u: string)
    requires s == "1-2" && u == "1e+."
    ensures Tokenize(s) == [FromText(Number, "1-2")]
    ensures Tokenize(u) == [FromText(Number, "1e+.")]
  {
    SpanEndUnique(s, 1, ValidInNumber, 3);
    NumberToken(s, 1, '1');
    assert [s[0]] + s[1..3] == s;
    SpanEndUnique(u, 1, ValidInNumber, 4);
    NumberToken(u, 1, '1');
    assert [u[0]] + u[1..4] == u;
  }

  /** The identifier `f` at the end of `def f `. */
  lemma KeywordExampleTail(s: string)
    requires s == "def f "
    ensures Lex(s, 4, ' ') == [FromText(Ident, "f")]
  {
    SpaceSkipped(s, 4, ' ');
    SpanEndUnique(s, 5, IsAlnum, 5);
    IdentifierToken(s, 5, 'f');
    assert [s[4]] + s[5..5] == "f";
    LexAtEnd(s, ' ');
  }

  /** The text `def` becomes a keyword token. */
  lemma KeywordReclassified(s: string)
    requires s == "def f "
    ensures Tokenize(s) == [FromText(Def, "def"), FromText(Ident, "f")]
  {
    var text := [s[0]] + s[1..3];
    assert text == "def";
    assert Classify(text) == FromText(Def, "def");
    SpanEndUnique(s, 1, IsAlnum, 3);
    IdentifierToken(s, 1, 'd');
    KeywordExampleTail(s);
  }

  /** A word that merely starts with a keyword, such as `define`, stays an identifier. */
  lemma KeywordPrefixNotReclassified(s: string)
    requires s == "define "
    ensures Tokenize(s) == [FromText(Ident, "define")]
  {
    SpanEndUnique(s, 1, IsAlnum, 6);
    IdentifierToken(s, 1, 'd');
    assert [s[0]] + s[1..6] == "define";
    LexAtEnd(s, ' ');
  }

  /**
   * A fresh lexer over a string; `Next` and `Eof` of `StringLexer` and the
   * token list of `Lexer` live in the one class.
   */
  class StringLexer {
    const source: string
    var pos: nat
    /** The last character read; not initialised until the first read. */
    var current: char
    var tokens: seq<Token>

    ghost predicate Valid()
      reads this
    {
      pos <= |source|
    }

    constructor (src: string)
      ensures Valid() && source == src && pos == 0 && tokens == []
    {
      source := src;
      pos := 0;
      tokens := [];
    }

    /** `Eof()`: every character has been read. */
    predicate Eof()
      reads this
    {
      pos >= |source|
    }

    /** `Next()`: return `source[pos]` and advance by exactly one. */
    method Next() returns (ch: char)
      requires pos < |source|
      modifies this`pos
      ensures ch == source[old(pos)] && pos == old(pos) + 1
    {
      ch := source[pos];
      pos := pos + 1;
    }

    /** `GetCurrent()`: read the next character into `current`, unless the source is exhausted. */
    method GetCurrent() returns (read: bool)
      requires Valid()
      modifies this`pos, this`current
      ensures Valid()
      ensures read <==> old(pos) < |source|
      ensures read ==> current == source[old(pos)] && pos == old(pos) + 1
      ensures !read ==> current == old(current) && pos == old(pos)
    {
      if !Eof() {
        current := Next();
        return true;
      }
      return false;
    }

    /** `Reset()`: empty the token list. */
    method Reset()
      modifies this`tokens
      ensures tokens == []
    {
      tokens := [];
    }

    /** `getTokens()`. */
    function GetTokens(): seq<Token>
      reads this
    {
      tokens
    }

    /** `Run()`: read the first character, then tokenize the rest. */
    method Run()
      requires Valid()
      modifies this`pos, this`current, this`tokens
      ensures Valid() && pos == |source|
      ensures tokens == old(tokens) + (if old(pos) < |source| then Lex(source, old(pos) + 1, source[old(pos)]) else [])
      ensures old(pos) == 0 ==> tokens == old(tokens) + Tokenize(source)
    {
      var read := GetCurrent();
      Parse();
    }

    /** `Parse()`, whose tail calls become the rounds of one loop. */
    method Parse()
      requires Valid()
      modifies this`pos, this`current, this`tokens
      ensures Valid() && pos == |source|
      ensures tokens == old(tokens) + Lex(source, old(pos), old(current))
    {
      ghost var total := tokens + Lex(source, pos, current);
      while !Eof()
        invariant Valid()
        invariant total == tokens + Lex(source, pos, current)
        decreases |source| - pos
      {
        ghost var p0, c0, t0 := pos, current, tokens;
        Dispatch();
        LexAfterStep(source, p0, c0, t0, tokens, pos, current);
      }
    }

    /** The body of `Parse()` between its end-of-input test and its tail call: dispatch on `current`. */
    method Dispatch()
      requires Valid() && !Eof()
      modifies this`pos, this`current, this`tokens
      ensures Valid()
      ensures var r := Step(source, old(pos), old(current));
              tokens == old(tokens) + r.emitted && pos == r.next && current == source[pos - 1]
    {
      if IsSpace(current) {
        var read := GetCurrent();
      } else if IsAlpha(current) {
        ParseIdent();
      } else if IsDigit(current) {
        ParseNumber();
      } else if current == '#' {
        ParseComment();
      } else {
        ParseUnknown();
      }
    }

    /** `ParseIdent()` without its trailing call to `Parse()`. */
    method ParseIdent()
      requires Valid()
      modifies this`pos, this`current, this`tokens
      ensures Valid()
      ensures old(pos) >= |source| ==> pos == old(pos) && current == old(current) && tokens == old(tokens)
      ensures old(pos) < |source| ==>
                var r := IdentStep(source, old(pos), old(current));
                tokens == old(tokens) + r.emitted && pos == r.next && current == source[pos - 1]
    {
      if Eof() {
        return;
      }
      ghost var p0, q := pos, SpanEnd(source, pos, IsAlnum);
      SpanEndRun(source, pos, IsAlnum);
      var buffer := [current];
      while true
        invariant Valid() && p0 <= pos <= q
        invariant buffer == [old(current)] + source[p0..pos]
        invariant pos > p0 ==> current == source[pos - 1]
        invariant tokens == old(tokens)
        decreases |source| - pos
      {
        if Eof() {
          assert pos == q == |source|;
          break;
        }
        var read := GetCurrent();
        if !read || !IsAlnum(current) {
          assert pos == q + 1;
          break;
        }
        buffer := buffer + [current];
      }
      assert buffer == [old(current)] + source[p0..q];
      tokens := tokens + [Classify(buffer)];
    }

    /** `ParseNumber()` without its trailing call to `Parse()`. */
    method ParseNumber()
      requires Valid()
      modifies this`pos, this`current, this`tokens
      ensures Valid()
      ensures old(pos) >= |source| ==> pos == old(pos) && current == old(current) && tokens == old(tokens)
      ensures old(pos) < |source| ==>
                var r := NumberStep(source, old(pos), old(current));
                tokens == old(tokens) + r.emitted && pos == r.next && current == source[pos - 1]
    {
      if Eof() {
        return;
      }
      ghost var p0, q := pos, SpanEnd(source, pos, ValidInNumber);
      SpanEndRun(source, pos, ValidInNumber);
      var buffer := [current];
      while true
        invariant Valid() && p0 <= pos <= q
        invariant buffer == [old(current)] + source[p0..pos]
        invariant pos > p0 ==> current == source[pos - 1]
        invariant tokens == old(tokens)
        decreases |source| - pos
      {
        if Eof() {
          assert pos == q == |source|;
          break;
        }
        var read := GetCurrent();
        if !read || !ValidInNumber(current) {
          assert pos == q + 1;
          break;
        }
        buffer := buffer + [current];
      }
      assert buffer == [old(current)] + source[p0..q];
      tokens := tokens + [FromText(Number, buffer)];
    }

    /** `ParseComment()` without its trailing call to `Parse()`. */
    method ParseComment()
      requires Valid()
      modifies this`pos, this`current
      ensures Valid()
      ensures old(pos) >= |source| ==> pos == old(pos) && current == old(current)
      ensures old(pos) < |source| ==>
                var r := CommentStep(source, old(pos), old(current));
                r.emitted == [] && pos == r.next && current == source[pos - 1]
    {
      ghost var p0 := pos;
      ghost var e := if pos < |source| then SpanEnd(source, pos, NotNewline) else pos;
      if pos < |source| {
        SpanEndRun(source, pos, NotNewline);
      }
      while !Eof() && current != '\n'
        invariant Valid() && p0 <= pos
        invariant pos == p0 ==> current == old(current)
        invariant pos > p0 ==> current == source[pos - 1] && old(current) != '\n'
        invariant pos > p0 ==> pos - 1 <= e
        invariant pos > p0 ==> forall i :: p0 <= i < pos - 1 ==> source[i] != '\n'
        decreases |source| - pos
      {
        var read := GetCurrent();
      }
      if p0 < |source| && pos > p0 && pos < |source| {
        SpanEndUnique(source, p0, NotNewline, pos - 1);
      }
      var read := GetCurrent();  // skip the newline
    }

    /** `ParseUnknown()` without its trailing call to `Parse()`. */
    method ParseUnknown()
      requires Valid()
      modifies this`pos, this`current, this`tokens
      ensures Valid()
      ensures old(pos) >= |source| ==> pos == old(pos) && current == old(current) && tokens == old(tokens)
      ensures old(pos) < |source| ==>
                var r := UnknownStep(source, old(pos), old(current));
                tokens == old(tokens) + r.emitted && pos == r.next && current == source[pos - 1]
    {
      if Eof() {
        return;
      }
      tokens := tokens + [FromChar(current)];
      var read := GetCurrent();
    }
  }
}
