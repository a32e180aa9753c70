/**
 * The token value type `Token`: a type tag, the raw text and a character.
 * Tokens are immutable once built; the numeric payload that the number
 * constructor computes with `stod` is not part of this model.
 */
module Tokens {

  datatype Kind = Def | Extern | Ident | Number | Unknown

  /**
   * `character` is meaningful for `Unknown` tokens only; the C++ leaves it
   * uninitialised for the other kinds, and the model fixes it to `NoChar`.
   */
  datatype Token = Token(kind: Kind, content: string, character: char) {
    predicate IsDef() { kind == Def }
    predicate IsExtern() { kind == Extern }
    predicate IsIdent() { kind == Ident }
    predicate IsNumber() { kind == Number }
    predicate IsUnknown() { kind == Unknown }
    function GetType(): Kind { kind }
    function GetContent(): string { content }
    function GetChar(): char { character }
  }

  /** Stand-in for the uninitialised character of a non-`Unknown` token. */
  const NoChar: char := '\0'

  /** The first character of the char constructor's `content{1, ch}`, which is list-initialised. */
  const ListInitPrefix: char := '\U{1}'

  /** `Token(Type, string)`: an `Unknown` token takes its character from the text's first position. */
  function FromText(kind: Kind, text: string): (t: Token)
    ensures t.GetType() == kind && t.GetContent() == text
    ensures t.IsUnknown() ==> t.GetChar() == if |text| > 0 then text[0] else '\0'
  {
    // std::string::operator[] at index size() yields the terminating '\0'
    Token(kind, text, if kind == Unknown then (if |text| > 0 then text[0] else '\0') else NoChar)
  }

  /** `Token(char)`: an `Unknown` token whose content is the two characters `'\x01'` and `ch`. */
  function FromChar(ch: char): (t: Token)
    ensures t.IsUnknown() && t.GetChar() == ch
    ensures t.GetContent() == [ListInitPrefix, ch]
  {
    Token(Unknown, [ListInitPrefix, ch], ch)
  }

  /** `operator==`: same type, then characters for `Unknown`, contents otherwise. */
  predicate Equal(a: Token, b: Token): (r: bool)
    ensures a == b ==> r
    ensures r ==> a.GetType() == b.GetType()
  {
    a.kind == b.kind &&
    if a.kind == Unknown then a.character == b.character else a.content == b.content
  }

  /** `operator!=`. */
  predicate NotEqual(a: Token, b: Token): (r: bool)
    ensures r ==> a != b
  {
    !Equal(a, b)
  }

  /** Test of a token against `Token{ch}`, the form every comparison in the parser takes. */
  predicate IsChar(t: Token, ch: char): (r: bool)
    ensures r <==> t.IsUnknown() && t.GetChar() == ch
  {
    Equal(t, FromChar(ch))
  }

  /** `GetString`: the printable form of a token. */
  function GetString(t: Token): (s: string)
    ensures |s| > 0 && s[0] == Initial(t.kind)
  {
    match t.kind
    case Def => "def"
    case Extern => "extern"
    case Ident => "id " + t.content
    case Number => "number " + t.content
    case Unknown => "unknown " + [t.character]
  }

  /** The first character of `GetString` for each kind; no two kinds share one. */
  function Initial(k: Kind): char {
    match k
    case Def => 'd'
    case Extern => 'e'
    case Ident => 'i'
    case Number => 'n'
    case Unknown => 'u'
  }

  /** The shape of the tokens that the lexer builds (see `Lexing.Classify` and `FromChar`). */
  predicate Canonical(t: Token) {
    match t.kind
    case Def => t.content == "def" && t.character == NoChar
    case Extern => t.content == "extern" && t.character == NoChar
    case Ident => t.character == NoChar
    case Number => t.character == NoChar
    case Unknown => t.content == [ListInitPrefix, t.character]
  }

  /** Exactly one of the `Is*` predicates holds, the one named by `GetType()`. */
  lemma ExactlyOneKind(t: Token)
    ensures t.IsDef() <==> t.GetType() == Def
    ensures t.IsExtern() <==> t.GetType() == Extern
    ensures t.IsIdent() <==> t.GetType() == Ident
    ensures t.IsNumber() <==> t.GetType() == Number
    ensures t.IsUnknown() <==> t.GetType() == Unknown
    ensures (if t.IsDef() then 1 else 0) + (if t.IsExtern() then 1 else 0) + (if t.IsIdent() then 1 else 0)
            + (if t.IsNumber() then 1 else 0) + (if t.IsUnknown() then 1 else 0) == 1
  {
  }

  /** `operator==` is an equivalence relation and `operator!=` is its negation. */
  lemma EqualIsEquivalence(a: Token, b: Token, c: Token)
    ensures Equal(a, a)
    ensures Equal(a, b) ==> Equal(b, a)
    ensures Equal(a, b) && Equal(b, c) ==> Equal(a, c)
    ensures NotEqual(a, b) <==> !Equal(a, b)
  {
  }

  /** Tokens of different types are never equal; two `Unknown` tokens are equal iff their characters are. */
  lemma EqualByKind(a: Token, b: Token)
    ensures a.kind != b.kind ==> !Equal(a, b)
    ensures a.IsUnknown() && b.IsUnknown() ==> (Equal(a, b) <==> a.GetChar() == b.GetChar())
    ensures a.kind == b.kind && !a.IsUnknown() ==> (Equal(a, b) <==> a.GetContent() == b.GetContent())
  {
  }

  /**
   * The two ways to build an `Unknown` token agree under `operator==` although
   * their contents differ: `Token(ch)` holds `"\x01" + ch`, `Token(Unknown, s)` holds `s`.
   */
  lemma CharConstructorAgreesWithText(ch: char, s: string)
    requires |s| > 0 && s[0] == ch
    ensures Equal(FromChar(ch), FromText(Unknown, s))
    ensures GetString(FromChar(ch)) == GetString(FromText(Unknown, s))
    ensures FromChar(ch).GetContent() != FromText(Unknown, [ch]).GetContent()
  {
  }

  /** Number tokens compare by their raw text, not by numeric value. */
  lemma NumbersCompareByText()
    ensures !Equal(FromText(Number, "1.0"), FromText(Number, "1"))
    ensures Equal(FromText(Number, "1.0"), FromText(Number, "1.0"))
  {
  }

  /** On the tokens the lexer builds, `operator==` coincides with structural equality. */
  lemma EqualOnCanonical(a: Token, b: Token)
    requires Canonical(a) && Canonical(b)
    ensures Equal(a, b) <==> a == b
  {
  }

  /**
   * `GetString` tells tokens apart exactly as `operator==` does, provided that
   * `def` and `extern` tokens carry their keyword as content.
   */
  lemma GetStringSeparates(a: Token, b: Token)
    requires Canonical(a) && Canonical(b)
    ensures GetString(a) == GetString(b) <==> Equal(a, b)
  {
    if GetString(a) == GetString(b) {
      assert Initial(a.kind) == Initial(b.kind);
      assert a.kind == b.kind;
      var s := GetString(a);
      match a.kind
      case Def =>
      case Extern =>
      case Ident =>
        assert a.content == s[3..] == b.content;
      case Number =>
        assert a.content == s[7..] == b.content;
      case Unknown =>
        assert a.character == s[8] == b.character;
    }
  }
}
