/**
 * The scanner (src/lexer.cpp, inc/lexer.hpp): a character-level state machine
 * over `source` with a `position` cursor and a 1-based `line` counter.
 *
 * The pure functions over `(source, Cursor)` say what each scanning step
 * produces; the methods of class `Lexer` update `position` and `line` step by
 * step as the C++ does and are proved to agree with them.
 */
module Scanning {
  import opened Wrappers
  import opened Strings
  import opened Seqs

  datatype TokenType =
    // keywords
    | KwIf | KwElse | KwWhile | KwFor | KwReturn | KwVar | KwVal
    | KwTrue | KwFalse | KwConstructor | KwStruct | KwInterface
    | KwImpl | KwFunc | KwModule | KwImport | KwOperator | KwThis
    | KwIRLib | KwPrivate | KwPublic
    // literals
    | Identifier | Number | Str
    // operators
    | Plus | Minus | Star | Slash | Assign | Equal | NotEqual
    | Less | Greater | LessEqual | GreaterEqual | ReturnType
    | And | Or | Not
    // delimiters
    | Comma | Semicolon | LParen | RParen | LBrace | RBrace | LBracket | RBracket
    | Colon | Dot | Tilde
    // sentinels: end of input, unscannable text, and the file-root marker
    | Eof | Error | Top

  datatype Token = Token(kind: TokenType, lexeme: string, line: int)

  /** The keyword table built by `initKeywords` (18 entries). */
  function InitKeywords(): map<string, TokenType> {
    map[
      "if" := KwIf, "else" := KwElse, "while" := KwWhile, "for" := KwFor,
      "return" := KwReturn, "var" := KwVar, "val" := KwVal, "true" := KwTrue,
      "false" := KwFalse, "constructor" := KwConstructor, "interface" := KwInterface,
      "impl" := KwImpl, "func" := KwFunc, "struct" := KwStruct, "module" := KwModule,
      "import" := KwImport, "operator" := KwOperator, "this" := KwThis
    ]
  }

  /** `std::isalpha` for ASCII input. */
  predicate IsAlpha(c: char) {
    ('a' <= c <= 'z') || ('A' <= c <= 'Z')
  }

  /** The characters `identifierToken` keeps consuming (`isalnum` or `_`). */
  predicate IsIdentChar(c: char) {
    IsAlpha(c) || IsDigit(c) || c == '_'
  }

  /** Number of newline characters in `s`. */
  function Newlines(s: string): nat {
    if s == [] then 0 else Newlines(s[..|s| - 1]) + (if s[|s| - 1] == '\n' then 1 else 0)
  }

  lemma NewlinesSnoc(s: string, ch: char)
    ensures Newlines(s + [ch]) == Newlines(s) + (if ch == '\n' then 1 else 0)
  {
    assert (s + [ch])[..|s|] == s;
  }

  /** Scanner state: the cursor `position` and the current `line`. */
  datatype Cursor = Cursor(pos: nat, line: int)

  /** One scanned token and the state after it. */
  datatype Scan = Scan(token: Token, next: Cursor)

  predicate At(src: string, p: nat, c: char) {
    p < |src| && src[p] == c
  }

  /** The first position at or after `p` holding `c`, or the end of `src`. */
  function FirstOf(src: string, p: nat, c: char): (e: nat)
    requires p <= |src|
    ensures p <= e <= |src|
    ensures e < |src| ==> src[e] == c
    decreases |src| - p
  {
    if p == |src| || src[p] == c then p else FirstOf(src, p + 1, c)
  }

  /** `FirstOf` passes over no occurrence of `c`. */
  lemma {:induction false} FirstOfSkips(src: string, p: nat, c: char)
    requires p <= |src|
    ensures forall i :: p <= i < FirstOf(src, p, c) ==> src[i] != c
    decreases |src| - p
  {
    if p < |src| && src[p] != c {
      FirstOfSkips(src, p + 1, c);
    }
  }

  /**
   * The inside of a block comment, from just after its opening slash-star: up to and
   * including the first star-slash, or to the end of input when there is none,
   * counting the newlines passed over.
   */
  function BlockCommentEnd(src: string, c: Cursor): (r: Cursor)
    requires c.pos <= |src|
    ensures c.pos <= r.pos <= |src|
    ensures r.line >= c.line
    decreases |src| - c.pos
  {
    if c.pos == |src| then c
    else if src[c.pos] == '*' && At(src, c.pos + 1, '/') then Cursor(c.pos + 2, c.line)
    else BlockCommentEnd(src, Cursor(c.pos + 1, if src[c.pos] == '\n' then c.line + 1 else c.line))
  }

  /**
   * A block comment ends just after the first star-slash after `c.pos`, or,
   * when there is none, swallows the rest of the input.
   */
  lemma {:induction false} BlockCommentCloses(src: string, c: Cursor)
    requires c.pos <= |src|
    ensures var r := BlockCommentEnd(src, c);
            || (c.pos + 2 <= r.pos && CloseAt(src, r.pos - 2)
                && forall i :: c.pos <= i < r.pos - 2 ==> !CloseAt(src, i))
            || (r.pos == |src| && forall i :: c.pos <= i < |src| ==> !CloseAt(src, i))
    decreases |src| - c.pos
  {
    if c.pos < |src| && !(src[c.pos] == '*' && At(src, c.pos + 1, '/')) {
      BlockCommentCloses(src, Cursor(c.pos + 1, if src[c.pos] == '\n' then c.line + 1 else c.line));
    }
  }

  /** The step `BlockCommentEnd` takes from `c`. */
  lemma BlockCommentCases(src: string, c: Cursor)
    requires c.pos < |src|
    ensures src[c.pos] == '*' && At(src, c.pos + 1, '/') ==> BlockCommentEnd(src, c) == Cursor(c.pos + 2, c.line)
    ensures !(src[c.pos] == '*' && At(src, c.pos + 1, '/')) ==>
              BlockCommentEnd(src, c) == BlockCommentEnd(src, Cursor(c.pos + 1, if src[c.pos] == '\n' then c.line + 1 else c.line))
  {
  }

  /** A star-slash, the end of a block comment, starts at `i`. */
  predicate CloseAt(src: string, i: int) {
    0 <= i && i + 1 < |src| && src[i] == '*' && src[i + 1] == '/'
  }

  /** A character or character pair that `skipWhitespaceAndComments` passes over. */
  predicate TriviaAt(src: string, p: nat) {
    p < |src| &&
    (src[p] in {' ', '\t', '\r', '\n'} || (src[p] == '/' && (At(src, p + 1, '/') || At(src, p + 1, '*'))))
  }

  /** `skipWhitespaceAndComments`: blanks, newlines, line comments and block comments. */
  function SkipTrivia(src: string, c: Cursor): (r: Cursor)
    requires c.pos <= |src|
    ensures c.pos <= r.pos <= |src|
    ensures r.line >= c.line
    ensures !TriviaAt(src, r.pos)
    ensures !TriviaAt(src, c.pos) ==> r == c
    decreases |src| - c.pos
  {
    if c.pos == |src| then c
    else
      var ch := src[c.pos];
      if ch == ' ' || ch == '\t' || ch == '\r' then SkipTrivia(src, Cursor(c.pos + 1, c.line))
      else if ch == '\n' then SkipTrivia(src, Cursor(c.pos + 1, c.line + 1))
      else if ch == '/' && At(src, c.pos + 1, '/') then
        SkipTrivia(src, Cursor(FirstOf(src, c.pos, '\n'), c.line))
      else if ch == '/' && At(src, c.pos + 1, '*') then
        SkipTrivia(src, BlockCommentEnd(src, Cursor(c.pos + 2, c.line)))
      else c
  }

  /** The step `SkipTrivia` takes from `c`, by the text at the cursor. */
  lemma SkipTriviaCases(src: string, c: Cursor)
    requires c.pos < |src|
    ensures src[c.pos] in {' ', '\t', '\r'} ==> SkipTrivia(src, c) == SkipTrivia(src, Cursor(c.pos + 1, c.line))
    ensures src[c.pos] == '\n' ==> SkipTrivia(src, c) == SkipTrivia(src, Cursor(c.pos + 1, c.line + 1))
    ensures src[c.pos] == '/' && At(src, c.pos + 1, '/') ==>
              SkipTrivia(src, c) == SkipTrivia(src, Cursor(FirstOf(src, c.pos, '\n'), c.line))
    ensures src[c.pos] == '/' && At(src, c.pos + 1, '*') ==>
              SkipTrivia(src, c) == SkipTrivia(src, BlockCommentEnd(src, Cursor(c.pos + 2, c.line)))
  {
  }

  /** `stringToken`, from just after the opening quote. */
  function StringLit(src: string, c: Cursor): (r: Scan)
    requires c.pos <= |src|
    ensures c.pos <= r.next.pos <= |src| && r.next.line >= c.line
    ensures r.token.line == r.next.line
    ensures r.token.kind == Str || r.token.kind == Error
  {
    var e := FirstOf(src, c.pos, '"');
    var ln := c.line + Newlines(src[c.pos..e]);
    if e == |src| then Scan(Token(Error, "Unterminated string", ln), Cursor(e, ln))
    else Scan(Token(Str, src[c.pos..e], ln), Cursor(e + 1, ln))
  }

  /**
   * A string literal is the text up to the first closing quote, which is
   * consumed; without a closing quote the rest of the input is consumed and
   * the token is the `Error` "Unterminated string".
   */
  lemma StringLitShape(src: string, c: Cursor)
    requires c.pos <= |src|
    ensures var r := StringLit(src, c);
            && (r.token.kind == Str ==>
                  && c.pos < r.next.pos && src[r.next.pos - 1] == '"'
                  && r.token.lexeme == src[c.pos..r.next.pos - 1] && '"' !in r.token.lexeme)
            && (r.token.kind == Error ==>
                  && r.token == Token(Error, "Unterminated string", r.next.line)
                  && r.next.pos == |src| && '"' !in src[c.pos..])
  {
    FirstOfSkips(src, c.pos, '"');
  }

  /** The end of the maximal run of identifier characters starting at `p`. */
  function IdentEnd(src: string, p: nat): (e: nat)
    requires p <= |src|
    ensures p <= e <= |src|
    ensures e < |src| ==> !IsIdentChar(src[e])
    decreases |src| - p
  {
    if p < |src| && IsIdentChar(src[p]) then IdentEnd(src, p + 1) else p
  }

  /** Everything `IdentEnd` passes over is an identifier character. */
  lemma {:induction false} IdentEndRun(src: string, p: nat)
    requires p <= |src|
    ensures forall i :: p <= i < IdentEnd(src, p) ==> IsIdentChar(src[i])
    decreases |src| - p
  {
    if p < |src| && IsIdentChar(src[p]) {
      IdentEndRun(src, p + 1);
    }
  }

  /** The kind an identifier lexeme gets: its keyword, or `Identifier`. */
  function KeywordOr(text: string): TokenType {
    if text in InitKeywords() then InitKeywords()[text] else Identifier
  }

  /** `identifierToken`, from the first character of the identifier. */
  function IdentifierLit(src: string, c: Cursor): (r: Scan)
    requires c.pos <= |src|
    ensures c.pos <= r.next.pos <= |src| && r.next.line == c.line && r.token.line == c.line
    ensures r.token.lexeme == src[c.pos..r.next.pos]
    ensures forall i :: c.pos <= i < r.next.pos ==> IsIdentChar(src[i])
    ensures r.next.pos < |src| ==> !IsIdentChar(src[r.next.pos])
    ensures r.token.kind == Identifier <==> r.token.lexeme !in InitKeywords()
  {
    IdentEndRun(src, c.pos);
    var e := IdentEnd(src, c.pos);
    var text := src[c.pos..e];
    Scan(Token(KeywordOr(text), text, c.line), Cursor(e, c.line))
  }

  /**
   * The end of the longest run of digits starting at `p` that contains at
   * most one `.` in all (`seenDot` says whether one was already taken).
   */
  function NumberEnd(src: string, p: nat, seenDot: bool): (e: nat)
    requires p <= |src|
    ensures p <= e <= |src|
    ensures e < |src| ==> !IsDigit(src[e])
    decreases |src| - p
  {
    if p < |src| && (IsDigit(src[p]) || (!seenDot && src[p] == '.')) then
      NumberEnd(src, p + 1, seenDot || src[p] == '.')
    else p
  }

  /**
   * `NumberEnd` passes over digits and `.`s only, and over at most one `.`
   * in all: none when `seenDot`.
   */
  lemma {:induction false} NumberEndRun(src: string, p: nat, seenDot: bool)
    requires p <= |src|
    ensures var e := NumberEnd(src, p, seenDot);
            && (forall i :: p <= i < e ==> IsDigit(src[i]) || src[i] == '.')
            && (seenDot ==> forall i :: p <= i < e ==> src[i] != '.')
            && (forall i, j :: p <= i < j < e && src[i] == '.' ==> src[j] != '.')
    decreases |src| - p
  {
    if p < |src| && (IsDigit(src[p]) || (!seenDot && src[p] == '.')) {
      NumberEndRun(src, p + 1, seenDot || src[p] == '.');
    }
  }

  /** `numberToken`, from the first digit. */
  function NumberLit(src: string, c: Cursor): (r: Scan)
    requires c.pos <= |src|
    ensures c.pos <= r.next.pos <= |src| && r.next.line == c.line
    ensures r.token.kind == Number && r.token.line == c.line
    ensures r.token.lexeme == src[c.pos..r.next.pos]
    ensures forall i :: c.pos <= i < r.next.pos ==> IsDigit(src[i]) || src[i] == '.'
    ensures r.next.pos < |src| ==> !IsDigit(src[r.next.pos])
  {
    NumberEndRun(src, c.pos, false);
    var e := NumberEnd(src, c.pos, false);
    Scan(Token(Number, src[c.pos..e], c.line), Cursor(e, c.line))
  }

  /** The two-character operators `scanToken` recognises, and their kinds. */
  function TwoCharKind(a: char, b: char): Option<TokenType> {
    if a == '-' && b == '>' then Some(ReturnType)
    else if a == '=' && b == '=' then Some(Equal)
    else if a == '!' && b == '=' then Some(NotEqual)
    else if a == '<' && b == '=' then Some(LessEqual)
    else if a == '>' && b == '=' then Some(GreaterEqual)
    else if a == '&' && b == '&' then Some(And)
    else if a == '|' && b == '|' then Some(Or)
    else None
  }

  /**
   * The kind of a one-character token; `Error` for a lone `&` or `|` and for
   * every character `scanToken` does not know.
   */
  function OneCharKind(c: char): TokenType {
    match c
    case '(' => LParen
    case ')' => RParen
    case '{' => LBrace
    case '}' => RBrace
    case '[' => LBracket
    case ']' => RBracket
    case ',' => Comma
    case ';' => Semicolon
    case '+' => Plus
    case '-' => Minus
    case '*' => Star
    case '/' => Slash
    case '=' => Assign
    case '!' => Not
    case '<' => Less
    case '>' => Greater
    case ':' => Colon
    case '.' => Dot
    case '~' => Tilde
    case _ => Error
  }

  /** An operator or delimiter: its two-character form when one applies, else one character. */
  function Operator(src: string, c: Cursor): (r: Scan)
    requires c.pos < |src|
    ensures r.token.line == c.line == r.next.line
    ensures r.next.pos == c.pos + 1 || r.next.pos == c.pos + 2
    ensures r.next.pos <= |src|
    ensures r.token.lexeme == src[c.pos..r.next.pos]
  {
    var ch := src[c.pos];
    if c.pos + 1 < |src| && TwoCharKind(ch, src[c.pos + 1]).Some? then
      Scan(Token(TwoCharKind(ch, src[c.pos + 1]).value, [ch, src[c.pos + 1]], c.line), Cursor(c.pos + 2, c.line))
    else
      Scan(Token(OneCharKind(ch), [ch], c.line), Cursor(c.pos + 1, c.line))
  }

  /**
   * `scanToken`: the token that starts at the cursor. At the end of input
   * `advance` returns `'\0'` without moving, which becomes an `Error` token.
   * (The switch's cases are all punctuation, so testing for a quote, a letter
   * and a digit first selects the same branch.)
   */
  function LexOne(src: string, c: Cursor): (r: Scan)
    requires c.pos <= |src|
    ensures c.pos <= r.next.pos <= |src|
    ensures c.pos < |src| ==> c.pos < r.next.pos
    ensures c.line <= r.token.line <= r.next.line
    ensures r.token.kind != Eof
  {
    if c.pos == |src| then Scan(Token(Error, "\0", c.line), c)
    else
      var ch := src[c.pos];
      if ch == '"' then StringLit(src, Cursor(c.pos + 1, c.line))
      else if IsAlpha(ch) || ch == '_' then IdentifierLit(src, c)
      else if IsDigit(ch) then NumberLit(src, c)
      else Operator(src, c)
  }

  /** Which scanner `LexOne` hands over to, by the character at the cursor. */
  lemma LexOneCases(src: string, c: Cursor)
    requires c.pos <= |src|
    ensures c.pos == |src| ==> LexOne(src, c) == Scan(Token(Error, ['\0'], c.line), c)
    ensures c.pos < |src| && src[c.pos] == '"' ==> LexOne(src, c) == StringLit(src, Cursor(c.pos + 1, c.line))
    ensures c.pos < |src| && src[c.pos] != '"' && (IsAlpha(src[c.pos]) || src[c.pos] == '_') ==>
              LexOne(src, c) == IdentifierLit(src, c)
    ensures c.pos < |src| && src[c.pos] != '"' && !IsAlpha(src[c.pos]) && src[c.pos] != '_' && IsDigit(src[c.pos]) ==>
              LexOne(src, c) == NumberLit(src, c)
    ensures c.pos < |src| && src[c.pos] != '"' && !IsAlpha(src[c.pos]) && src[c.pos] != '_' && !IsDigit(src[c.pos]) ==>
              LexOne(src, c) == Operator(src, c)
  {
    if c.pos < |src| {
      var ch := src[c.pos];
      if ch == '"' {
        assert LexOne(src, c) == StringLit(src, Cursor(c.pos + 1, c.line));
      } else if IsAlpha(ch) || ch == '_' {
        assert LexOne(src, c) == IdentifierLit(src, c);
      } else if IsDigit(ch) {
        assert LexOne(src, c) == NumberLit(src, c);
      } else {
        assert LexOne(src, c) == Operator(src, c);
      }
    }
  }

  /** `scanTokens` from cursor `c`: the tokens up to the end, then `Eof`. */
  function Lex(src: string, c: Cursor): (ts: seq<Token>)
    requires c.pos <= |src|
    ensures |ts| >= 1 && ts[|ts| - 1].kind == Eof && ts[|ts| - 1].lexeme == ""
    decreases |src| - c.pos, 1
  {
    if c.pos == |src| then [Token(Eof, "", c.line)] else LexFrom(src, c)
  }

  /**
   * `scanTokens` from a cursor before the end: skip blanks and comments, then
   * either stop with `Eof` or take one `scanToken` step and carry on.
   */
  function LexFrom(src: string, c: Cursor): (ts: seq<Token>)
    requires c.pos < |src|
    ensures |ts| >= 1 && ts[|ts| - 1].kind == Eof && ts[|ts| - 1].lexeme == ""
    decreases |src| - c.pos, 0
  {
    var c1 := SkipTrivia(src, c);
    if c1.pos == |src| then [Token(Eof, "", c1.line)]
    else
      var s := LexOne(src, c1);
      [s.token] + Lex(src, s.next)
  }

  /** The whole token sequence of a source text, as a freshly built `Lexer` returns it. */
  function Tokenize(src: string): (ts: seq<Token>)
    ensures |ts| >= 1 && ts[|ts| - 1].kind == Eof && ts[|ts| - 1].lexeme == ""
  {
    Lex(src, Cursor(0, 1))
  }

  lemma {:induction false} SkipTriviaFixpoint(src: string, c: Cursor)
    requires c.pos <= |src|
    ensures SkipTrivia(src, SkipTrivia(src, c)) == SkipTrivia(src, c)
    decreases |src| - c.pos
  {
    if c.pos < |src| {
      var ch := src[c.pos];
      if ch == ' ' || ch == '\t' || ch == '\r' {
        SkipTriviaFixpoint(src, Cursor(c.pos + 1, c.line));
      } else if ch == '\n' {
        SkipTriviaFixpoint(src, Cursor(c.pos + 1, c.line + 1));
      } else if ch == '/' && At(src, c.pos + 1, '/') {
        SkipTriviaFixpoint(src, Cursor(FirstOf(src, c.pos, '\n'), c.line));
      } else if ch == '/' && At(src, c.pos + 1, '*') {
        SkipTriviaFixpoint(src, BlockCommentEnd(src, Cursor(c.pos + 2, c.line)));
      }
    }
  }

  /** Skipping trivia first does not change what `Lex` produces. */
  lemma LexAfterTrivia(src: string, c: Cursor)
    requires c.pos <= |src|
    ensures Lex(src, c) == Lex(src, SkipTrivia(src, c))
  {
    var c1 := SkipTrivia(src, c);
    if c.pos < |src| {
      assert Lex(src, c) == LexFrom(src, c);
      if c1.pos < |src| {
        SkipTriviaFixpoint(src, c);
        assert Lex(src, c1) == LexFrom(src, c1);
      }
    }
  }

  /** Where no trivia starts, `Lex` emits the token `LexOne` scans there, then carries on after it. */
  lemma LexAtToken(src: string, c: Cursor)
    requires c.pos < |src| && !TriviaAt(src, c.pos)
    ensures Lex(src, c) == [LexOne(src, c).token] + Lex(src, LexOne(src, c).next)
  {
    assert Lex(src, c) == LexFrom(src, c);
  }

  /**
   * One round of the `scanTokens` loop: skipping trivia from `before` reaches
   * `mid`, where `scanToken` yields `t` and stops at `after`; the remaining
   * tokens from `before` are `t` followed by those from `after`.
   */
  lemma LexRound(src: string, before: Cursor, mid: Cursor, t: Token, after: Cursor)
    requires before.pos <= |src| && mid == SkipTrivia(src, before) && mid.pos < |src|
    requires Scan(t, after) == LexOne(src, mid)
    ensures after.pos <= |src| && Lex(src, before) == [t] + Lex(src, after)
  {
    LexAfterTrivia(src, before);
    LexAtToken(src, mid);
  }

  class Lexer {
    const source: string
    const keywords: map<string, TokenType>
    var position: nat
    var line: int

    ghost predicate Valid()
      reads this
    {
      position <= |source| && line >= 1 && keywords == InitKeywords()
    }

    /** The scanner state as a value. */
    function Cur(): Cursor
      reads this
    {
      Cursor(position, line)
    }

    constructor(source: string)
      ensures Valid()
      ensures this.source == source && position == 0 && line == 1
    {
      this.source := source;
      this.keywords := InitKeywords();
      position := 0;
      line := 1;
    }

    function IsAtEnd(): (b: bool)
      reads this
      ensures b <==> position >= |source|
      ensures b && position == |source| ==> Lex(source, Cur()) == [Token(Eof, "", line)]
    {
      position >= |source|
    }

    /** The current character, or `'\0'` at the end. */
    function Peek(): (c: char)
      reads this
      ensures position < |source| ==> c == source[position]
      ensures position >= |source| ==> c == '\0'
    {
      if IsAtEnd() then '\0' else source[position]
    }

    /** The character after the current one, or `'\0'` past the end. */
    function PeekNext(): (c: char)
      reads this
      ensures position + 1 < |source| ==> c == source[position + 1]
      ensures position + 1 >= |source| ==> c == '\0'
    {
      if position + 1 >= |source| then '\0' else source[position + 1]
    }

    method Advance() returns (c: char)
      requires Valid()
      modifies this`position
      ensures Valid()
      ensures old(position) < |source| ==> c == source[old(position)] && position == old(position) + 1
      ensures old(position) >= |source| ==> c == '\0' && position == old(position)
    {
      if IsAtEnd() {
        return '\0';
      }
      c := source[position];
      position := position + 1;
    }

    /** The inner loop of `skipWhitespaceAndComments` for a `//` comment: up to the newline. */
    method SkipLineComment()
      requires Valid()
      modifies this`position
      ensures Valid()
      ensures position == FirstOf(source, old(position), '\n')
    {
      ghost var start := position;
      while Peek() != '\n' && !IsAtEnd()
        invariant Valid() && start <= position
        invariant FirstOf(source, position, '\n') == FirstOf(source, start, '\n')
        decreases |source| - position
      {
        var _ := Advance();
      }
    }

    /** The inner loop of `skipWhitespaceAndComments` for a block comment, after its opening delimiter. */
    method SkipBlockComment()
      requires Valid()
      modifies this`position, this`line
      ensures Valid()
      ensures Cur() == BlockCommentEnd(source, old(Cur()))
    {
      ghost var goal := BlockCommentEnd(source, Cur());
      while !IsAtEnd()
        invariant Valid()
        invariant BlockCommentEnd(source, Cur()) == goal
        decreases |source| - position
      {
        BlockCommentCases(source, Cur());
        if Peek() == '*' && PeekNext() == '/' {
          var _ := Advance();
          var _ := Advance();
          return;
        }
        var ch := Advance();
        if ch == '\n' {
          line := line + 1;
        }
      }
      assert BlockCommentEnd(source, Cur()) == Cur();
    }

    method SkipWhitespaceAndComments()
      requires Valid()
      modifies this`position, this`line
      ensures Valid()
      ensures Cur() == SkipTrivia(source, old(Cur()))
    {
      ghost var goal := SkipTrivia(source, Cur());
      while !IsAtEnd()
        invariant Valid()
        invariant SkipTrivia(source, Cur()) == goal
        decreases |source| - position
      {
        var skipped := SkipOneTrivia();
        if !skipped {
          break;
        }
      }
      assert SkipTrivia(source, Cur()) == Cur();
    }

    /**
     * One pass of the `skipWhitespaceAndComments` loop: skip a blank, a
     * newline or a comment, or report `false` at any other character, where
     * the loop breaks off.
     */
    method SkipOneTrivia() returns (skipped: bool)
      requires Valid() && position < |source|
      modifies this`position, this`line
      ensures Valid()
      ensures skipped ==> old(position) < position && SkipTrivia(source, Cur()) == SkipTrivia(source, old(Cur()))
      ensures !skipped ==> Cur() == old(Cur()) && !TriviaAt(source, position)
    {
      ghost var c0 := Cur();
      SkipTriviaCases(source, c0);
      var c := Peek();
      skipped := true;
      if c == ' ' || c == '\t' || c == '\r' {
        var _ := Advance();
        assert Cur() == Cursor(c0.pos + 1, c0.line);
      } else if c == '\n' {
        line := line + 1;
        var _ := Advance();
        assert Cur() == Cursor(c0.pos + 1, c0.line + 1);
      } else if c == '/' {
        if PeekNext() == '/' {
          SkipLineComment();
          assert Cur() == Cursor(FirstOf(source, c0.pos, '\n'), c0.line);
        } else if PeekNext() == '*' {
          var _ := Advance();
          var _ := Advance();
          SkipBlockComment();
        } else {
          skipped := false;
        }
      } else {
        skipped := false;
      }
    }

    method StringToken() returns (t: Token)
      requires Valid()
      modifies this`position, this`line
      ensures Valid()
      ensures Scan(t, Cur()) == StringLit(source, old(Cur()))
    {
      ghost var start, startLine := position, line;
      ghost var e := FirstOf(source, start, '"');
      var value: string := "";
      while Peek() != '"' && !IsAtEnd()
        invariant Valid() && start <= position <= e
        invariant value == source[start..position]
        invariant line == startLine + Newlines(value)
        invariant FirstOf(source, position, '"') == e
        decreases |source| - position
      {
        value := StringChar(start, startLine, value);
      }
      assert position == e && value == source[start..e];
      assert StringLit(source, Cursor(start, startLine)) ==
             if e == |source| then Scan(Token(Error, "Unterminated string", line), Cursor(e, line))
             else Scan(Token(Str, value, line), Cursor(e + 1, line));
      if IsAtEnd() {
        return Token(Error, "Unterminated string", line);
      }
      var _ := Advance();
      return Token(Str, value, line);
    }

    /** One pass of `stringToken`'s loop: take the character inside the literal, counting a newline. */
    method StringChar(ghost start: nat, ghost startLine: int, value: string) returns (value': string)
      requires Valid() && start <= position < |source|
      requires value == source[start..position] && line == startLine + Newlines(value)
      modifies this`position, this`line
      ensures Valid() && position == old(position) + 1
      ensures value' == source[start..position] && line == startLine + Newlines(value')
    {
      ghost var p := position;
      SliceSnoc(source, start, p);
      if Peek() == '\n' {
        line := line + 1;
      }
      var ch := Advance();
      NewlinesSnoc(value, ch);
      value' := value + [ch];
    }

    method IdentifierToken() returns (t: Token)
      requires Valid()
      modifies this`position
      ensures Valid()
      ensures Scan(t, Cur()) == IdentifierLit(source, old(Cur()))
    {
      ghost var start := position;
      var text: string := "";
      while IsIdentChar(Peek())
        invariant Valid() && start <= position
        invariant text == source[start..position]
        invariant IdentEnd(source, position) == IdentEnd(source, start)
        decreases |source| - position
      {
        var ch := Advance();
        text := text + [ch];
      }
      if text in keywords {
        return Token(keywords[text], text, line);
      }
      return Token(Identifier, text, line);
    }

    method NumberToken() returns (t: Token)
      requires Valid()
      modifies this`position
      ensures Valid()
      ensures Scan(t, Cur()) == NumberLit(source, old(Cur()))
    {
      ghost var start := position;
      var text: string := "";
      var hasDot := false;
      var isFloat := false;
      // The C++ body also tests `if (hasDot) break;` on a '.', which the loop
      // condition already rules out; it is left out here.
      while IsDigit(Peek()) || (!hasDot && Peek() == '.')
        invariant Valid() && start <= position
        invariant text == source[start..position]
        invariant NumberEnd(source, position, hasDot) == NumberEnd(source, start, false)
        decreases |source| - position
      {
        if Peek() == '.' {
          hasDot := true;
          isFloat := true;
        }
        var ch := Advance();
        text := text + [ch];
      }
      if isFloat {
        return Token(Number, text, line);
      }
      return Token(Number, text, line);
    }

    /**
     * `scanToken`. The switch's cases are all punctuation, so the quote, the
     * identifier and the number branches are tested first here, and the
     * punctuation cases with the final `Error` are `PunctuationToken`.
     */
    method ScanToken() returns (t: Token)
      requires Valid()
      modifies this`position, this`line
      ensures Valid()
      ensures Scan(t, Cur()) == LexOne(source, old(Cur()))
    {
      ghost var start := Cur();
      var c := Advance();
      LexOneCases(source, start);
      if c == '"' {
        t := StringToken();
      } else if IsAlpha(c) || c == '_' {
        position := position - 1;
        t := IdentifierToken();
      } else if IsDigit(c) {
        position := position - 1;
        t := NumberToken();
      } else {
        t := PunctuationToken(c, start);
      }
    }

    /**
     * The punctuation cases of `scanToken`'s switch, entered just after
     * `advance()` read `c` at `start` (at the end of input `advance()` gives
     * `'\0'` and does not move); any other character is an `Error`.
     */
    method PunctuationToken(c: char, ghost start: Cursor) returns (t: Token)
      requires Valid() && line == start.line
      requires start.pos < |source| ==> position == start.pos + 1 && c == source[start.pos]
      requires start.pos >= |source| ==> position == start.pos && c == '\0'
      modifies this`position
      ensures Valid()
      ensures start.pos < |source| ==> Scan(t, Cur()) == Operator(source, start)
      ensures start.pos >= |source| ==> t == Token(Error, [c], line) && position == start.pos
    {
      match c
      case '(' => return Token(LParen, "(", line);
      case ')' => return Token(RParen, ")", line);
      case '{' => return Token(LBrace, "{", line);
      case '}' => return Token(RBrace, "}", line);
      case '[' => return Token(LBracket, "[", line);
      case ']' => return Token(RBracket, "]", line);
      case ',' => return Token(Comma, ",", line);
      case ';' => return Token(Semicolon, ";", line);
      case '+' => return Token(Plus, "+", line);
      case '-' =>
        if Peek() == '>' {
          var _ := Advance();
          return Token(ReturnType, "->", line);
        }
        return Token(Minus, "-", line);
      case '*' => return Token(Star, "*", line);
      case '/' => return Token(Slash, "/", line);
      case '=' =>
        if Peek() == '=' {
          var _ := Advance();
          return Token(Equal, "==", line);
        }
        return Token(Assign, "=", line);
      case '!' =>
        if Peek() == '=' {
          var _ := Advance();
          return Token(NotEqual, "!=", line);
        }
        return Token(Not, "!", line);
      case '<' =>
        if Peek() == '=' {
          var _ := Advance();
          return Token(LessEqual, "<=", line);
        }
        return Token(Less, "<", line);
      case '>' =>
        if Peek() == '=' {
          var _ := Advance();
          return Token(GreaterEqual, ">=", line);
        }
        return Token(Greater, ">", line);
      case '&' =>
        if Peek() == '&' {
          var _ := Advance();
          return Token(And, "&&", line);
        }
        return Token(Error, [c], line);
      case '|' =>
        if Peek() == '|' {
          var _ := Advance();
          return Token(Or, "||", line);
        }
        return Token(Error, [c], line);
      case ':' => return Token(Colon, ":", line);
      case '.' => return Token(Dot, ".", line);
      case '~' => return Token(Tilde, "~", line);
      case _ => return Token(Error, [c], line);
    }

    /**
     * One round of the `scanTokens` loop: skip blanks and comments, then scan
     * a token unless that used up the input.
     */
    method ScanRound() returns (t: Option<Token>)
      requires Valid()
      modifies this`position, this`line
      ensures Valid()
      ensures t.None? ==> position == |source| && Lex(source, old(Cur())) == Lex(source, Cur())
      ensures t.Some? ==> old(position) < position && Lex(source, old(Cur())) == [t.value] + Lex(source, Cur())
    {
      ghost var before := Cur();
      SkipWhitespaceAndComments();
      if IsAtEnd() {
        LexAfterTrivia(source, before);
        return None;
      }
      ghost var mid := Cur();
      var token := ScanToken();
      LexRound(source, before, mid, token, Cur());
      return Some(token);
    }

    method ScanTokens() returns (tokens: seq<Token>)
      requires Valid()
      modifies this`position, this`line
      ensures Valid() && position == |source|
      ensures tokens == Lex(source, old(Cur()))
    {
      ghost var all := Lex(source, Cur());
      tokens := [];
      AppendEmpty(all);
      while !IsAtEnd()
        invariant Valid()
        invariant tokens + Lex(source, Cur()) == all
        decreases |source| - position
      {
        var t := ScanRound();
        if t.None? {
          break;
        }
        AppendAssoc(tokens, [t.value], Lex(source, Cur()));
        tokens := tokens + [t.value];
      }
      assert Lex(source, Cur()) == [Token(Eof, "", line)];
      tokens := tokens + [Token(Eof, "", line)];
    }
  }
}
