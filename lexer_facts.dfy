/**
 * Properties of the token sequence the scanner produces: the `Eof` sentinel,
 * line stamps, the shape of each lexeme and the kinds that can occur.
 */
module ScanningFacts {
  import opened Wrappers
  import opened Strings
  import opened Scanning

  /** The sequence ends in its only `Eof`, whose lexeme is empty. */
  predicate EndsWithSoleEof(ts: seq<Token>) {
    && |ts| >= 1
    && ts[|ts| - 1].kind == Eof && ts[|ts| - 1].lexeme == ""
    && forall i :: 0 <= i < |ts| - 1 ==> ts[i].kind != Eof
  }

  /** When only trivia is left, `Lex` yields the `Eof` token alone. */
  lemma LexAtEnd(src: string, c: Cursor)
    requires c.pos <= |src| && SkipTrivia(src, c).pos == |src|
    ensures Lex(src, c) == [Token(Eof, "", SkipTrivia(src, c).line)]
  {
    LexAfterTrivia(src, c);
  }

  lemma ConsSoleEof(ts: seq<Token>, t: Token, rest: seq<Token>)
    requires ts == [t] + rest && t.kind != Eof && EndsWithSoleEof(rest)
    ensures EndsWithSoleEof(ts)
  {
    forall i | 0 <= i < |ts| - 1
      ensures ts[i].kind != Eof
    {
      if i > 0 {
        assert ts[i] == rest[i - 1];
      }
    }
  }

  /** `ts`, the tokens `Lex` yields from `c`, ends in its only `Eof`. */
  lemma {:induction false} LexEndsWithSoleEof(src: string, c: Cursor, ts: seq<Token>)
    requires c.pos <= |src| && ts == Lex(src, c)
    ensures EndsWithSoleEof(ts)
    decreases |src| - c.pos
  {
    var c1 := SkipTrivia(src, c);
    if c1.pos == |src| {
      LexAtEnd(src, c);
    } else {
      var s := LexOne(src, c1);
      var rest := Lex(src, s.next);
      LexRound(src, c, c1, s.token, s.next);
      LexEndsWithSoleEof(src, s.next, rest);
      ConsSoleEof(ts, s.token, rest);
    }
  }

  /** Every line stamp is at least `l`. */
  predicate LinesFrom(ts: seq<Token>, l: int) {
    forall i :: 0 <= i < |ts| ==> l <= ts[i].line
  }

  /** Line stamps never decrease along the sequence. */
  predicate LinesSorted(ts: seq<Token>) {
    forall i, j :: 0 <= i <= j < |ts| ==> ts[i].line <= ts[j].line
  }

  lemma ConsLines(ts: seq<Token>, t: Token, rest: seq<Token>, l: int, m: int)
    requires ts == [t] + rest
    requires l <= t.line <= m && LinesFrom(rest, m) && LinesSorted(rest)
    ensures LinesFrom(ts, l) && LinesSorted(ts)
  {
    forall i, j | 0 <= i <= j < |ts|
      ensures ts[i].line <= ts[j].line
    {
      if j > 0 {
        assert ts[j] == rest[j - 1];
        if i > 0 {
          assert ts[i] == rest[i - 1];
        }
      }
    }
  }

  /** In `ts`, the tokens `Lex` yields from `c`, every line stamp is at least the starting line, and stamps never decrease. */
  lemma {:induction false} LexLinesMonotone(src: string, c: Cursor, ts: seq<Token>)
    requires c.pos <= |src| && ts == Lex(src, c)
    ensures LinesFrom(ts, c.line) && LinesSorted(ts)
    decreases |src| - c.pos
  {
    var c1 := SkipTrivia(src, c);
    if c1.pos == |src| {
      LexAtEnd(src, c);
    } else {
      var s := LexOne(src, c1);
      var rest := Lex(src, s.next);
      LexRound(src, c, c1, s.token, s.next);
      LexLinesMonotone(src, s.next, rest);
      ConsLines(ts, s.token, rest, c.line, s.next.line);
    }
  }

  // ---- newline bookkeeping -------------------------------------------------

  /** The number of `'\n'`s among the first `p` characters of `src`. */
  function NewlinesUpTo(src: string, p: nat): nat
    requires p <= |src|
  {
    if p == 0 then 0 else NewlinesUpTo(src, p - 1) + (if src[p - 1] == '\n' then 1 else 0)
  }

  /** The newlines before `q` are those before `p` plus those between `p` and `q`. */
  lemma {:induction false} NewlinesSplit(src: string, p: nat, q: nat)
    requires p <= q <= |src|
    ensures NewlinesUpTo(src, q) == NewlinesUpTo(src, p) + Newlines(src[p..q])
    decreases q - p
  {
    if p == q {
      assert src[p..q] == [];
    } else {
      NewlinesSplit(src, p, q - 1);
      assert src[p..q] == src[p..q - 1] + [src[q - 1]];
      NewlinesSnoc(src[p..q - 1], src[q - 1]);
    }
  }

  /** Moving from `p` to `q` over text without newlines leaves the count unchanged. */
  lemma {:induction false} NewlinesFlat(src: string, p: nat, q: nat)
    requires p <= q <= |src|
    requires forall i :: p <= i < q ==> src[i] != '\n'
    ensures NewlinesUpTo(src, q) == NewlinesUpTo(src, p)
    decreases q - p
  {
    if p < q {
      NewlinesFlat(src, p, q - 1);
    }
  }

  /**
   * The line counter minus the newlines consumed so far; every scanning step
   * keeps it unchanged, that is, `line` counts exactly the consumed `'\n'`s.
   */
  function Offset(src: string, c: Cursor): int
    requires c.pos <= |src|
  {
    c.line - NewlinesUpTo(src, c.pos)
  }

  lemma NewlinesStep(src: string, p: nat)
    requires p < |src|
    ensures NewlinesUpTo(src, p + 1) == NewlinesUpTo(src, p) + (if src[p] == '\n' then 1 else 0)
  {
  }

  lemma {:induction false} BlockCommentOffset(src: string, c: Cursor)
    requires c.pos <= |src|
    ensures Offset(src, BlockCommentEnd(src, c)) == Offset(src, c)
    decreases |src| - c.pos
  {
    if c.pos < |src| {
      if src[c.pos] == '*' && At(src, c.pos + 1, '/') {
        NewlinesFlat(src, c.pos, c.pos + 2);
      } else {
        NewlinesStep(src, c.pos);
        BlockCommentOffset(src, Cursor(c.pos + 1, if src[c.pos] == '\n' then c.line + 1 else c.line));
      }
    }
  }

  lemma {:induction false} SkipTriviaOffset(src: string, c: Cursor)
    requires c.pos <= |src|
    ensures Offset(src, SkipTrivia(src, c)) == Offset(src, c)
    decreases |src| - c.pos
  {
    if c.pos < |src| {
      var ch := src[c.pos];
      SkipTriviaCases(src, c);
      if ch == ' ' || ch == '\t' || ch == '\r' {
        NewlinesStep(src, c.pos);
        SkipTriviaOffset(src, Cursor(c.pos + 1, c.line));
      } else if ch == '\n' {
        NewlinesStep(src, c.pos);
        SkipTriviaOffset(src, Cursor(c.pos + 1, c.line + 1));
      } else if ch == '/' && At(src, c.pos + 1, '/') {
        FirstOfSkips(src, c.pos, '\n');
        NewlinesFlat(src, c.pos, FirstOf(src, c.pos, '\n'));
        SkipTriviaOffset(src, Cursor(FirstOf(src, c.pos, '\n'), c.line));
      } else if ch == '/' && At(src, c.pos + 1, '*') {
        NewlinesFlat(src, c.pos, c.pos + 2);
        var inner := Cursor(c.pos + 2, c.line);
        BlockCommentOffset(src, inner);
        SkipTriviaOffset(src, BlockCommentEnd(src, inner));
      }
    }
  }

  lemma StringLitOffset(src: string, c: Cursor)
    requires c.pos <= |src|
    ensures Offset(src, StringLit(src, c).next) == Offset(src, c)
  {
    var e := FirstOf(src, c.pos, '"');
    NewlinesSplit(src, c.pos, e);
    if e < |src| {
      NewlinesFlat(src, e, e + 1);
    }
  }

  lemma OperatorOffset(src: string, c: Cursor)
    requires c.pos < |src| && src[c.pos] != '\n'
    ensures Offset(src, Operator(src, c).next) == Offset(src, c)
  {
    var r := Operator(src, c);
    assert r.next.pos == c.pos + 2 ==> TwoCharKind(src[c.pos], src[c.pos + 1]).Some?;
    NewlinesFlat(src, c.pos, r.next.pos);
  }

  /** Moving along a line over text without newlines keeps the offset. */
  lemma RunOffset(src: string, c: Cursor, e: nat)
    requires c.pos <= e <= |src| && forall i :: c.pos <= i < e ==> src[i] != '\n'
    ensures Offset(src, Cursor(e, c.line)) == Offset(src, c)
  {
    NewlinesFlat(src, c.pos, e);
  }

  lemma IdentifierOffset(src: string, c: Cursor)
    requires c.pos <= |src|
    ensures Offset(src, IdentifierLit(src, c).next) == Offset(src, c)
  {
    IdentEndRun(src, c.pos);
    RunOffset(src, c, IdentEnd(src, c.pos));
  }

  lemma NumberOffset(src: string, c: Cursor)
    requires c.pos <= |src|
    ensures Offset(src, NumberLit(src, c).next) == Offset(src, c)
  {
    NumberEndRun(src, c.pos, false);
    RunOffset(src, c, NumberEnd(src, c.pos, false));
  }

  lemma LexOneOffset(src: string, c: Cursor, r: Scan)
    requires c.pos < |src| && src[c.pos] != '\n' && r == LexOne(src, c)
    ensures Offset(src, r.next) == Offset(src, c)
  {
    var ch := src[c.pos];
    LexOneCases(src, c);
    if ch == '"' {
      RunOffset(src, c, c.pos + 1);
      StringLitOffset(src, Cursor(c.pos + 1, c.line));
    } else if IsAlpha(ch) || ch == '_' {
      IdentifierOffset(src, c);
    } else if IsDigit(ch) {
      NumberOffset(src, c);
    } else {
      OperatorOffset(src, c);
    }
  }

  /** The last token of `[t] + ts` is the last token of `ts`. */
  lemma LastOfCons(all: seq<Token>, t: Token, ts: seq<Token>)
    requires |ts| >= 1 && all == [t] + ts
    ensures all[|all| - 1] == ts[|ts| - 1]
  {
  }

  /** Skipping trivia and then scanning one token keeps the offset. */
  lemma RoundOffset(src: string, c: Cursor)
    requires c.pos <= |src| && SkipTrivia(src, c).pos < |src|
    ensures Offset(src, LexOne(src, SkipTrivia(src, c)).next) == Offset(src, c)
  {
    var c1 := SkipTrivia(src, c);
    SkipTriviaOffset(src, c);
    assert src[c1.pos] != '\n' by { assert !TriviaAt(src, c1.pos); }
    LexOneOffset(src, c1, LexOne(src, c1));
  }

  /** When only trivia is left, the `Eof` line is the line after it. */
  lemma LexFinalAtEnd(src: string, c: Cursor)
    requires c.pos <= |src| && SkipTrivia(src, c).pos == |src|
    ensures Lex(src, c)[|Lex(src, c)| - 1].line == Offset(src, c) + NewlinesUpTo(src, |src|)
  {
    SkipTriviaOffset(src, c);
    LexAtEnd(src, c);
  }

  /** The `Eof` line is the offset the scan started with plus every newline of the input. */
  lemma {:induction false} LexFinalOffset(src: string, c: Cursor, ts: seq<Token>)
    requires c.pos <= |src| && ts == Lex(src, c)
    ensures ts[|ts| - 1].line == Offset(src, c) + NewlinesUpTo(src, |src|)
    decreases |src| - c.pos
  {
    var c1 := SkipTrivia(src, c);
    if c1.pos == |src| {
      LexFinalAtEnd(src, c);
    } else {
      var s := LexOne(src, c1);
      var rest := Lex(src, s.next);
      RoundOffset(src, c);
      LexRound(src, c, c1, s.token, s.next);
      LastOfCons(ts, s.token, rest);
      LexFinalOffset(src, s.next, rest);
    }
  }

  /** For a whole file: lines start at 1 and end at 1 plus the number of newlines. */
  lemma TokenizeLines(src: string)
    ensures EndsWithSoleEof(Tokenize(src))
    ensures Tokenize(src)[|Tokenize(src)| - 1].line == 1 + Newlines(src)
    ensures LinesFrom(Tokenize(src), 1) && LinesSorted(Tokenize(src))
  {
    var ts := Tokenize(src);
    LexEndsWithSoleEof(src, Cursor(0, 1), ts);
    LexFinalOffset(src, Cursor(0, 1), ts);
    NewlinesSplit(src, 0, |src|);
    assert src[0..|src|] == src;
    LexLinesMonotone(src, Cursor(0, 1), ts);
  }

  // ---- the shape of every token --------------------------------------------

  predicate IsKeywordKind(k: TokenType) {
    k in {KwIf, KwElse, KwWhile, KwFor, KwReturn, KwVar, KwVal, KwTrue, KwFalse,
          KwConstructor, KwStruct, KwInterface, KwImpl, KwFunc, KwModule, KwImport,
          KwOperator, KwThis, KwIRLib, KwPrivate, KwPublic}
  }

  /** Identifier text: a letter or `_`, then letters, digits and `_`. */
  predicate IsIdentText(s: string) {
    s != [] && (IsAlpha(s[0]) || s[0] == '_') && forall i :: 0 <= i < |s| ==> IsIdentChar(s[i])
  }

  /** Number text: a digit first, then digits and at most one `.`. */
  predicate IsNumberText(s: string) {
    && s != [] && IsDigit(s[0])
    && (forall i :: 0 <= i < |s| ==> IsDigit(s[i]) || s[i] == '.')
    && (forall i, j :: 0 <= i < j < |s| && s[i] == '.' ==> s[j] != '.')
  }

  /** What holds of every token `scanToken` can return inside `scanTokens`. */
  predicate ScannedToken(t: Token) {
    && t.kind !in {Eof, Top, KwIRLib, KwPrivate, KwPublic}
    && (t.kind != Str ==> t.lexeme != [])
    && (t.kind == Identifier ==> IsIdentText(t.lexeme) && t.lexeme !in InitKeywords())
    && (IsKeywordKind(t.kind) ==> t.lexeme in InitKeywords() && InitKeywords()[t.lexeme] == t.kind)
    && (t.kind == Number ==> IsNumberText(t.lexeme))
  }

  lemma KeywordTableKinds(text: string)
    requires text in InitKeywords()
    ensures IsKeywordKind(InitKeywords()[text])
    ensures InitKeywords()[text] !in {KwIRLib, KwPrivate, KwPublic}
  {
  }

  lemma IdentifierScanned(src: string, c: Cursor)
    requires c.pos < |src| && (IsAlpha(src[c.pos]) || src[c.pos] == '_')
    ensures ScannedToken(IdentifierLit(src, c).token)
  {
    var t := IdentifierLit(src, c).token;
    IdentEndRun(src, c.pos);
    assert t.lexeme[0] == src[c.pos];
    if t.lexeme in InitKeywords() {
      KeywordTableKinds(t.lexeme);
    }
  }

  lemma NumberScanned(src: string, c: Cursor)
    requires c.pos < |src| && IsDigit(src[c.pos])
    ensures ScannedToken(NumberLit(src, c).token)
  {
    var t := NumberLit(src, c).token;
    NumberEndRun(src, c.pos, false);
    assert t.lexeme[0] == src[c.pos];
  }

  lemma OperatorScanned(src: string, c: Cursor)
    requires c.pos < |src|
    ensures ScannedToken(Operator(src, c).token)
  {
  }

  lemma LexOneScanned(src: string, c: Cursor)
    requires c.pos < |src|
    ensures ScannedToken(LexOne(src, c).token)
  {
    var ch := src[c.pos];
    if ch == '"' {
    } else if IsAlpha(ch) || ch == '_' {
      IdentifierScanned(src, c);
    } else if IsDigit(ch) {
      NumberScanned(src, c);
    } else {
      OperatorScanned(src, c);
    }
  }

  lemma ConsScanned(ts: seq<Token>, t: Token, rest: seq<Token>)
    requires ts == [t] + rest && ScannedToken(t) && |rest| >= 1
    requires forall i :: 0 <= i < |rest| - 1 ==> ScannedToken(rest[i])
    ensures forall i :: 0 <= i < |ts| - 1 ==> ScannedToken(ts[i])
  {
    forall i | 0 <= i < |ts| - 1
      ensures ScannedToken(ts[i])
    {
      if i > 0 {
        assert ts[i] == rest[i - 1];
      }
    }
  }

  /** Every token of `ts`, the tokens `Lex` yields from `c`, except the final `Eof` has the shape its kind demands. */
  lemma {:induction false} LexScanned(src: string, c: Cursor, ts: seq<Token>)
    requires c.pos <= |src| && ts == Lex(src, c)
    ensures forall i :: 0 <= i < |ts| - 1 ==> ScannedToken(ts[i])
    decreases |src| - c.pos
  {
    var c1 := SkipTrivia(src, c);
    if c1.pos == |src| {
      LexAtEnd(src, c);
    } else {
      var s := LexOne(src, c1);
      var rest := Lex(src, s.next);
      LexRound(src, c, c1, s.token, s.next);
      LexOneScanned(src, c1);
      LexScanned(src, s.next, rest);
      ConsScanned(ts, s.token, rest);
    }
  }

  /** An identifier is the maximal run of identifier characters. */
  lemma IdentifierMaximal(src: string, c: Cursor)
    requires c.pos < |src| && (IsAlpha(src[c.pos]) || src[c.pos] == '_')
    ensures var r := LexOne(src, c);
            && r.token.lexeme == src[c.pos..r.next.pos]
            && IsIdentText(r.token.lexeme)
            && (r.next.pos < |src| ==> !IsIdentChar(src[r.next.pos]))
            && r.token.kind == (if r.token.lexeme in InitKeywords() then InitKeywords()[r.token.lexeme] else Identifier)
  {
    IdentEndRun(src, c.pos);
  }

  /** A number stops before a second `.` or any non-digit. */
  lemma NumberMaximal(src: string, c: Cursor)
    requires c.pos < |src| && IsDigit(src[c.pos])
    ensures var r := LexOne(src, c);
            && r.token.kind == Number
            && r.token.lexeme == src[c.pos..r.next.pos]
            && IsNumberText(r.token.lexeme)
            && (r.next.pos < |src| ==> src[r.next.pos] == '.' || !IsDigit(src[r.next.pos]))
            && (r.next.pos < |src| && src[r.next.pos] == '.' ==> '.' in r.token.lexeme)
  {
    var r := LexOne(src, c);
    NumberEndRun(src, c.pos, false);
    if r.next.pos < |src| && src[r.next.pos] == '.' {
      NumberStopsAtSecondDot(src, c.pos, false);
    }
  }

  lemma {:induction false} NumberStopsAtSecondDot(src: string, p: nat, seenDot: bool)
    requires p <= |src|
    requires NumberEnd(src, p, seenDot) < |src| && src[NumberEnd(src, p, seenDot)] == '.'
    ensures seenDot || '.' in src[p..NumberEnd(src, p, seenDot)]
    decreases |src| - p
  {
    if p < |src| && (IsDigit(src[p]) || (!seenDot && src[p] == '.')) {
      NumberStopsAtSecondDot(src, p + 1, seenDot || src[p] == '.');
      if !seenDot && src[p] != '.' {
        var e := NumberEnd(src, p, seenDot);
        assert src[p + 1..e] == src[p..e][1..];
      } else if !seenDot {
        assert src[p..NumberEnd(src, p, seenDot)][0] == '.';
      }
    }
  }

  /** Two-character operators are taken before their one-character prefix. */
  lemma GreedyOperators(src: string, c: Cursor)
    requires c.pos + 1 < |src| && TwoCharKind(src[c.pos], src[c.pos + 1]).Some?
    ensures LexOne(src, c) ==
            Scan(Token(TwoCharKind(src[c.pos], src[c.pos + 1]).value, src[c.pos..c.pos + 2], c.line),
                 Cursor(c.pos + 2, c.line))
  {
  }

  /** The characters `scanToken`'s switch has a case for. */
  predicate IsPunctuation(ch: char) {
    ch in {'(', ')', '{', '}', '[', ']', ',', ';', '+', '-', '*', '/', '=', '!', '<', '>', '&', '|', ':', '.', '~'}
  }

  /** A lone `&` or `|` is a one-character `Error`. */
  lemma LoneAndOrErrors(src: string, c: Cursor)
    requires c.pos < |src| && (src[c.pos] == '&' || src[c.pos] == '|') && !At(src, c.pos + 1, src[c.pos])
    ensures LexOne(src, c) == Scan(Token(Error, [src[c.pos]], c.line), Cursor(c.pos + 1, c.line))
  {
    var ch := src[c.pos];
    LexOneCases(src, c);
    assert !(c.pos + 1 < |src| && TwoCharKind(ch, src[c.pos + 1]).Some?);
  }

  /** A character that starts no token is a one-character `Error`. */
  lemma UnknownCharacterErrors(src: string, c: Cursor)
    requires c.pos < |src|
    requires var ch := src[c.pos]; !IsPunctuation(ch) && ch != '"' && !IsAlpha(ch) && ch != '_' && !IsDigit(ch)
    ensures LexOne(src, c) == Scan(Token(Error, [src[c.pos]], c.line), Cursor(c.pos + 1, c.line))
  {
    var ch := src[c.pos];
    LexOneCases(src, c);
    assert OneCharKind(ch) == Error;
    assert !(c.pos + 1 < |src| && TwoCharKind(ch, src[c.pos + 1]).Some?);
  }

  /** A digit starts a number, whose text is the run `NumberEnd` finds. */
  lemma LexOneNumber(src: string, c: Cursor)
    requires c.pos < |src| && IsDigit(src[c.pos])
    ensures LexOne(src, c) == Scan(Token(Number, src[c.pos..NumberEnd(src, c.pos, false)], c.line),
                                   Cursor(NumberEnd(src, c.pos, false), c.line))
  {
    LexOneCases(src, c);
  }

  /** The number scan of `1.2.3` stops before the second `.`. */
  lemma TwoDotsNumberEnd(src: string)
    requires src == "1.2.3"
    ensures NumberEnd(src, 0, false) == 3 && NumberEnd(src, 4, false) == 5
  {
    assert NumberEnd(src, 3, true) == 3;
    assert NumberEnd(src, 2, true) == 3;
    assert NumberEnd(src, 1, false) == 3;
  }

  /** The three tokens of `1.2.3`, one scan at a time. */
  lemma TwoDotsScans(src: string)
    requires src == "1.2.3"
    ensures LexOne(src, Cursor(0, 1)) == Scan(Token(Number, "1.2", 1), Cursor(3, 1))
    ensures LexOne(src, Cursor(3, 1)) == Scan(Token(Dot, ".", 1), Cursor(4, 1))
    ensures LexOne(src, Cursor(4, 1)) == Scan(Token(Number, "3", 1), Cursor(5, 1))
  {
    TwoDotsNumberEnd(src);
    LexOneNumber(src, Cursor(0, 1));
    LexOneNumber(src, Cursor(4, 1));
    LexOneCases(src, Cursor(3, 1));
    assert src[0..3] == "1.2" && src[4..5] == "3";
  }

  /** A second `.` is not part of a number: `1.2.3` is `1.2`, `.`, `3`. */
  lemma TwoDotsExample(src: string)
    requires src == "1.2.3"
    ensures Tokenize(src) ==
            [Token(Number, "1.2", 1), Token(Dot, ".", 1), Token(Number, "3", 1), Token(Eof, "", 1)]
  {
    TwoDotsScans(src);
    LexAtToken(src, Cursor(0, 1));
    LexAtToken(src, Cursor(3, 1));
    LexAtToken(src, Cursor(4, 1));
    LexAtEnd(src, Cursor(5, 1));
  }
}
