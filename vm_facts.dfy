/**
 * Properties of the Mask VM model: value round trips, the meaning of a
 * condition, what `findMatchingStatement` finds, and what a run of
 * `execute` may do to the variable table, the output and `lastError`.
 */
module VmFacts {
  import opened Wrappers
  import opened Strings
  import opened VmInterpreter

  // ---- values --------------------------------------------------------------

  /** `parseValue(INT, v.toString())` gives back an `int` value unchanged. */
  lemma IntValueRoundTrip(n: int, err: string)
    requires IsInt32(n)
    ensures ParseValueSpec(INT, ToString(IntValue(n)), err) == Parsed(IntValue(n), err)
  {
    StoiIntToString(n);
  }

  /** A quoted literal loses exactly its quotes, and `toString` writes the text back. */
  lemma StrValueRoundTrip(s: string, err: string)
    ensures ParseValueSpec(STR, "\"" + s + "\"", err) == Parsed(StrValue(s), err)
    ensures ToString(StrValue(s)) == s
  {
    var q := "\"" + s + "\"";
    assert q[1..|q| - 1] == s;
  }

  /**
   * `parseValue` with `lastError` clear: it succeeds exactly for a string,
   * or for an integer `std::stoi` accepts, and the value then has the
   * requested type; a failure yields `Value()`.
   */
  lemma ParseValueOutcome(t: DataType, s: string)
    requires t == STR ==> s != []
    ensures var p := ParseValueSpec(t, s, "");
            (p.lastError == "" <==> t == STR || (t == INT && Stoi(s).Some?)) &&
            (p.lastError == "" ==> p.value.kind == t) &&
            (p.lastError != "" ==> p.value == DefaultValue()) &&
            (t == INT && Stoi(s).Some? ==> p.value.intVal == Stoi(s).value)
  {
  }

  // ---- conditions ----------------------------------------------------------

  /** Values of one type compare by the field that type uses. */
  predicate SameValue(a: Value, b: Value) {
    if a.kind == INT then a.intVal == b.intVal else a.strVal == b.strVal
  }

  /**
   * A condition holds exactly when it reads `name == type value`, `name` is
   * in the table with a value of that type, the literal parses, and the two
   * values are equal. A reported error always comes with `false`.
   */
  lemma ConditionMeaning(vars: map<string, Variable>, err: string, condition: string)
    ensures var v := ConditionSpec(vars, err, condition);
            var parts := SplitPieces(condition, ' ');
            v.holds <==>
              |parts| == 4 && parts[2] == "==" && ParseDataType(parts[1]) != UNKNOWN &&
              parts[0] in vars && ParseValueSpec(ParseDataType(parts[1]), parts[3], err).lastError == "" &&
              vars[parts[0]].value.kind == ParseDataType(parts[1]) &&
              SameValue(vars[parts[0]].value, ParseValueSpec(ParseDataType(parts[1]), parts[3], err).value)
    ensures ConditionSpec(vars, err, condition).lastError != "" ==> !ConditionSpec(vars, err, condition).holds
  {
    var parts := SplitPieces(condition, ' ');
    SplitPiecesShape(condition, ' ');
    if |parts| == 4 {
      assert parts[3] != [];
    }
  }

  /** With `lastError` clear, a condition is judged without error exactly when it is well formed. */
  lemma ConditionErrors(vars: map<string, Variable>, condition: string)
    ensures var v := ConditionSpec(vars, "", condition);
            var parts := SplitPieces(condition, ' ');
            v.lastError == "" <==>
              |parts| == 4 && parts[2] == "==" && ParseDataType(parts[1]) != UNKNOWN &&
              parts[0] in vars && ParseValueSpec(ParseDataType(parts[1]), parts[3], "").lastError == "" &&
              vars[parts[0]].value.kind == ParseDataType(parts[1])
  {
    var parts := SplitPieces(condition, ' ');
    SplitPiecesShape(condition, ' ');
    if |parts| == 4 {
      assert parts[3] != [];
    }
  }

  // ---- comments ------------------------------------------------------------

  /**
   * Everything from the first `?` on is dropped before `execute` splits a line
   * into words and before `findMatchingStatement` reads it. It is not dropped
   * everywhere: `print str` and `if` search the original line, comment
   * included (see `CommentSeenByPrintStr`).
   */
  lemma CommentIgnored(code: string, comment: string)
    requires '?' !in code
    ensures Instruction(code + "?" + comment) == Instruction(code)
  {
    var line := code + "?" + comment;
    assert OccursAt(line, "?", |code|);
    forall j: nat | j < |code|
      ensures !OccursAt(line, "?", j) && !OccursAt(code, "?", j)
    {
      assert line[j] == code[j];
    }
    assert Find(line, "?", 0) == Some(|code|);
    assert Find(code, "?", 0) == None;
    assert line[..|code|] == code;
  }

  /**
   * `print str "<text>?<comment>"` and `print str "<text>` have the same
   * words, yet the first prints `<text>?<comment>` and the second stops with
   * "Unclosed string in print": `print str` looks for its quotes in the
   * original line, comment included.
   */
  lemma CommentSeenByPrintStr(text: string, comment: string, long: string, short: string,
                              tokens: seq<string>, m: Machine, at: string)
    requires '"' !in text && '?' !in text && '"' !in comment
    requires long == "print str \"" + text + "?" + comment + "\"" && short == "print str \"" + text
    requires NonEmptyPieces(tokens) && |tokens| >= 2 && tokens[1] == "str"
    ensures LineTokens(long) == LineTokens(short)
    ensures PrintSpec(tokens, long, m, at) == Done(m.(output := m.output + [text + "?" + comment]))
    ensures PrintSpec(tokens, short, m, at) == Halted(Returned(false), m.(lastError := "Unclosed string in print" + at))
  {
    var head := "print str \"";
    var body := text + "?" + comment;
    assert '?' !in head;
    assert long == short + "?" + (comment + "\"") == head + body + "\"" by {
      assert long == head + text + "?" + comment + "\"";
    }
    CommentKeepsWords(short, comment + "\"");
    PrintStrClosed(long, body, tokens, m, at);
    PrintStrUnclosed(short, text, tokens, m, at);
  }

  /** `print str "<body>"` prints the body when it holds no quote. */
  lemma PrintStrClosed(line: string, body: string, tokens: seq<string>, m: Machine, at: string)
    requires line == "print str \"" + body + "\"" && '"' !in body
    requires NonEmptyPieces(tokens) && |tokens| >= 2 && tokens[1] == "str"
    ensures PrintSpec(tokens, line, m, at) == Done(m.(output := m.output + [body]))
  {
    var head := "print str \"";
    assert line == head + body + "\"";
    StrQuoteAt(line, head);
    ClosingQuote(line, head, body);
  }

  /** `print str "<text>` with no quote in the text stops with "Unclosed string in print". */
  lemma PrintStrUnclosed(line: string, text: string, tokens: seq<string>, m: Machine, at: string)
    requires line == "print str \"" + text && '"' !in text
    requires NonEmptyPieces(tokens) && |tokens| >= 2 && tokens[1] == "str"
    ensures PrintSpec(tokens, line, m, at) == Halted(Returned(false), m.(lastError := "Unclosed string in print" + at))
  {
    var head := "print str \"";
    StrQuoteAt(line, head);
    NoClosingQuote(line, head, text);
  }

  /** After `print str "`, the next quote of `print str "<body>"` closes the body. */
  lemma ClosingQuote(line: string, head: string, body: string)
    requires head == "print str \"" && line == head + body + "\"" && '"' !in body
    ensures Find(line, "\"", 11) == Some(11 + |body|) && line[11..11 + |body|] == body
  {
    assert line[11 + |body|] == '"' && line[11..11 + |body|] == body;
    assert OccursAt(line, "\"", 11 + |body|);
    FindChar(line, '"', 11);
  }

  /** `print str "<text>` has no quote after the opening one. */
  lemma NoClosingQuote(line: string, head: string, text: string)
    requires head == "print str \"" && line == head + text && '"' !in text
    ensures Find(line, "\"", 11) == None
  {
    FindChar(line, '"', 11);
    assert line[11..] == text;
  }

  /** Text from the first `?` on does not change the words `execute` splits a line into. */
  lemma CommentKeepsWords(code: string, comment: string)
    requires '?' !in code
    ensures LineTokens(code + "?" + comment) == LineTokens(code)
  {
    CommentIgnored(code, comment);
  }

  /** In a line starting `print str "`, the first `str "` is at position 6. */
  lemma StrQuoteAt(line: string, head: string)
    requires head == "print str \"" && head <= line
    ensures Find(line, "str \"", 0) == Some(6)
  {
    assert line[6..11] == head[6..11] == "str \"";
    assert OccursAt(line, "str \"", 6);
    forall i | 0 <= i < 6
      ensures !OccursAt(line, "str \"", i)
    {
      assert line[i + 4] == head[i + 4] != '"';
    }
  }

  // ---- findMatchingStatement -----------------------------------------------

  /**
   * The running nesting level after lines `i .. k-1`, starting from `level`:
   * an independent account of the counter `findMatchingStatement` keeps.
   */
  function Level(ds: seq<int>, i: nat, k: nat, level: int): int
    requires i <= k <= |ds|
    decreases k - i
  {
    if i == k then level else Level(ds, i + 1, k, level + ds[i])
  }

  /**
   * `Settle` finds the first line holding a decrement after which the
   * running level is 0, and `None` means there is no such line.
   */
  lemma {:induction false} SettleIsFirstReturn(ds: seq<int>, i: nat, level: int)
    requires i <= |ds|
    ensures Settle(ds, i, level).Some? ==>
              var r := Settle(ds, i, level).value;
              ds[r] == -1 && Level(ds, i, r + 1, level) == 0 &&
              forall k :: i <= k < r && ds[k] == -1 ==> Level(ds, i, k + 1, level) != 0
    ensures Settle(ds, i, level).None? ==>
              forall k :: i <= k < |ds| && ds[k] == -1 ==> Level(ds, i, k + 1, level) != 0
    decreases |ds| - i
  {
    if i < |ds| && !(ds[i] == -1 && level - 1 == 0) {
      SettleIsFirstReturn(ds, i + 1, level + ds[i]);
      forall k | i < k <= |ds|
        ensures Level(ds, i, k, level) == Level(ds, i + 1, k, level + ds[i])
      {
      }
    }
  }

  /**
   * How one line changes the nesting level: up for a line beginning with
   * `if`; down for a line beginning with `target` whose text after the first
   * blank `std::stoi` reads as `id`; otherwise unchanged.
   */
  lemma DeltaCases(line: string, id: int, target: string)
    ensures Delta(line, id, target) == 1 <==> line != [] && StartsWith(line, "if")
    ensures Delta(line, id, target) == -1 <==>
              line != [] && !StartsWith(line, "if") && StartsWith(line, target) && NamedId(line) == Some(id)
  {
  }

  /** The line `findMatchingStatement` returns begins with `target` and names `id`. */
  lemma MatchFromLine(lines: seq<string>, startLine: nat, id: int, target: string, r: nat)
    requires MatchFrom(lines, startLine, id, target, 0) == Some(r)
    ensures r < |lines|
    ensures var line := Instruction(lines[r]);
            line != [] && !StartsWith(line, "if") && StartsWith(line, target) && NamedId(line) == Some(id)
  {
    DeltaAt(lines, id, target, r);
    DeltaCases(Instruction(lines[r]), id, target);
  }

  /**
   * ... and it is the first line holding a decrement after which the
   * nesting level, counted from `startLine`, is back at 0.
   */
  lemma MatchFromFirst(lines: seq<string>, startLine: nat, id: int, target: string, r: nat)
    requires startLine <= |lines| && MatchFrom(lines, startLine, id, target, 0) == Some(r)
    ensures r < |lines|
    ensures var ds := Deltas(lines, id, target);
            ds[r] == -1 && Level(ds, startLine, r + 1, 0) == 0 &&
            forall k :: startLine <= k < r && ds[k] == -1 ==> Level(ds, startLine, k + 1, 0) != 0
  {
    SettleIsFirstReturn(Deltas(lines, id, target), startLine, 0);
  }

  /**
   * An `end if` line never lowers the level when `end if` is the target:
   * the text after its first blank begins with `if`, which `std::stoi`
   * rejects.
   */
  lemma EndIfLineNeverCloses(line: string, id: int)
    ensures Delta(line, id, "end if") != -1
  {
    if line != [] && !StartsWith(line, "if") && StartsWith(line, "end if") {
      assert line[..6] == "end if";
      assert OccursAt(line, " ", 3);
      forall j: nat | j < 3
        ensures !OccursAt(line, " ", j)
      {
        assert line[j] == line[..6][j];
      }
      assert Find(line, " ", 0) == Some(3);
      assert line[4..][0] == 'i';
      StoiRejectsLeadingLetter(line[4..]);
      assert NamedId(line) == None;
    }
  }

  /** So `findMatchingStatement(_, id, "end if")` never finds anything, whatever the program. */
  lemma EndIfNeverFound(lines: seq<string>, i: nat, id: int, level: int)
    ensures MatchFrom(lines, i, id, "end if", level) == None
  {
    var ds := Deltas(lines, id, "end if");
    if Settle(ds, i, level).Some? {
      var r := Settle(ds, i, level).value;
      DeltaAt(lines, id, "end if", r);
      EndIfLineNeverCloses(Instruction(lines[r]), id);
      assert false;
    }
  }

  // ---- def, let and set ----------------------------------------------------

  /**
   * The value a successful `def`, `let` or `set` stores for the value type
   * word `valueType` and the literal `literal`: the text without its quotes
   * for `str`, the number `std::stoi` reads for `int`.
   */
  function StoredValue(valueType: string, literal: string): Value
    requires literal != []
  {
    if valueType == "str" then StrValue(Unquote(literal))
    else if Stoi(literal).Some? then IntValue(Stoi(literal).value)
    else DefaultValue()
  }

  /**
   * `def`/`let` with `lastError` clear: a new entry is added exactly when the
   * line has a value, a known declared type and a fresh name and the value
   * parses; the entry takes the type of the value, not the declared one, and
   * nothing else changes. An existing name is refused, and four words read
   * past the end.
   */
  lemma DefineOutcome(tokens: seq<string>, m: Machine, constant: bool, keyword: string, at: string)
    requires NonEmptyPieces(tokens) && m.lastError == ""
    ensures var e := DefineSpec(tokens, m, constant, keyword, at);
            e.Done? <==>
              |tokens| >= 5 && ParseDataType(tokens[1]) != UNKNOWN && tokens[2] !in m.variables &&
              (tokens[3] == "str" || (tokens[3] == "int" && Stoi(tokens[4]).Some?))
    ensures var e := DefineSpec(tokens, m, constant, keyword, at);
            e.Done? ==>
              e.m.output == m.output && e.m.lastError == "" &&
              e.m.variables.Keys == m.variables.Keys + {tokens[2]} &&
              e.m.variables[tokens[2]].isConstant == constant &&
              e.m.variables[tokens[2]].value.kind == ParseDataType(tokens[3]) &&
              e.m.variables[tokens[2]].value == StoredValue(tokens[3], tokens[4]) &&
              forall k :: k in m.variables ==> e.m.variables[k] == m.variables[k]
    ensures var e := DefineSpec(tokens, m, constant, keyword, at);
            |tokens| >= 4 && ParseDataType(tokens[1]) != UNKNOWN && tokens[2] in m.variables ==>
              e == Halted(Returned(false), m.(lastError := "Variable already exists: " + tokens[2] + at))
    ensures var e := DefineSpec(tokens, m, constant, keyword, at);
            e.Halted? && e.outcome == Undefined <==>
              |tokens| == 4 && ParseDataType(tokens[1]) != UNKNOWN && tokens[2] !in m.variables
  {
    if |tokens| >= 5 {
      ParseValueOutcome(ParseDataType(tokens[3]), tokens[4]);
    }
  }

  /**
   * `set` with `lastError` clear: an existing, non-constant entry takes the
   * new value (of the value's type) and stays non-constant; a constant is
   * refused with the table untouched.
   */
  lemma SetOutcome(tokens: seq<string>, m: Machine, at: string)
    requires NonEmptyPieces(tokens) && m.lastError == ""
    ensures var e := SetSpec(tokens, m, at);
            e.Done? <==>
              |tokens| >= 5 && ParseDataType(tokens[1]) != UNKNOWN && tokens[2] in m.variables &&
              !m.variables[tokens[2]].isConstant &&
              (tokens[3] == "str" || (tokens[3] == "int" && Stoi(tokens[4]).Some?))
    ensures var e := SetSpec(tokens, m, at);
            e.Done? ==>
              e.m.output == m.output && e.m.lastError == "" &&
              e.m.variables.Keys == m.variables.Keys &&
              !e.m.variables[tokens[2]].isConstant &&
              e.m.variables[tokens[2]].value.kind == ParseDataType(tokens[3]) &&
              e.m.variables[tokens[2]].value == StoredValue(tokens[3], tokens[4]) &&
              forall k :: k in m.variables && k != tokens[2] ==> e.m.variables[k] == m.variables[k]
    ensures var e := SetSpec(tokens, m, at);
            |tokens| >= 4 && ParseDataType(tokens[1]) != UNKNOWN && tokens[2] in m.variables &&
            m.variables[tokens[2]].isConstant ==>
              e == Halted(Returned(false), m.(lastError := "Cannot set a constant: " + tokens[2] + at))
  {
    if |tokens| >= 5 {
      ParseValueOutcome(ParseDataType(tokens[3]), tokens[4]);
    }
  }

  // ---- if and else -----------------------------------------------------------

  /**
   * Every `if` line ends `execute` with `false` and a message in `lastError`.
   * A line without an id, with an id `std::stoi` rejects, or with a condition
   * that is missing or rejected stops with its own message; every other `if`
   * reaches the `end if` search, which never succeeds, so its message is the
   * "Matching end if not found" one, whatever the condition's value.
   */
  lemma IfAlwaysFails(lines: seq<string>, pc: nat, tokens: seq<string>, m: Machine, at: string)
    requires pc < |lines| && NonEmptyPieces(tokens)
    ensures var s := IfSpec(lines, pc, tokens, m, at);
            s.Stop? && s.outcome == Returned(false) && s.m.lastError != "" &&
            s.m.variables == m.variables && s.m.output == m.output
    ensures var s := IfSpec(lines, pc, tokens, m, at);
            |tokens| < 2 ==> s.m.lastError == "Invalid if syntax" + at
    ensures var s := IfSpec(lines, pc, tokens, m, at);
            |tokens| >= 2 && Stoi(tokens[1]).None? ==> s.m.lastError == "Invalid if ID" + at
    ensures var s := IfSpec(lines, pc, tokens, m, at);
            |tokens| >= 2 && Stoi(tokens[1]).Some? && IfCondition(lines[pc], Stoi(tokens[1]).value).None? ==>
              s.m.lastError == "Invalid if syntax" + at
    ensures var s := IfSpec(lines, pc, tokens, m, at);
            |tokens| >= 2 && Stoi(tokens[1]).Some? ==>
              var id := Stoi(tokens[1]).value;
              var j := GuardSpec(lines[pc], id, m, at);
              && (j.Rejected? ==> s.m.lastError == j.m.lastError)
              && (j.Judged? ==> s.m.lastError == NotFoundMessage("end if", id))
  {
    if |tokens| >= 2 && Stoi(tokens[1]).Some? {
      var id := Stoi(tokens[1]).value;
      EndIfNeverFound(lines, pc + 1, id, 0);
    }
  }

  /**
   * An accepted id is not enough: `if 1` alone lacks the text `if 1 ` with
   * its trailing blank, so it stops with "Invalid if syntax".
   */
  lemma IfWithoutConditionText(m: Machine)
    ensures IfSpec(["if 1"], 0, ["if", "1"], m, AtLine(0)).m.lastError == "Invalid if syntax" + AtLine(0)
  {
    assert Stoi("1") == Some(1) by { StoiIntToString(1); }
    assert IntToString(1) == "1";
    assert Find("if 1", "if 1 ", 0) == None;
  }

  /**
   * The same holds for every `else` line: one without an id or with an id
   * `std::stoi` rejects stops with its own message, every other one with the
   * "Matching end if not found" message.
   */
  lemma ElseAlwaysFails(lines: seq<string>, pc: nat, tokens: seq<string>, m: Machine, at: string)
    requires pc < |lines| && NonEmptyPieces(tokens)
    ensures var s := ElseSpec(lines, pc, tokens, m, at);
            s.Stop? && s.outcome == Returned(false) && s.m.lastError != "" &&
            s.m.variables == m.variables && s.m.output == m.output
    ensures var s := ElseSpec(lines, pc, tokens, m, at);
            |tokens| < 2 ==> s.m.lastError == "Invalid else syntax" + at
    ensures var s := ElseSpec(lines, pc, tokens, m, at);
            |tokens| >= 2 && Stoi(tokens[1]).None? ==> s.m.lastError == "Invalid else ID" + at
    ensures var s := ElseSpec(lines, pc, tokens, m, at);
            |tokens| >= 2 && Stoi(tokens[1]).Some? ==>
              s.m.lastError == NotFoundMessage("end if", Stoi(tokens[1]).value)
  {
    if |tokens| >= 2 && Stoi(tokens[1]).Some? {
      var id := Stoi(tokens[1]).value;
      EndIfNeverFound(lines, pc + 1, id, 0);
    }
  }

  // ---- one step and a whole run --------------------------------------------

  /**
   * A line whose first word is no command stops `execute` with false and
   * "Unknown command: <word> at line <n>", n counting from 1.
   */
  lemma UnknownCommandMessage(lines: seq<string>, pc: nat, tokens: seq<string>, m: Machine)
    requires pc < |lines| && LineTokens(lines[pc]) == Some(tokens)
    requires tokens[0] !in {"def", "let", "set", "print", "if", "else"}
    requires !(tokens[0] == "end" && |tokens| > 1 && tokens[1] == "if")
    ensures var err := "Unknown command: " + tokens[0] + " at line " + IntToString(pc + 1);
            && CommandStep(lines, pc, tokens, m) == Stop(Returned(false), m.(lastError := err))
            && Run(lines, pc, m) == Final(Returned(false), m.(lastError := err))
  {
    var stop := Stop(Returned(false), m.(lastError := "Unknown command: " + tokens[0] + AtLine(pc)));
    assert CommandStep(lines, pc, tokens, m) == stop;
    assert StepAt(lines, pc, m) == stop;
  }

  /**
   * How the variable table may change: no entry disappears, no entry changes
   * its `isConstant` flag, and a constant keeps its value.
   */
  predicate TableGrows(before: map<string, Variable>, after: map<string, Variable>) {
    forall k :: k in before ==>
      k in after && after[k].isConstant == before[k].isConstant &&
      (before[k].isConstant ==> after[k] == before[k])
  }

  lemma TableGrowsTransitive(a: map<string, Variable>, b: map<string, Variable>, c: map<string, Variable>)
    requires TableGrows(a, b) && TableGrows(b, c)
    ensures TableGrows(a, c)
  {
  }

  /**
   * What one line of `execute` may do to a state whose `lastError` is clear:
   * the table only grows, output is only appended, a step that goes on
   * keeps `lastError` clear, a `false` return comes with a message, and no
   * line returns `true` by itself.
   */
  predicate StepKeeps(m: Machine, s: Step) {
    && TableGrows(m.variables, s.m.variables) && m.output <= s.m.output
    && (s.Continue? ==> s.m.lastError == "")
    && (s.Stop? ==> s.outcome != Returned(true))
    && (s.Stop? ==> (s.m.lastError == "" <==> s.outcome == Undefined))
  }

  lemma DefineKeeps(pc: nat, tokens: seq<string>, m: Machine, constant: bool, keyword: string, at: string)
    requires NonEmptyPieces(tokens) && m.lastError == ""
    ensures StepKeeps(m, AfterEffect(pc, DefineSpec(tokens, m, constant, keyword, at)))
  {
    DefineOutcome(tokens, m, constant, keyword, at);
  }

  lemma SetKeeps(pc: nat, tokens: seq<string>, m: Machine, at: string)
    requires NonEmptyPieces(tokens) && m.lastError == ""
    ensures StepKeeps(m, AfterEffect(pc, SetSpec(tokens, m, at)))
  {
    SetOutcome(tokens, m, at);
  }

  lemma PrintKeeps(pc: nat, tokens: seq<string>, original: string, m: Machine, at: string)
    requires NonEmptyPieces(tokens) && m.lastError == ""
    ensures StepKeeps(m, AfterEffect(pc, PrintSpec(tokens, original, m, at)))
  {
  }

  /** One line of `execute` keeps `StepKeeps`. */
  lemma StepPreserves(lines: seq<string>, pc: nat, m: Machine)
    requires pc < |lines| && m.lastError == ""
    ensures StepKeeps(m, StepAt(lines, pc, m))
  {
    match LineTokens(lines[pc])
    case None =>
    case Some(tokens) =>
      var at := AtLine(pc);
      var c := tokens[0];
      var s := CommandStep(lines, pc, tokens, m);
      if c == "def" {
        DefineKeeps(pc, tokens, m, false, "def", at);
        assert s == AfterEffect(pc, DefineSpec(tokens, m, false, "def", at));
      } else if c == "let" {
        DefineKeeps(pc, tokens, m, true, "let", at);
        assert s == AfterEffect(pc, DefineSpec(tokens, m, true, "let", at));
      } else if c == "set" {
        SetKeeps(pc, tokens, m, at);
        assert s == AfterEffect(pc, SetSpec(tokens, m, at));
      } else if c == "print" {
        PrintKeeps(pc, tokens, lines[pc], m, at);
        assert s == AfterEffect(pc, PrintSpec(tokens, lines[pc], m, at));
      } else if c == "if" {
        IfAlwaysFails(lines, pc, tokens, m, at);
        assert s == IfSpec(lines, pc, tokens, m, at);
      } else if c == "else" {
        ElseAlwaysFails(lines, pc, tokens, m, at);
        assert s == ElseSpec(lines, pc, tokens, m, at);
      }
  }

  /** A `def`, `let` or `set` that reads past its words has exactly four; `print` never does. */
  lemma EffectUndefined(tokens: seq<string>, original: string, m: Machine, constant: bool, keyword: string, at: string)
    requires NonEmptyPieces(tokens)
    ensures var e := DefineSpec(tokens, m, constant, keyword, at);
            e.Halted? && e.outcome == Undefined ==> |tokens| == 4
    ensures var e := SetSpec(tokens, m, at);
            e.Halted? && e.outcome == Undefined ==> |tokens| == 4
    ensures var e := PrintSpec(tokens, original, m, at);
            e.Halted? ==> e.outcome == Returned(false)
  {
  }

  /** Only a `def`, `let` or `set` line of exactly four words reads past its words. */
  lemma UndefinedOnlyAtFourWords(lines: seq<string>, pc: nat, tokens: seq<string>, m: Machine)
    requires pc < |lines| && tokens != [] && NonEmptyPieces(tokens)
    ensures var s := CommandStep(lines, pc, tokens, m);
            s.Stop? && s.outcome == Undefined ==>
              |tokens| == 4 && (tokens[0] == "def" || tokens[0] == "let" || tokens[0] == "set")
  {
    var at := AtLine(pc);
    var c := tokens[0];
    var s := CommandStep(lines, pc, tokens, m);
    if c == "def" || c == "let" || c == "set" || c == "print" {
      EffectUndefined(tokens, lines[pc], m, c == "let", c, at);
    } else if c == "if" {
      IfAlwaysFails(lines, pc, tokens, m, at);
      assert s == IfSpec(lines, pc, tokens, m, at);
    } else if c == "else" {
      ElseAlwaysFails(lines, pc, tokens, m, at);
      assert s == ElseSpec(lines, pc, tokens, m, at);
    }
  }

  /**
   * A run of the loop from line `pc` with `lastError` clear: the table only
   * grows, output is only appended, and `lastError` is clear at the end
   * exactly when the run did not return `false`.
   */
  lemma {:induction false} RunPreserves(lines: seq<string>, pc: nat, m: Machine)
    requires m.lastError == ""
    ensures var f := Run(lines, pc, m);
            TableGrows(m.variables, f.m.variables) && m.output <= f.m.output &&
            (f.m.lastError == "" <==> f.outcome != Returned(false))
    decreases |lines| - pc
  {
    if pc < |lines| {
      StepPreserves(lines, pc, m);
      match StepAt(lines, pc, m)
      case Continue(next, m') =>
        RunPreserves(lines, next, m');
        TableGrowsTransitive(m.variables, m'.variables, Run(lines, next, m').m.variables);
      case Stop(o, m') =>
    }
  }

  /**
   * `execute`: `lastError` is clear at the end exactly when it did not
   * return `false`; no entry is removed, constants are never changed and
   * output is never taken back.
   */
  lemma ExecuteOutcome(lines: seq<string>, variables: map<string, Variable>, output: seq<string>)
    ensures var f := ExecuteSpec(lines, variables, output);
            TableGrows(variables, f.m.variables) && output <= f.m.output &&
            (f.m.lastError == "" <==> f.outcome != Returned(false))
  {
    RunPreserves(lines, 0, Machine(variables, output, ""));
  }
}
