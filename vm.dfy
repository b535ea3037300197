/**
 * The Mask VM line interpreter (src/mask-vm-parser.cpp, inc/mask-vm-parser.hpp).
 *
 * A program is a list of lines. `execute` walks them with a line counter,
 * keeps a table of typed variables, writes `print` output, and jumps over
 * `if`/`else` blocks with the help of `findMatchingStatement`.
 *
 * Each step of `execute` is specified by `StepAt`, a function of the program,
 * the line counter and the machine state; `Run` iterates it. The `MaskVM`
 * class performs the same steps in place and is proved to agree with them.
 * The output stream is the sequence of lines written to it.
 */
module VmInterpreter {
  import opened Wrappers
  import opened Strings

  // ---- values --------------------------------------------------------------

  datatype DataType = INT | STR | UNKNOWN

  /**
   * `Value`. The C++ string constructor leaves `intVal` uninitialised; it is
   * read only for `INT` values, so the model stores 0 there.
   */
  datatype Value = Value(kind: DataType, intVal: int, strVal: string)

  /** `Value()`. */
  function DefaultValue(): (v: Value)
    ensures v.kind == UNKNOWN && v.intVal == 0
  {
    Value(UNKNOWN, 0, "")
  }

  /** `Value(int)`. */
  function IntValue(n: int): (v: Value)
    ensures v.kind == INT && v.intVal == n
  {
    Value(INT, n, "")
  }

  /** `Value(const std::string&)`. */
  function StrValue(s: string): (v: Value)
    ensures v.kind == STR && v.strVal == s
  {
    Value(STR, 0, s)
  }

  /**
   * `Value::toString`. For an `INT` in the range of `int`, `std::stoi` reads
   * the text back as the same number.
   */
  function ToString(v: Value): (s: string)
    ensures v.kind == INT && IsInt32(v.intVal) ==> Stoi(s) == Some(v.intVal)
    ensures v.kind == STR ==> s == v.strVal
    ensures v.kind == UNKNOWN ==> s == "unknown"
  {
    match v.kind
    case INT =>
      if IsInt32(v.intVal) then StoiIntToString(v.intVal); IntToString(v.intVal)
      else IntToString(v.intVal)
    case STR => v.strVal
    case UNKNOWN => "unknown"
  }

  /** `Variable`: a table entry. */
  datatype Variable = Variable(isConstant: bool, value: Value)

  // ---- parsing helpers -----------------------------------------------------

  /** `parseDataType`. */
  function ParseDataType(s: string): (t: DataType)
    ensures t == INT <==> s == "int"
    ensures t == STR <==> s == "str"
  {
    if s == "int" then INT else if s == "str" then STR else UNKNOWN
  }

  /**
   * The `STR` branch of `parseValue`: one pair of surrounding quotes is
   * removed. A lone `"` is both first and last character and leaves "".
   */
  function Unquote(s: string): (r: string)
    requires s != []
    ensures r == s || (s[0] == '"' && s[|s| - 1] == '"' && |r| + 2 == |s|) || s == "\""
    ensures |s| >= 2 && s[0] == '"' && s[|s| - 1] == '"' ==> s == "\"" + r + "\""
    ensures s == "\"" ==> r == ""
  {
    if s[0] == '"' && s[|s| - 1] == '"' then
      (if |s| >= 2 then s[1..|s| - 1] else "")
    else s
  }

  /** A parsed value together with `lastError` afterwards. */
  datatype Parsed = Parsed(value: Value, lastError: string)

  /**
   * `parseValue(type, s)` when `lastError` is `err` beforehand. The `STR`
   * branch reads `s.front()`, so `s` must not be empty there.
   */
  function ParseValueSpec(t: DataType, s: string, err: string): (p: Parsed)
    requires t == STR ==> s != []
    ensures || (t != UNKNOWN && p.value.kind == t && p.lastError == err)
            || (p.value == DefaultValue() && p.lastError != "")
    ensures t == STR ==> p.value.kind == STR && p.value.strVal == Unquote(s)
    ensures p.value.kind == INT ==> Stoi(s) == Some(p.value.intVal)
    ensures t == INT ==> (p.value.kind == INT <==> Stoi(s).Some?)
  {
    match t
    case INT =>
      (match Stoi(s)
       case Some(n) => Parsed(IntValue(n), err)
       case None => Parsed(DefaultValue(), "Invalid integer value: " + s))
    case STR => Parsed(StrValue(Unquote(s)), err)
    case UNKNOWN => Parsed(DefaultValue(), "Unknown data type")
  }

  /** A condition's truth value together with `lastError` afterwards. */
  datatype Verdict = Verdict(holds: bool, lastError: string)

  /** `evaluateCondition(condition)`: `name == type value`, split at blanks. */
  function ConditionSpec(vars: map<string, Variable>, err: string, condition: string): (v: Verdict)
    ensures v.lastError == "" ==> err == ""
    ensures v.holds ==>
              var parts := SplitPieces(condition, ' ');
              && v.lastError == "" && |parts| == 4 && parts[2] == "=="
              && parts[0] in vars && vars[parts[0]].value.kind == ParseDataType(parts[1])
  {
    var parts := SplitPieces(condition, ' ');
    if |parts| != 4 || parts[2] != "==" then Verdict(false, "Invalid condition syntax: " + condition)
    else
      var t := ParseDataType(parts[1]);
      if t == UNKNOWN then Verdict(false, "Unknown type in condition: " + parts[1])
      else if parts[0] !in vars then Verdict(false, "Variable not found: " + parts[0])
      else
        var p := ParseValueSpec(t, parts[3], err);
        if p.lastError != "" then Verdict(false, p.lastError)
        else
          var stored := vars[parts[0]].value;
          if stored.kind != t then Verdict(false, "Type mismatch in condition")
          else if t == INT then Verdict(stored.intVal == p.value.intVal, p.lastError)
          else Verdict(stored.strVal == p.value.strVal, p.lastError)
  }

  /** The line without its `?` comment. */
  function StripComment(line: string): (r: string)
    ensures r <= line && '?' !in r
    ensures '?' !in line ==> r == line
  {
    FindChar(line, '?', 0);
    match Find(line, "?", 0)
    case None => line
    case Some(p) => line[..p]
  }

  /** What both `execute` and `findMatchingStatement` look at: comment removed, leading blanks removed. */
  function Instruction(line: string): (r: string)
    ensures |r| <= |line| && '?' !in r
    ensures r != [] ==> !IsSpace(r[0])
  {
    TrimLeftSuffix(StripComment(line));
    TrimLeft(StripComment(line))
  }

  /**
   * How one stripped line changes the nesting level of `findMatchingStatement`:
   * up by one for a line starting with `if`, down by one for a line starting
   * with `target` whose text after its first blank reads as `id`.
   */
  function Delta(line: string, id: int, target: string): (d: int)
    ensures -1 <= d <= 1
  {
    if line == [] then 0
    else if StartsWith(line, "if") then 1
    else if StartsWith(line, target) && NamedId(line) == Some(id) then -1
    else 0
  }

  /** The id a line names: what `std::stoi` reads after its first blank, if anything. */
  function NamedId(line: string): Option<int> {
    match Find(line, " ", 0)
    case None => None
    case Some(sp) => Stoi(line[sp + 1..])
  }

  /** The level change of every line of the program. */
  function Deltas(lines: seq<string>, id: int, target: string): (ds: seq<int>)
    ensures |ds| == |lines|
    decreases |lines|, 1
  {
    if lines == [] then [] else DeltasThrough(lines, id, target)
  }

  function DeltasThrough(lines: seq<string>, id: int, target: string): (ds: seq<int>)
    requires lines != []
    ensures |ds| == |lines|
    decreases |lines|, 0
  {
    Deltas(lines[..|lines| - 1], id, target) + [Delta(Instruction(lines[|lines| - 1]), id, target)]
  }

  lemma {:induction false} DeltaAt(lines: seq<string>, id: int, target: string, k: nat)
    requires k < |lines|
    ensures Deltas(lines, id, target)[k] == Delta(Instruction(lines[k]), id, target)
    decreases |lines|
  {
    assert Deltas(lines, id, target) == DeltasThrough(lines, id, target);
    if k < |lines| - 1 {
      DeltaAt(lines[..|lines| - 1], id, target, k);
      assert lines[..|lines| - 1][k] == lines[k];
    }
  }

  /** The first index from `i` on at which a decrement brings the running level back to 0. */
  function Settle(ds: seq<int>, i: nat, level: int): (r: Option<nat>)
    ensures r.Some? ==> i <= r.value < |ds| && ds[r.value] == -1
    decreases |ds| - i
  {
    if i >= |ds| then None
    else if ds[i] == -1 && level - 1 == 0 then Some(i)
    else Settle(ds, i + 1, level + ds[i])
  }

  /**
   * The loop of `findMatchingStatement` from line `i` with nesting level
   * `level`: the first line whose decrement brings the level back to 0.
   */
  function MatchFrom(lines: seq<string>, i: nat, id: int, target: string, level: int): (r: Option<nat>)
    ensures r.Some? ==> i <= r.value < |lines|
  {
    Settle(Deltas(lines, id, target), i, level)
  }

  function NotFoundMessage(target: string, id: int): string {
    "Matching " + target + " not found for id: " + IntToString(id)
  }

  // ---- one step of execute -------------------------------------------------

  /** The state `execute` changes: the variable table, the output lines and `lastError`. */
  datatype Machine = Machine(variables: map<string, Variable>, output: seq<string>, lastError: string)

  /** How `execute` ends: its `bool` result, or an out-of-range read with no defined result. */
  datatype Outcome = Returned(ok: bool) | Undefined

  /** The effect of a command that does not jump: carry on, or stop. */
  datatype Effect = Done(m: Machine) | Halted(outcome: Outcome, m: Machine)

  /** One iteration of the loop of `execute`: the next line to run, or the end. */
  datatype Step = Continue(next: nat, m: Machine) | Stop(outcome: Outcome, m: Machine)

  /** No variable disappears and output is only appended. */
  predicate Extends(m: Machine, m': Machine) {
    m.variables.Keys <= m'.variables.Keys && m.output <= m'.output
  }

  function Fail(m: Machine, message: string): Effect {
    Halted(Returned(false), m.(lastError := message))
  }

  function AtLine(pc: nat): string {
    " at line " + IntToString(pc + 1)
  }

  predicate NonEmptyPieces(tokens: seq<string>) {
    forall i :: 0 <= i < |tokens| ==> tokens[i] != []
  }

  /**
   * `def` (`constant` false) and `let` (`constant` true): `keyword type name
   * valueType value`. The arity guard admits four words, but the value is the
   * fifth; with exactly four the read is out of range.
   */
  function DefineSpec(tokens: seq<string>, m: Machine, constant: bool, keyword: string, at: string): (e: Effect)
    requires NonEmptyPieces(tokens)
    ensures e.m.output == m.output
    ensures e.Halted? ==> e.m.variables == m.variables && e.outcome != Returned(true)
    ensures e.Halted? && e.outcome == Returned(false) ==> e.m.lastError != ""
    ensures e.Halted? && e.outcome == Undefined ==> |tokens| == 4 && e.m == m
    ensures e.Done? ==> |tokens| > 4
    ensures e.Done? && |tokens| > 4 ==>
              var name := tokens[2];
              && name !in m.variables && e.m.lastError == ""
              && e.m.variables.Keys == m.variables.Keys + {name}
              && e.m.variables[name].isConstant == constant
              && e.m.variables[name].value == ParseValueSpec(ParseDataType(tokens[3]), tokens[4], m.lastError).value
              && (forall k :: k in m.variables ==> e.m.variables[k] == m.variables[k])
  {
    if |tokens| < 4 then Fail(m, "Invalid " + keyword + " syntax" + at)
    else if ParseDataType(tokens[1]) == UNKNOWN then Fail(m, "Unknown type in " + keyword + at)
    else if tokens[2] in m.variables then Fail(m, "Variable already exists: " + tokens[2] + at)
    else if |tokens| == 4 then Halted(Undefined, m)
    else
      var p := ParseValueSpec(ParseDataType(tokens[3]), tokens[4], m.lastError);
      if p.lastError != "" then Fail(m, p.lastError + at)
      else Done(m.(variables := m.variables[tokens[2] := Variable(constant, p.value)], lastError := p.lastError))
  }

  /** `set type name valueType value`: only an existing, non-constant entry changes. */
  function SetSpec(tokens: seq<string>, m: Machine, at: string): (e: Effect)
    requires NonEmptyPieces(tokens)
    ensures e.m.output == m.output
    ensures e.Halted? ==> e.m.variables == m.variables && e.outcome != Returned(true)
    ensures e.Halted? && e.outcome == Returned(false) ==> e.m.lastError != ""
    ensures e.Halted? && e.outcome == Undefined ==> |tokens| == 4 && e.m == m
    ensures e.Done? ==> |tokens| > 4
    ensures e.Done? && |tokens| > 4 ==>
              var name := tokens[2];
              && name in m.variables && !m.variables[name].isConstant
              && e.m.lastError == "" && name in e.m.variables
              && e.m.variables == m.variables[name := Variable(false, e.m.variables[name].value)]
              && e.m.variables[name].value == ParseValueSpec(ParseDataType(tokens[3]), tokens[4], m.lastError).value
  {
    if |tokens| < 4 then Fail(m, "Invalid set syntax" + at)
    else if ParseDataType(tokens[1]) == UNKNOWN then Fail(m, "Unknown type in set" + at)
    else if tokens[2] !in m.variables then Fail(m, "Variable not found: " + tokens[2] + at)
    else if m.variables[tokens[2]].isConstant then Fail(m, "Cannot set a constant: " + tokens[2] + at)
    else if |tokens| == 4 then Halted(Undefined, m)
    else
      var p := ParseValueSpec(ParseDataType(tokens[3]), tokens[4], m.lastError);
      if p.lastError != "" then Fail(m, p.lastError + at)
      else
        var name := tokens[2];
        Done(m.(variables := m.variables[name := m.variables[name].(value := p.value)], lastError := p.lastError))
  }

  /**
   * `print str "text"` writes the text between `str "` and the next quote of
   * the original line; `print name` writes the variable's `toString`.
   */
  function PrintSpec(tokens: seq<string>, original: string, m: Machine, at: string): (e: Effect)
    requires NonEmptyPieces(tokens)
    ensures e.m.variables == m.variables
    ensures e.Halted? ==> e.outcome == Returned(false) && e.m.lastError != "" && e.m.output == m.output
    ensures e.Done? ==> e.m.lastError == m.lastError && m.output <= e.m.output && |e.m.output| == |m.output| + 1
    ensures e.Done? ==> |tokens| >= 2
    ensures e.Done? && |tokens| >= 2 && tokens[1] != "str" ==>
              tokens[1] in m.variables && e.m.output[|m.output|] == ToString(m.variables[tokens[1]].value)
    ensures e.Done? && |tokens| >= 2 && tokens[1] == "str" ==>
              Find(original, "str \"", 0).Some? &&
              var start := Find(original, "str \"", 0).value + 5;
              var text := e.m.output[|m.output|];
              && start + |text| < |original| && original[start..start + |text|] == text
              && original[start + |text|] == '"' && '"' !in text
  {
    if |tokens| < 2 then Fail(m, "Invalid print syntax" + at)
    else if tokens[1] == "str" then
      match Find(original, "str \"", 0)
      case None => Fail(m, "Invalid string in print" + at)
      case Some(p) =>
        FindChar(original, '"', p + 5);
        match Find(original, "\"", p + 5)
        case None => Fail(m, "Unclosed string in print" + at)
        case Some(e) => Done(m.(output := m.output + [original[p + 5..e]]))
    else if tokens[1] !in m.variables then Fail(m, "Variable not found: " + tokens[1] + at)
    else Done(m.(output := m.output + [ToString(m.variables[tokens[1]].value)]))
  }

  /** The condition text of `if id condition`: after `if <id> ` in the original line, up to a `?`. */
  function ConditionText(original: string, start: nat): string
    requires start <= |original|
  {
    match Find(original, "?", start)
    case None => original[start..]
    case Some(c) => original[start..c]
  }

  /**
   * `if id condition`: evaluate the condition, look for the matching `else`
   * and `end if`, and go on with the next line or after the `else`.
   */
  function IfSpec(lines: seq<string>, pc: nat, tokens: seq<string>, m: Machine, at: string): (s: Step)
    requires pc < |lines| && NonEmptyPieces(tokens)
    ensures s.Continue? ==> pc < s.next <= |lines|
    ensures s.m.variables == m.variables && s.m.output == m.output
  {
    if |tokens| < 2 then Stop(Returned(false), m.(lastError := "Invalid if syntax" + at))
    else match Stoi(tokens[1])
      case None => Stop(Returned(false), m.(lastError := "Invalid if ID" + at))
      case Some(id) =>
        match GuardSpec(lines[pc], id, m, at)
        case Rejected(m') => Stop(Returned(false), m')
        case Judged(holds, m') => BranchSpec(lines, pc, id, holds, m')
  }

  /** The condition of an `if`: rejected (with `lastError` set), or judged true or false. */
  datatype Judgement = Rejected(m: Machine) | Judged(holds: bool, m: Machine)

  /**
   * The condition of `if <id> condition`: the text after `if <id> ` in the
   * original line, up to a `?`; `None` when that prefix does not occur.
   */
  function IfCondition(original: string, id: int): Option<string> {
    var prefix := "if " + IntToString(id) + " ";
    match Find(original, prefix, 0)
    case None => None
    case Some(ifPos) => Some(ConditionText(original, ifPos + |prefix|))
  }

  /** `if` once its id is known: an error in the condition stops `execute`. */
  function GuardSpec(original: string, id: int, m: Machine, at: string): (j: Judgement)
    ensures j.m.variables == m.variables && j.m.output == m.output
    ensures j.Rejected? ==> j.m.lastError != []
  {
    match IfCondition(original, id)
    case None => Rejected(m.(lastError := "Invalid if syntax" + at))
    case Some(condition) =>
      var v := ConditionSpec(m.variables, m.lastError, condition);
      if v.lastError != "" then Rejected(m.(lastError := v.lastError + at))
      else Judged(v.holds, m.(lastError := v.lastError))
  }

  /**
   * The second half of `if`: both the matching `else` and the matching
   * `end if` are looked for (each miss sets `lastError`), then the block
   * or the code after the `else` runs.
   */
  function BranchSpec(lines: seq<string>, pc: nat, id: int, holds: bool, m: Machine): (s: Step)
    requires pc < |lines|
    ensures s.Continue? ==> pc < s.next <= |lines|
    ensures s.m.variables == m.variables && s.m.output == m.output
  {
    var elseLine := MatchFrom(lines, pc + 1, id, "else", 0);
    var err1 := if elseLine.None? then NotFoundMessage("else", id) else m.lastError;
    var endIfLine := MatchFrom(lines, pc + 1, id, "end if", 0);
    var err2 := if endIfLine.None? then NotFoundMessage("end if", id) else err1;
    if elseLine.None? || endIfLine.None? then Stop(Returned(false), m.(lastError := err2))
    else if holds then Continue(pc + 1, m.(lastError := err2))
    else Continue(elseLine.value + 1, m.(lastError := err2))
  }

  /** `else id`: jump past the matching `end if`. */
  function ElseSpec(lines: seq<string>, pc: nat, tokens: seq<string>, m: Machine, at: string): (s: Step)
    requires pc < |lines| && NonEmptyPieces(tokens)
    ensures s.Continue? ==> pc < s.next <= |lines|
    ensures s.m.variables == m.variables && s.m.output == m.output
  {
    if |tokens| < 2 then Stop(Returned(false), m.(lastError := "Invalid else syntax" + at))
    else match Stoi(tokens[1])
      case None => Stop(Returned(false), m.(lastError := "Invalid else ID" + at))
      case Some(id) =>
        match MatchFrom(lines, pc + 1, id, "end if", 0)
        case None => Stop(Returned(false), m.(lastError := NotFoundMessage("end if", id)))
        case Some(k) => Continue(k + 1, m)
  }

  function AfterEffect(pc: nat, e: Effect): Step {
    match e
    case Done(m) => Continue(pc + 1, m)
    case Halted(o, m) => Stop(o, m)
  }

  /**
   * The words of a line: comment and leading blanks removed, then split at
   * blanks. `None` when nothing is left, and `execute` skips the line.
   */
  function LineTokens(original: string): (r: Option<seq<string>>)
    ensures r.Some? ==> r.value != [] && NonEmptyPieces(r.value)
  {
    var line := Instruction(original);
    if line == [] then None
    else
      var tokens := SplitPieces(line, ' ');
      if tokens == [] then None else Some(tokens)
  }

  /** One iteration of the `while` loop of `execute` at line `pc`. */
  function StepAt(lines: seq<string>, pc: nat, m: Machine): (s: Step)
    requires pc < |lines|
    ensures s.Continue? ==> pc < s.next <= |lines|
    ensures Extends(m, s.m)
  {
    match LineTokens(lines[pc])
    case None => Continue(pc + 1, m)
    case Some(tokens) => CommandStep(lines, pc, tokens, m)
  }

  /** The command named by the first word of line `pc`. */
  function CommandStep(lines: seq<string>, pc: nat, tokens: seq<string>, m: Machine): (s: Step)
    requires pc < |lines| && tokens != [] && NonEmptyPieces(tokens)
    ensures s.Continue? ==> pc < s.next <= |lines|
    ensures Extends(m, s.m)
  {
    var command := tokens[0];
    var at := AtLine(pc);
    if command == "def" then AfterEffect(pc, DefineSpec(tokens, m, false, "def", at))
    else if command == "let" then AfterEffect(pc, DefineSpec(tokens, m, true, "let", at))
    else if command == "set" then AfterEffect(pc, SetSpec(tokens, m, at))
    else if command == "print" then AfterEffect(pc, PrintSpec(tokens, lines[pc], m, at))
    else if command == "if" then IfSpec(lines, pc, tokens, m, at)
    else if command == "else" then ElseSpec(lines, pc, tokens, m, at)
    else if command == "end" && |tokens| > 1 && tokens[1] == "if" then Continue(pc + 1, m)
    else Stop(Returned(false), m.(lastError := "Unknown command: " + command + at))
  }

  datatype Final = Final(outcome: Outcome, m: Machine)

  /** The loop of `execute` from line `pc`: every step moves forward, so it ends. */
  function Run(lines: seq<string>, pc: nat, m: Machine): (f: Final)
    ensures Extends(m, f.m)
    decreases |lines| - pc
  {
    if pc >= |lines| then Final(Returned(true), m)
    else
      match StepAt(lines, pc, m)
      case Continue(next, m') => Run(lines, next, m')
      case Stop(o, m') => Final(o, m')
  }

  /** What `execute` computes: `lastError` is cleared, then the loop runs from the first line. */
  function ExecuteSpec(lines: seq<string>, variables: map<string, Variable>, output: seq<string>): (f: Final)
    ensures variables.Keys <= f.m.variables.Keys && output <= f.m.output
  {
    Run(lines, 0, Machine(variables, output, ""))
  }

  /** How `execute` goes on after a line: the next line to run, or the return. */
  datatype Control = Goto(line: nat) | Return(outcome: Outcome)

  // ---- the interpreter -----------------------------------------------------

  /** `MaskVM`. */
  class MaskVM {
    var variables: map<string, Variable>
    var codeLines: seq<string>
    var output: seq<string>
    var lastError: string

    constructor()
      ensures variables == map[] && codeLines == [] && output == [] && lastError == ""
    {
      variables := map[];
      codeLines := [];
      output := [];
      lastError := "";
    }

    function State(): Machine
      reads this
    {
      Machine(variables, output, lastError)
    }

    function GetLastError(): (e: string)
      reads this
      ensures e == State().lastError
    {
      lastError
    }

    /** `parseValue`: only an error changes `lastError`. */
    method ParseValue(t: DataType, s: string) returns (v: Value)
      requires t == STR ==> s != []
      modifies this`lastError
      ensures Parsed(v, lastError) == ParseValueSpec(t, s, old(lastError))
    {
      if t == INT {
        var n := Stoi(s);
        if n.None? {
          lastError := "Invalid integer value: " + s;
          return DefaultValue();
        }
        return IntValue(n.value);
      } else if t == STR {
        var str := s;
        if str[0] == '"' && str[|str| - 1] == '"' {
          str := if |str| >= 2 then str[1..|str| - 1] else "";
        }
        return StrValue(str);
      }
      lastError := "Unknown data type";
      return DefaultValue();
    }

    /** `evaluateCondition`. */
    method EvaluateCondition(condition: string) returns (b: bool)
      modifies this`lastError
      ensures Verdict(b, lastError) == ConditionSpec(variables, old(lastError), condition)
    {
      var parts := Split(condition, ' ');
      if |parts| != 4 || parts[2] != "==" {
        lastError := "Invalid condition syntax: " + condition;
        return false;
      }
      var varName := parts[0];
      var t := ParseDataType(parts[1]);
      if t == UNKNOWN {
        lastError := "Unknown type in condition: " + parts[1];
        return false;
      }
      if varName !in variables {
        lastError := "Variable not found: " + varName;
        return false;
      }
      var compareVal := ParseValue(t, parts[3]);
      if lastError != "" {
        return false;
      }
      var stored := variables[varName].value;
      if stored.kind != t {
        lastError := "Type mismatch in condition";
        return false;
      }
      if t == INT {
        return stored.intVal == compareVal.intVal;
      }
      return stored.strVal == compareVal.strVal;
    }

    /** `findMatchingStatement`: the matching line, or -1 with `lastError` set. */
    method FindMatchingStatement(startLine: nat, id: int, target: string) returns (r: int)
      modifies this`lastError
      ensures MatchFrom(codeLines, startLine, id, target, 0).None? ==>
                r == -1 && lastError == NotFoundMessage(target, id)
      ensures MatchFrom(codeLines, startLine, id, target, 0).Some? ==>
                r == MatchFrom(codeLines, startLine, id, target, 0).value && lastError == old(lastError)
    {
      var lines := codeLines;
      ghost var ds := Deltas(lines, id, target);
      var nestingLevel := 0;
      var i := startLine;
      while i < |lines|
        invariant startLine <= i
        invariant Settle(ds, startLine, 0) == Settle(ds, i, nestingLevel)
        invariant lastError == old(lastError)
        decreases |lines| - i
      {
        var d := LevelAt(lines, i, id, target);
        nestingLevel := nestingLevel + d;
        if d == -1 && nestingLevel == 0 {
          return i;
        }
        i := i + 1;
      }
      lastError := NotFoundMessage(target, id);
      return -1;
    }

    /** The level change at line `i`, from its stripped text. */
    static method LevelAt(lines: seq<string>, i: nat, id: int, target: string) returns (d: int)
      requires i < |lines|
      ensures d == Deltas(lines, id, target)[i]
    {
      d := LevelChange(Instruction(lines[i]), id, target);
      DeltaAt(lines, id, target, i);
    }

    /** How the loop of `findMatchingStatement` changes its nesting level at one stripped line. */
    static method LevelChange(line: string, id: int, target: string) returns (d: int)
      ensures d == Delta(line, id, target)
    {
      if line == [] {
        return 0;
      }
      if StartsWith(line, "if") {
        return 1;
      }
      if StartsWith(line, target) {
        var spacePos := Find(line, " ", 0);
        if spacePos.None? {
          return 0;
        }
        var current := Stoi(line[spacePos.value + 1..]);
        assert current == NamedId(line);
        if current.Some? && current.value == id {
          return -1;
        }
      }
      return 0;
    }

    /**
     * `loadCode`: the program becomes the lines of `code` as `std::getline`
     * reads them, and the table and `lastError` are emptied.
     */
    method LoadCode(code: string) returns (ok: bool)
      modifies this`codeLines, this`variables, this`lastError
      ensures ok && codeLines == Lines(code) && variables == map[] && lastError == ""
    {
      codeLines := [];
      variables := map[];
      lastError := "";
      var line: string := [];
      ghost var done: seq<string> := [];
      var i := 0;
      while i < |code|
        invariant 0 <= i <= |code|
        invariant Fields(code[..i], '\n') == done + [line]
        invariant codeLines == done && variables == map[] && lastError == ""
      {
        assert code[..i + 1][..i] == code[..i];
        if code[i] == '\n' {
          assert (done + [line])[..|done|] == done;
          codeLines := codeLines + [line];
          done := done + [line];
          line := [];
        } else {
          line := line + [code[i]];
        }
        i := i + 1;
      }
      assert code[..|code|] == code;
      assert (done + [line])[..|done|] == done;
      if line != [] {
        codeLines := codeLines + [line];
      }
      return true;
    }

    /** `def`/`let` in place. */
    method Define(tokens: seq<string>, constant: bool, keyword: string, at: string) returns (halt: Option<Outcome>)
      requires NonEmptyPieces(tokens)
      modifies this`variables, this`lastError
      ensures var e := DefineSpec(tokens, old(State()), constant, keyword, at);
              State() == e.m && halt == (if e.Done? then None else Some(e.outcome))
    {
      if |tokens| < 4 {
        lastError := "Invalid " + keyword + " syntax" + at;
        return Some(Returned(false));
      }
      var t := ParseDataType(tokens[1]);
      if t == UNKNOWN {
        lastError := "Unknown type in " + keyword + at;
        return Some(Returned(false));
      }
      var varName := tokens[2];
      if varName in variables {
        lastError := "Variable already exists: " + varName + at;
        return Some(Returned(false));
      }
      if |tokens| == 4 {
        return Some(Undefined);
      }
      var value := ParseValue(ParseDataType(tokens[3]), tokens[4]);
      if lastError != "" {
        lastError := lastError + at;
        return Some(Returned(false));
      }
      variables := variables[varName := Variable(constant, value)];
      return None;
    }

    /** `set` in place. */
    method SetVariable(tokens: seq<string>, at: string) returns (halt: Option<Outcome>)
      requires NonEmptyPieces(tokens)
      modifies this`variables, this`lastError
      ensures var e := SetSpec(tokens, old(State()), at);
              State() == e.m && halt == (if e.Done? then None else Some(e.outcome))
    {
      if |tokens| < 4 {
        lastError := "Invalid set syntax" + at;
        return Some(Returned(false));
      }
      var t := ParseDataType(tokens[1]);
      if t == UNKNOWN {
        lastError := "Unknown type in set" + at;
        return Some(Returned(false));
      }
      var varName := tokens[2];
      if varName !in variables {
        lastError := "Variable not found: " + varName + at;
        return Some(Returned(false));
      }
      if variables[varName].isConstant {
        lastError := "Cannot set a constant: " + varName + at;
        return Some(Returned(false));
      }
      if |tokens| == 4 {
        return Some(Undefined);
      }
      var value := ParseValue(ParseDataType(tokens[3]), tokens[4]);
      if lastError != "" {
        lastError := lastError + at;
        return Some(Returned(false));
      }
      variables := variables[varName := variables[varName].(value := value)];
      return None;
    }

    /** `print` in place. */
    method Print(tokens: seq<string>, original: string, at: string) returns (halt: Option<Outcome>)
      requires NonEmptyPieces(tokens)
      modifies this`output, this`lastError
      ensures var e := PrintSpec(tokens, original, old(State()), at);
              State() == e.m && halt == (if e.Done? then None else Some(e.outcome))
    {
      if |tokens| < 2 {
        lastError := "Invalid print syntax" + at;
        return Some(Returned(false));
      }
      if tokens[1] == "str" {
        var strPos := Find(original, "str \"", 0);
        if strPos.None? {
          lastError := "Invalid string in print" + at;
          return Some(Returned(false));
        }
        var start := strPos.value + 5;
        var endPos := Find(original, "\"", start);
        if endPos.None? {
          lastError := "Unclosed string in print" + at;
          return Some(Returned(false));
        }
        output := output + [original[start..endPos.value]];
      } else {
        var varName := tokens[1];
        if varName !in variables {
          lastError := "Variable not found: " + varName + at;
          return Some(Returned(false));
        }
        output := output + [ToString(variables[varName].value)];
      }
      return None;
    }

    /** `if` in place. */
    method If(pc: nat, tokens: seq<string>, at: string) returns (c: Control)
      requires pc < |codeLines| && NonEmptyPieces(tokens)
      modifies this`lastError
      ensures var s := IfSpec(codeLines, pc, tokens, old(State()), at);
              State() == s.m && c == (if s.Continue? then Goto(s.next) else Return(s.outcome))
    {
      if |tokens| < 2 {
        lastError := "Invalid if syntax" + at;
        return Return(Returned(false));
      }
      var ifId := Stoi(tokens[1]);
      if ifId.None? {
        lastError := "Invalid if ID" + at;
        return Return(Returned(false));
      }
      var ok, holds := Guard(codeLines[pc], ifId.value, at);
      if !ok {
        return Return(Returned(false));
      }
      c := Branch(pc, ifId.value, holds);
    }

    /** `if` once its id is known: find and evaluate the condition. */
    method Guard(original: string, id: int, at: string) returns (ok: bool, holds: bool)
      modifies this`lastError
      ensures var j := GuardSpec(original, id, old(State()), at);
              State() == j.m && ok == j.Judged? && (ok ==> holds == j.holds)
    {
      var ifPos := Find(original, "if " + IntToString(id) + " ", 0);
      if ifPos.None? {
        lastError := "Invalid if syntax" + at;
        return false, false;
      }
      var conditionStart := ifPos.value + 4 + |IntToString(id)|;
      var commentStart := Find(original, "?", conditionStart);
      var condition := if commentStart.Some? then original[conditionStart..commentStart.value]
                       else original[conditionStart..];
      assert IfCondition(original, id) == Some(condition);
      holds := EvaluateCondition(condition);
      if lastError != "" {
        lastError := lastError + at;
        return false, holds;
      }
      return true, holds;
    }

    /** The jump of `if` once its condition is known. */
    method Branch(pc: nat, id: int, holds: bool) returns (c: Control)
      requires pc < |codeLines|
      modifies this`lastError
      ensures var s := BranchSpec(codeLines, pc, id, holds, old(State()));
              State() == s.m && c == (if s.Continue? then Goto(s.next) else Return(s.outcome))
    {
      ghost var m := State();
      ghost var elseMatch := MatchFrom(codeLines, pc + 1, id, "else", 0);
      ghost var endIfMatch := MatchFrom(codeLines, pc + 1, id, "end if", 0);
      var elseLine := FindMatchingStatement(pc + 1, id, "else");
      ghost var err1 := lastError;
      var endIfLine := FindMatchingStatement(pc + 1, id, "end if");
      assert err1 == (if elseMatch.None? then NotFoundMessage("else", id) else m.lastError);
      assert lastError == (if endIfMatch.None? then NotFoundMessage("end if", id) else err1);
      if elseLine == -1 || endIfLine == -1 {
        c := Return(Returned(false));
      } else if holds {
        c := Goto(pc + 1);
      } else {
        c := Goto(elseLine + 1);
      }
    }

    /** `else` in place. */
    method Else(pc: nat, tokens: seq<string>, at: string) returns (c: Control)
      requires pc < |codeLines| && NonEmptyPieces(tokens)
      modifies this`lastError
      ensures var s := ElseSpec(codeLines, pc, tokens, old(State()), at);
              State() == s.m && c == (if s.Continue? then Goto(s.next) else Return(s.outcome))
    {
      if |tokens| < 2 {
        lastError := "Invalid else syntax" + at;
        return Return(Returned(false));
      }
      var elseId := Stoi(tokens[1]);
      if elseId.None? {
        lastError := "Invalid else ID" + at;
        return Return(Returned(false));
      }
      var endIfLine := FindMatchingStatement(pc + 1, elseId.value, "end if");
      if endIfLine == -1 {
        return Return(Returned(false));
      }
      return Goto(endIfLine + 1);
    }

    /** The body of the `while` loop of `execute` for line `pc`. */
    method ExecuteLine(pc: nat) returns (c: Control)
      requires pc < |codeLines|
      modifies this`variables, this`output, this`lastError
      ensures var s := StepAt(codeLines, pc, old(State()));
              State() == s.m && c == (if s.Continue? then Goto(s.next) else Return(s.outcome))
    {
      var line := Instruction(codeLines[pc]);
      if line == [] {
        return Goto(pc + 1);
      }
      var tokens := Split(line, ' ');
      if tokens == [] {
        return Goto(pc + 1);
      }
      assert LineTokens(codeLines[pc]) == Some(tokens);
      c := Dispatch(pc, tokens);
    }

    /** The commands of `execute`, chosen by the first word of the line. */
    method Dispatch(pc: nat, tokens: seq<string>) returns (c: Control)
      requires pc < |codeLines| && tokens != [] && NonEmptyPieces(tokens)
      modifies this`variables, this`output, this`lastError
      ensures var s := CommandStep(codeLines, pc, tokens, old(State()));
              State() == s.m && c == (if s.Continue? then Goto(s.next) else Return(s.outcome))
    {
      var command := tokens[0];
      var at := AtLine(pc);
      var halt: Option<Outcome> := None;
      if command == "def" {
        halt := Define(tokens, false, "def", at);
      } else if command == "let" {
        halt := Define(tokens, true, "let", at);
      } else if command == "set" {
        halt := SetVariable(tokens, at);
      } else if command == "print" {
        halt := Print(tokens, codeLines[pc], at);
      } else if command == "if" {
        c := If(pc, tokens, at);
        return;
      } else if command == "else" {
        c := Else(pc, tokens, at);
        return;
      } else if command == "end" && |tokens| > 1 && tokens[1] == "if" {
      } else {
        lastError := "Unknown command: " + command + at;
        return Return(Returned(false));
      }
      if halt.Some? {
        return Return(halt.value);
      }
      return Goto(pc + 1);
    }

    /**
     * `execute`: clear `lastError`, then run line after line until the end
     * (`true`) or a command fails (`false`).
     */
    method Execute() returns (r: Outcome)
      modifies this`variables, this`output, this`lastError
      ensures var f := ExecuteSpec(codeLines, old(variables), old(output));
              r == f.outcome && State() == f.m
    {
      lastError := "";
      var lineNumber: nat := 0;
      while lineNumber < |codeLines|
        invariant ExecuteSpec(codeLines, old(variables), old(output)) == Run(codeLines, lineNumber, State())
        decreases |codeLines| - lineNumber
      {
        var c := ExecuteLine(lineNumber);
        match c
        case Return(o) =>
          return o;
        case Goto(next) =>
          lineNumber := next;
      }
      return Returned(true);
    }
  }
}
