/**
 * The parser support layer (src/parser.cpp, inc/parser.hpp): the diagnostics
 * list, the scope stack, the token cursor and the two declaration rules the
 * parser has so far.
 *
 * Where the C++ has no defined behaviour (a function that falls off its end
 * without returning, a rule that is called but never defined) the model
 * returns a `Failed` result naming the defect, and where it reads outside the
 * token vector the model states a precondition.
 */
module Parsing {
  import opened Wrappers
  import opened Scanning
  import opened Syntax

  // ---- diagnostics ---------------------------------------------------------

  /** `ErrorReporter::Error`. */
  datatype Diagnostic = Diagnostic(line: int, message: string, context: string)

  /** `ErrorReporter`: an append-only list of diagnostics that can be emptied. */
  class ErrorReporter {
    var errors: seq<Diagnostic>

    constructor()
      ensures errors == []
    {
      errors := [];
    }

    /** `report(line, message)`: appends one entry with an empty context and returns it. */
    method Report(line: int, message: string) returns (e: Diagnostic)
      modifies this
      ensures e == Diagnostic(line, message, "")
      ensures errors == old(errors) + [e]
    {
      errors := errors + [Diagnostic(line, message, "")];
      e := errors[|errors| - 1];
    }

    function HasErrors(): (b: bool)
      reads this
      ensures b <==> |GetErrors()| > 0
    {
      errors != []
    }

    /** The diagnostics in the order they were reported. */
    function GetErrors(): (r: seq<Diagnostic>)
      reads this
      ensures |r| == |errors| && forall i :: 0 <= i < |r| ==> r[i] == errors[i]
    {
      errors
    }

    method Clear()
      modifies this
      ensures errors == [] && !HasErrors()
    {
      errors := [];
    }
  }

  // ---- scopes --------------------------------------------------------------

  /** An `ASTNode*` stored in a scope; `None` is the null pointer. */
  type NodeRef = Option<NodeId>

  /** `Parser::Scope`: the names declared in one block, and the block's name. */
  datatype Scope = Scope(symbols: map<string, NodeRef>, name: string)

  /**
   * The binding of `name` in the innermost frame that has one, or `None` when
   * no frame binds it.
   */
  function Lookup(frames: seq<Scope>, name: string): (r: Option<NodeRef>)
    ensures r.Some? <==> exists i :: 0 <= i < |frames| && name in frames[i].symbols
    ensures r.Some? ==> exists i :: 0 <= i < |frames| && name in frames[i].symbols
                          && r.value == frames[i].symbols[name]
                          && forall j :: i < j < |frames| ==> name !in frames[j].symbols
  {
    if frames == [] then None
    else if name in frames[|frames| - 1].symbols then Some(frames[|frames| - 1].symbols[name])
    else
      var r := Lookup(frames[..|frames| - 1], name);
      assert forall i :: 0 <= i < |frames| - 1 ==> frames[..|frames| - 1][i] == frames[i];
      r
  }

  /** What `resolve` returns: the innermost binding, or null when there is none. */
  function Resolved(frames: seq<Scope>, name: string): NodeRef {
    match Lookup(frames, name)
    case None => None
    case Some(v) => v
  }

  /** The stack after `declare(name, node)`: the innermost frame maps `name` to `node`. */
  function Declared(frames: seq<Scope>, name: string, node: NodeRef): seq<Scope> {
    if frames == [] then frames
    else
      var top := frames[|frames| - 1];
      frames[..|frames| - 1] + [top.(symbols := top.symbols[name := node])]
  }

  /** The stack after `exitScope()`. */
  function Exited(frames: seq<Scope>): seq<Scope> {
    if frames == [] then [] else frames[..|frames| - 1]
  }

  function DuplicateMessage(name: string, scope: string): string {
    "Duplicate identifier '" + name + "' in scope '" + scope + "'"
  }

  /** `declare` reports a duplicate only when the innermost frame already binds the name. */
  predicate IsDuplicate(frames: seq<Scope>, name: string) {
    frames != [] && name in frames[|frames| - 1].symbols
  }

  // ---- tokens --------------------------------------------------------------

  /** What the scanner hands the parser: a token vector whose last token is `Eof`. */
  predicate EndsWithEof(ts: seq<Token>) {
    |ts| > 0 && ts[|ts| - 1].kind == Eof
  }

  /** The first `Eof` at or after `i`. */
  function FirstEofFrom(ts: seq<Token>, i: nat): (k: nat)
    requires EndsWithEof(ts) && i < |ts|
    ensures i <= k < |ts| && ts[k].kind == Eof
    ensures forall j :: i <= j < k ==> ts[j].kind != Eof
    decreases |ts| - i
  {
    if ts[i].kind == Eof then i else FirstEofFrom(ts, i + 1)
  }

  /** The index past which the cursor never moves. */
  function EofIndex(ts: seq<Token>): (k: nat)
    requires EndsWithEof(ts)
    ensures k < |ts| && ts[k].kind == Eof
    ensures forall j :: 0 <= j < k ==> ts[j].kind != Eof
  {
    FirstEofFrom(ts, 0)
  }

  /** `check(kind)` with the cursor at `cur`: the token there has that kind and is not the final `Eof`. */
  predicate Sees(ts: seq<Token>, cur: nat, kind: TokenType)
    requires EndsWithEof(ts)
  {
    cur < EofIndex(ts) && ts[cur].kind == kind
  }

  /** The cursor after one `advance()`: it moves unless it sits on `Eof`. */
  function Advanced(ts: seq<Token>, cur: nat): (r: nat)
    requires EndsWithEof(ts) && cur <= EofIndex(ts)
    ensures r <= EofIndex(ts)
    ensures r == cur + 1 || r == cur
    ensures r == cur <==> cur == EofIndex(ts)
  {
    if ts[cur].kind == Eof then cur else cur + 1
  }

  /** The cursor after `k` calls of `advance()`. */
  function AdvancedBy(ts: seq<Token>, cur: nat, k: nat): (r: nat)
    requires EndsWithEof(ts) && cur <= EofIndex(ts)
    ensures r <= EofIndex(ts)
    decreases k
  {
    if k == 0 then cur else AdvancedBy(ts, Advanced(ts, cur), k - 1)
  }

  /** What a draft rule produced: a node, or the defect that leaves its result undefined. */
  datatype Defect =
    | MissingReturn   // the function falls off its end
    | UndefinedRule   // the function is called but defined nowhere

  datatype Parsed = Built(id: NodeId) | Failed(defect: Defect)

  const ExpectedModuleName := "Expected module name after 'module'"
  const ModuleNotAtTop := "Module declaration must be at the top of the file"

  /** The diagnostics `parseModuleDeclaration` reports when no name follows `module`. */
  function ModuleDiagnostics(next: Token): (es: seq<Diagnostic>)
    ensures 1 <= |es| <= 2 && es[0] == Diagnostic(next.line, ExpectedModuleName, "")
    ensures |es| == 2 <==> next.line != 1
    ensures |es| == 2 ==> es[1] == Diagnostic(next.line, ModuleNotAtTop, "")
  {
    [Diagnostic(next.line, ExpectedModuleName, "")]
      + (if next.line != 1 then [Diagnostic(next.line, ModuleNotAtTop, "")] else [])
  }

  /** The childless node `parseModuleDeclaration` builds when no name follows `module`. */
  function ModuleNode(next: Token): Node {
    Node(Token(KwModule, "module", next.line), ModuleDecl, NoType, [], None)
  }

  /** The root node of every parse: a `Top` token at line 0. */
  const TopToken := Token(Top, "", 0)

  function TopNode(decls: seq<Option<NodeId>>): Node {
    Node(TopToken, TopDecl, NoType, decls, None)
  }

  /**
   * The arena after `parseTopDeclaration` reads `module` with no name after
   * it: the module declaration, then the root that adopts it.
   */
  function WithModuleTop(nodes: seq<Node>, next: Token): (r: seq<Node>)
    ensures |r| == |nodes| + 2 && r[..|nodes|] == nodes
    ensures r[|nodes|].parent == Some(|nodes| + 1) && r[|nodes| + 1].children == [Some(|nodes|)]
  {
    nodes + [ModuleNode(next).(parent := Some(|nodes| + 1)), TopNode([Some(|nodes|)])]
  }

  /** The arena after the root adopts the module declaration, as `ASTNode`'s constructor leaves it. */
  lemma AdoptedModuleTop(base: seq<Node>, next: Token, before: seq<Node>, after: seq<Node>)
    requires before == base + [ModuleNode(next)] && |after| == |base| + 2
    requires after[|base| + 1] == TopNode([Some(|base|)])
    requires forall x :: 0 <= x < |base| + 1 ==>
               after[x] == if Some(x) in [Some(|base|)] then before[x].(parent := Some(|base| + 1)) else before[x]
    ensures after == WithModuleTop(base, next)
  {
    var m := |base|;
    assert after[m] == ModuleNode(next).(parent := Some(m + 1));
    forall x | 0 <= x < m
      ensures after[x] == base[x]
    {
      assert Some(x) !in [Some(m)];
    }
  }

  /** The parser state `parseTopDeclaration` leaves: cursor, result, arena and diagnostics. */
  datatype TopState = TopState(current: nat, result: Parsed, nodes: seq<Node>, errors: seq<Diagnostic>)

  /**
   * `parseTopDeclaration` once `module` is consumed, with the cursor at
   * `cur`: without a name, the module declaration and a root adopting it;
   * with a name, no return value.
   */
  function AfterModule(ts: seq<Token>, cur: nat, nodes: seq<Node>, errors: seq<Diagnostic>): TopState
    requires cur < |ts|
  {
    var next := ts[cur];
    if next.kind != Identifier then
      TopState(cur, Built(|nodes| + 1), WithModuleTop(nodes, next), errors + ModuleDiagnostics(next))
    else TopState(cur, Failed(MissingReturn), nodes, errors)
  }

  /** `Parser`. Nodes are allocated in `arena`, the model of the heap the C++ allocates them on. */
  class Parser {
    const tokens: seq<Token>
    var current: nat
    const reporter: ErrorReporter
    const arena: Arena
    var scopes: seq<Scope>
    var currentModule: string

    /** The cursor never moves past the first `Eof`. */
    ghost predicate Valid()
      reads this
    {
      EndsWithEof(tokens) && current <= EofIndex(tokens)
    }

    constructor(tokens: seq<Token>, reporter: ErrorReporter, arena: Arena)
      requires EndsWithEof(tokens)
      ensures Valid()
      ensures this.tokens == tokens && this.reporter == reporter && this.arena == arena
      ensures current == 0 && scopes == [Scope(map[], "global")] && currentModule == ""
    {
      this.tokens := tokens;
      this.reporter := reporter;
      this.arena := arena;
      current := 0;
      scopes := [];
      currentModule := "";
      new;
      EnterScope("global");
    }

    // ---- scope stack ----

    /** `enterScope(name)`: push one empty frame. */
    method EnterScope(name: string)
      modifies this`scopes
      ensures scopes == old(scopes) + [Scope(map[], name)]
    {
      scopes := scopes + [Scope(map[], name)];
    }

    /** `exitScope()`: pop the innermost frame; nothing happens on an empty stack. */
    method ExitScope()
      modifies this`scopes
      ensures scopes == Exited(old(scopes))
    {
      if scopes != [] {
        scopes := scopes[..|scopes| - 1];
      }
    }

    /**
     * `declare(name, node)`: bind `name` in the innermost frame, overwriting an
     * earlier binding there and reporting it at the line of the previous token.
     * Reading the previous token needs the cursor to have moved.
     */
    method Declare(name: string, node: NodeRef)
      requires Valid() && (IsDuplicate(scopes, name) ==> current >= 1)
      modifies this`scopes, reporter
      ensures scopes == Declared(old(scopes), name, node)
      ensures reporter.errors == old(reporter.errors)
                + (if IsDuplicate(old(scopes), name)
                   then [Diagnostic(tokens[current - 1].line, DuplicateMessage(name, old(scopes)[|old(scopes)| - 1].name), "")]
                   else [])
    {
      if scopes == [] {
        return;
      }
      var top := scopes[|scopes| - 1];
      if name in top.symbols {
        var t := Previous();
        ReportError(t, DuplicateMessage(name, top.name));
      }
      scopes := scopes[..|scopes| - 1] + [top.(symbols := top.symbols[name := node])];
    }

    /** `resolve(name)`: search the frames from the innermost outwards. */
    method Resolve(name: string) returns (r: NodeRef)
      ensures r == Resolved(scopes, name)
    {
      var i := |scopes|;
      assert scopes[..i] == scopes;
      while i > 0
        invariant 0 <= i <= |scopes|
        invariant Lookup(scopes, name) == Lookup(scopes[..i], name)
      {
        ghost var inner := scopes[..i];
        assert inner[|inner| - 1] == scopes[i - 1] && inner[..|inner| - 1] == scopes[..i - 1];
        if name in scopes[i - 1].symbols {
          return scopes[i - 1].symbols[name];
        }
        i := i - 1;
      }
      return None;
    }

    // ---- token cursor ----

    function Peek(): (t: Token)
      requires Valid()
      reads this
      ensures t == tokens[current]
    {
      tokens[current]
    }

    /** `previous()` reads `tokens[current - 1]`, which exists only once the cursor has moved. */
    function Previous(): (t: Token)
      requires Valid() && current >= 1
      reads this
      ensures t == tokens[current - 1]
    {
      tokens[current - 1]
    }

    function IsAtEnd(): (b: bool)
      requires Valid()
      reads this
      ensures b <==> current == EofIndex(tokens)
    {
      Peek().kind == Eof
    }

    function Check(kind: TokenType): (b: bool)
      requires Valid()
      reads this
      ensures b <==> Sees(tokens, current, kind)
      ensures kind == Eof ==> !b
    {
      if IsAtEnd() then false else Peek().kind == kind
    }

    /**
     * `advance()`: step past the current token unless it is `Eof`, and return
     * the token before the cursor. On a vector that starts with `Eof` there is
     * no such token.
     */
    method Advance() returns (t: Token)
      requires Valid() && (current >= 1 || !IsAtEnd())
      modifies this`current
      ensures Valid() && current == Advanced(tokens, old(current)) && current >= 1
      ensures t == tokens[current - 1]
    {
      if !IsAtEnd() {
        current := current + 1;
      }
      t := Previous();
    }

    /** `match(kind)`: advance exactly when `check(kind)` holds. */
    method Match(kind: TokenType) returns (b: bool)
      requires Valid()
      modifies this`current
      ensures Valid() && b == Sees(tokens, old(current), kind)
      ensures current == if b then old(current) + 1 else old(current)
    {
      if Check(kind) {
        var _ := Advance();
        return true;
      }
      return false;
    }

    /**
     * `consume(kind, message)`: on a matching token, advance and return it;
     * otherwise report `message` at the current token, and then the C++ falls
     * off the end without a return value, which is `None` here.
     */
    method Consume(kind: TokenType, message: string) returns (r: Option<Token>)
      requires Valid()
      modifies this`current, reporter
      ensures Valid()
      ensures old(Check(kind)) ==> r == Some(old(tokens[current])) && current == old(current) + 1
                                   && reporter.errors == old(reporter.errors)
      ensures !old(Check(kind)) ==> r == None && current == old(current)
                                    && reporter.errors == old(reporter.errors) + [Diagnostic(tokens[current].line, message, "")]
    {
      if Check(kind) {
        var t := Advance();
        return Some(t);
      }
      ReportError(Peek(), message);
      return None;
    }

    /** `error(token, message)`: report at the token's line; parsing goes on. */
    method ReportError(token: Token, message: string)
      modifies reporter
      ensures reporter.errors == old(reporter.errors) + [Diagnostic(token.line, message, "")]
    {
      var _ := reporter.Report(token.line, message);
    }

    // ---- declaration rules ----

    /**
     * `parseModuleDeclaration()`, entered just after `module`. Without a name
     * it reports one or two diagnostics and builds a childless `ModuleDecl`
     * node; with a name the C++ has no return statement.
     */
    method ParseModuleDeclaration() returns (r: Parsed)
      requires Valid() && arena.Valid()
      modifies reporter, arena
      ensures arena.Valid()
      ensures Peek().kind != Identifier ==>
                && r == Built(old(|arena.nodes|))
                && arena.nodes == old(arena.nodes) + [ModuleNode(Peek())]
                && reporter.errors == old(reporter.errors) + ModuleDiagnostics(Peek())
      ensures Peek().kind == Identifier ==>
                r == Failed(MissingReturn) && arena.nodes == old(arena.nodes)
                && reporter.errors == old(reporter.errors)
    {
      if Peek().kind != Identifier {
        ghost var next := Peek();
        ReportError(Peek(), ExpectedModuleName);
        if Peek().line != 1 {
          ReportError(Peek(), ModuleNotAtTop);
          assert reporter.errors == old(reporter.errors)
            + ([Diagnostic(next.line, ExpectedModuleName, "")] + [Diagnostic(next.line, ModuleNotAtTop, "")]);
        }
        var id := arena.NewNode(Token(KwModule, "module", Peek().line), ModuleDecl, []);
        return Built(id);
      }
      return Failed(MissingReturn);
    }

    /**
     * `parseTopDeclaration()`: a `TopDecl` root with the module declaration as
     * its only child after `module`, with no child when neither `module` nor
     * `import` comes first, and undefined after `import` because
     * `parseImportDeclaration` exists nowhere.
     */
    method ParseTopDeclaration() returns (r: Parsed)
      requires Valid() && arena.Valid()
      modifies this`current, reporter, arena
      ensures Valid() && arena.Valid()
      ensures Sees(tokens, old(current), KwModule) ==>
                TopState(current, r, arena.nodes, reporter.errors)
                == AfterModule(tokens, old(current) + 1, old(arena.nodes), old(reporter.errors))
      ensures !Sees(tokens, old(current), KwModule) && Sees(tokens, old(current), KwImport) ==>
                TopState(current, r, arena.nodes, reporter.errors)
                == TopState(old(current) + 1, Failed(UndefinedRule), old(arena.nodes), old(reporter.errors))
      ensures !Sees(tokens, old(current), KwModule) && !Sees(tokens, old(current), KwImport) ==>
                TopState(current, r, arena.nodes, reporter.errors)
                == TopState(old(current), Built(old(|arena.nodes|)), old(arena.nodes) + [TopNode([])], old(reporter.errors))
    {
      var isModule := Match(KwModule);
      if isModule {
        r := ModuleTop();
      } else {
        var isImport := Match(KwImport);
        if isImport {
          r := Failed(UndefinedRule);
        } else {
          r := BareTop();
        }
      }
    }

    /** `parseTopDeclaration` before anything else: a childless root. */
    method BareTop() returns (r: Parsed)
      requires arena.Valid()
      modifies arena
      ensures arena.Valid() && r == Built(old(|arena.nodes|))
      ensures arena.nodes == old(arena.nodes) + [TopNode([])]
    {
      ghost var before := arena.nodes;
      var id := arena.NewNode(TopToken, TopDecl, []);
      assert arena.nodes == before + [TopNode([])];
      return Built(id);
    }

    /** `parseTopDeclaration` after `module`: the root adopts the module declaration. */
    method ModuleTop() returns (r: Parsed)
      requires Valid() && arena.Valid()
      modifies reporter, arena
      ensures arena.Valid()
      ensures TopState(current, r, arena.nodes, reporter.errors)
              == AfterModule(tokens, current, old(arena.nodes), old(reporter.errors))
    {
      ghost var base, errors, next := arena.nodes, reporter.errors, Peek();
      r := ParseModuleDeclaration();
      if r.Built? {
        r := AdoptModule(base, next, r.id);
        assert AfterModule(tokens, current, base, errors)
               == TopState(current, Built(|base| + 1), WithModuleTop(base, next), errors + ModuleDiagnostics(next));
      } else {
        assert AfterModule(tokens, current, base, errors) == TopState(current, Failed(MissingReturn), base, errors);
      }
    }

    /** The end of `parseTopDeclaration` after `module`: the root adopts the newest node. */
    method AdoptModule(ghost base: seq<Node>, ghost next: Token, m: NodeId) returns (r: Parsed)
      requires arena.Valid() && m == |base| && arena.nodes == base + [ModuleNode(next)]
      modifies arena
      ensures arena.Valid() && r == Built(m + 1)
      ensures arena.nodes == WithModuleTop(base, next)
    {
      ghost var before := arena.nodes;
      var id := arena.NewNode(TopToken, TopDecl, [Some(m)]);
      AdoptedModuleTop(base, next, before, arena.nodes);
      return Built(id);
    }
  }
}
