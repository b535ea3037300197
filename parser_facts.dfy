/**
 * Properties of the scope stack and the token cursor of the parser.
 */
module ParsingFacts {
  import opened Wrappers
  import opened Scanning
  import opened ScanningFacts
  import opened Parsing
  import opened Syntax

  // ---- scope stack ---------------------------------------------------------

  /** After `declare(name, node)` on a non-empty stack, `resolve(name)` returns `node`. */
  lemma DeclareThenResolve(frames: seq<Scope>, name: string, node: NodeRef)
    requires frames != []
    ensures Lookup(Declared(frames, name, node), name) == Some(node)
    ensures Resolved(Declared(frames, name, node), name) == node
  {
    var d := Declared(frames, name, node);
    assert d[|d| - 1].symbols == frames[|frames| - 1].symbols[name := node];
  }

  /** `declare` changes only the innermost frame, and in it only the entry for `name`. */
  lemma DeclareShape(frames: seq<Scope>, name: string, node: NodeRef, top: Scope, top': Scope)
    requires frames != [] && top == frames[|frames| - 1]
    requires top' == Declared(frames, name, node)[|frames| - 1]
    ensures |Declared(frames, name, node)| == |frames|
    ensures forall i :: 0 <= i < |frames| - 1 ==> Declared(frames, name, node)[i] == frames[i]
    ensures top'.name == top.name && top'.symbols.Keys == top.symbols.Keys + {name}
    ensures top'.symbols[name] == node
    ensures forall n :: n in top.symbols && n != name ==> top'.symbols[n] == top.symbols[n]
  {
  }

  /** `declare` on an empty stack changes nothing. */
  lemma DeclareOnEmptyStack(name: string, node: NodeRef)
    ensures Declared([], name, node) == [] && !IsDuplicate([], name)
  {
  }

  /** Declaring one name leaves the resolution of every other name as it was. */
  lemma {:induction false} DeclareLeavesOthers(frames: seq<Scope>, name: string, node: NodeRef, other: string)
    requires other != name
    ensures Lookup(Declared(frames, name, node), other) == Lookup(frames, other)
  {
    if frames != [] {
      var d := Declared(frames, name, node);
      assert d[..|d| - 1] == frames[..|frames| - 1];
    }
  }

  /** A binding in the innermost frame shadows every outer binding of the same name. */
  lemma InnerShadowsOuter(frames: seq<Scope>, name: string)
    requires frames != [] && name in frames[|frames| - 1].symbols
    ensures Resolved(frames, name) == frames[|frames| - 1].symbols[name]
  {
  }

  /** A freshly entered scope hides nothing: resolution is as before. */
  lemma EnterScopeTransparent(frames: seq<Scope>, scope: string, name: string)
    ensures Lookup(frames + [Scope(map[], scope)], name) == Lookup(frames, name)
  {
    assert (frames + [Scope(map[], scope)])[..|frames|] == frames;
  }

  /** Exiting a scope discards everything declared in it since it was entered. */
  lemma {:induction false} ScopeIsLocal(frames: seq<Scope>, scope: string, name: string, node: NodeRef, other: string)
    ensures var inner := Declared(frames + [Scope(map[], scope)], name, node);
            Exited(inner) == frames && Lookup(Exited(inner), other) == Lookup(frames, other)
  {
    var inner := Declared(frames + [Scope(map[], scope)], name, node);
    assert inner[..|inner| - 1] == frames;
  }

  /** The scope a duplicate is reported against is the innermost one, and it exists. */
  lemma DuplicateMeansBound(frames: seq<Scope>, name: string)
    requires IsDuplicate(frames, name)
    ensures Lookup(frames, name).Some?
    ensures Resolved(frames, name) == frames[|frames| - 1].symbols[name]
  {
  }

  // ---- token cursor --------------------------------------------------------

  function Min(a: nat, b: nat): nat {
    if a <= b then a else b
  }

  /** `k` calls of `advance()` move the cursor `k` places, but never past the first `Eof`. */
  lemma {:induction false} AdvancedByStopsAtEof(ts: seq<Token>, cur: nat, k: nat)
    requires EndsWithEof(ts) && cur <= EofIndex(ts)
    ensures AdvancedBy(ts, cur, k) == Min(cur + k, EofIndex(ts))
    decreases k
  {
    if k > 0 {
      AdvancedByStopsAtEof(ts, Advanced(ts, cur), k - 1);
    }
  }

  /** At `Eof` the cursor stays put however often it is advanced. */
  lemma AdvanceAtEofIsIdle(ts: seq<Token>, k: nat)
    requires EndsWithEof(ts)
    ensures AdvancedBy(ts, EofIndex(ts), k) == EofIndex(ts)
  {
    AdvancedByStopsAtEof(ts, EofIndex(ts), k);
  }

  /**
   * The scanner's output is a valid token vector for the parser, and since its
   * only `Eof` is the last token, the cursor can reach every token.
   */
  lemma ScannerFeedsParser(src: string)
    ensures EndsWithEof(Tokenize(src))
    ensures EofIndex(Tokenize(src)) == |Tokenize(src)| - 1
  {
    TokenizeLines(src);
  }

  /**
   * `parseTopDeclaration` after `module` keeps the nodes it found, and a
   * built result is the newest node: a parentless `TopDecl` root whose only
   * child is the `ModuleDecl` node just before it, owned by the root.
   * Diagnostics are only ever appended: one, or two when the token after
   * `module` is not on line 1, and only when no name follows.
   */
  lemma AfterModuleShape(ts: seq<Token>, cur: nat, nodes: seq<Node>, errors: seq<Diagnostic>)
    requires cur < |ts|
    ensures var t := AfterModule(ts, cur, nodes, errors);
            && t.current == cur
            && |nodes| <= |t.nodes| && t.nodes[..|nodes|] == nodes
            && t.errors[..|errors|] == errors
            && |t.errors| == |errors| + (if ts[cur].kind == Identifier then 0 else if ts[cur].line == 1 then 1 else 2)
    ensures var t := AfterModule(ts, cur, nodes, errors);
            t.result.Built? <==> ts[cur].kind != Identifier
    ensures var t := AfterModule(ts, cur, nodes, errors);
            t.result.Built? ==>
              && t.result.id == |t.nodes| - 1 == |nodes| + 1
              && t.nodes[t.result.id].kind == TopDecl && t.nodes[t.result.id].parent == None
              && t.nodes[t.result.id].children == [Some(|nodes|)]
              && t.nodes[|nodes|].kind == ModuleDecl && t.nodes[|nodes|].parent == Some(t.result.id)
              && t.nodes[|nodes|].children == []
    ensures var t := AfterModule(ts, cur, nodes, errors);
            t.result.Failed? ==> t.result.defect == MissingReturn && t.nodes == nodes && t.errors == errors
  {
    var next := ts[cur];
    if next.kind != Identifier {
      var r := WithModuleTop(nodes, next);
      assert r[|nodes|] == ModuleNode(next).(parent := Some(|nodes| + 1));
      assert (errors + ModuleDiagnostics(next))[..|errors|] == errors;
    }
  }
}
