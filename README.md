# mask: a verified model of the scanner, parser support, AST container and Mask VM

This project models the core of `mask`, a small compiler front end together with the
"Mask VM" line interpreter, written in C++. The model is written in Dafny and covers
four pieces.

- **Scanner** (`Scanning`, `ScanningFacts`; src/lexer.cpp, inc/lexer.hpp).
  - A `Lexer` class with `source`, `position` and `line` fields, and one method per C++ member.
  - Every method is proved equal to a pure specification over a `Cursor(pos, line)`:
    - `SkipTrivia` skips blanks, newlines, `//` and non-nesting `/* */` comments;
    - `LexOne` scans one token;
    - `Lex` produces the whole token sequence.
  - Lemmas then state what that sequence looks like:
    - one final `Eof`;
    - line stamps that never decrease, with the last equal to 1 plus the newlines of the source;
    - maximal identifiers and numbers;
    - greedy two-character operators;
    - `Error` tokens.
- **AST container** (`Syntax`, `SyntaxFacts`; src/ast.cpp, inc/ast.hpp).
  - Nodes are records in an `Arena`. A child pointer is the child's id (`None` for a null pointer), and the parent pointer is a non-owning id.
  - `Arena.NewNode` is the children constructor: it adopts each child and sets its parent link.
  - `ASTTree` keeps an optional root.
  - The pre-order traversal is a recursive function returning its visit sequence.
  - The level-order traversal is a queue loop, proved equal to a level-by-level function.
  - Lemmas cover both traversals:
    - each node of the subtree is visited exactly once, root first;
    - both traversals visit the same multiset of nodes;
    - level order never visits a deeper node before a shallower one;
    - level order visits each node's children as one contiguous block, in list order, after the node.
- **Parser support** (`Parsing`, `ParsingFacts`; src/parser.cpp, inc/parser.hpp).
  - `ErrorReporter` is an append-only diagnostics list.
  - The scope stack is a sequence of frames, each mapping names to node ids.
  - The token cursor works over a token sequence that contains an `Eof`.
  - Two draft rules are modelled: `parseTopDeclaration` and `parseModuleDeclaration`.
  - Where the C++ has no defined result, the rule returns `Failed(MissingReturn)` or `Failed(UndefinedRule)`.
- **Mask VM** (`VmInterpreter`, `VmFacts`, with `Strings`; src/mask-vm-parser.cpp, inc/mask-vm-parser.hpp).
  - A `MaskVM` class with `variables`, `codeLines`, `output` (the stream, as the sequence of lines written) and `lastError`.
  - Each command of `execute` is a method, proved equal to a step function. `Run` iterates that step function, and `Execute` is proved to compute it.
  - The standard-library pieces the interpreter relies on are modelled explicitly in `Strings`:
    - `std::stoi`: leading blanks, optional sign, at least one digit, trailing text ignored, int32 range checked;
    - `std::to_string`;
    - `std::string::find`;
    - the trimming idiom;
    - `std::getline` over a string stream.

## Behaviour of the code as written

The model follows the code, including where the code does less than its own comments
suggest.

- The parser contains only the two draft rules above. There is no expression grammar, string-interpolation parser or error recovery to model.
- `Lexer::advance` returns `'\0'` at end of input and `scanToken` turns that into an `Error` token. `scanTokens` never calls `scanToken` at end of input, so this case appears only in `LexOne`'s end-of-input branch.
- In `findMatchingStatement`, the text after the first blank of an `end if <id>` line is `if <id>`, which `std::stoi` rejects. So `end if` is never matched.
  - As a result, every `if` line and every `else` line makes `execute` return false with a non-empty `lastError` (`VmFacts.IfAlwaysFails`, `VmFacts.ElseAlwaysFails`).
  - The message is "Matching end if not found for id: <id>" for every line that reaches the `end if` search: an `else` whose id `std::stoi` accepts, and an `if` whose id is accepted and whose condition is present and accepted.
  - Lines that stop earlier keep their own message: "Invalid if syntax" or "Invalid else syntax" without an id, and "Invalid if ID" or "Invalid else ID" for an id `std::stoi` rejects.
  - An `if` whose id is accepted also stops with "Invalid if syntax" when the original line lacks the text `if <std::to_string(id)> `, trailing blank included. Examples are `if 1` at the end of a line, `if 01 a == int 1` and `if +1 ...` (`VmFacts.IfWithoutConditionText`).
  - An `if` whose condition text is found but rejected stops with the condition's own error.
  - The model keeps this behaviour.
- The comment (from the first `?` on) is cut before a line is split into words and before `findMatchingStatement` reads it (`VmFacts.CommentIgnored`). `print str` and `if`, however, search the original line, comment included.
  - So `print str "a?b"` prints `a?b`, while `print str "a` has the same words and stops with "Unclosed string in print" (`VmFacts.CommentSeenByPrintStr`).
- `def`, `let` and `set` check for at least four words but read the fifth. With exactly four words the read is out of range; the model's outcome for it is `Undefined` (`VmFacts.UndefinedOnlyAtFourWords`).

## Model

| member | source | states |
|---|---|---|
| Scanning.FirstOf | src/lexer.cpp:72-73 | the `//` loop stops at the first newline at or after the cursor, or at end of input |
| Scanning.FirstOfSkips | src/lexer.cpp:73 | no character the `//` loop skips is a newline, so the line counter does not move |
| Scanning.BlockCommentEnd | src/lexer.cpp:74-84 | skipping a block comment never moves the cursor back and never lowers the line |
| Scanning.BlockCommentCloses | src/lexer.cpp:77-84 | a block comment ends just after the FIRST `*/` (no nesting); with no `*/` it consumes the rest of the input |
| Scanning.BlockCommentCases | src/lexer.cpp:77-84 | one iteration of the block-comment loop: stop after `*/`, otherwise advance one character, counting a newline |
| Scanning.SkipTrivia | src/lexer.cpp:63-92 | after skipping, the cursor is not at a blank, newline or comment start; a cursor already there is left alone |
| Scanning.SkipTriviaCases | src/lexer.cpp:64-87 | each branch of the skip loop: blank, newline (line + 1), `//` comment, `/*` comment |
| Scanning.SkipTriviaFixpoint | src/lexer.cpp:63-92 | skipping twice is the same as skipping once |
| Scanning.StringLit | src/lexer.cpp:168-179 | a string scan yields `Str` or `Error`, stamped with the line reached at its end |
| Scanning.StringLitShape | src/lexer.cpp:168-179 | a `Str` lexeme is exactly the text between the quotes; an unterminated string yields `Error "Unterminated string"` at end of input |
| Scanning.IdentEnd | src/lexer.cpp:183-185 | the identifier loop stops at the first character that is not a letter, digit or `_` |
| Scanning.IdentEndRun | src/lexer.cpp:183-185 | every character the identifier loop takes is a letter, digit or `_` |
| Scanning.InitKeywords | src/lexer.cpp:23-43 | the 18-entry keyword table (its kinds are stated by `ScanningFacts.KeywordTableKinds`) |
| Scanning.IdentifierLit | src/lexer.cpp:181-192 | the lexeme is the maximal run of letters, digits and `_` from the cursor, on the current line; the kind is `Identifier` exactly when the lexeme is not in the keyword table |
| Scanning.NumberEnd | src/lexer.cpp:199-206 | the number loop stops at a non-digit |
| Scanning.NumberEndRun | src/lexer.cpp:199-206 | the number loop takes only digits and dots, and at most one dot |
| Scanning.NumberLit | src/lexer.cpp:194-211 | a `Number` token on the current line whose lexeme is the slice of digits and dots from the cursor; the scan stops at a character that is neither digit nor dot, or at a second dot (the stop character is never a digit) |
| Scanning.Operator | src/lexer.cpp:96-165 | a punctuation token's lexeme is the one or two characters consumed, on the current line |
| Scanning.LexOne | src/lexer.cpp:94-166 | `scanToken` consumes at least one character when input remains, never lowers the line, and never yields `Eof` |
| Scanning.LexOneCases | src/lexer.cpp:94-166 | `scanToken` dispatches a quote to the string scanner, a letter or `_` to identifiers, a digit to numbers, anything else to punctuation |
| Scanning.Lex | src/lexer.cpp:12-21 | the token sequence from any cursor is non-empty and ends with an `Eof` whose lexeme is empty |
| Scanning.Tokenize | src/lexer.cpp:12-21 | a whole source yields a non-empty sequence ending with an empty-lexeme `Eof` |
| Scanning.LexAfterTrivia | src/lexer.cpp:14-17 | the token sequence does not depend on trivia before the next token |
| Scanning.LexAtToken | src/lexer.cpp:14-18 | at a token start, the sequence is that token followed by the tokens after it |
| Scanning.LexRound | src/lexer.cpp:14-18 | one round of the `scanTokens` loop (skip, then scan) peels exactly one token off the sequence |
| Scanning.Lexer.constructor | src/lexer.cpp:7-10 | a new lexer is at position 0, line 1, over the given source |
| Scanning.Lexer.IsAtEnd | src/lexer.cpp:46-48 | holds iff the cursor is at or past the end of the source; exactly at the end, scanning yields the single `Eof` on the current line |
| Scanning.Lexer.Peek | src/lexer.cpp:50-52 | the character under the cursor when the cursor is in range; NUL at or past the end |
| Scanning.Lexer.PeekNext | src/lexer.cpp:54-56 | the character after the cursor when there is one; NUL otherwise |
| Scanning.Lexer.Advance | src/lexer.cpp:58-61 | before the end, it returns the current character and moves on by one; at the end, it returns NUL and stays |
| Scanning.Lexer.SkipLineComment | src/lexer.cpp:73 | the cursor ends at the next newline or at end of input |
| Scanning.Lexer.SkipBlockComment | src/lexer.cpp:75-84 | position and line end where `BlockCommentEnd` says |
| Scanning.Lexer.SkipWhitespaceAndComments | src/lexer.cpp:63-92 | position and line end where `SkipTrivia` says |
| Scanning.Lexer.SkipOneTrivia | src/lexer.cpp:65-87 | one pass of the skip loop either makes progress without changing the skip result, or stops at a non-trivia character |
| Scanning.Lexer.StringToken | src/lexer.cpp:168-179 | the token and the new position and line are those of `StringLit` |
| Scanning.Lexer.StringChar | src/lexer.cpp:171-172 | the string loop's body keeps `value` equal to the text consumed and `line` equal to the start line plus its newlines |
| Scanning.Lexer.IdentifierToken | src/lexer.cpp:181-192 | the token and new position are those of `IdentifierLit` |
| Scanning.Lexer.NumberToken | src/lexer.cpp:194-211 | the token and new position are those of `NumberLit` |
| Scanning.Lexer.PunctuationToken | src/lexer.cpp:97-153 | the switch over punctuation yields `Operator`'s token; at end of input it yields `Error` with the NUL lexeme |
| Scanning.Lexer.ScanToken | src/lexer.cpp:94-166 | the token and the new position and line are those of `LexOne` |
| Scanning.Lexer.ScanRound | src/lexer.cpp:15-17 | one loop round either reaches the end with the sequence unchanged, or strictly advances and emits the head of the remaining sequence |
| Scanning.Lexer.ScanTokens | src/lexer.cpp:12-21 | the returned tokens are exactly `Lex` from the starting cursor, and the whole source is consumed |
| ScanningFacts.LexAtEnd | src/lexer.cpp:19 | with only trivia left, the result is a single `Eof` with an empty lexeme on the final line |
| ScanningFacts.LexEndsWithSoleEof | src/lexer.cpp:12-21 | the last token is `Eof` and no earlier token is |
| ScanningFacts.LexLinesMonotone | src/lexer.cpp:68-69 | token lines start at or after the starting line and never decrease |
| ScanningFacts.BlockCommentOffset | src/lexer.cpp:83 | skipping a block comment raises the line by exactly the newlines skipped |
| ScanningFacts.SkipTriviaOffset | src/lexer.cpp:63-92 | skipping trivia raises the line by exactly the newlines skipped |
| ScanningFacts.StringLitOffset | src/lexer.cpp:171 | a string scan raises the line by exactly the newlines inside the string |
| ScanningFacts.LexOneOffset | src/lexer.cpp:94-166 | scanning one token raises the line by exactly the newlines consumed |
| ScanningFacts.RoundOffset | src/lexer.cpp:15-17 | one skip-and-scan round keeps line == 1 + newlines consumed |
| ScanningFacts.LexFinalOffset | src/lexer.cpp:19 | the `Eof` line is the starting line plus every newline from the cursor to the end |
| ScanningFacts.TokenizeLines | src/lexer.cpp:12-21 | over a whole source: a sole final `Eof`, whose line is 1 + the number of newlines, and every line ≥ 1 and non-decreasing |
| ScanningFacts.KeywordTableKinds | src/lexer.cpp:23-43 | the keyword table yields only keyword kinds, and never `KwIRLib`, `KwPrivate` or `KwPublic` |
| ScanningFacts.IdentifierScanned | src/lexer.cpp:181-192 | an identifier scan yields an identifier or keyword token with a well-formed lexeme |
| ScanningFacts.NumberScanned | src/lexer.cpp:194-211 | a number scan yields a `Number` token with a well-formed lexeme |
| ScanningFacts.OperatorScanned | src/lexer.cpp:96-165 | a punctuation scan yields a punctuation kind or a one-character `Error` |
| ScanningFacts.LexOneScanned | src/lexer.cpp:94-166 | every token `scanToken` returns has one of the shapes above |
| ScanningFacts.LexScanned | src/lexer.cpp:12-21 | every token before the final `Eof` has one of the shapes above |
| ScanningFacts.IdentifierMaximal | src/lexer.cpp:181-192 | an identifier lexeme is the maximal run of `[A-Za-z0-9_]`, and its kind is the table entry when there is one, else `Identifier` |
| ScanningFacts.NumberMaximal | src/lexer.cpp:194-211 | a number lexeme starts with a digit, has at most one dot, and stops only at a non-digit or at a second dot |
| ScanningFacts.NumberStopsAtSecondDot | src/lexer.cpp:199-201 | the number loop stops at a dot only when a dot was already taken |
| ScanningFacts.GreedyOperators | src/lexer.cpp:107-150 | `->`, `==`, `!=`, `<=`, `>=`, `&&` and `\|\|` are taken as one two-character token |
| ScanningFacts.LoneAndOrErrors | src/lexer.cpp:139-150 | a lone `&` or `\|` gives a one-character `Error` token |
| ScanningFacts.UnknownCharacterErrors | src/lexer.cpp:154-163 | any other unrecognised character gives a one-character `Error` token |
| ScanningFacts.LexOneNumber | src/lexer.cpp:159-161 | a digit starts a `Number` token whose lexeme is the text up to `NumberEnd` |
| ScanningFacts.TwoDotsNumberEnd | src/lexer.cpp:199-206 | on `1.2.3` the number loop stops before the second dot and before end of input |
| ScanningFacts.TwoDotsScans | src/lexer.cpp:194-211 | on `1.2.3` the three scans give `Number "1.2"`, `Dot`, `Number "3"` |
| ScanningFacts.TwoDotsExample | src/lexer.cpp:12-21 | `1.2.3` tokenizes to `Number "1.2"`, `Dot`, `Number "3"`, `Eof` |
| Syntax.PreOrder | src/ast.cpp:28-34 | a null node visits nothing; otherwise the node comes first and every visit lies in its subtree |
| Syntax.PreOrderSeq | src/ast.cpp:31-33 | the children's subtrees are visited left to right, skipping null children |
| Syntax.ChildrenOf | src/ast.cpp:46-48 | the children a level pushes onto the queue are non-null trees of smaller id |
| Syntax.LevelOrder | src/ast.cpp:36-50 | the nodes already queued are visited first, in queue order |
| Syntax.QueueStart | src/ast.cpp:38-39 | the queue holding only the root satisfies the loop invariant of `traverseLevelOrder` |
| Syntax.DequeueStep | src/ast.cpp:42-48 | popping the front, visiting it and pushing its children keeps the loop invariant |
| Syntax.NextLevel | src/ast.cpp:41-49 | when a level is used up, the queue holds exactly the next level and the invariant still holds |
| Syntax.QueueEnd | src/ast.cpp:41 | when the queue is empty the visits are exactly the level-order sequence |
| Syntax.NextLevelBound | src/ast.cpp:41-49 | a level is followed by its children's level, whose ids are all smaller, so the loop ends |
| Syntax.AdoptKeepsWellFormed | src/ast.cpp:3-10 | adopting unowned, distinct children keeps every child link and parent link consistent |
| Syntax.Arena.NewNode | src/ast.cpp:3-10 | the new node keeps the children in the given order; each non-null child's parent becomes the new node; nothing else changes |
| Syntax.EnqueueChildren | src/ast.cpp:46-48 | the children are appended to the back of the queue in list order |
| Syntax.ASTTree.constructor | inc/ast.hpp:70 | the tree holds the given root |
| Syntax.ASTTree.SetRoot | src/ast.cpp:12-14 | after `setRoot(n)`, `getRoot()` is `n` |
| Syntax.ASTTree.Clear | src/ast.cpp:20-22 | after `clear()` the tree is empty and has no root |
| Syntax.ASTTree.IsEmpty | src/ast.cpp:24-26 | `isEmpty()` holds iff there is no root |
| Syntax.ASTTree.GetRoot | src/ast.cpp:16-18 | the root returned is a node of the tree's arena |
| Syntax.ASTTree.TraverseLevelOrder | src/ast.cpp:36-50 | an empty tree visits nothing; otherwise the visits are exactly `LevelOrder` from the root |
| SyntaxFacts.WellFormedDescending | src/ast.cpp:3-10 | in a consistent arena every child id is below its parent's, so traversals terminate |
| SyntaxFacts.DepthBelow | src/ast.cpp:5-9 | a node below `r` has an id no larger than `r` |
| SyntaxFacts.ChildDepth | src/ast.cpp:5-9 | a child of a node at depth d is at depth d + 1 |
| SyntaxFacts.DepthThroughParent | src/ast.cpp:5-9 | depth below a node's parent is depth below the node plus one |
| SyntaxFacts.SubtreesNest | src/ast.cpp:5-9 | two subtrees that share a node are nested |
| SyntaxFacts.SiblingsDisjoint | src/ast.cpp:5-9 | the subtrees of two different children of one node share no node |
| SyntaxFacts.PreOrderSeqMember | src/ast.cpp:31-33 | a node is visited by the children loop iff some child's subtree visits it |
| SyntaxFacts.PreOrderMembers | src/ast.cpp:28-34 | pre-order from `r` visits exactly the nodes below `r` |
| SyntaxFacts.PreOrderInSubtree | src/ast.cpp:28-34 | every pre-order visit lies below the start node |
| SyntaxFacts.SubtreeInPreOrder | src/ast.cpp:28-34 | every node below the start node is visited |
| SyntaxFacts.PreOrderClosed | src/ast.cpp:28-34 | pre-order visits are closed under taking subtrees |
| SyntaxFacts.PreOrderDistinct | src/ast.cpp:28-34 | no node is visited twice by pre-order |
| SyntaxFacts.PreOrderOnce | src/ast.cpp:28-34 | pre-order visits the root first and each node of the subtree exactly once; the count equals the subtree's size |
| SyntaxFacts.PreOrderUnfold | src/ast.cpp:29-33 | in a tree without null children, pre-order is the node followed by the pre-orders of its children |
| SyntaxFacts.ForestUnfold | src/ast.cpp:36-50 | the pre-orders of a level are, as a multiset, the level plus the pre-orders of the next level |
| SyntaxFacts.LevelOrderForest | src/ast.cpp:36-50 | level order from a level visits the same multiset of nodes as the pre-orders from it |
| SyntaxFacts.LevelOrderMatchesPreOrder | src/ast.cpp:28-50 | level order from the root visits the root first and the same multiset of nodes as pre-order |
| SyntaxFacts.LevelOrderOnce | src/ast.cpp:36-50 | level order visits each node below the root exactly once and nothing else |
| SyntaxFacts.ChildrenAtNextDepth | src/ast.cpp:46-48 | the children of a level at depth d are all at depth d + 1 |
| SyntaxFacts.LevelOrderSorted | src/ast.cpp:41-49 | level order from a level at depth d lists nodes by non-decreasing depth |
| SyntaxFacts.LevelOrderByDepth | src/ast.cpp:41-49 | level order never visits a node of depth d + 1 before one of depth d |
| SyntaxFacts.LevelOrderNullFree | src/ast.cpp:44-47 | every node level order dequeues is a tree without null children, so the dereference is safe |
| SyntaxFacts.ChildrenOfBlock | src/ast.cpp:46-48 | each node's children occur as one contiguous block of the next level |
| SyntaxFacts.LevelOrderChildrenInOrder | src/ast.cpp:41-49 | in level order from a level, each node's children appear later, contiguously and in list order |
| SyntaxFacts.LevelOrderSiblings | src/ast.cpp:36-50 | in level order from the root, each visited node's children appear after it, contiguously and in list order |
| Parsing.ErrorReporter.Report | src/parser.cpp:4-7 | appends exactly one diagnostic `{line, message}` with an empty context, returns it, and keeps the earlier entries |
| Parsing.ErrorReporter.HasErrors | src/parser.cpp:9-11 | holds iff the list is non-empty |
| Parsing.ErrorReporter.GetErrors | src/parser.cpp:13-15 | returns the entries in insertion order |
| Parsing.ErrorReporter.Clear | src/parser.cpp:17-19 | empties the list, so `hasErrors()` is false |
| Parsing.Lookup | src/parser.cpp:51-59 | finds a binding iff some frame binds the name, and then returns the one from the innermost such frame |
| Parsing.Advanced | src/parser.cpp:65-68 | `advance` moves the cursor by one unless it is at the `Eof`, and never past it |
| Parsing.ModuleDiagnostics | src/parser.cpp:122-126 | a missing module name reports "Expected module name after 'module'", and "Module declaration must be at the top of the file" iff the token is not on line 1 |
| Parsing.WithModuleTop | src/parser.cpp:108-117 | the module node and then the root are appended; the module's parent is the root and the root's only child is the module |
| Parsing.AdoptedModuleTop | src/parser.cpp:113-117 | the root built over the fresh module node leaves exactly the arena `WithModuleTop` describes |
| Parsing.Parser.constructor | src/parser.cpp:21-24 | the parser starts at token 0 with exactly one frame, named "global" |
| Parsing.Parser.EnterScope | src/parser.cpp:31-33 | pushes one empty frame with the given name |
| Parsing.Parser.ExitScope | src/parser.cpp:35-39 | pops the innermost frame; an empty stack stays empty |
| Parsing.Parser.Declare | src/parser.cpp:41-49 | on a non-empty stack only the innermost frame changes, mapping the name to the node; a name already in that frame adds one "Duplicate identifier" diagnostic at the previous token's line |
| Parsing.Parser.Resolve | src/parser.cpp:51-59 | the reverse loop over frames returns the innermost binding, or null when none exists |
| Parsing.Parser.Peek | src/parser.cpp:61-63 | returns the token under the cursor |
| Parsing.Parser.Previous | src/parser.cpp:70-72 | returns the token before the cursor; the call needs a cursor past 0 |
| Parsing.Parser.IsAtEnd | src/parser.cpp:74-76 | holds iff the cursor is at the first `Eof` |
| Parsing.Parser.Check | src/parser.cpp:86-89 | holds iff the cursor is before the `Eof` on a token of the kind; never holds for `Eof` |
| Parsing.Parser.Advance | src/parser.cpp:65-68 | moves the cursor as `Advanced` says and returns the token before the new cursor |
| Parsing.Parser.Match | src/parser.cpp:78-84 | advances by one iff `check` holds; otherwise the cursor is unchanged |
| Parsing.Parser.Consume | src/parser.cpp:91-96 | a matching token is returned and consumed with no diagnostic; otherwise one diagnostic at `peek().line` is reported and no token is returned |
| Parsing.Parser.ReportError | src/parser.cpp:98-102 | reports one diagnostic at the token's line |
| Parsing.Parser.ParseModuleDeclaration | src/parser.cpp:120-132 | without a name, a childless `ModuleDecl` is added with the diagnostics of `ModuleDiagnostics`; with a name there is no return value and nothing changes |
| Parsing.Parser.ParseTopDeclaration | src/parser.cpp:104-118 | after `module`, the result of `AfterModule`; after `import`, the undefined-rule failure with only the cursor moved; otherwise a childless `TopDecl` with the `Top` token at line 0 and nothing consumed |
| Parsing.Parser.BareTop | src/parser.cpp:113-117 | appends a childless root and returns its id |
| Parsing.Parser.ModuleTop | src/parser.cpp:108-117 | the module branch leaves the cursor, arena and diagnostics exactly as `AfterModule` says |
| Parsing.Parser.AdoptModule | src/parser.cpp:113-117 | the root built over the module node leaves the arena as `WithModuleTop` and returns the root's id |
| ParsingFacts.DeclareThenResolve | src/parser.cpp:41-59 | after `declare(n, x)` on a non-empty stack, `resolve(n)` is `x` |
| ParsingFacts.DeclareShape | src/parser.cpp:41-49 | `declare` changes only the innermost frame: its name is kept, the name is added or overwritten, and other names keep their nodes |
| ParsingFacts.DeclareOnEmptyStack | src/parser.cpp:42 | on an empty stack `declare` changes nothing and reports nothing |
| ParsingFacts.DeclareLeavesOthers | src/parser.cpp:41-49 | declaring one name does not change how any other name resolves |
| ParsingFacts.InnerShadowsOuter | src/parser.cpp:51-59 | a binding in the innermost frame hides every outer one |
| ParsingFacts.EnterScopeTransparent | src/parser.cpp:31-33 | entering a scope does not change how any name resolves |
| ParsingFacts.ScopeIsLocal | src/parser.cpp:31-39 | enter, declare, exit restores the frames, so every name resolves as before |
| ParsingFacts.DuplicateMeansBound | src/parser.cpp:44-47 | a duplicate is reported only for a name the innermost frame already resolves |
| ParsingFacts.AdvancedByStopsAtEof | src/parser.cpp:65-68 | k calls of `advance` move the cursor to min(cursor + k, Eof index) |
| ParsingFacts.AdvanceAtEofIsIdle | src/parser.cpp:65-68 | at the `Eof`, `advance` leaves the cursor in place however often it is called |
| ParsingFacts.ScannerFeedsParser | src/lexer.cpp:12-21 | the scanner's output meets the parser's requirement: its first `Eof` is its last token |
| ParsingFacts.AfterModuleShape | src/parser.cpp:104-131 | after `module`: a name gives the missing-return failure with nothing changed; no name gives a `TopDecl` root whose only child is a childless `ModuleDecl`, with one or two diagnostics appended |
| Strings.TrimLeft | src/mask-vm-parser.cpp:10-12 | only leading blanks are removed, and the result does not start with one |
| Strings.TrimLeftSuffix | src/mask-vm-parser.cpp:10-12 | the left-trimmed text is a suffix of the input |
| Strings.TrimRight | src/mask-vm-parser.cpp:13-15 | only trailing blanks are removed, and the result is a prefix that does not end with one |
| Strings.Trim | src/mask-vm-parser.cpp:9-15 | the result is a contiguous slice `s[i..j]` of the input with only blanks before `i` and after `j`, and a non-empty result neither starts nor ends with a blank |
| Strings.Stoi | src/mask-vm-parser.cpp:35 | `std::stoi` succeeds only with a value in int32 range |
| Strings.StoiIntToString | src/mask-vm-parser.cpp:35 | `std::stoi(std::to_string(n)) == n` for every int32 `n` |
| Strings.StoiRejectsLeadingLetter | src/mask-vm-parser.cpp:129-133 | `std::stoi` throws on text starting with a letter (the `catch` path) |
| Strings.IntToString | inc/mask-vm-parser.hpp:36 | `std::to_string` gives a non-empty numeral, starting with `-` or a digit |
| Strings.Find | src/mask-vm-parser.cpp:102 | `find` returns the FIRST occurrence at or after the start, or none when there is none |
| Strings.Fields | src/mask-vm-parser.cpp:8 | the `getline` pieces contain no delimiter |
| Strings.JoinFields | src/mask-vm-parser.cpp:4-22 | rejoining the `getline` pieces with the delimiter gives back the input |
| Strings.Pieces | src/mask-vm-parser.cpp:9-19 | kept pieces are non-empty and neither start nor end with a blank |
| Strings.SplitPieces | src/mask-vm-parser.cpp:4-22 | `split` returns only non-empty pieces free of the delimiter |
| Strings.Split | src/mask-vm-parser.cpp:4-22 | the loop returns exactly the trimmed, non-empty `getline` pieces, in order |
| Strings.SplitPiecesShape | src/mask-vm-parser.cpp:4-22 | no piece of `split` is empty, contains the delimiter, or starts or ends with a blank |
| Strings.Lines | src/mask-vm-parser.cpp:154-159 | no loaded line contains a newline |
| VmInterpreter.DefaultValue | inc/mask-vm-parser.hpp:26 | `Value()` has type UNKNOWN and `intVal` 0 |
| VmInterpreter.IntValue | inc/mask-vm-parser.hpp:27 | `Value(n)` has type INT and `getInt()` is `n` |
| VmInterpreter.StrValue | inc/mask-vm-parser.hpp:28 | `Value(s)` has type STR and `getStr()` is `s` |
| VmInterpreter.ToString | inc/mask-vm-parser.hpp:34-41 | an int32 INT prints as text `std::stoi` reads back as the same number; a STR prints as its text; anything else prints as `unknown` |
| VmInterpreter.ParseDataType | src/mask-vm-parser.cpp:25-29 | INT iff the word is `int`, STR iff it is `str`, UNKNOWN otherwise |
| VmInterpreter.Unquote | src/mask-vm-parser.cpp:41-46 | a text with a quote at each end loses exactly those two quotes (a lone quote gives the empty text); any other text is kept |
| VmInterpreter.ParseValueSpec | src/mask-vm-parser.cpp:32-50 | either the value has the requested known type and `lastError` is unchanged, or it is `Value()` with a non-empty `lastError`; STR always succeeds with the unquoted text; INT succeeds exactly when `std::stoi` does, with its value |
| VmInterpreter.ConditionSpec | src/mask-vm-parser.cpp:53-95 | a holding condition leaves `lastError` empty and has four words with `==` third, naming an existing variable of the stated type; an empty `lastError` afterwards means it was empty before |
| VmInterpreter.StripComment | src/mask-vm-parser.cpp:173-177 | the line is cut at its first `?`: a prefix of the line with no `?`, and the whole line when it has none |
| VmInterpreter.Instruction | src/mask-vm-parser.cpp:173-182 | the text `execute` looks at holds no `?` and does not start with a blank |
| VmInterpreter.Delta | src/mask-vm-parser.cpp:117-141 | one line changes the nesting level by −1, 0 or +1 |
| VmInterpreter.Settle | src/mask-vm-parser.cpp:135-139 | a match is a decrementing line at or after the start |
| VmInterpreter.MatchFrom | src/mask-vm-parser.cpp:98-146 | a match lies between the start line and the last line |
| VmInterpreter.GuardSpec | src/mask-vm-parser.cpp:336-361 | evaluating an `if` condition changes neither variables nor output, and a rejected condition leaves `lastError` non-empty |
| VmInterpreter.IfSpec | src/mask-vm-parser.cpp:323-380 | an `if` that continues jumps forward, within the program; variables and output are unchanged |
| VmInterpreter.BranchSpec | src/mask-vm-parser.cpp:363-380 | the jump after an `if` goes forward, within the program; variables and output are unchanged |
| VmInterpreter.ElseSpec | src/mask-vm-parser.cpp:383-405 | an `else` that continues jumps forward, within the program; variables and output are unchanged |
| VmInterpreter.DefineSpec | src/mask-vm-parser.cpp:199-251 | `def`/`let` never touch the output; a stop leaves the table alone and never returns true, and a false return carries a message; the undefined read needs exactly four words; success needs five words and a fresh name, adds exactly that entry with the right constant flag and the value `parseValue` reads from the fifth word, keeps every other entry and leaves `lastError` empty |
| VmInterpreter.SetSpec | src/mask-vm-parser.cpp:253-285 | `set` never touches the output; a stop leaves the table alone and never returns true, and a false return carries a message; the undefined read needs exactly four words; success needs five words and an existing non-constant name, and replaces only that entry's value, with the value `parseValue` reads from the fifth word |
| VmInterpreter.PrintSpec | src/mask-vm-parser.cpp:287-321 | `print` never touches the variables; a failure returns false with a message and writes nothing; success appends exactly one line: for `print name` that variable's `toString`; for `print str` the text right after the first `str "` of the original line, up to (not including) the next quote, which it does not contain |
| VmInterpreter.LineTokens | src/mask-vm-parser.cpp:169-196 | a line that is not skipped has a non-empty list of non-empty words |
| VmInterpreter.StepAt | src/mask-vm-parser.cpp:169-418 | one loop iteration either stops or moves strictly forward, so `execute` terminates; no variable disappears and output is only appended |
| VmInterpreter.CommandStep | src/mask-vm-parser.cpp:196-418 | every command either stops or moves strictly forward; no variable disappears and output is only appended |
| VmInterpreter.Run | src/mask-vm-parser.cpp:169-418 | the `execute` loop from any line never removes a variable and only appends output |
| VmInterpreter.ExecuteSpec | src/mask-vm-parser.cpp:165-421 | `execute` over a table and an output keeps every variable name and only appends output |
| VmInterpreter.MaskVM.constructor | inc/mask-vm-parser.hpp:75 | a new VM has no variables, no code, no output and no error |
| VmInterpreter.MaskVM.GetLastError | inc/mask-vm-parser.hpp:84 | returns `lastError` |
| VmInterpreter.MaskVM.ParseValue | src/mask-vm-parser.cpp:32-50 | the value and `lastError` are those of `ParseValueSpec` |
| VmInterpreter.MaskVM.EvaluateCondition | src/mask-vm-parser.cpp:53-95 | the result and `lastError` are those of `ConditionSpec` |
| VmInterpreter.MaskVM.FindMatchingStatement | src/mask-vm-parser.cpp:98-146 | returns the line `MatchFrom` finds with `lastError` unchanged; otherwise returns -1 with "Matching <target> not found for id: <id>" |
| VmInterpreter.MaskVM.LevelAt | src/mask-vm-parser.cpp:100-141 | the loop body computes line i's level change |
| VmInterpreter.MaskVM.LevelChange | src/mask-vm-parser.cpp:104-141 | stripping, the `if` test and the id test compute `Delta` |
| VmInterpreter.MaskVM.LoadCode | src/mask-vm-parser.cpp:149-162 | code lines become the input split at newlines; variables and `lastError` are emptied; returns true |
| VmInterpreter.MaskVM.Define | src/mask-vm-parser.cpp:199-251 | `def`/`let` change the variable table and `lastError` exactly as `DefineSpec` says |
| VmInterpreter.MaskVM.SetVariable | src/mask-vm-parser.cpp:253-285 | `set` changes the variable table and `lastError` exactly as `SetSpec` says |
| VmInterpreter.MaskVM.Print | src/mask-vm-parser.cpp:287-321 | `print` changes the output and `lastError` exactly as `PrintSpec` says |
| VmInterpreter.MaskVM.If | src/mask-vm-parser.cpp:323-380 | `if` leaves the state and the jump as `IfSpec` says |
| VmInterpreter.MaskVM.Guard | src/mask-vm-parser.cpp:336-361 | condition extraction and evaluation end as `GuardSpec` says |
| VmInterpreter.MaskVM.Branch | src/mask-vm-parser.cpp:363-380 | the `else`/`end if` search and the jump end as `BranchSpec` says |
| VmInterpreter.MaskVM.Else | src/mask-vm-parser.cpp:383-405 | `else` leaves the state and the jump as `ElseSpec` says |
| VmInterpreter.MaskVM.ExecuteLine | src/mask-vm-parser.cpp:169-196 | one iteration of the `execute` loop leaves the state and the next line as `StepAt` says |
| VmInterpreter.MaskVM.Dispatch | src/mask-vm-parser.cpp:196-418 | the command chain leaves the state and the next line as `CommandStep` says |
| VmInterpreter.MaskVM.Execute | src/mask-vm-parser.cpp:165-421 | clears `lastError`, then the result and the final variables, output and error are those of `Run` from line 0 |
| VmFacts.IntValueRoundTrip | src/mask-vm-parser.cpp:32-39 | parsing `Value(n).toString()` as `int` gives back `Value(n)` with no error, for every int32 `n` |
| VmFacts.StrValueRoundTrip | src/mask-vm-parser.cpp:40-47 | parsing `"s"` as `str` gives `Value(s)`, and `Value(s).toString()` is `s` |
| VmFacts.ParseValueOutcome | src/mask-vm-parser.cpp:32-50 | `parseValue` succeeds iff the type is STR, or INT with a valid `stoi`; success has the requested type, and failure gives `Value()` |
| VmFacts.ConditionMeaning | src/mask-vm-parser.cpp:53-95 | a condition holds iff it has 4 words with `==` third, a known type, an existing variable, a valid value, a matching type and an equal value; an error implies false |
| VmFacts.ConditionErrors | src/mask-vm-parser.cpp:53-95 | `lastError` stays empty iff all checks before the comparison pass |
| VmFacts.CommentIgnored | src/mask-vm-parser.cpp:173-177 | text from the first `?` on does not change the instruction text that `execute` splits into words and `findMatchingStatement` reads |
| VmFacts.CommentKeepsWords | src/mask-vm-parser.cpp:173-192 | text from the first `?` on does not change the words of a line |
| VmFacts.PrintStrClosed | src/mask-vm-parser.cpp:287-309 | `print str "<body>"` with no quote in the body prints exactly the body |
| VmFacts.PrintStrUnclosed | src/mask-vm-parser.cpp:287-307 | `print str "<text>` with no quote in the text stops with "Unclosed string in print" and prints nothing |
| VmFacts.CommentSeenByPrintStr | src/mask-vm-parser.cpp:173-309 | `print str "<text>?<comment>"` and `print str "<text>` have the same words, yet the first prints `<text>?<comment>` and the second stops with "Unclosed string in print": the comment is seen by `print str` |
| VmFacts.SettleIsFirstReturn | src/mask-vm-parser.cpp:115-141 | the match is the first decrementing line at which the running level returns to 0; with no match there is no such line |
| VmFacts.DeltaCases | src/mask-vm-parser.cpp:117-141 | a line raises the level iff it starts with `if`, and lowers it iff it starts with the target and names the id |
| VmFacts.MatchFromLine | src/mask-vm-parser.cpp:122-139 | a matched line starts with the target and names the id |
| VmFacts.MatchFromFirst | src/mask-vm-parser.cpp:98-146 | the matched line is where the level first returns to 0 on a decrement after the start line |
| VmFacts.EndIfLineNeverCloses | src/mask-vm-parser.cpp:122-133 | no line lowers the level for target `end if`, because the text after its first blank starts with `if` |
| VmFacts.EndIfNeverFound | src/mask-vm-parser.cpp:98-146 | searching for `end if` never finds a line |
| VmFacts.DefineOutcome | src/mask-vm-parser.cpp:199-251 | `def`/`let` succeed iff there are 5 words, a known type, a fresh name and a valid value; success adds one entry with the right constant flag, holding the unquoted literal for `str` and the `std::stoi` value for `int`, and keeps the rest; an existing name fails with "Variable already exists"; the undefined read happens iff the line has exactly 4 words otherwise valid |
| VmFacts.SetOutcome | src/mask-vm-parser.cpp:253-285 | `set` succeeds iff there are 5 words, a known type, an existing non-constant name and a valid value; success changes only that entry, to the unquoted literal for `str` or the `std::stoi` value for `int`; a constant fails with "Cannot set a constant" and is left unchanged |
| VmFacts.IfAlwaysFails | src/mask-vm-parser.cpp:323-380 | as written, every `if` line stops `execute` with false and a non-empty `lastError`, leaving variables and output unchanged; the message is "Invalid if syntax" without an id, "Invalid if ID" for an id `std::stoi` rejects, "Invalid if syntax" again when the line lacks `if <id> ` with its trailing blank, the condition's own error for a rejected condition, and otherwise "Matching end if not found" for the id |
| VmFacts.IfWithoutConditionText | src/mask-vm-parser.cpp:323-344 | the line `if 1` has an id `std::stoi` accepts, yet stops with "Invalid if syntax" because `if 1 ` with its trailing blank does not occur in it |
| VmFacts.ElseAlwaysFails | src/mask-vm-parser.cpp:383-405 | as written, every `else` line stops `execute` with false and a non-empty `lastError`, leaving variables and output unchanged; the message is "Invalid else syntax" without an id, "Invalid else ID" for a rejected id, and otherwise "Matching end if not found" for the id |
| VmFacts.UnknownCommandMessage | src/mask-vm-parser.cpp:408-415 | a line whose first word is not `def`, `let`, `set`, `print`, `if` or `else`, and that is not `end if`, stops `execute` with false and "Unknown command: <word> at line <n>", n counting from 1 |
| VmFacts.TableGrowsTransitive | src/mask-vm-parser.cpp:165-421 | "entries are never removed, flags never change, constants never change" carries across steps |
| VmFacts.DefineKeeps | src/mask-vm-parser.cpp:199-251 | `def`/`let` keep the table invariant, only append output, and set `lastError` exactly when they return false |
| VmFacts.SetKeeps | src/mask-vm-parser.cpp:253-285 | `set` keeps the table invariant, only appends output, and sets `lastError` exactly when it returns false |
| VmFacts.PrintKeeps | src/mask-vm-parser.cpp:287-321 | `print` keeps the table invariant, only appends output, and sets `lastError` exactly when it returns false |
| VmFacts.StepPreserves | src/mask-vm-parser.cpp:169-418 | every loop iteration keeps the table invariant, only appends output, never returns true early, and leaves `lastError` empty exactly when it goes on or hits the undefined read |
| VmFacts.EffectUndefined | src/mask-vm-parser.cpp:199-285 | the undefined read happens only on a 4-word `def`, `let` or `set`; `print` never hits it |
| VmFacts.UndefinedOnlyAtFourWords | src/mask-vm-parser.cpp:196-418 | an iteration ends with the undefined read only on a 4-word `def`, `let` or `set` line |
| VmFacts.RunPreserves | src/mask-vm-parser.cpp:169-421 | a run from any line keeps the table invariant, only appends output, and returns false exactly when it leaves `lastError` non-empty |
| VmFacts.ExecuteOutcome | src/mask-vm-parser.cpp:165-421 | `execute` never removes a variable or changes a flag or a constant; it only appends output; it returns false iff `lastError` is left non-empty |

## Left out

- src/preprocessor.cpp, src/codegen.cpp and src/main.cpp are not part of this model. They hold regular expressions, file system access, LLVM and command-line glue.
- Traversal callbacks (`std::function`) are not modelled. Each traversal returns the sequence of nodes it would pass to the callback.
- Character classes are those of the "C" locale over ASCII. Locale-dependent `isalpha`/`isdigit`/`isalnum`/`isspace` and negative `char` values are not modelled.
- `unique_ptr`/`shared_ptr` ownership and lifetimes are not modelled.
  - Nodes live in an arena and are never freed. The parent pointer is a non-owning id.
  - `std::make_unique<ASTNode>(new ASTNode(...))` does not compile. The model creates one node there, which is what the code evidently means.
- Parsing.Parser.ParseTopDeclaration: `parseImportDeclaration` is called but defined nowhere, so the `import` branch returns `Failed(UndefinedRule)` after consuming the keyword.
- `Parser::sync` is declared in the header but never defined, so it is not modelled.
- `Parser::parse` only wraps `parseTopDeclaration` into a tree, and `currentModule` is never used. Neither is modelled beyond `ASTTree`'s constructor.
- Parsing.ErrorReporter.Report: the header declares a third `context` parameter that the definition does not take. The model always stores an empty context.
- Scanning.Lexer.ScanTokens: `line` is an `int` and `position` a `size_t` in C++. The model leaves them unbounded and does not model overflow on sources with more than 2^31 lines.
- VmInterpreter.Value: the string constructor leaves `intVal` uninitialised. The model stores 0 there; it is read only for INT values.
- `Value::getType`/`getInt`/`getStr` are field reads of the `Value` datatype (`kind`, `intVal`, `strVal`). `Value::toString` is the function `VmInterpreter.ToString`.
- The output stream is the sequence of lines written to it. `std::endl` flushing and the stream's failure states are not modelled.
- `execute` reading `tokens[4]` on a four-word `def`/`let`/`set` line is undefined behaviour in C++. The model gives it the outcome `Undefined` instead of a boolean result.
