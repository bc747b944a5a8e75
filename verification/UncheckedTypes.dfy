/** What the quirks of the type checker come to in runs: sleeps, index expressions and operands that
    it takes wrongly. */
module UncheckedTypes {
  import opened Ast
  import opened LexicalScoping
  import opened SymbolTable
  import opened TypeChecking
  import opened TypingRules
  import opened TableDeclarations
  import opened TypingExpressions
  import opened TypingCalls
  import opened TypingSoundness
  import opened TypingVerdict
  import opened TypingIntent

  /** Nothing new is wrong and nothing stays ambiguous. */
  ghost predicate Accepted(syms: Symbols, n: ASTNode, id: NodeId, st: State) {
    Fine(Visit(syms, n, id, st)) && Settled(Visit(syms, n, id, st), id)
  }

  /** A program passes. */
  predicate Passes(syms: Symbols, root: ASTNode, uses: map<NodeId, NodeId>) {
    !Checked(syms, root, uses).failed && Checked(syms, root, uses).errors == 0
  }

  lemma PassesWhenTyped(syms: Symbols, root: ASTNode, uses: map<NodeId, NodeId>)
    requires root.ProgramDecl? && Checkable(root) && syms.Valid() && Collected(syms.table)
    ensures Passes(syms, root, uses) <==> WellTyped(Context(DeclarationsIn(syms.table), uses, Coded(syms.noise)), root, [], None)
  {
    VerdictIsTyping(syms, root, uses);
    hide Checked, Checkable, WellTyped, Annotated;
  }

  /** What is asked of an expression without calls is asked of its type. */
  lemma PlainHasType(g: Context, n: ASTNode, id: NodeId)
    requires Plain(n)
    ensures HasSomeType(g, n, id) <==> TypeOf(g, n, id).Some?
    ensures forall ty :: HasType(g, n, id, ty) <==> TypeOf(g, n, id) == Some(ty)
  {
    PlainIsUnambiguous(g, n, id);
    PlainIsSimple(n);
    hide TypeOf, Unambiguous, Inner;
  }

  // ---------- sleeps ----------

  /** A sleep statement is accepted as the handler that is never called would have it exactly when
      its count has no other type than number or, if it is a call, is right in the same sense. */
  lemma SleepAcceptedRightly(g: Context, syms: Symbols, n: ASTNode, id: NodeId, st: State)
    requires n.SleepStmt? && Simple(n.count)
    requires Fine(st) && Matches(g, syms) && Ahead(g, st, id)
    ensures (Accepted(syms, n, id, st) <==> HasType(g, n.count, id + [0], NUMBER)) <==> CountsRight(g, n, id)
  {
    hide Visit, Simple, HasSomeType, HasType, Settled, Annotated, Ahead, CountsRight, Fine, Symbols.Valid, Collected;
    WrapperVisited(g, syms, n, n.count, id, st);
    SleepRightExactly(g, n, id);
  }

  /** `fn main() -> Void { sleep text; }` */
  function TextSleep(text: string, loc: SourceLocation): ASTNode {
    ProgramDecl([FunctionDecl("main", VOID, ParamVarDecls([]), CompoundStmt([SleepStmt(StringExpr(text, loc), loc)]), loc)])
  }

  /** A program that sleeps for a text is accepted, and should not be. */
  lemma TextSleepIsAccepted(syms: Symbols, text: string, loc: SourceLocation)
    requires syms.table == map[[0] := FunctionSymbol([VOID], "main")] && syms.Valid()
    ensures Passes(syms, TextSleep(text, loc), map[])
    ensures !WellTyped(Context(DeclarationsIn(syms.table), map[], INTENDED), TextSleep(text, loc), [], None)
  {
    var root := TextSleep(text, loc);
    TextSleepIsCheckable(text, loc);
    TextSleepTyped(Context(DeclarationsIn(syms.table), map[], Coded(syms.noise)), text, loc);
    TextSleepTyped(Context(DeclarationsIn(syms.table), map[], INTENDED), text, loc);
    assert Collected(syms.table);
    hide Passes, Checkable, Collected, Lists, NoRepeats, WellTyped;
    PassesWhenTyped(syms, root, map[]);
  }

  lemma TextSleepTyped(g: Context, text: string, loc: SourceLocation)
    ensures WellTyped(g, TextSleep(text, loc), [], None) <==> g.quirks.unchecked
  {
    var root := TextSleep(text, loc);
    OneStatement(g, root);
    var sleep := root.decls[0].body.stmts[0];
    assert TypeOf(g, sleep.count, [0, 1, 0] + [0]) == Some(STRING);
    PlainHasType(g, sleep.count, [0, 1, 0] + [0]);
    assert WellTyped(g, sleep, [0, 1, 0], Some([0])) <==> GoodSleep(g, sleep, [0, 1, 0]);
    hide WellTyped, TypeOf, HasType, HasSomeType;
  }

  lemma TextSleepIsCheckable(text: string, loc: SourceLocation)
    ensures Checkable(TextSleep(text, loc))
  {
    var root := TextSleep(text, loc);
    var body := root.decls[0].body;
    assert Checkable(body.stmts[0]) && Checkable(body) && Checkable(root.decls[0]);
  }

  /** A program of one function with one statement is what the statement is. */
  lemma OneStatement(g: Context, root: ASTNode)
    requires root.ProgramDecl? && |root.decls| == 1 && root.decls[0].FunctionDecl?
    requires root.decls[0].body.CompoundStmt? && |root.decls[0].body.stmts| == 1
    ensures WellTyped(g, root, [], None) <==> WellTyped(g, root.decls[0].body.stmts[0], [0, 1, 0], Some([0]))
  {
    var body := root.decls[0].body;
    assert [] + [0] == [0] && [0] + [1] + [0] == [0, 1, 0];
    assert WellTyped(g, root, [], None) <==> WellTyped(g, root.decls[0], [] + [0], None);
    assert WellTyped(g, body, [0] + [1], Some([0])) <==> WellTyped(g, body.stmts[0], [0] + [1] + [0], Some([0]));
  }

  // ---------- index expressions ----------

  /** What is right of an initializer with an index, by the rules as coded and as intended. */
  lemma IndexedInits(g: Context, n: ASTNode, id: NodeId)
    requires n.VarDecl? && n.init.IndexedExpr? && Plain(n.init) && Tame(n.init.index) && DeclaredType(g.decls, id).Some?
    requires g.quirks.unchecked && g.quirks.wholeArrays
    ensures var whole := TypeOf(g, n.init, id + [0]);
            && (GoodInit(g, n, id) <==> whole.Some?)
            && (GoodInit(g.(quirks := INTENDED), n, id) <==> whole.Some? && ElementType(whole.value) == DeclaredType(g.decls, id))
  {
    var h, e, at := g.(quirks := INTENDED), n.init, id + [0];
    TypesAgree(g, h, e.index, at + [1]);
    PlainIsSimple(e.index);
    assert TypeOf(g, e.ident, at + [0]) == TypeOf(h, e.ident, at + [0]);
    assert MayHave(g, e.index, at + [1], NUMBER) <==> MayHave(h, e.index, at + [1], NUMBER);
    IndexedTypeOf(g, e, at);
    IndexedTypeOf(h, e, at);
    PlainHasType(g, e, at);
    PlainHasType(h, e, at);
    hide TypeOf, HasType, HasSomeType, MayHave;
  }

  /** An initializer with an index is accepted as it should be exactly when it cannot be given a type
      at all, or the elements of its array have the declared type. */
  lemma IndexedAcceptedRightly(g: Context, syms: Symbols, n: ASTNode, id: NodeId, st: State)
    requires n.VarDecl? && n.init.IndexedExpr? && Plain(n.init) && Tame(n.init.index) && DeclaredType(g.decls, id).Some?
    requires Fine(st) && Matches(g, syms) && Ahead(g, st, id)
    ensures var whole := TypeOf(g, n.init, id + [0]);
            (Accepted(syms, n, id, st) <==> GoodInit(g.(quirks := INTENDED), n, id)) <==>
              (whole.None? || ElementType(whole.value) == DeclaredType(g.decls, id))
  {
    IndexedInits(g, n, id);
    PlainIsSimple(n.init);
    hide Visit, Annotated, Settled, Ahead, Tame, Fine, GoodInit, TypeOf, ElementType, VariableType, Symbols.Valid;
    hide Collected, Plain, Simple;
    VarVisited(g, syms, n, id, st);
  }

  /** `var a: ty[2]; var b: declared = a[0];` */
  function IndexedInit(ty: Type, declared: Type, size: int, loc: SourceLocation): ASTNode {
    ProgramDecl([VarDecl("a", ty, false, 2, Null, loc),
                 VarDecl("b", declared, false, size, IndexedExpr(IdentifierExpr("a", loc), NumberExpr(0, loc), loc), loc)])
  }

  /** Whatever type is declared, it passes; it should exactly when the elements have that type. */
  lemma IndexedInitIsAccepted(syms: Symbols, ty: Type, declared: Type, size: int, loc: SourceLocation)
    requires syms.table == map[[0] := VariableSymbol(ty, 0, "a", 2), [1] := VariableSymbol(declared, 0, "b", size)] && syms.Valid()
    ensures var root, uses := IndexedInit(ty, declared, size, loc), map[[1, 0, 0] := [0]];
            && Passes(syms, root, uses)
            && (WellTyped(Context(DeclarationsIn(syms.table), uses, INTENDED), root, [], None) <==> ElementType(ty) == Some(declared))
  {
    var root, uses := IndexedInit(ty, declared, size, loc), map[[1, 0, 0] := [0]];
    InitIsCheckable(ty, declared, size, loc);
    BothCollected(syms.table, ty, declared, size);
    BothDeclared(syms.table, ty, declared, size);
    hide Passes, Checkable, WellTyped, Collected, ElementType, Lists, NoRepeats, DeclarationsIn, IndexedInit;
    InitByTheRules(Context(DeclarationsIn(syms.table), uses, Coded(syms.noise)), ty, declared, size, loc);
    InitByTheRules(Context(DeclarationsIn(syms.table), uses, INTENDED), ty, declared, size, loc);
    PassesWhenTyped(syms, root, uses);
  }

  lemma BothCollected(table: Table, ty: Type, declared: Type, size: int)
    requires table == map[[0] := VariableSymbol(ty, 0, "a", 2), [1] := VariableSymbol(declared, 0, "b", size)]
    ensures Collected(table)
  {
    assert "a" != "b";
  }

  lemma BothDeclared(table: Table, ty: Type, declared: Type, size: int)
    requires table == map[[0] := VariableSymbol(ty, 0, "a", 2), [1] := VariableSymbol(declared, 0, "b", size)]
    ensures DeclarationsIn(table) == map[[0] := Variable(ty), [1] := Variable(declared)]
  {
  }

  lemma InitByTheRules(g: Context, ty: Type, declared: Type, size: int, loc: SourceLocation)
    requires g.decls == map[[0] := Variable(ty), [1] := Variable(declared)]
    requires g.uses == map[[1, 0, 0] := [0]]
    ensures g.quirks.unchecked && g.quirks.wholeArrays ==> WellTyped(g, IndexedInit(ty, declared, size, loc), [], None)
    ensures g.quirks == INTENDED ==>
              (WellTyped(g, IndexedInit(ty, declared, size, loc), [], None) <==> ElementType(ty) == Some(declared))
  {
    InitDecides(g, ty, declared, size, loc);
    hide WellTyped, IndexedInit;
  }

  lemma InitIsCheckable(ty: Type, declared: Type, size: int, loc: SourceLocation)
    ensures Checkable(IndexedInit(ty, declared, size, loc))
  {
    var root := IndexedInit(ty, declared, size, loc);
    var b := root.decls[1];
    assert Simple(b.init.ident) && Simple(b.init.index) && Simple(b.init) && Checkable(root.decls[0]) && Checkable(b);
  }

  lemma InitDecides(g: Context, ty: Type, declared: Type, size: int, loc: SourceLocation)
    requires g.decls == map[[0] := Variable(ty), [1] := Variable(declared)]
    requires g.uses == map[[1, 0, 0] := [0]]
    ensures WellTyped(g, IndexedInit(ty, declared, size, loc), [], None)
       <==> (g.quirks.unchecked && IndexedType(g, Some(ty)).Some?) || IndexedType(g, Some(ty)) == Some(declared)
  {
    var root := IndexedInit(ty, declared, size, loc);
    var b := root.decls[1];
    VariablesAreTyped(g, root);
    InitHasType(g, b.init, ty);
    assert Plain(b.init.index) && Plain(b.init);
    hide TypeOf, HasType, HasSomeType, Plain, WellTyped;
    PlainHasType(g, b.init, [1] + [0]);
  }

  lemma InitHasType(g: Context, n: ASTNode, ty: Type)
    requires [0] in g.decls && g.decls[[0]] == Variable(ty) && g.uses == map[[1, 0, 0] := [0]]
    requires n.IndexedExpr? && n.ident.IdentifierExpr? && n.index.NumberExpr?
    ensures TypeOf(g, n, [1] + [0]) == IndexedType(g, Some(ty))
  {
    assert [1] + [0] + [0] == [1, 0, 0];
    assert TypeOf(g, n.ident, [1] + [0] + [0]) == Some(ty) && TypeOf(g, n.index, [1] + [0] + [1]) == Some(NUMBER);
    assert MayHave(g, n.index, [1] + [0] + [1], NUMBER);
    IndexedTypeOf(g, n, [1] + [0]);
    hide TypeOf, MayHave;
  }

  // ---------- operands ----------

  /** `var a: Bool = left == right;`, with two string literals */
  function TextComparison(left: string, right: string, loc: SourceLocation): ASTNode {
    ProgramDecl([VarDecl("a", BOOL, false, 0, BinaryExpr(EQUAL, StringExpr(left, loc), StringExpr(right, loc), loc), loc)])
  }

  /** The program is well typed, and passes exactly when the two variables that were to hold the types
      of the literals happen to hold the same. */
  lemma TextComparisonDepends(syms: Symbols, left: string, right: string, loc: SourceLocation)
    requires syms.table == map[[0] := VariableSymbol(BOOL, 0, "a", 0)] && syms.Valid()
    ensures var root := TextComparison(left, right, loc);
            && WellTyped(Context(DeclarationsIn(syms.table), map[], INTENDED), root, [], None)
            && (Passes(syms, root, map[]) <==> syms.noise([0, 0, 0]) == syms.noise([0, 0, 1]))
  {
    var root := TextComparison(left, right, loc);
    TextComparisonIsCheckable(left, right, loc);
    ComparisonDecides(Context(DeclarationsIn(syms.table), map[], Coded(syms.noise)), left, right, loc);
    ComparisonDecides(Context(DeclarationsIn(syms.table), map[], INTENDED), left, right, loc);
    assert Collected(syms.table);
    hide Passes, Checkable, Collected, Lists, NoRepeats, WellTyped;
    PassesWhenTyped(syms, root, map[]);
  }

  lemma TextComparisonIsCheckable(left: string, right: string, loc: SourceLocation)
    ensures Checkable(TextComparison(left, right, loc))
  {
    var root := TextComparison(left, right, loc);
    var init := root.decls[0].init;
    assert Simple(init.lhs) && Simple(init.rhs) && Simple(init) && Checkable(root.decls[0]);
  }

  lemma ComparisonDecides(g: Context, left: string, right: string, loc: SourceLocation)
    requires g.decls == map[[0] := Variable(BOOL)]
    ensures WellTyped(g, TextComparison(left, right, loc), [], None)
       <==> g.quirks.unset.None? || g.quirks.unset.value([0, 0, 0]) == g.quirks.unset.value([0, 0, 1])
  {
    var root := TextComparison(left, right, loc);
    var init := root.decls[0].init;
    VariablesAreTyped(g, root);
    assert [0] + [0] == [0, 0] && [0, 0] + [0] == [0, 0, 0] && [0, 0] + [1] == [0, 0, 1];
    TextsCompared(g, init, [0, 0]);
    assert Plain(init.lhs) && Plain(init.rhs) && Plain(init);
    hide TypeOf, HasType, HasSomeType, Plain, WellTyped;
    PlainHasType(g, init, [0, 0]);
  }

  /** A program of variables is what its initializers are. */
  lemma VariablesAreTyped(g: Context, root: ASTNode)
    requires root.ProgramDecl? && forall i | 0 <= i < |root.decls| :: root.decls[i].VarDecl?
    ensures WellTyped(g, root, [], None) <==> forall i | 0 <= i < |root.decls| :: GoodInit(g, root.decls[i], [i])
  {
    forall i | 0 <= i < |root.decls| ensures WellTyped(g, root.decls[i], [] + [i], None) <==> GoodInit(g, root.decls[i], [i]) {
      assert [] + [i] == [i];
    }
    hide GoodInit;
  }

  lemma TextsCompared(g: Context, n: ASTNode, id: NodeId)
    requires n.BinaryExpr? && n.op == EQUAL && n.lhs.StringExpr? && n.rhs.StringExpr?
    ensures TypeOf(g, n, id) == Some(BOOL)
       <==> g.quirks.unset.None? || g.quirks.unset.value(id + [0]) == g.quirks.unset.value(id + [1])
  {
    assert TypeOf(g, n.lhs, id + [0]) == Some(STRING) && TypeOf(g, n.rhs, id + [1]) == Some(STRING);
    BinaryTypeOf(g, n, id);
    ValueOfPlain(g, n.lhs, id + [0]);
    ValueOfPlain(g, n.rhs, id + [1]);
    hide TypeOf, ValueType;
  }

  /** `fn f() -> Int { return 1; } var a: Bool = f() == 1;` */
  function CallComparison(loc: SourceLocation): ASTNode {
    var body := CompoundStmt([ReturnStmt(NumberExpr(1, loc), loc)]);
    ProgramDecl([FunctionDecl("f", NUMBER, ParamVarDecls([]), body, loc),
                 VarDecl("a", BOOL, false, 0, BinaryExpr(EQUAL, CallExpr("f", [], loc), NumberExpr(1, loc), loc), loc)])
  }

  function CallTable(scope: nat): Table {
    map[[0] := FunctionSymbol([NUMBER], "f"), [1] := VariableSymbol(BOOL, scope, "a", 0)]
  }

  /** The program is well typed, and passes exactly when the variable that was to hold the type of the
      call happens to hold that of numbers. */
  lemma CallComparisonDepends(syms: Symbols, scope: nat, loc: SourceLocation)
    requires syms.table == CallTable(scope) && syms.Valid()
    ensures var root := CallComparison(loc);
            && WellTyped(Context(DeclarationsIn(syms.table), map[], INTENDED), root, [], None)
            && (Passes(syms, root, map[]) <==> syms.noise([1, 0, 0]) == NUMBER)
  {
    var root := CallComparison(loc);
    CallComparisonIsCheckable(loc);
    CallComparisonDecides(Context(DeclarationsIn(syms.table), map[], Coded(syms.noise)), scope, loc);
    CallComparisonDecides(Context(DeclarationsIn(syms.table), map[], INTENDED), scope, loc);
    CallTableCollected(scope);
    hide CallTable;
    hide Passes, Checkable, Collected, Lists, NoRepeats, WellTyped;
    PassesWhenTyped(syms, root, map[]);
  }

  lemma CallTableCollected(scope: nat)
    ensures Collected(CallTable(scope))
  {
  }

  lemma CallComparisonIsCheckable(loc: SourceLocation)
    ensures Checkable(CallComparison(loc))
  {
    var root := CallComparison(loc);
    var f, init := root.decls[0], root.decls[1].init;
    var result := f.body.stmts[0].result;
    assert Simple(init.lhs) && Simple(init.rhs) && Simple(init) && Simple(result);
    hide Simple;
    assert Checkable(root.decls[1]) && Checkable(f.body.stmts[0]);
    assert Checkable(f.body) && Checkable(f);
  }

  lemma CallComparisonDecides(g: Context, scope: nat, loc: SourceLocation)
    requires g.decls == DeclarationsIn(CallTable(scope))
    ensures WellTyped(g, CallComparison(loc), [], None)
       <==> (if g.quirks.unset.None? then g.quirks.callTypes else g.quirks.unset.value([1, 0, 0]) == NUMBER)
  {
    var root := CallComparison(loc);
    var f, a := root.decls[0], root.decls[1];
    assert [] + [0] == [0] && [] + [1] == [1] && [1] + [0] + [0] == [1, 0, 0];
    FunctionIsTyped(g, scope, loc);
    CallCompared(g, scope, a.init, [1] + [0]);
    assert WellTyped(g, a, [] + [1], None) <==> GoodInit(g, a, [1]);
    hide HasType, HasSomeType;
    assert WellTyped(g, a, [] + [1], None) <==> HasType(g, a.init, [1] + [0], BOOL);
    hide WellTyped;
    ProgramOfTwo(g, root);
  }

  lemma ProgramOfTwo(g: Context, root: ASTNode)
    requires root.ProgramDecl? && |root.decls| == 2
    ensures WellTyped(g, root, [], None) <==> WellTyped(g, root.decls[0], [] + [0], None) && WellTyped(g, root.decls[1], [] + [1], None)
  {
    var n := root;
    assert WellTyped(g, n, [], None) <==> forall i | 0 <= i < |n.decls| :: WellTyped(g, n.decls[i], [] + [i], None);
  }

  lemma FunctionIsTyped(g: Context, scope: nat, loc: SourceLocation)
    requires g.decls == DeclarationsIn(CallTable(scope))
    ensures WellTyped(g, CallComparison(loc).decls[0], [] + [0], None)
  {
    assert [0] in g.decls && g.decls[[0]] == Function("f", NUMBER, []);
    hide CallTable, DeclarationsIn;
    var f := CallComparison(loc).decls[0];
    var result := f.body.stmts[0].result;
    assert [] + [0] == [0];
    PlainHasType(g, result, [0] + [1] + [0] + [0]);
    assert TypeOf(g, result, [0] + [1] + [0] + [0]) == Some(NUMBER);
    hide HasType;
    assert GoodReturn(g, f.body.stmts[0], [0] + [1] + [0], Some([0]));
    assert WellTyped(g, f.body, [0] + [1], Some([0]));
  }

  /** A comparison of a call of `f` with a number. */
  lemma CallCompared(g: Context, scope: nat, n: ASTNode, id: NodeId)
    requires g.decls == DeclarationsIn(CallTable(scope)) && n.BinaryExpr? && n.op == EQUAL && n.rhs.NumberExpr?
    requires n.lhs.CallExpr? && n.lhs.name == "f" && n.lhs.args == []
    ensures HasType(g, n, id, BOOL)
       <==> (if g.quirks.unset.None? then g.quirks.callTypes else g.quirks.unset.value(id + [0]) == NUMBER)
  {
    CallOfF(g, scope, n.lhs, id + [0]);
    PlainIsUnambiguous(g, n.rhs, id + [1]);
    assert TypeOf(g, n.rhs, id + [1]) == Some(NUMBER);
    LookedUp(g, n.rhs, id + [1]);
    assert n.Children() == [n.lhs, n.rhs];
    OperandOfCall(g, n.lhs, id + [0]);
    BinaryTypeOf(g, n, id);
    hide TypeOf, CallType, OperandTypeOf, Means, Evaluates, Unambiguous;
  }

  lemma OperandOfCall(g: Context, n: ASTNode, id: NodeId)
    requires n.CallExpr? && Evaluates(g, n, id)
    ensures OperandTypeOf(g, n, id)
         == (if g.quirks.unset.Some? then Some(g.quirks.unset.value(id))
             else if g.quirks.callTypes then CallType(g, n, id) else None)
  {
    hide Evaluates, CallType;
  }

  lemma CallOfF(g: Context, scope: nat, n: ASTNode, id: NodeId)
    requires g.decls == DeclarationsIn(CallTable(scope)) && n.CallExpr? && n.name == "f" && n.args == []
    ensures Evaluates(g, n, id) && Unambiguous(g, n, id) && CallType(g, n, id) == Some(NUMBER)
  {
    assert forall d :: MeansBy(g.quirks.calls, g, n, id, d) <==> d == [0];
    assert Means(g, n, id, [0]);
    assert AllReturn(g, n, id, NUMBER);
  }
}
