/** When the checker judges a call of calls rightly, although it compares what the inner call
    returns with what the outer function returns. */
module NestedVerdict {
  import opened Ast
  import opened LexicalScoping
  import opened SymbolTable
  import opened TypeChecking
  import opened TypingRules
  import opened TableDeclarations
  import opened TypingExpressions
  import opened TypingCalls
  import opened TypingVisits
  import opened TypingSoundness

  /** The checker keeps exactly the functions that fit by the types of their parameters. */
  ghost predicate RightlyJudged(g: Context, n: ASTNode, id: NodeId)
    requires n.CallExpr?
  {
    forall d :: MeansBy(ByResult, g, n, id, d) <==> MeansBy(ByParameter, g, n, id, d)
  }

  /** A call without calls for arguments. */
  predicate PlainCall(n: ASTNode) {
    n.CallExpr? && !HasInnerCalls(n)
  }

  /** Without inner calls there is nothing to mistake. */
  lemma PlainCallsAreRight(g: Context, n: ASTNode, id: NodeId)
    requires PlainCall(n)
    ensures RightlyJudged(g, n, id)
  {
    hide TypeOf;
    forall d ensures MeansBy(ByResult, g, n, id, d) <==> MeansBy(ByParameter, g, n, id, d) {
      if IsFor(g.decls, n, d) {
        forall i | 0 <= i < |n.args| ensures Takes(ByResult, g, n, i, id, d) <==> Takes(ByParameter, g, n, i, id, d) {
        }
      }
    }
  }

  // ---------- one call ----------

  /** Some function that the inner call may mean returns `ty`. */
  ghost predicate MayReturn(g: Context, n: ASTNode, i: nat, id: NodeId, ty: Type)
    requires n.CallExpr? && i < |n.args| && n.args[i].CallExpr?
  {
    exists e :: MeansBy(ByParameter, g, n.args[i], id + [i], e) && Gives(g.decls, e, ty)
  }

  /** A function whose parameters have the types of the call-free arguments. */
  ghost predicate Fits(g: Context, n: ASTNode, id: NodeId, d: NodeId): (r: bool)
    requires n.CallExpr?
    ensures r ==> IsFor(g.decls, n, d)
  {
    && IsFor(g.decls, n, d)
    && forall i | 0 <= i < |n.args| && !n.args[i].CallExpr? ::
         TypeOf(g, n.args[i], id + [i]) == Some(g.decls[d].parameters[i])
  }

  /** Every inner call may return the type asked for. */
  ghost predicate InnerFits(rule: Rule, g: Context, n: ASTNode, id: NodeId, d: NodeId)
    requires n.CallExpr? && IsFor(g.decls, n, d)
  {
    forall i | 0 <= i < |n.args| && n.args[i].CallExpr? :: MayReturn(g, n, i, id, Asked(rule, g.decls[d], i))
  }

  ghost predicate InnerRight(g: Context, n: ASTNode, id: NodeId)
    requires n.CallExpr?
  {
    forall i | 0 <= i < |n.args| && n.args[i].CallExpr? :: RightlyJudged(g, n.args[i], id + [i])
  }

  lemma MeansByParts(rule: Rule, g: Context, n: ASTNode, id: NodeId, d: NodeId)
    requires n.CallExpr? && InnerRight(g, n, id)
    ensures MeansBy(rule, g, n, id, d) <==> Fits(g, n, id, d) && InnerFits(rule, g, n, id, d)
  {
    hide TypeOf, Gives;
    if IsFor(g.decls, n, d) {
      forall i | 0 <= i < |n.args| && n.args[i].CallExpr?
        ensures Takes(rule, g, n, i, id, d) <==> MayReturn(g, n, i, id, Asked(rule, g.decls[d], i))
      {
        InnerTakes(rule, g, n, i, id, d);
      }
      if Fits(g, n, id, d) && InnerFits(rule, g, n, id, d) {
        forall i | 0 <= i < |n.args| ensures Takes(rule, g, n, i, id, d) {
        }
      }
      if MeansBy(rule, g, n, id, d) {
        forall i | 0 <= i < |n.args|
          ensures if n.args[i].CallExpr? then MayReturn(g, n, i, id, Asked(rule, g.decls[d], i))
                  else TypeOf(g, n.args[i], id + [i]) == Some(g.decls[d].parameters[i])
        {
          assert Takes(rule, g, n, i, id, d);
        }
      }
    }
  }

  lemma InnerTakes(rule: Rule, g: Context, n: ASTNode, i: nat, id: NodeId, d: NodeId)
    requires n.CallExpr? && i < |n.args| && n.args[i].CallExpr? && IsFor(g.decls, n, d)
    requires RightlyJudged(g, n.args[i], id + [i])
    ensures Takes(rule, g, n, i, id, d) <==> MayReturn(g, n, i, id, Asked(rule, g.decls[d], i))
  {
    var e := n.args[i];
    var ty := Asked(rule, g.decls[d], i);
    hide MeansBy, Gives, Asked, IsFor;
    assert Takes(rule, g, n, i, id, d) <==> exists x :: MeansBy(rule, g, e, id + [i], x) && Gives(g.decls, x, ty);
    forall x ensures MeansBy(rule, g, e, id + [i], x) <==> MeansBy(ByParameter, g, e, id + [i], x) {
    }
  }

  /** A call whose inner calls are judged rightly is judged rightly exactly when, for every
      function that takes its other arguments, the inner calls may return the result type just
      when they may return the types of their parameters. */
  lemma RightExactly(g: Context, n: ASTNode, id: NodeId)
    requires n.CallExpr? && InnerRight(g, n, id)
    ensures RightlyJudged(g, n, id)
       <==> forall d | Fits(g, n, id, d) :: InnerFits(ByResult, g, n, id, d) <==> InnerFits(ByParameter, g, n, id, d)
  {
    hide MeansBy, Fits, InnerFits;
    forall d ensures MeansBy(ByResult, g, n, id, d) <==> Fits(g, n, id, d) && InnerFits(ByResult, g, n, id, d) {
      MeansByParts(ByResult, g, n, id, d);
    }
    forall d ensures MeansBy(ByParameter, g, n, id, d) <==> Fits(g, n, id, d) && InnerFits(ByParameter, g, n, id, d) {
      MeansByParts(ByParameter, g, n, id, d);
    }
  }

  // ---------- all depths ----------

  /** Every function that a call in the expression may be for, takes what it returns wherever the
      call has an inner call for an argument. */
  ghost predicate TakesItsResult(decls: Declarations, n: ASTNode)
    decreases n
  {
    n.CallExpr? ==>
      forall i | 0 <= i < |n.args| && n.args[i].CallExpr? ::
        && TakesItsResult(decls, n.args[i])
        && forall d | IsFor(decls, n, d) :: decls[d].parameters[i] == decls[d].result
  }

  lemma {:induction false} RightAtEveryDepth(g: Context, n: ASTNode, id: NodeId)
    requires n.CallExpr? && TakesItsResult(g.decls, n)
    ensures RightlyJudged(g, n, id)
    decreases n
  {
    hide RightlyJudged;
    forall i | 0 <= i < |n.args| && n.args[i].CallExpr? ensures RightlyJudged(g, n.args[i], id + [i]) {
      RightAtEveryDepth(g, n.args[i], id + [i]);
    }
    RightExactly(g, n, id);
    hide Fits;
    forall d | Fits(g, n, id, d) ensures InnerFits(ByResult, g, n, id, d) <==> InnerFits(ByParameter, g, n, id, d) {
      SameAsked(g, n, id, d);
    }
  }

  lemma SameAsked(g: Context, n: ASTNode, id: NodeId, d: NodeId)
    requires n.CallExpr? && TakesItsResult(g.decls, n) && Fits(g, n, id, d)
    ensures InnerFits(ByResult, g, n, id, d) <==> InnerFits(ByParameter, g, n, id, d)
  {
    hide MayReturn;
    forall i | 0 <= i < |n.args| && n.args[i].CallExpr?
      ensures Asked(ByResult, g.decls[d], i) == Asked(ByParameter, g.decls[d], i)
    {
      assert g.decls[d].parameters[i] == g.decls[d].result;
    }
  }

  // ---------- one declaration, all programs ----------

  /** A function with the result type `types[0]` and parameters of the other types. */
  function FunctionOf(name: string, types: seq<Type>): Declaration
    requires types != []
  {
    Function(name, types[0], types[1..])
  }

  /** All functions of that name have the result and parameter types `types`. */
  predicate OnlySo(decls: Declarations, name: string, types: seq<Type>)
    requires types != []
  {
    forall d | d in decls && decls[d].Function? && decls[d].name == name :: decls[d] == FunctionOf(name, types)
  }

  /** A call that has inner calls, themselves without inner calls, at these positions. */
  predicate IsCallWith(n: ASTNode, name: string, places: set<nat>) {
    && n.CallExpr? && n.name == name
    && forall i | 0 <= i < |n.args| :: if i in places then PlainCall(n.args[i]) else !n.args[i].CallExpr?
  }

  // The program that tells: every argument has the type of its parameter.

  function InnerName(name: string, i: nat): string { name + seq(i + 1, _ => 'g') }

  /** What the i-th argument calls or names. */
  function ForArgument(name: string, types: seq<Type>, places: set<nat>, i: nat): Declaration
    requires i + 1 < |types|
  {
    if i in places then Function(InnerName(name, i), types[i + 1], []) else Variable(types[i + 1])
  }

  function Place(i: nat): (r: NodeId)
    ensures |r| == 1 && r[0] == i
  {
    [i]
  }

  function DeclaredAt(i: nat): (r: NodeId)
    ensures |r| == 2 && r[1] == i
  {
    [0, i]
  }

  /** The function, and what the first `k` arguments call or name. */
  function TellingTable(name: string, types: seq<Type>, places: set<nat>, k: nat): (t: Declarations)
    requires k < |types|
    ensures forall d :: d in t <==> d == [1] || exists i: nat :: i < k && d == DeclaredAt(i)
    ensures t[[1]] == FunctionOf(name, types)
    ensures forall i: nat :: i < k ==> t[DeclaredAt(i)] == ForArgument(name, types, places, i)
  {
    if k == 0 then map[[1] := FunctionOf(name, types)]
    else TellingTable(name, types, places, k - 1)[DeclaredAt(k - 1) := ForArgument(name, types, places, k - 1)]
  }

  function TellingUses(k: nat): (uses: map<NodeId, NodeId>)
    ensures forall i: nat :: i < k ==> Place(i) in uses && uses[Place(i)] == DeclaredAt(i)
  {
    if k == 0 then map[] else TellingUses(k - 1)[Place(k - 1) := DeclaredAt(k - 1)]
  }

  function TellingContext(name: string, types: seq<Type>, places: set<nat>, quirks: Quirks): Context
    requires types != []
  {
    Context(TellingTable(name, types, places, |types| - 1), TellingUses(|types| - 1), quirks)
  }

  function TellingArgument(name: string, places: set<nat>, loc: SourceLocation, i: nat): ASTNode {
    if i in places then CallExpr(InnerName(name, i), [], loc) else IdentifierExpr("x", loc)
  }

  function TellingCall(name: string, types: seq<Type>, places: set<nat>, loc: SourceLocation): ASTNode
    requires types != []
  {
    CallExpr(name, seq(|types| - 1, i requires i >= 0 => TellingArgument(name, places, loc, i)), loc)
  }

  lemma InnerNames(name: string, i: nat, j: nat)
    ensures InnerName(name, i) != name && (InnerName(name, i) == InnerName(name, j) ==> i == j)
  {
    assert |InnerName(name, i)| == |name| + i + 1 && |InnerName(name, j)| == |name| + j + 1;
  }

  /** The i-th argument has the type of its parameter, and no other. */
  lemma TellingTypes(name: string, types: seq<Type>, places: set<nat>, quirks: Quirks, loc: SourceLocation, i: nat)
    requires i + 1 < |types|
    ensures var g, n := TellingContext(name, types, places, quirks), TellingArgument(name, places, loc, i);
            if i in places then
              PlainCall(n) && forall e :: MeansBy(ByParameter, g, n, [] + [i], e) <==> e == DeclaredAt(i)
            else
              !n.CallExpr? && TypeOf(g, n, [] + [i]) == Some(types[i + 1])
  {
    var g, n := TellingContext(name, types, places, quirks), TellingArgument(name, places, loc, i);
    assert [] + [i] == Place(i);
    if i in places {
      forall e ensures MeansBy(ByParameter, g, n, [] + [i], e) <==> e == DeclaredAt(i) {
        InnerNames(name, i, i);
        if j: nat :| j < |types| - 1 && e == DeclaredAt(j) {
          InnerNames(name, i, j);
        }
      }
    }
  }

  /** Where there is an inner call, the function takes what it returns. */
  predicate TakesResultAt(types: seq<Type>, places: set<nat>) {
    forall i | 0 <= i < |types| - 1 && i in places :: types[i + 1] == types[0]
  }

  /** The call is properly typed; the checker keeps its function exactly when the function takes
      what it returns wherever it is given an inner call. */
  lemma TellingJudged(name: string, types: seq<Type>, places: set<nat>, quirks: Quirks, loc: SourceLocation)
    requires types != []
    ensures var g, n := TellingContext(name, types, places, quirks), TellingCall(name, types, places, loc);
            && IsCallWith(n, name, places) && OnlySo(g.decls, name, types)
            && MeansBy(ByParameter, g, n, [], [1])
            && (MeansBy(ByResult, g, n, [], [1]) <==> TakesResultAt(types, places))
  {
    var g, n := TellingContext(name, types, places, quirks), TellingCall(name, types, places, loc);
    forall i | 0 <= i < |n.args|
      ensures if i in places then PlainCall(n.args[i]) else !n.args[i].CallExpr?
      ensures n.args[i].CallExpr? <==> i in places
      ensures i in places ==> RightlyJudged(g, n.args[i], [] + [i])
      ensures i in places ==> forall ty :: MayReturn(g, n, i, [], ty) <==> ty == types[i + 1]
      ensures i !in places ==> TypeOf(g, n.args[i], [] + [i]) == Some(types[i + 1])
    {
      TellingTypes(name, types, places, quirks, loc, i);
      if i in places {
        InnerReturns(name, types, places, quirks, loc, i);
      }
    }
    TellingOnly(name, types, places, quirks);
    hide TellingContext, TellingArgument, RightlyJudged, MayReturn, PlainCall, TypeOf;
    MeansByParts(ByResult, g, n, [], [1]);
    MeansByParts(ByParameter, g, n, [], [1]);
    TellingFits(g, n, types, places);
  }

  lemma TellingOnly(name: string, types: seq<Type>, places: set<nat>, quirks: Quirks)
    requires types != []
    ensures var t := TellingContext(name, types, places, quirks).decls;
            OnlySo(t, name, types) && [1] in t && t[[1]] == FunctionOf(name, types)
  {
    var t := TellingContext(name, types, places, quirks).decls;
    forall d | d in t && t[d].Function? && t[d].name == name ensures t[d] == FunctionOf(name, types) {
      if i: nat :| i < |types| - 1 && d == DeclaredAt(i) {
        InnerNames(name, i, i);
      }
    }
  }

  lemma InnerReturns(name: string, types: seq<Type>, places: set<nat>, quirks: Quirks, loc: SourceLocation, i: nat)
    requires i + 1 < |types| && i in places
    ensures var g, n := TellingContext(name, types, places, quirks), TellingCall(name, types, places, loc);
            && RightlyJudged(g, n.args[i], [] + [i])
            && forall ty :: MayReturn(g, n, i, [], ty) <==> ty == types[i + 1]
  {
    var g, n := TellingContext(name, types, places, quirks), TellingCall(name, types, places, loc);
    TellingTypes(name, types, places, quirks, loc, i);
    assert Gives(g.decls, DeclaredAt(i), types[i + 1]);
    PlainCallsAreRight(g, n.args[i], [] + [i]);
    hide MeansBy, TellingContext, TellingArgument;
    forall ty ensures MayReturn(g, n, i, [], ty) <==> ty == types[i + 1] {
      if ty == types[i + 1] {
        assert MeansBy(ByParameter, g, n.args[i], [] + [i], DeclaredAt(i));
      }
    }
  }

  lemma TellingFits(g: Context, n: ASTNode, types: seq<Type>, places: set<nat>)
    requires n.CallExpr? && types != [] && |n.args| == |types| - 1
    requires [1] in g.decls && g.decls[[1]] == FunctionOf(n.name, types)
    requires forall i | 0 <= i < |n.args| :: n.args[i].CallExpr? <==> i in places
    requires forall i | 0 <= i < |n.args| ::
               if i in places then forall ty :: MayReturn(g, n, i, [], ty) <==> ty == types[i + 1]
               else TypeOf(g, n.args[i], [] + [i]) == Some(types[i + 1])
    ensures Fits(g, n, [], [1]) && InnerFits(ByParameter, g, n, [], [1])
    ensures InnerFits(ByResult, g, n, [], [1]) <==> TakesResultAt(types, places)
  {
    hide TypeOf, MayReturn;
    assert g.decls[[1]].parameters == types[1..] && g.decls[[1]].result == types[0];
    forall i | 0 <= i < |n.args| && n.args[i].CallExpr?
      ensures MayReturn(g, n, i, [], Asked(ByResult, g.decls[[1]], i)) <==> types[i + 1] == types[0]
      ensures MayReturn(g, n, i, [], Asked(ByParameter, g.decls[[1]], i))
    {
    }
    if InnerFits(ByResult, g, n, [], [1]) {
      forall i | 0 <= i < |types| - 1 && i in places ensures types[i + 1] == types[0] {
        assert n.args[i].CallExpr?;
      }
    }
  }

  lemma UniformCallsAreRight(name: string, types: seq<Type>, places: set<nat>, g: Context, n: ASTNode, id: NodeId)
    requires types != [] && TakesResultAt(types, places) && OnlySo(g.decls, name, types) && IsCallWith(n, name, places)
    ensures RightlyJudged(g, n, id)
  {
    hide RightlyJudged;
    forall i | 0 <= i < |n.args| && n.args[i].CallExpr?
      ensures TakesItsResult(g.decls, n.args[i])
      ensures forall d | IsFor(g.decls, n, d) :: g.decls[d].parameters[i] == g.decls[d].result
    {
      assert i in places && PlainCall(n.args[i]);
    }
    RightAtEveryDepth(g, n, id);
  }

  /** For functions declared with given types, calls that have inner calls at given places are
      judged rightly in every program exactly when the type of the parameter at each of the
      places is the type of the result. */
  lemma RightInEveryProgram(name: string, types: seq<Type>, places: set<nat>)
    requires types != []
    ensures (forall g: Context, n, id | OnlySo(g.decls, name, types) && IsCallWith(n, name, places) :: RightlyJudged(g, n, id))
       <==> TakesResultAt(types, places)
  {
    if TakesResultAt(types, places) {
      forall g: Context, n, id | OnlySo(g.decls, name, types) && IsCallWith(n, name, places) ensures RightlyJudged(g, n, id) {
        UniformCallsAreRight(name, types, places, g, n, id);
      }
    } else {
      var loc, quirks := DEFAULT_LOCATION, INTENDED;
      TellingJudged(name, types, places, quirks, loc);
      var g, n := TellingContext(name, types, places, quirks), TellingCall(name, types, places, loc);
      hide MeansBy, OnlySo, IsCallWith;
      assert !RightlyJudged(g, n, []);
    }
  }

  // ---------- what a run does ----------

  /** If every function that a call in it may be for takes what it returns, a visit of the
      expression keeps for each call the functions that fit, and finds something wrong when
      there is none. */
  lemma RightCallIsVisited(g: Context, syms: Symbols, n: ASTNode, id: NodeId, st: State)
    requires n.CallExpr? && Simple(n) && TakesItsResult(g.decls, n) && !st.failed
    requires Matches(g, syms) && Ahead(g, st, id)
    ensures var r := Visit(syms, n, id, st);
            if exists d :: MeansBy(ByParameter, g, n, id, d) then
              !Worse(st, r) && id in r.overloads && forall d :: d in r.overloads[id] <==> MeansBy(ByParameter, g, n, id, d)
            else Worse(st, r)
  {
    SimpleVisited(g, syms, n, id, st);
    RightAtEveryDepth(g, n, id);
    CandidatesAreKept(g, n, id, Visit(syms, n, id, st));
    hide Visit, MeansBy, Simple, TakesItsResult, Ahead, Kept, Evaluates, Symbols.Valid, Collected;
    EvaluatesByMeaning(g, n, id);
  }

  /** A call evaluates when it may mean something. */
  lemma EvaluatesByMeaning(g: Context, n: ASTNode, id: NodeId)
    requires n.CallExpr?
    ensures Evaluates(g, n, id) <==> exists d :: MeansBy(g.quirks.calls, g, n, id, d)
    ensures forall d :: Means(g, n, id, d) <==> MeansBy(g.quirks.calls, g, n, id, d)
  {
    hide MeansBy, Evaluates;
    if Evaluates(g, n, id) {
      var d := Meaning(g, n, id);
      assert MeansBy(g.quirks.calls, g, n, id, d);
    }
    if d :| MeansBy(g.quirks.calls, g, n, id, d) {
      MeansEvaluates(g, n, id, d);
    }
  }

  lemma CandidatesAreKept(g: Context, n: ASTNode, id: NodeId, st: State)
    requires n.CallExpr?
    ensures Kept(g, n, id, st) ==> id in st.overloads && forall d :: d in st.overloads[id] <==> Means(g, n, id, d)
  {
    hide Means, KeptInner;
  }

  /** `fn g() -> Bool` and `fn f(x: parameter) -> result`. */
  function TwoFunctions(parameter: Type, result: Type): Table {
    map[[0] := FunctionSymbol([BOOL], "g"), [1] := FunctionSymbol([result, parameter], "f")]
  }

  function InnerCall(loc: SourceLocation): ASTNode { CallExpr("g", [], loc) }

  /** `f(g())` */
  function NestedCall(loc: SourceLocation): ASTNode { CallExpr("f", [InnerCall(loc)], loc) }

  lemma NestedCallMeans(rule: Rule, quirks: Quirks, parameter: Type, result: Type, loc: SourceLocation, id: NodeId)
    ensures var g := Context(DeclarationsIn(TwoFunctions(parameter, result)), map[], quirks);
            forall d :: MeansBy(rule, g, NestedCall(loc), id, d)
                   <==> d == [1] && Asked(rule, Function("f", result, [parameter]), 0) == BOOL
  {
    var g := Context(DeclarationsIn(TwoFunctions(parameter, result)), map[], quirks);
    var n := NestedCall(loc);
    TwoDeclared(parameter, result);
    assert "f" != "g";
    hide DeclarationsIn, TwoFunctions;
    forall e ensures MeansBy(rule, g, InnerCall(loc), id + [0], e) <==> e == [0] {
    }
    assert Gives(g.decls, [0], BOOL);
    assert n.args[0] == InnerCall(loc);
    assert MeansBy(rule, g, n.args[0], id + [0], [0]);
    assert forall d :: IsFor(g.decls, n, d) <==> d == [1];
    assert Takes(rule, g, n, 0, id, [1]) <==> Asked(rule, Function("f", result, [parameter]), 0) == BOOL;
    assert MeansBy(rule, g, n, id, [1]) <==> Takes(rule, g, n, 0, id, [1]);
  }

  lemma TwoDeclared(parameter: Type, result: Type)
    ensures DeclarationsIn(TwoFunctions(parameter, result))
         == map[[0] := Function("g", BOOL, []), [1] := Function("f", result, [parameter])]
  {
    assert [BOOL][1..] == [] && [result, parameter][1..] == [parameter];
    var table := TwoFunctions(parameter, result);
    assert DeclarationOf(table[[0]]) == Function("g", BOOL, []);
    assert DeclarationOf(table[[1]]) == Function("f", result, [parameter]);
    hide DeclarationOf;
    assert [0] != [1];
  }

  /** The call `f(g())` passes exactly when `f` returns a boolean, and is right exactly when `f`
      takes one. */
  lemma NestedCallComparesResults(syms: Symbols, parameter: Type, result: Type, loc: SourceLocation)
    requires syms.table == TwoFunctions(parameter, result) && syms.Valid()
    ensures var g, n := Context(DeclarationsIn(syms.table), map[], INTENDED), NestedCall(loc);
            && (Fine(Visit(syms, n, [2], Start(map[]))) <==> result == BOOL)
            && ((exists d :: Means(g, n, [2], d)) <==> parameter == BOOL)
  {
    var g, n := Context(DeclarationsIn(syms.table), map[], Coded(syms.noise)), NestedCall(loc);
    NestedCallMeans(ByResult, Coded(syms.noise), parameter, result, loc, [2]);
    NestedCallMeans(ByParameter, INTENDED, parameter, result, loc, [2]);
    NestedCallIsSimple(loc);
    TwoCollected(parameter, result);
    assert Ahead(g, Start(map[]), [2]);
    var intended := Context(DeclarationsIn(syms.table), map[], INTENDED);
    hide MeansBy, Means, Evaluates, Visit, TwoFunctions, NestedCall, Symbols.Valid, Collected, Simple, Ahead, Kept;
    hide Asked;
    EvaluatesByMeaning(g, n, [2]);
    EvaluatesByMeaning(intended, n, [2]);
    SimpleVisited(g, syms, n, [2], Start(map[]));
    var f := Function("f", result, [parameter]);
    assert Asked(ByResult, f, 0) == result && Asked(ByParameter, f, 0) == parameter by { AskedOfTwo(parameter, result); }
    assert Evaluates(g, n, [2]) <==> MeansBy(ByResult, g, n, [2], [1]);
    assert (exists d :: Means(intended, n, [2], d)) <==> Means(intended, n, [2], [1]);
  }

  lemma AskedOfTwo(parameter: Type, result: Type)
    ensures var f := Function("f", result, [parameter]); Asked(ByResult, f, 0) == result && Asked(ByParameter, f, 0) == parameter
  {
  }

  lemma NestedCallIsSimple(loc: SourceLocation)
    ensures NestedCall(loc).CallExpr? && Simple(NestedCall(loc))
  {
    assert Simple(InnerCall(loc)) && NestedCall(loc).args[0] == InnerCall(loc);
  }

  lemma TwoCollected(parameter: Type, result: Type)
    ensures Collected(TwoFunctions(parameter, result))
  {
    var t := TwoFunctions(parameter, result);
    assert "f" != "g";
    assert t[[0]].name == "g" && t[[1]].name == "f" && t[[0]].FunctionSymbol? && t[[1]].FunctionSymbol?;
    assert !Clashes(t[[0]], t[[1]]) && !Clashes(t[[1]], t[[0]]);
    hide Clashes;
  }

  // ---------- which function a call is bound to ----------

  /** `fn g() -> Bool`, `fn f(x: Int) -> Bool` and `fn f(x: Bool) -> Bool`. */
  function ThreeFunctions(): Table {
    map[[0] := FunctionSymbol([BOOL], "g"),
        [1] := FunctionSymbol([BOOL, NUMBER], "f"),
        [2] := FunctionSymbol([BOOL, BOOL], "f")]
  }

  /** Where a boolean is asked for, `f(g())` is bound to the `f` that the iteration over the table
      meets first, although only the second one takes a boolean. */
  lemma BindingFollowsOrder(syms: Symbols, first: NodeId, second: NodeId, loc: SourceLocation, id: NodeId)
    requires syms.table == ThreeFunctions() && syms.order == [[0], first, second]
    requires (first == [1] && second == [2]) || (first == [2] && second == [1])
    ensures var st := Visit(syms, NestedCall(loc), id, Start(map[]));
            var (good, r) := Check(syms, NestedCall(loc), id, BOOL, st);
            good && Fine(r) && id in r.uses && r.uses[id] == first
    ensures var g := Context(DeclarationsIn(syms.table), map[], INTENDED);
            Means(g, NestedCall(loc), id, [2]) && !Means(g, NestedCall(loc), id, [1])
  {
    var n, inner := NestedCall(loc), InnerCall(loc);
    assert IsOrder(syms.order, first, second);
    InnerOfThree(syms, first, second, inner, id + [0], Start(map[]));
    var mid := Visit(syms, inner, id + [0], Start(map[]));
    OuterOfThree(syms, first, second, n, id, mid);
    OneArgument(syms, n, id, Start(map[]));
    BoundFirst(syms, first, second, n, id, Visit(syms, n, id, Start(map[])));
    IntendedOfThree(Context(DeclarationsIn(syms.table), map[], INTENDED), loc, id);
  }

  lemma OneArgument(syms: Symbols, n: ASTNode, id: NodeId, st: State)
    requires n.CallExpr? && |n.args| == 1 && !st.failed
    ensures var mid := Visit(syms, n.args[0], id + [0], st);
            Visit(syms, n, id, st) == if mid.failed then mid else HandleCall(syms, n, id, mid)
  {
    hide HandleCall;
    assert n.Children()[0] == n.args[0];
    var mid := Visit(syms, n.args[0], id + [0], st);
    assert VisitFrom(syms, n, 1, id, mid) == mid;
  }

  /** The two orders. */
  predicate IsOrder(order: seq<NodeId>, first: NodeId, second: NodeId) {
    order == [[0]] + ([first] + ([second] + [])) && ((first == [1] && second == [2]) || (first == [2] && second == [1]))
  }

  lemma NameStep(table: Table, d: NodeId, rest: seq<NodeId>, name: string)
    requires d in table && table[d].FunctionSymbol?
    ensures var others := WithName(table, rest, name);
            WithName(table, [d] + rest, name) == if table[d].name == name then [d] + others else others
  {
    assert ([d] + rest)[1..] == rest;
  }

  lemma ArityStep(table: Table, d: NodeId, rest: seq<NodeId>, n: nat)
    requires d in table && |ParameterTypes(table[d])| == n
    ensures WithArity(table, [d] + rest, n) == [d] + WithArity(table, rest, n)
  {
    assert ([d] + rest)[1..] == rest;
  }

  lemma ReturnStep(table: Table, d: NodeId, rest: seq<NodeId>, e: NodeId)
    requires d in table && Returns(table, e, ReturnType(table[d]))
    ensures WithReturnOf(table, [d] + rest, [e]) == [d] + WithReturnOf(table, rest, [e])
  {
    assert ([d] + rest)[1..] == rest && e in [e];
  }

  lemma Three(d: NodeId)
    requires d == [1] || d == [2]
    ensures var t := ThreeFunctions();
            && d in t && t[d].FunctionSymbol? && t[d].name == "f" && |ParameterTypes(t[d])| == 1 && ReturnType(t[d]) == BOOL
            && [0] in t && t[[0]] == FunctionSymbol([BOOL], "g") && ParameterTypes(t[[0]]) == [] && Returns(t, [0], BOOL)
  {
  }

  lemma NamedInThree(order: seq<NodeId>, first: NodeId, second: NodeId)
    requires IsOrder(order, first, second)
    ensures WithName(ThreeFunctions(), order, "g") == [[0]] && WithName(ThreeFunctions(), order, "f") == [first] + ([second] + [])
  {
    var t := ThreeFunctions();
    Three(first);
    Three(second);
    assert "f" != "g";
    hide ThreeFunctions, WithName;
    NameStep(t, second, [], "g");
    NameStep(t, second, [], "f");
    NameStep(t, first, [second] + [], "g");
    NameStep(t, first, [second] + [], "f");
    NameStep(t, [0], [first] + ([second] + []), "g");
    NameStep(t, [0], [first] + ([second] + []), "f");
    NoneIn(t);
  }

  lemma NoneIn(t: Table)
    ensures forall name :: WithName(t, [], name) == []
    ensures forall n :: WithArity(t, [], n) == []
    ensures forall inner :: WithReturnOf(t, [], inner) == []
  {
  }

  lemma InnerOfThree(syms: Symbols, first: NodeId, second: NodeId, n: ASTNode, id: NodeId, st: State)
    requires syms.table == ThreeFunctions() && IsOrder(syms.order, first, second)
    requires n.CallExpr? && n.name == "g" && n.args == [] && !st.failed
    ensures Visit(syms, n, id, st) == st.(overloads := st.overloads[id := [[0]]])
  {
    OneIsCandidate(syms.order, first, second);
    assert VisitFrom(syms, n, 0, id, st) == st;
    hide WithName, WithArity, ThreeFunctions, IsOrder;
  }

  lemma OneIsCandidate(order: seq<NodeId>, first: NodeId, second: NodeId)
    requires IsOrder(order, first, second)
    ensures WithArity(ThreeFunctions(), WithName(ThreeFunctions(), order, "g"), 0) == [[0]]
  {
    var t := ThreeFunctions();
    Three(first);
    NamedInThree(order, first, second);
    NoneIn(t);
    hide WithName, WithArity, ThreeFunctions, IsOrder, ParameterTypes;
    ArityStep(t, [0], [], 0);
  }

  lemma OuterOfThree(syms: Symbols, first: NodeId, second: NodeId, n: ASTNode, id: NodeId, st: State)
    requires syms.table == ThreeFunctions() && IsOrder(syms.order, first, second)
    requires n.CallExpr? && n.name == "f" && |n.args| == 1 && n.args[0].CallExpr? && !st.failed
    requires id + [0] in st.overloads && st.overloads[id + [0]] == [[0]]
    ensures HandleCall(syms, n, id, st) == st.(overloads := st.overloads[id := [first, second]])
  {
    BothAreCandidates(syms.order, first, second);
    hide WithName, WithArity, WithReturnOf, ThreeFunctions, IsOrder, HandleArguments;
    OneCallArgument(syms, n, id, [first, second], st);
  }

  lemma BothAreCandidates(order: seq<NodeId>, first: NodeId, second: NodeId)
    requires IsOrder(order, first, second)
    ensures var t, both := ThreeFunctions(), [first, second];
            WithArity(t, WithName(t, order, "f"), 1) == both && WithReturnOf(t, both, [[0]]) == both
  {
    var t := ThreeFunctions();
    Three(first);
    Three(second);
    NamedInThree(order, first, second);
    NoneIn(t);
    hide WithName, WithArity, WithReturnOf, ThreeFunctions, IsOrder, ParameterTypes, ReturnType;
    ArityStep(t, second, [], 1);
    ArityStep(t, first, [second] + [], 1);
    ReturnStep(t, second, [], [0]);
    ReturnStep(t, first, [second] + [], [0]);
    assert [first, second] == [first] + ([second] + []);
  }

  lemma OneCallArgument(syms: Symbols, n: ASTNode, id: NodeId, s: seq<NodeId>, st: State)
    requires n.CallExpr? && |n.args| == 1 && n.args[0].CallExpr? && id + [0] in st.overloads && st.overloads[id + [0]] != []
    ensures var r := WithReturnOf(syms.table, s, st.overloads[id + [0]]);
            HandleArguments(syms, n, 0, id, s, st) == (if r == [] then st.Error() else st).(overloads := st.overloads[id := r])
  {
    hide WithReturnOf;
    var r := WithReturnOf(syms.table, s, st.overloads[id + [0]]);
    assert HandleArguments(syms, n, 1, id, r, st) == (if r == [] then st.Error() else st).(overloads := st.overloads[id := r]);
  }

  lemma BoundFirst(syms: Symbols, first: NodeId, second: NodeId, n: ASTNode, id: NodeId, st: State)
    requires syms.table == ThreeFunctions() && IsOrder(syms.order, first, second)
    requires n.CallExpr? && Fine(st) && id in st.overloads && st.overloads[id] == [first, second]
    ensures var (good, r) := Check(syms, n, id, BOOL, st); good && Fine(r) && id in r.uses && r.uses[id] == first
  {
    var table := syms.table;
    assert FirstReturning(table, [first, second], BOOL) == Some(first);
    assert first in syms.order;
    var e := Entry(table, syms.order, table[first]);
    assert e.Some? && Clashes(table[e.value], table[first]);
    assert e.value == first;
    hide Entry, FirstReturning, Clashes;
  }

  lemma IntendedOfThree(g: Context, loc: SourceLocation, id: NodeId)
    requires g.decls == DeclarationsIn(ThreeFunctions()) && g.quirks == INTENDED
    ensures Means(g, NestedCall(loc), id, [2]) && !Means(g, NestedCall(loc), id, [1])
  {
    var n, inner := NestedCall(loc), InnerCall(loc);
    assert "f" != "g";
    assert forall e :: MeansBy(ByParameter, g, inner, id + [0], e) <==> e == [0];
    assert n.args[0] == inner && Gives(g.decls, [0], BOOL) && MeansBy(ByParameter, g, n.args[0], id + [0], [0]);
    assert Takes(ByParameter, g, n, 0, id, [2]) && !Takes(ByParameter, g, n, 0, id, [1]);
    assert MeansBy(ByParameter, g, n, id, [2]) && !MeansBy(ByParameter, g, n, id, [1]);
  }
}
