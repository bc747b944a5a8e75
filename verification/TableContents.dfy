/** What the symbol collector records: at declarations of the tree only, what these declare, and
    when it counts no error all of it. */
module TableContents {
  import opened Ast
  import opened LexicalScoping
  import opened SymbolTable
  import opened Collecting
  import opened TypingRules
  import opened TableDeclarations
  import Refinement = ScopingRefinement

  // ---------- what the tree declares ----------

  /** The node at the end of a path of child indices; null if there is none. */
  function NodeAt(n: ASTNode, path: NodeId): ASTNode
    decreases |path|
  {
    if path == [] then n
    else if path[0] < |n.Children()| then NodeAt(n.Children()[path[0]], path[1..]) else Null
  }

  predicate IsDeclaration(n: ASTNode) {
    n.VarDecl? || n.FunctionDecl?
  }

  /** The parameters of a function have these types. */
  predicate HasParameters(n: ASTNode, types: seq<Type>)
    requires n.FunctionDecl?
  {
    && n.params.ParamVarDecls? && |n.params.parameters| == |types|
    && forall i | 0 <= i < |types| :: n.params.parameters[i].VarDecl? && n.params.parameters[i].varType == types[i]
  }

  /** The entry tells what the node declares: type, name and size of a variable; name, result and
      parameters of a function. */
  predicate Tells(sym: Symbol, n: ASTNode) {
    match n
    case VarDecl(name, varType, _, size, _, _) =>
      sym.VariableSymbol? && sym.varType == varType && sym.name == name && sym.size == size
    case FunctionDecl(name, returnType, _, _, _) =>
      && sym.FunctionSymbol? && sym.name == name
      && |sym.types| > 0 && sym.types[0] == returnType && HasParameters(n, sym.types[1..])
    case _ => false
  }

  /** Every entry tells of the node of the tree it is for. */
  ghost predicate Records(table: Table, root: ASTNode) {
    forall id | id in table :: Tells(table[id], NodeAt(root, id))
  }

  /** Every declaration has its entry. */
  ghost predicate RecordsAll(table: Table, root: ASTNode) {
    forall id | IsDeclaration(NodeAt(root, id)) :: id in table
  }

  // ---------- paths ----------

  lemma {:induction false} NodeAtChild(root: ASTNode, id: NodeId, i: nat)
    requires i < |NodeAt(root, id).Children()|
    ensures NodeAt(root, id + [i]) == NodeAt(root, id).Children()[i]
    decreases |id|
  {
    if id == [] {
      assert (id + [i])[1..] == [];
    } else {
      assert id[0] < |root.Children()|;
      NodeAtChild(root.Children()[id[0]], id[1..], i);
      assert (id + [i])[1..] == id[1..] + [i];
    }
  }

  // ---------- entries tell of their nodes ----------

  lemma AddRecords(root: ASTNode, id: NodeId, sym: Symbol, st: State)
    requires Records(st.table, root) && Tells(sym, NodeAt(root, id))
    ensures Records(Add(st, id, sym).table, root)
  {
    hide Tells, NodeAt, HasClash;
  }

  lemma {:induction false} ParamsRecord(root: ASTNode, n: ASTNode, i: nat, id: NodeId, st: State)
    requires n.ParamVarDecls? && i <= |n.parameters|
    requires forall j | 0 <= j < |n.parameters| :: n.parameters[j].VarDecl?
    requires NodeAt(root, id) == n && Records(st.table, root)
    ensures Records(AddParams(n, i, id, st).table, root)
    decreases |n.parameters| - i
  {
    hide NodeAt, Records, Add;
    if i < |n.parameters| {
      var p := n.parameters[i];
      NodeAtChild(root, id, i);
      AddRecords(root, id + [i], VariableSymbol(p.varType, st.scopeId + 1, p.name, p.size), st);
      ParamsRecord(root, n, i + 1, id, Add(st, id + [i], VariableSymbol(p.varType, st.scopeId + 1, p.name, p.size)));
    }
  }

  lemma HandleRecords(root: ASTNode, n: ASTNode, id: NodeId, st: State)
    requires Typed(n) && NodeAt(root, id) == n && Records(st.table, root)
    ensures Records(Handle(n, id, st).table, root)
  {
    hide NodeAt, Records, Add, AddParams, CandidatesFrom, HasFunction;
    if n.FunctionDecl? {
      assert Typed(n.Children()[0]);
      var sym := FunctionSymbol(SignatureOf(n).types, n.name);
      assert sym.types[1..] == ParamTypes(n.params.parameters);
      AddRecords(root, id, sym, st);
    } else if n.ParamVarDecls? {
      ParamsRecord(root, n, 0, id, st);
    } else if n.VarDecl? && !n.isParam {
      AddRecords(root, id, VariableSymbol(n.varType, st.scopeId, n.name, n.size), st);
    }
  }

  /** Whatever is visited, every entry tells of the node it is for. */
  lemma {:induction false} CollectRecords(root: ASTNode, n: ASTNode, id: NodeId, st: State)
    requires Typed(n) && NodeAt(root, id) == n && Records(st.table, root)
    ensures Records(Collect(n, id, st).table, root)
    decreases n, |n.Children()| + 1
  {
    hide NodeAt, Records, Handle, CollectFrom, Typed;
    if !n.Null? {
      HandleRecords(root, n, id, Enter(n, st));
      CollectFromRecords(root, n, 0, id, Handle(n, id, Enter(n, st)));
    }
  }

  lemma {:induction false} CollectFromRecords(root: ASTNode, n: ASTNode, i: nat, id: NodeId, st: State)
    requires Typed(n) && i <= |n.Children()| && NodeAt(root, id) == n && Records(st.table, root)
    ensures Records(CollectFrom(n, i, id, st).table, root)
    decreases n, |n.Children()| - i
  {
    hide NodeAt, Records, Collect;
    if i < |n.Children()| {
      NodeAtChild(root, id, i);
      CollectRecords(root, n.Children()[i], id + [i], st);
      CollectFromRecords(root, n, i + 1, id, Collect(n.Children()[i], id + [i], st));
    }
  }

  // ---------- without errors, nothing is missing ----------

  /** Variables are marked as parameters where they are, and nowhere else. */
  predicate WellMarked(n: ASTNode)
    decreases n
  {
    forall i | 0 <= i < |n.Children()| ::
      && (n.Children()[i].VarDecl? ==> (n.Children()[i].isParam <==> n.ParamVarDecls?))
      && WellMarked(n.Children()[i])
  }

  /** Entries stay, and errors too. */
  predicate Keeps(st: State, r: State) {
    st.table.Keys <= r.table.Keys && st.errors <= r.errors
  }

  lemma {:induction false} ParamsKeep(n: ASTNode, i: nat, id: NodeId, st: State)
    requires n.ParamVarDecls? && i <= |n.parameters|
    requires forall j | 0 <= j < |n.parameters| :: n.parameters[j].VarDecl?
    ensures var r := AddParams(n, i, id, st);
            Keeps(st, r) && (r.errors == st.errors ==> forall j | i <= j < |n.parameters| :: id + [j] in r.table)
    decreases |n.parameters| - i
  {
    hide HasClash;
    if i < |n.parameters| {
      var p := n.parameters[i];
      ParamsKeep(n, i + 1, id, Add(st, id + [i], VariableSymbol(p.varType, st.scopeId + 1, p.name, p.size)));
    }
  }

  /** What a handler enters: the node itself if it declares and is no parameter, or parameters. */
  lemma HandleKeeps(n: ASTNode, id: NodeId, st: State)
    requires Typed(n)
    ensures var r := Handle(n, id, st);
            && Keeps(st, r)
            && (r.errors == st.errors ==>
                 && (IsDeclaration(n) && !(n.VarDecl? && n.isParam) ==> id in r.table)
                 && (n.ParamVarDecls? ==> forall j | 0 <= j < |n.parameters| :: id + [j] in r.table))
  {
    hide HasClash, AddParams, CandidatesFrom, HasFunction, SignatureOf;
    if n.ParamVarDecls? {
      ParamsKeep(n, 0, id, st);
    }
  }

  /** Every declaration at or below a node, parameters that are entered with it aside, has an entry. */
  ghost predicate AllEntered(n: ASTNode, id: NodeId, table: Table) {
    forall path | IsDeclaration(NodeAt(n, path)) && (path == [] ==> !(n.VarDecl? && n.isParam)) :: id + path in table
  }

  ghost predicate AllEnteredFrom(n: ASTNode, i: nat, id: NodeId, table: Table) {
    forall j | i <= j < |n.Children()| :: AllEntered(n.Children()[j], id + [j], table)
  }

  lemma {:induction false} CollectKeeps(n: ASTNode, id: NodeId, st: State)
    requires Typed(n)
    ensures Keeps(st, Collect(n, id, st))
    ensures WellMarked(n) && Collect(n, id, st).errors == st.errors ==> AllEntered(n, id, Collect(n, id, st).table)
    decreases n, |n.Children()| + 1
  {
    hide Handle, CollectFrom, Typed, NodeAt, AllEnteredFrom;
    if !n.Null? {
      var mid := Handle(n, id, Enter(n, st));
      HandleKeeps(n, id, Enter(n, st));
      CollectFromKeeps(n, 0, id, mid);
      var r := Collect(n, id, st);
      if WellMarked(n) && r.errors == st.errors {
        EnteredByParts(n, id, mid.table, r.table);
      }
    } else {
      NullDeclaresNothing(id, st.table);
    }
  }

  lemma NullDeclaresNothing(id: NodeId, table: Table)
    ensures AllEntered(Null, id, table)
  {
  }

  lemma EnteredByParts(n: ASTNode, id: NodeId, mid: Table, table: Table)
    requires WellMarked(n) && mid.Keys <= table.Keys && AllEnteredFrom(n, 0, id, table)
    requires IsDeclaration(n) && !(n.VarDecl? && n.isParam) ==> id in mid
    requires n.ParamVarDecls? ==> forall j | 0 <= j < |n.parameters| :: id + [j] in mid
    ensures AllEntered(n, id, table)
  {
    hide NodeAt, AllEnteredFrom, WellMarked;
    forall path | IsDeclaration(NodeAt(n, path)) && (path == [] ==> !(n.VarDecl? && n.isParam)) ensures id + path in table {
      if path == [] {
        RootIsItself(n);
        assert id + path == id;
      } else {
        EnteredBelow(n, path, id, mid, table);
      }
    }
  }

  lemma RootIsItself(n: ASTNode)
    ensures NodeAt(n, []) == n
  {
  }

  lemma StepDown(n: ASTNode, path: NodeId)
    requires path != [] && !NodeAt(n, path).Null?
    ensures path[0] < |n.Children()| && NodeAt(n, path) == NodeAt(n.Children()[path[0]], path[1..])
  {
  }

  lemma MarkedChild(n: ASTNode, i: nat)
    requires WellMarked(n) && i < |n.Children()|
    ensures n.Children()[i].VarDecl? && n.Children()[i].isParam ==> n.ParamVarDecls?
  {
  }

  lemma EnteredBelow(n: ASTNode, path: NodeId, id: NodeId, mid: Table, table: Table)
    requires WellMarked(n) && mid.Keys <= table.Keys && AllEnteredFrom(n, 0, id, table)
    requires n.ParamVarDecls? ==> forall j | 0 <= j < |n.parameters| :: id + [j] in mid
    requires path != [] && IsDeclaration(NodeAt(n, path))
    ensures id + path in table
  {
    StepDown(n, path);
    hide NodeAt, WellMarked;
    var j, rest := path[0], path[1..];
    var child := n.Children()[j];
    MarkedChild(n, j);
    assert id + path == id + [j] + rest;
    if rest == [] && child.VarDecl? && child.isParam {
      assert id + path == id + [j];
    } else {
      assert AllEntered(child, id + [j], table);
    }
  }

  lemma {:induction false} CollectFromKeeps(n: ASTNode, i: nat, id: NodeId, st: State)
    requires Typed(n) && i <= |n.Children()|
    ensures Keeps(st, CollectFrom(n, i, id, st))
    ensures WellMarked(n) && CollectFrom(n, i, id, st).errors == st.errors
        ==> AllEnteredFrom(n, i, id, CollectFrom(n, i, id, st).table)
    decreases n, |n.Children()| - i
  {
    hide Collect, NodeAt, AllEntered;
    if i < |n.Children()| {
      var child := n.Children()[i];
      var mid := Collect(child, id + [i], st);
      CollectKeeps(child, id + [i], st);
      CollectFromKeeps(n, i + 1, id, mid);
      EnteredStays(child, id + [i], mid.table, CollectFrom(n, i, id, st).table);
    }
  }

  lemma EnteredStays(n: ASTNode, id: NodeId, a: Table, b: Table)
    requires a.Keys <= b.Keys
    ensures AllEntered(n, id, a) ==> AllEntered(n, id, b)
  {
    hide NodeAt;
  }

  // ---------- whole programs ----------

  lemma {:induction false} ExprWellMarked(n: ASTNode)
    requires IsExpr(n)
    ensures WellMarked(n) && !n.VarDecl?
    decreases n
  {
    forall i | 0 <= i < |n.Children()| ensures !n.Children()[i].VarDecl? && WellMarked(n.Children()[i]) {
      ExprChild(n, i);
      ExprWellMarked(n.Children()[i]);
    }
  }

  lemma ExprChild(n: ASTNode, i: nat)
    requires IsExpr(n) && i < |n.Children()|
    ensures IsExpr(n.Children()[i])
  {
  }

  lemma {:induction false} StmtWellMarked(n: ASTNode)
    requires IsStmt(n) || IsBlock(n)
    ensures WellMarked(n) && (n.VarDecl? ==> !n.isParam) && !n.ParamVarDecls?
    decreases n
  {
    if IsExpr(n) {
      ExprWellMarked(n);
    } else {
      forall i | 0 <= i < |n.Children()|
        ensures (n.Children()[i].VarDecl? ==> !n.Children()[i].isParam) && WellMarked(n.Children()[i])
      {
        StmtChild(n, i);
        StmtWellMarked(n.Children()[i]);
      }
      hide IsStmt, IsBlock, IsExpr;
    }
  }

  lemma StmtChild(n: ASTNode, i: nat)
    requires (IsStmt(n) || IsBlock(n)) && !IsExpr(n) && i < |n.Children()|
    ensures IsStmt(n.Children()[i]) || IsBlock(n.Children()[i])
  {
  }

  lemma ProgramWellMarked(root: ASTNode)
    requires IsProgram(root)
    ensures WellMarked(root)
  {
    forall i | 0 <= i < |root.decls|
      ensures (root.decls[i].VarDecl? ==> !root.decls[i].isParam) && WellMarked(root.decls[i])
    {
      DeclWellMarked(root.decls[i]);
    }
  }

  lemma DeclWellMarked(n: ASTNode)
    requires IsDecl(n)
    ensures WellMarked(n) && (n.VarDecl? ==> !n.isParam)
  {
    if n.FunctionDecl? {
      StmtWellMarked(n.body);
      forall i | 0 <= i < |n.params.parameters| ensures WellMarked(n.params.parameters[i]) {
        assert n.params.parameters[i].Children() == [];
      }
      hide IsBlock, IsParam;
      assert WellMarked(n.params);
      assert n.Children() == [n.params, n.body];
    } else if n.VarDecl? {
      ExprWellMarked(n.init);
    }
  }

  /** Of a program the table records declarations only, and if no error is counted all of them. */
  lemma ProgramRecorded(root: ASTNode)
    requires IsProgram(root) && Typed(root)
    ensures var st := Collect(root, [], FRESH);
            Records(st.table, root) && (st.errors == 0 ==> RecordsAll(st.table, root))
  {
    var st := Collect(root, [], FRESH);
    RootIsItself(root);
    ProgramWellMarked(root);
    hide Collect, Typed, WellMarked, NodeAt, IsProgram;
    CollectRecords(root, root, [], FRESH);
    CollectKeeps(root, [], FRESH);
    if st.errors == 0 {
      forall id | IsDeclaration(NodeAt(root, id)) ensures id in st.table {
        assert [] + id == id;
      }
    }
  }

  // ---------- the declarations of a program ----------

  function TypesOf(params: seq<ASTNode>): seq<Type>
    requires forall i | 0 <= i < |params| :: params[i].VarDecl?
  {
    if params == [] then [] else [params[0].varType] + TypesOf(params[1..])
  }

  /** What a node declares. */
  function Own(n: ASTNode, id: NodeId): Declarations
    requires Typed(n)
  {
    match n
    case VarDecl(_, varType, _, _, _, _) => map[id := Variable(varType)]
    case FunctionDecl(name, returnType, params, _, _) =>
      assert Typed(n.Children()[0]);
      map[id := Function(name, returnType, TypesOf(params.parameters))]
    case _ => map[]
  }

  /** The declarations at or below the node at `id`. */
  function Declared(n: ASTNode, id: NodeId): Declarations
    requires Typed(n)
    decreases n, |n.Children()| + 1
  {
    Own(n, id) + DeclaredFrom(n, 0, id)
  }

  function DeclaredFrom(n: ASTNode, i: nat, id: NodeId): Declarations
    requires Typed(n) && i <= |n.Children()|
    decreases n, |n.Children()| - i
  {
    if i == |n.Children()| then map[] else Declared(n.Children()[i], id + [i]) + DeclaredFrom(n, i + 1, id)
  }

  /** The declaration at a path from a node, if there is one. */
  function DeclarationAt(n: ASTNode, path: NodeId): Option<Declaration>
    requires Typed(n)
  {
    var d := NodeAt(n, path);
    if IsDeclaration(d) && Typed(d) then Some(Own(d, path)[path]) else None
  }

  lemma {:induction false} TypedAt(n: ASTNode, path: NodeId)
    requires Typed(n)
    ensures Typed(NodeAt(n, path))
    decreases |path|
  {
    if path != [] && path[0] < |n.Children()| {
      TypedAt(n.Children()[path[0]], path[1..]);
    }
  }

  predicate At(decls: Declarations, k: NodeId, d: Option<Declaration>) {
    match d case Some(d) => k in decls && decls[k] == d case None => k !in decls
  }

  /** They are those at the paths that lead to a declaration. */
  lemma {:induction false} DeclaredAt(n: ASTNode, id: NodeId, k: NodeId)
    requires Typed(n)
    ensures At(Declared(n, id), k, if id <= k then DeclarationAt(n, k[|id|..]) else None)
    decreases n, |n.Children()| + 1
  {
    hide Typed, DeclaredFrom, DeclarationAt;
    DeclaredFromAt(n, 0, id, k);
    OwnAt(n, id, k);
    if k == id {
      assert k[|id|..] == [] && !(id < k);
    } else if id <= k {
      assert id < k;
    }
  }

  lemma OwnAt(n: ASTNode, id: NodeId, k: NodeId)
    requires Typed(n)
    ensures At(Own(n, id), k, if k == id then DeclarationAt(n, []) else None)
  {
    RootIsItself(n);
    hide Typed;
  }

  lemma {:induction false} DeclaredFromAt(n: ASTNode, i: nat, id: NodeId, k: NodeId)
    requires Typed(n) && i <= |n.Children()|
    ensures At(DeclaredFrom(n, i, id), k,
               if id < k && i <= k[|id|] then DeclarationAt(n, k[|id|..]) else None)
    decreases n, |n.Children()| - i
  {
    hide Typed, Declared, DeclarationAt, NodeAt;
    if i == |n.Children()| {
      if id < k && i <= k[|id|] {
        NothingBeyond(n, k[|id|..]);
      }
    } else {
      TypedPart(n, i);
      DeclaredAt(n.Children()[i], id + [i], k);
      DeclaredFromAt(n, i + 1, id, k);
      if id < k && k[|id|] == i {
        assert k[..|id| + 1] == id + [i] && id + [i] <= k;
        assert k[|id|..][1..] == k[|id + [i]|..];
        DeclarationBelow(n, k[|id|..]);
      }
    }
  }

  lemma TypedPart(n: ASTNode, i: nat)
    requires Typed(n) && i < |n.Children()|
    ensures Typed(n.Children()[i])
  {
  }

  lemma NothingBeyond(n: ASTNode, path: NodeId)
    requires Typed(n) && path != [] && path[0] >= |n.Children()|
    ensures DeclarationAt(n, path).None?
  {
    hide Typed;
  }

  lemma DeclarationBelow(n: ASTNode, path: NodeId)
    requires Typed(n) && path != [] && path[0] < |n.Children()| && Typed(n.Children()[path[0]])
    ensures DeclarationAt(n, path) == DeclarationAt(n.Children()[path[0]], path[1..])
  {
    hide Typed, TypesOf;
  }

  lemma {:induction false} ParameterTypesAre(params: seq<ASTNode>, types: seq<Type>)
    requires |params| == |types| && forall i | 0 <= i < |types| :: params[i].VarDecl? && params[i].varType == types[i]
    ensures TypesOf(params) == types
    decreases |params|
  {
    if params != [] {
      ParameterTypesAre(params[1..], types[1..]);
    }
  }

  lemma ToldDeclaration(sym: Symbol, n: ASTNode, id: NodeId)
    requires Typed(n) && Tells(sym, n)
    ensures IsDeclaration(n) && Own(n, id)[id] == DeclarationOf(sym)
  {
    if n.FunctionDecl? {
      assert Typed(n.Children()[0]);
      ParameterTypesAre(n.params.parameters, sym.types[1..]);
    }
  }

  /** A table that records all declarations of a program says what they declare. */
  lemma RecordedIsDeclared(table: Table, root: ASTNode)
    requires Typed(root) && Records(table, root) && RecordsAll(table, root)
    ensures DeclarationsIn(table) == Declared(root, [])
  {
    hide Typed, Declared, Records, RecordsAll, DeclarationOf;
    forall k ensures At(Declared(root, []), k, if k in table then Some(DeclarationsIn(table)[k]) else None) {
      RecordedAt(table, root, k);
    }
    SameDeclarations(DeclarationsIn(table), Declared(root, []));
  }

  lemma SameDeclarations(decls: Declarations, decls': Declarations)
    requires forall k :: At(decls', k, if k in decls then Some(decls[k]) else None)
    ensures decls == decls'
  {
    forall k ensures (k in decls <==> k in decls') && (k in decls ==> decls[k] == decls'[k]) {
      assert At(decls', k, if k in decls then Some(decls[k]) else None);
    }
  }

  lemma RecordedAt(table: Table, root: ASTNode, k: NodeId)
    requires Typed(root) && Records(table, root) && RecordsAll(table, root)
    ensures At(Declared(root, []), k, if k in table then Some(DeclarationOf(table[k])) else None)
  {
    assert k[0..] == k;
    DeclaredAt(root, [], k);
    TypedAt(root, k);
    hide Typed, Declared, NodeAt, Own, DeclarationOf, Tells;
    if k in table {
      ToldDeclaration(table[k], NodeAt(root, k), k);
    }
  }

  /** What a program declares, read off its tree. */
  function DeclarationsOf(root: ASTNode): Declarations
    requires IsProgram(root)
  {
    Refinement.ProgramIsTyped(root);
    Declared(root, [])
  }

  /** What the collector has recorded of a program. */
  lemma ProgramContents(root: ASTNode)
    requires IsProgram(root) && Typed(root)
    ensures var st := Collect(root, [], FRESH);
            && Records(st.table, root)
            && (st.errors == 0 ==> RecordsAll(st.table, root) && DeclarationsIn(st.table) == DeclarationsOf(root))
  {
    ProgramRecorded(root);
    hide Collect, Records, RecordsAll, DeclarationsIn, Declared, Typed, IsProgram;
    if Collect(root, [], FRESH).errors == 0 {
      RecordedIsDeclared(Collect(root, [], FRESH).table, root);
    }
  }
}
