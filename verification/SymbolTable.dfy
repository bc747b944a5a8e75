/** The symbol table: a flat map from declarations to symbols, and the binding of each use to a
    declaration. */
module SymbolTable {
  import opened Ast
  import opened LexicalScoping

  datatype Symbol =
    | VariableSymbol(varType: Type, scopeId: nat, name: string, size: int)
    | FunctionSymbol(types: seq<Type>, name: string)
  {
    /** Functions live in scope 0. */
    function ScopeId(): nat {
      if VariableSymbol? then scopeId else 0
    }
  }

  type Table = map<NodeId, Symbol>

  /** When adding `sym` must fail because of the entry `other`. */
  predicate Clashes(other: Symbol, sym: Symbol) {
    match (other, sym)
    case (FunctionSymbol(types, name), FunctionSymbol(types', name')) => types == types' && name == name'
    case (VariableSymbol(_, scopeId, name, _), VariableSymbol(_, scopeId', name', _)) =>
      scopeId == scopeId' && name == name'
    case _ => false
  }

  predicate HasClash(table: Table, sym: Symbol) {
    exists node :: node in table && Clashes(table[node], sym)
  }

  function WithSymbol(table: Table, node: NodeId, sym: Symbol): Table {
    if HasClash(table, sym) then table else table[node := sym]
  }

  /** The entries of scope `scopeId` called `name`, of whatever kind. */
  function Matching(table: Table, scopeId: nat, name: string): set<NodeId> {
    set node | node in table && table[node].ScopeId() == scopeId && table[node].name == name
  }

  /** The entries of the first scope on the path, from the `i`-th on, that has one called `name`. */
  function CandidatesFrom(table: Table, path: seq<nat>, i: nat, name: string): set<NodeId>
    requires i <= |path|
    decreases |path| - i
  {
    if i == |path| then {}
    else if Matching(table, path[i], name) != {} then Matching(table, path[i], name)
    else CandidatesFrom(table, path, i + 1, name)
  }

  predicate HasFunction(table: Table, name: string) {
    exists node :: node in table && table[node].FunctionSymbol? && table[node].name == name
  }

  /** No two variables with equal scope and name, no two functions with equal name and types. */
  predicate NoDuplicates(table: Table) {
    forall a, b :: a in table && b in table && Clashes(table[a], table[b]) ==> a == b
  }

  /** What holds of every table the symbol collector fills. */
  predicate Collected(table: Table) {
    NoDuplicates(table) && forall node :: node in table && table[node].FunctionSymbol? ==> table[node].types != []
  }

  // ---------- iterating over the table ----------

  /** `order` lists the entries, each once. */
  ghost predicate Lists(order: seq<NodeId>, table: Table) {
    (forall node :: node in order <==> node in table) && NoRepeats(order)
  }

  ghost predicate NoRepeats(s: seq<NodeId>) {
    forall i, j | 0 <= i < j < |s| :: s[i] != s[j]
  }

  /** The entries that are functions called `name`, in order. */
  function WithName(table: Table, order: seq<NodeId>, name: string): (r: seq<NodeId>)
    ensures forall d :: d in r <==> d in order && d in table && table[d].FunctionSymbol? && table[d].name == name
    ensures NoRepeats(order) ==> NoRepeats(r)
  {
    if order == [] then []
    else
      var d, rest := order[0], WithName(table, order[1..], name);
      if d in table && table[d].FunctionSymbol? && table[d].name == name then [d] + rest else rest
  }

  /** The first entry that equals the symbol. */
  function Entry(table: Table, order: seq<NodeId>, sym: Symbol): (r: Option<NodeId>)
    ensures r.Some? ==> r.value in order && r.value in table && table[r.value] == sym
    ensures r.None? ==> forall d | d in order && d in table :: table[d] != sym
  {
    if order == [] then None
    else if order[0] in table && table[order[0]] == sym then Some(order[0])
    else Entry(table, order[1..], sym)
  }

  lemma NamedStep(table: Table, order: seq<NodeId>, i: nat, name: string, s: seq<NodeId>)
    requires i < |order|
    ensures var d, rest := order[i], WithName(table, order[i + 1..], name);
            s + WithName(table, order[i..], name)
              == (if d in table && table[d].FunctionSymbol? && table[d].name == name then s + [d] else s) + rest
  {
    assert order[i..][0] == order[i] && order[i..][1..] == order[i + 1..];
  }

  class SymbolTable {
    var mTable: Table
    var mUseDefs: map<NodeId, NodeId>

    constructor ()
      ensures mTable == map[] && mUseDefs == map[]
    {
      mTable := map[];
      mUseDefs := map[];
    }

    method AddSymbol(node: NodeId, sym: Symbol) returns (added: bool)
      modifies `mTable
      ensures added <==> !HasClash(old(mTable), sym)
      ensures mTable == WithSymbol(old(mTable), node, sym)
    {
      if exists other :: other in mTable && Clashes(mTable[other], sym) {
        return false;
      }
      mTable := mTable[node := sym];
      return true;
    }

    /** Binds the use to some entry of the first scope on the path that has its name. Which one
        is up to the iteration order of the table. */
    method AddVariableUse(use: NodeId, name: string, path: seq<nat>) returns (found: bool)
      modifies `mUseDefs
      ensures found <==> CandidatesFrom(mTable, path, 0, name) != {}
      ensures !found ==> mUseDefs == old(mUseDefs)
      ensures found ==> exists def :: def in CandidatesFrom(mTable, path, 0, name) && mUseDefs == old(mUseDefs)[use := def]
    {
      for i := 0 to |path|
        invariant CandidatesFrom(mTable, path, 0, name) == CandidatesFrom(mTable, path, i, name)
        invariant mUseDefs == old(mUseDefs)
      {
        var matching := Matching(mTable, path[i], name);
        if matching != {} {
          var def :| def in matching;
          mUseDefs := mUseDefs[use := def];
          return true;
        }
      }
      return false;
    }

    /** Binds a call to the first entry, in the given order of iteration, that equals the symbol. */
    method AddFunctionUse(use: NodeId, sym: Symbol, order: seq<NodeId>) returns (found: bool)
      modifies `mUseDefs
      ensures found <==> Entry(mTable, order, sym).Some?
      ensures mUseDefs == if found then old(mUseDefs)[use := Entry(mTable, order, sym).value] else old(mUseDefs)
    {
      for i := 0 to |order|
        invariant Entry(mTable, order, sym) == Entry(mTable, order[i..], sym)
        invariant mUseDefs == old(mUseDefs)
      {
        if order[i] in mTable && mTable[order[i]] == sym {
          mUseDefs := mUseDefs[use := order[i]];
          return true;
        }
      }
      return false;
    }

    method GetOverloadCandidates(name: string, order: seq<NodeId>) returns (candidates: seq<NodeId>)
      ensures candidates == WithName(mTable, order, name)
    {
      candidates := [];
      assert order[0..] == order;
      for i := 0 to |order|
        invariant candidates + WithName(mTable, order[i..], name) == WithName(mTable, order, name)
      {
        NamedStep(mTable, order, i, name, candidates);
        hide WithName;
        if order[i] in mTable && mTable[order[i]].FunctionSymbol? && mTable[order[i]].name == name {
          candidates := candidates + [order[i]];
        }
      }
    }

    predicate IsFunctionNameValid(name: string)
      reads `mTable
    {
      HasFunction(mTable, name)
    }

    /** Only the table is cleared; the bindings of earlier runs stay. */
    method Clear()
      modifies `mTable
      ensures mTable == map[]
    {
      mTable := map[];
    }
  }

  lemma AddingKeepsCollected(table: Table, node: NodeId, sym: Symbol)
    requires Collected(table) && (sym.FunctionSymbol? ==> sym.types != [])
    ensures Collected(WithSymbol(table, node, sym))
  {
    var after := WithSymbol(table, node, sym);
    forall a, b | a in after && b in after && Clashes(after[a], after[b]) ensures a == b {
      assert Clashes(after[b], after[a]);
    }
  }
}
