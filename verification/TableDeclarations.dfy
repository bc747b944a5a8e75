/** The symbol table read as declarations. */
module TableDeclarations {
  import opened Ast
  import opened LexicalScoping
  import opened SymbolTable
  import opened TypingRules

  /** What an entry of the symbol table says is declared: the types of a function are that of its
      result and those of its parameters. */
  function DeclarationOf(sym: Symbol): Declaration {
    match sym
    case VariableSymbol(varType, _, _, _) => Variable(varType)
    case FunctionSymbol(types, name) => if types == [] then Function(name, ERROR, []) else Function(name, types[0], types[1..])
  }

  function DeclarationsIn(table: Table): (decls: Declarations)
    ensures decls.Keys == table.Keys
  {
    map id | id in table :: DeclarationOf(table[id])
  }
}
