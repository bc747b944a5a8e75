/** The compiler's checks: the symbol collector and, when it finds nothing, the type checker on
    the table it filled. */
module Compiler {
  import opened Ast
  import opened LexicalScoping
  import opened SymbolTable
  import opened SymbolCollector
  import opened TypeChecker
  import T = TypeChecking
  import Rules = TypingRules
  import Intent = TypingIntent
  import Scoping = ScopingVerdict
  import Late = LateVariables
  import ScopeEvents
  import Contents = TableContents
  import TableDeclarations

  /** Some order of iteration over a table. */
  method Entries(table: Table) returns (order: seq<NodeId>)
    ensures Lists(order, table)
  {
    order := [];
    var todo := table.Keys;
    while todo != {}
      invariant todo <= table.Keys && NoRepeats(order)
      invariant forall node :: node in order <==> node in table && node !in todo
      decreases |todo|
    {
      var node :| node in todo;
      order, todo := order + [node], todo - {node};
    }
  }

  class Compiler {
    const mSymTable: SymbolTable
    const mSymCollector: SymbolCollector

    ghost predicate Valid()
      reads this, mSymCollector
    {
      mSymCollector.mSymbolTable == mSymTable && mSymCollector.mCurrentScopesPath == [0]
    }

    constructor ()
      ensures Valid() && fresh(mSymTable) && fresh(mSymCollector)
    {
      var symTable := new SymbolTable();
      mSymTable := symTable;
      mSymCollector := new SymbolCollector(symTable);
    }

    /** Whether a program passes both checks, given how its uses were bound: only when lexical
        scoping and late variables let it, and then exactly when it is well typed, the variables
        and functions it declares having the types it declares for them. When variables
        come before blocks, late variables do not matter. Ordinary programs are well typed by the
        rules as intended. A run of the type checker that breaks down does not return a table;
        `noise` is what its unset variables hold. */
    method GetSymbolTable(root: ASTNode, noise: NodeId -> Type) returns (passed: bool, ghost bindings: map<NodeId, NodeId>)
      requires Valid() && IsProgram(root)
      modifies mSymTable, mSymCollector
      ensures Valid() && Collected(mSymTable.mTable)
      ensures var report, es := CheckProgram(AsCoded, root), ScopeEvents.Events(root);
              && (forall use :: use in report.uses ==> use in bindings && bindings[use] in report.uses[use])
              && (passed ==> Late.OnlyLateTwice(es) && Late.NoneOnlyLate(es) && Late.NoneCollides(es))
              && (passed && Scoping.VarsFirst(root) ==> WellScoped(root))
      ensures var es, g := ScopeEvents.Events(root), Rules.Context(Contents.DeclarationsOf(root), bindings, Rules.Coded(noise));
              Rules.Checkable(root) ==>
                && (passed <==> Late.OnlyLateTwice(es) && Late.NoneOnlyLate(es) && Late.NoneCollides(es)
                                && Rules.WellTyped(g, root, [], None))
                && (Scoping.VarsFirst(root) ==> (passed <==> WellScoped(root) && Rules.WellTyped(g, root, [], None)))
      ensures var h := Rules.Context(Contents.DeclarationsOf(root), bindings, Rules.INTENDED);
              Rules.Checkable(root) && Intent.Ordinary(h, root, []) && Scoping.VarsFirst(root) ==>
                (passed <==> WellScoped(root) && Rules.WellTyped(h, root, [], None))
    {
      hide CheckProgram, WellScoped, Rules.Checkable, Rules.WellTyped, T.Checked, ScopeEvents.Events, Intent.Ordinary;
      hide TableDeclarations.DeclarationsIn, Contents.DeclarationsOf, Contents.Records, Contents.RecordsAll;
      hide Late.OnlyLateTwice, Late.NoneOnlyLate, Late.NoneCollides;
      var errorCount := mSymCollector.Run(root);
      bindings := mSymTable.mUseDefs;
      ghost var g := Rules.Context(Contents.DeclarationsOf(root), bindings, Rules.Coded(noise));
      ghost var h := g.(quirks := Rules.INTENDED);
      if Rules.Checkable(root) && Intent.Ordinary(h, root, []) {
        Intent.NodesAgree(h, g, root, [], None);
      }
      if errorCount != 0 {
        return false, bindings;
      }
      var order := Entries(mSymTable.mTable);
      var typeChecker := new TypeChecker(mSymTable, order, noise);
      errorCount := typeChecker.Run(root);
      passed := !typeChecker.mFailed && errorCount == 0;
    }
  }
}
