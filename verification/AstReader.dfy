/** The AST reader: a cursor over the lines of a file, moved by mutually recursive routines. */
module AstReader {
  import opened Ast
  import opened AstPrinter
  import R = AstReading

  class ASTReader {
    const mStream: seq<Line>
    var mCurrent: nat
    var mCurrentLine: Line

    ghost predicate Valid()
      reads this
    {
      mCurrent <= |mStream| && mCurrentLine == R.LineAt(mStream, mCurrent)
    }

    constructor (lines: seq<Line>)
      ensures Valid() && mStream == lines && mCurrent == 0
    {
      mStream := lines;
      mCurrent := 0;
      mCurrentLine := R.LineAt(lines, 0);
    }

    method GetLine()
      requires Valid()
      modifies this
      ensures Valid() && mCurrent == R.Advance(mStream, old(mCurrent))
    {
      if mCurrent < |mStream| {
        mCurrent := mCurrent + 1;
      }
      mCurrentLine := R.LineAt(mStream, mCurrent);
    }

    /** Reads the file from its first line; `ok` is false when the reader never returns. */
    method Run() returns (ok: bool, root: ASTNode)
      requires Valid() && mCurrent == 0
      modifies this
      ensures ok <==> R.ReadTree(mStream).Got?
      ensures ok ==> root == R.ReadTree(mStream).value
    {
      hide R.ReadDecl;
      if mCurrentLine != Line(0, ProgramText) {
        return true, Null;
      }
      GetLine();
      var decls: seq<ASTNode> := [];
      R.PrependTwice([], [], R.ReadDecls(mStream, mCurrent));
      while mCurrent < |mStream|
        invariant Valid()
        invariant R.ReadDecls(mStream, 1) == R.Prepend(decls, R.ReadDecls(mStream, mCurrent))
        decreases |mStream| - mCurrent
      {
        var decl;
        ok, decl := ReadDecl();
        if !ok {
          return false, Null;
        }
        R.PrependTwice(decls, [decl], R.ReadDecls(mStream, mCurrent));
        decls := decls + [decl];
      }
      return true, ProgramDecl(decls);
    }

    method ReadDecl() returns (ok: bool, decl: ASTNode)
      requires Valid() && mCurrent < |mStream|
      modifies this
      ensures Valid() && R.Outcome(ok, decl, mCurrent) == R.ReadDecl(mStream, old(mCurrent))
    {
      hide R.ReadFuncDecl, R.ReadVarDecl;
      if R.MatchesFunction(mCurrentLine) {
        ok, decl := ReadFuncDecl();
      } else if R.MatchesVar(mCurrentLine, false) {
        ok, decl := ReadVarDecl(false);
      } else {
        return false, Null;
      }
    }

    method ReadFuncDecl() returns (ok: bool, decl: ASTNode)
      requires Valid() && mCurrent < |mStream| && mCurrentLine.text.FunctionText?
      modifies this
      ensures Valid() && R.Outcome(ok, decl, mCurrent) == R.ReadFuncDecl(mStream, old(mCurrent))
    {
      hide R.ReadVarDecl, R.ReadCompound, R.MatchesVar;
      var FunctionText(name, returnType, loc) := mCurrentLine.text;
      var params: seq<ASTNode> := [];
      GetLine();
      ghost var first := mCurrent;
      R.PrependTwice([], [], R.ReadParams(mStream, first));
      while R.MatchesVar(mCurrentLine, true)
        invariant Valid() && first <= mCurrent
        invariant R.ReadParams(mStream, first) == R.Prepend(params, R.ReadParams(mStream, mCurrent))
        decreases |mStream| - mCurrent
      {
        R.VarLineIsInside(mStream, mCurrent, true);
        var param;
        ok, param := ReadVarDecl(true);
        if !ok {
          return false, Null;
        }
        R.PrependTwice(params, [param], R.ReadParams(mStream, mCurrent));
        params := params + [param];
      }
      var body;
      ok, body := ReadCompoundStmt();
      decl := FunctionDecl(name, returnType, ParamVarDecls(params), body, R.ReadLocation(loc));
    }

    method ReadVarDecl(isParam: bool) returns (ok: bool, decl: ASTNode)
      requires Valid() && mCurrent < |mStream| && mCurrentLine.text.VarText?
      modifies this
      ensures Valid() && R.Outcome(ok, decl, mCurrent) == R.ReadVarDecl(mStream, old(mCurrent), isParam)
    {
      hide R.ReadOptional;
      var VarText(_, name, varType, size, loc) := mCurrentLine.text;
      var init;
      ok, init := ReadOptional();
      decl := VarDecl(name, varType, isParam, size, init, R.ReadLocation(loc));
    }

    /** The expression below the current line, if the next line is deeper. */
    method ReadOptional() returns (ok: bool, child: ASTNode)
      requires Valid() && mCurrent < |mStream|
      modifies this
      ensures Valid() && R.Outcome(ok, child, mCurrent) == R.ReadOptional(mStream, old(mCurrent))
    {
      hide R.ReadExpr;
      var oldIndent := Tabs(mCurrentLine);
      GetLine();
      var newIndent := Tabs(mCurrentLine);
      if oldIndent < newIndent {
        ok, child := ReadExpr();
      } else {
        return true, Null;
      }
    }

    method ReadExpr() returns (ok: bool, expr: ASTNode)
      requires Valid()
      modifies this
      ensures Valid() && R.Outcome(ok, expr, mCurrent) == R.ReadExpr(mStream, old(mCurrent))
      decreases |mStream| - mCurrent, 0
    {
      hide R.ReadElems, R.ReadArgs;
      var line := mCurrentLine;
      GetLine();
      if line.indent == 0 {
        return true, ErrorNode;
      }
      match line.text {
        case ArrayText(loc) =>
          var elems;
          ok, elems := ReadElems();
          expr := ArrayExpr(elems, R.ReadLocation(loc));
        case BinaryText(op, loc) =>
          var lhs, rhs;
          ok, lhs := ReadExpr();
          if !ok {
            return false, Null;
          }
          ok, rhs := ReadExpr();
          expr := BinaryExpr(op, lhs, rhs, R.ReadLocation(loc));
        case BooleanText(flag, loc) =>
          return true, BooleanExpr(flag, R.ReadLocation(loc));
        case CallText(name, loc) =>
          if !R.MatchesCall(line) {
            return true, ErrorNode;
          }
          var args;
          ok, args := ReadArgs(Tabs(line));
          expr := CallExpr(R.UpTo(name, ' '), args, R.ReadLocation(loc));
        case IdentifierText(name, loc) =>
          if !R.MatchesIdentifier(line) {
            return true, ErrorNode;
          }
          return true, IdentifierExpr(R.UpTo(name, ' '), R.ReadLocation(loc));
        case NumberText(value, loc) =>
          if !R.MatchesNumber(line) {
            return true, ErrorNode;
          }
          return true, NumberExpr(value, R.ReadLocation(loc));
        case StringText(text, loc) =>
          return true, StringExpr(R.UpTo(text, '\"'), R.ReadLocation(loc));
        case _ =>
          return true, ErrorNode;
      }
    }

    /** The loop over the elements of an array. */
    method ReadElems() returns (ok: bool, elems: seq<ASTNode>)
      requires Valid()
      modifies this
      ensures Valid()
      ensures R.Outcome(ok, elems, mCurrent) == R.ReadElems(mStream, old(mCurrent), R.TabsAt(mStream, old(mCurrent)))
      decreases |mStream| - mCurrent, 1
    {
      hide R.ReadExpr, Tabs;
      ghost var first := mCurrent;
      var elemTabs := Tabs(mCurrentLine);
      elems := [];
      R.PrependTwice([], [], R.ReadElems(mStream, first, elemTabs));
      while elemTabs <= Tabs(mCurrentLine)
        invariant Valid() && first <= mCurrent
        invariant R.ReadElems(mStream, first, elemTabs) == R.Prepend(elems, R.ReadElems(mStream, mCurrent, elemTabs))
        decreases |mStream| - mCurrent
      {
        if mCurrent == |mStream| {
          // No line is left and the empty line is deep enough: the loop would not end
          return false, elems;
        }
        var elem;
        ok, elem := ReadExpr();
        if !ok {
          return false, elems;
        }
        R.PrependTwice(elems, [elem], R.ReadElems(mStream, mCurrent, elemTabs));
        elems := elems + [elem];
      }
      ok := true;
    }

    /** The loop over the arguments of a call. */
    method ReadArgs(callTabs: nat) returns (ok: bool, args: seq<ASTNode>)
      requires Valid()
      modifies this
      ensures Valid() && R.Outcome(ok, args, mCurrent) == R.ReadArgs(mStream, old(mCurrent), callTabs)
      decreases |mStream| - mCurrent, 1
    {
      hide R.ReadExpr;
      ghost var first := mCurrent;
      args := [];
      R.PrependTwice([], [], R.ReadArgs(mStream, first, callTabs));
      while Tabs(mCurrentLine) > callTabs
        invariant Valid() && first <= mCurrent
        invariant R.ReadArgs(mStream, first, callTabs) == R.Prepend(args, R.ReadArgs(mStream, mCurrent, callTabs))
        decreases |mStream| - mCurrent
      {
        var arg;
        ok, arg := ReadExpr();
        if !ok {
          return false, args;
        }
        R.PrependTwice(args, [arg], R.ReadArgs(mStream, mCurrent, callTabs));
        args := args + [arg];
      }
      ok := true;
    }

    method ReadCompoundStmt() returns (ok: bool, stmt: ASTNode)
      requires Valid()
      modifies this
      ensures Valid() && R.Outcome(ok, stmt, mCurrent) == R.ReadCompound(mStream, old(mCurrent))
      decreases |mStream| - mCurrent, 0
    {
      hide R.ReadChild, Tabs;
      ghost var start := mCurrent;
      var topTabs := Tabs(mCurrentLine);
      GetLine();
      ghost var first := mCurrent;
      R.EndHasNoTabs(mStream);
      var stmts: seq<ASTNode> := [];
      R.PrependTwice([], [], R.ReadStmts(mStream, first, topTabs));
      while topTabs < Tabs(mCurrentLine)
        invariant Valid() && first <= mCurrent
        invariant start == |mStream| ==> stmts == [] && mCurrent == start
        invariant R.ReadStmts(mStream, first, topTabs) == R.Prepend(stmts, R.ReadStmts(mStream, mCurrent, topTabs))
        decreases |mStream| - mCurrent
      {
        var stmt;
        ok, stmt := ReadChild();
        if !ok {
          return false, Null;
        }
        R.PrependTwice(stmts, [stmt], R.ReadStmts(mStream, mCurrent, topTabs));
        stmts := stmts + [stmt];
      }
      return true, CompoundStmt(stmts);
    }

    /** One turn of the loop over the statements of a compound statement. */
    method ReadChild() returns (ok: bool, stmt: ASTNode)
      requires Valid() && mCurrent < |mStream|
      modifies this
      ensures Valid() && R.Outcome(ok, stmt, mCurrent) == R.ReadChild(mStream, old(mCurrent))
      decreases |mStream| - mCurrent, 2
    {
      hide R.ReadVarDecl, R.ReadStmt, R.ReadExpr;
      if R.MatchesVar(mCurrentLine, false) {
        ok, stmt := ReadVarDecl(false);
      } else if R.MatchesStmt(mCurrentLine) {
        ok, stmt := ReadStmt();
      } else if R.MatchesBinary(mCurrentLine) || R.MatchesCall(mCurrentLine) {
        ok, stmt := ReadExpr();
      } else {
        // Nothing moves the current line: the loop would not end
        return false, Null;
      }
    }

    method ReadStmt() returns (ok: bool, stmt: ASTNode)
      requires Valid() && mCurrent < |mStream|
      modifies this
      ensures Valid() && R.Outcome(ok, stmt, mCurrent) == R.ReadStmt(mStream, old(mCurrent))
      decreases |mStream| - mCurrent, 1
    {
      hide R.ReadOptional, R.ReadGuarded, R.ReadCompound, R.ReadExpr;
      match mCurrentLine.text {
        case CompoundText =>
          ok, stmt := ReadCompoundStmt();
        case IfText(loc) =>
          GetLine();
          var cond, body;
          ok, cond, body := ReadGuarded();
          stmt := IfStmt(cond, body, R.ReadLocation(loc));
        case PrintText(loc) =>
          var message;
          ok, message := ReadOptional();
          stmt := PrintStmt(message, R.ReadLocation(loc));
        case ReturnText(loc) =>
          var result;
          ok, result := ReadOptional();
          stmt := ReturnStmt(result, R.ReadLocation(loc));
        case ScanText(_) =>
          // The current line is still the scan's own; what is read from it is no identifier
          return false, Null;
        case WhileText(loc) =>
          GetLine();
          var cond, body;
          ok, cond, body := ReadGuarded();
          stmt := WhileStmt(cond, body, R.ReadLocation(loc));
        case _ =>
          GetLine();
          return true, ErrorNode;
      }
    }

    /** The condition and the body of an if or while statement. */
    method ReadGuarded() returns (ok: bool, cond: ASTNode, body: ASTNode)
      requires Valid()
      modifies this
      ensures Valid() && R.Outcome(ok, (cond, body), mCurrent) == R.ReadGuarded(mStream, old(mCurrent))
      decreases |mStream| - mCurrent, 1
    {
      hide R.ReadExpr, R.ReadCompound;
      body := Null;
      ok, cond := ReadExpr();
      if ok {
        ok, body := ReadCompoundStmt();
      }
    }
  }
}
