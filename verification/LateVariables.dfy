/** Exactly when the collector accepts a program, and when that is right. Everything is said of
    the order of events: a scope is known by the position at which it opens, the global one by 0.
    A variable belongs to the innermost open scope, but the collector enters it in the scope
    opened last. It is late when these differ. */
module LateVariables {
  import opened Ast
  import opened LexicalScoping
  import opened ScopeEvents

  // ---------- scopes as positions ----------

  /** The scopes that are open before the `k`-th event, innermost first. */
  function OpenScopes(es: seq<Event>, k: nat): (scopes: seq<nat>)
    requires k <= |es|
    ensures scopes != []
  {
    if k == 0 then [0]
    else
      var before := OpenScopes(es, k - 1);
      if es[k - 1].Open? then [k] + before
      else if es[k - 1].Close? && |before| > 1 then before[1..]
      else before
  }

  function LastOpened(es: seq<Event>, k: nat): nat
    requires k <= |es|
  {
    if k == 0 then 0 else if es[k - 1].Open? then k else LastOpened(es, k - 1)
  }

  /** Where the rules enter a variable that is declared by the `k`-th event. */
  function ScopeAt(rules: Rules, es: seq<Event>, k: nat): nat
    requires k <= |es|
  {
    if rules.Lexical? then OpenScopes(es, k)[0] else LastOpened(es, k)
  }

  predicate Declares(es: seq<Event>, j: nat, name: string)
    requires j < |es|
  {
    es[j].Var? && es[j].name == name
  }

  /** Before the `k`-th event a variable `name` was entered in the scope `s`. */
  predicate Entered(rules: Rules, es: seq<Event>, k: nat, s: nat, name: string)
    requires k <= |es|
  {
    exists j | 0 <= j < k :: Declares(es, j, name) && ScopeAt(rules, es, j) == s
  }

  predicate Visible(rules: Rules, es: seq<Event>, k: nat, name: string)
    requires k <= |es|
  {
    exists j | 0 <= j < k :: Declares(es, j, name) && ScopeAt(rules, es, j) in OpenScopes(es, k)
  }

  predicate IsFunction(es: seq<Event>, k: nat, name: string)
    requires k <= |es|
  {
    exists j | 0 <= j < k :: es[j].Fun? && es[j].sig.name == name
  }

  predicate HasSignature(es: seq<Event>, k: nat, sig: Signature)
    requires k <= |es|
  {
    exists j | 0 <= j < k :: es[j].Fun? && es[j].sig == sig
  }

  /** What the rules demand of an event: a variable is new in its scope, a function is new, and a
      name that is used is known. */
  predicate InOrder(rules: Rules, es: seq<Event>, k: nat)
    requires k < |es|
  {
    match es[k]
    case Var(name, _) => !Entered(rules, es, k, ScopeAt(rules, es, k), name)
    case Use(name, _) => Visible(rules, es, k, name) || IsFunction(es, k, name)
    case Call(name) => IsFunction(es, k, name)
    case Fun(sig, _) => !HasSignature(es, k, sig)
    case _ => true
  }

  // ---------- late variables ----------

  predicate Late(es: seq<Event>, k: nat)
    requires k < |es|
  {
    es[k].Var? && LastOpened(es, k) != OpenScopes(es, k)[0]
  }

  /** A name is used that is visible, but through late variables only. */
  predicate OnlyLate(es: seq<Event>, k: nat)
    requires k < |es|
  {
    && es[k].Use? && Visible(Lexical, es, k, es[k].name) && !IsFunction(es, k, es[k].name)
    && forall j | 0 <= j < k :: Declares(es, j, es[k].name) && OpenScopes(es, j)[0] in OpenScopes(es, k) ==> Late(es, j)
  }

  /** A late variable shares its name with an entry of the scope it lands in. */
  predicate Collides(es: seq<Event>, k: nat)
    requires k < |es|
  {
    Late(es, k) && Entered(AsCoded, es, k, LastOpened(es, k), es[k].name)
  }

  // ---------- environments hold what was entered ----------

  function EnvAt(rules: Rules, es: seq<Event>, k: nat): (env: Env)
    requires k <= |es|
    ensures env.scopes != []
  {
    if k == 0 then GLOBAL_ENV else Happens(rules, es[k - 1], EnvAt(rules, es, k - 1)).0
  }

  /** The `j`-th event is the first that enters a variable `name` in the scope `s`. */
  predicate First(rules: Rules, es: seq<Event>, s: nat, name: string, j: nat): (r: bool)
    requires j < |es|
    ensures r ==> es[j].Var?
  {
    Declares(es, j, name) && ScopeAt(rules, es, j) == s && !Entered(rules, es, j, s, name)
  }

  /** The names of the scope are those entered so far, and each leads to its first declaration. */
  ghost predicate Holds(rules: Rules, es: seq<Event>, k: nat, scope: map<string, NodeId>, s: nat)
    requires k <= |es|
  {
    && (forall name :: name in scope <==> Entered(rules, es, k, s, name))
    && (forall name :: name in scope ==> exists j :: 0 <= j < k && First(rules, es, s, name, j) && es[j].id == scope[name])
  }

  /** The scopes opened so far: the open ones were opened one inside the other, and the one
      opened last is among them only as the innermost. */
  lemma {:induction false} Nested(es: seq<Event>, k: nat)
    requires k <= |es|
    ensures var scopes := OpenScopes(es, k);
            && scopes[0] <= LastOpened(es, k) <= k
            && forall i, j | 0 <= i < j < |scopes| :: scopes[j] < scopes[i]
    decreases k
  {
    if k > 0 {
      Nested(es, k - 1);
    }
  }

  lemma EnteredStep(rules: Rules, es: seq<Event>, k: nat, s: nat, name: string)
    requires k < |es|
    ensures Entered(rules, es, k + 1, s, name) <==>
              Entered(rules, es, k, s, name) || (Declares(es, k, name) && ScopeAt(rules, es, k) == s)
  {
    hide ScopeAt, Declares;
  }

  /** Nothing has been entered in a scope that is yet to open. */
  lemma NotYetEntered(rules: Rules, es: seq<Event>, k: nat, s: nat, name: string)
    requires k <= |es| && s > k
    ensures !Entered(rules, es, k, s, name)
  {
    forall j | 0 <= j < k ensures ScopeAt(rules, es, j) != s {
      Nested(es, j);
    }
  }

  ghost predicate Tracks(rules: Rules, es: seq<Event>, k: nat, env: Env)
    requires k <= |es|
  {
    && |env.scopes| == |OpenScopes(es, k)|
    && (forall i | 0 <= i < |env.scopes| :: Holds(rules, es, k, env.scopes[i], OpenScopes(es, k)[i]))
    && (env.stale <==> LastOpened(es, k) != OpenScopes(es, k)[0])
    && (rules.AsCoded? && env.stale ==> Holds(rules, es, k, env.aside, LastOpened(es, k)))
    && (forall sig :: sig in env.funs <==> HasSignature(es, k, sig))
  }

  lemma HoldsStays(rules: Rules, es: seq<Event>, k: nat, scope: map<string, NodeId>, s: nat)
    requires k < |es| && Holds(rules, es, k, scope, s) && !(es[k].Var? && ScopeAt(rules, es, k) == s)
    ensures Holds(rules, es, k + 1, scope, s)
  {
    hide Entered, First;
    forall name ensures name in scope <==> Entered(rules, es, k + 1, s, name) {
      EnteredStep(rules, es, k, s, name);
    }
  }

  lemma HoldsGrows(rules: Rules, es: seq<Event>, k: nat, scope: map<string, NodeId>, s: nat)
    requires k < |es| && Holds(rules, es, k, scope, s) && es[k].Var? && ScopeAt(rules, es, k) == s
    ensures Holds(rules, es, k + 1, Declare(scope, es[k].name, es[k].id).0, s)
  {
    hide Entered;
    var scope' := Declare(scope, es[k].name, es[k].id).0;
    forall name ensures name in scope' <==> Entered(rules, es, k + 1, s, name) {
      EnteredStep(rules, es, k, s, name);
    }
    if es[k].name !in scope {
      assert First(rules, es, s, es[k].name, k);
    }
    forall name | name in scope'
      ensures exists j :: 0 <= j < k + 1 && First(rules, es, s, name, j) && es[j].id == scope'[name]
    {
      if name in scope {
        var j :| 0 <= j < k && First(rules, es, s, name, j) && es[j].id == scope[name];
      }
    }
  }

  lemma OpenTracked(rules: Rules, es: seq<Event>, k: nat, env: Env)
    requires k < |es| && Tracks(rules, es, k, env) && es[k].Open?
    ensures Tracks(rules, es, k + 1, Opened(env, map[]))
  {
    hide Holds, Entered, HasSignature;
    var env' := Opened(env, map[]);
    var scopes := OpenScopes(es, k);
    assert OpenScopes(es, k + 1) == [k + 1] + scopes;
    EmptyHolds(rules, es, k);
    forall i | 0 <= i < |env'.scopes| ensures Holds(rules, es, k + 1, env'.scopes[i], OpenScopes(es, k + 1)[i]) {
      if i > 0 {
        HoldsStays(rules, es, k, env.scopes[i - 1], scopes[i - 1]);
      }
    }
    FunctionsStay(es, k, env.funs);
  }

  lemma EmptyHolds(rules: Rules, es: seq<Event>, k: nat)
    requires k < |es| && es[k].Open?
    ensures Holds(rules, es, k + 1, map[], k + 1)
  {
    var none: map<string, NodeId> := map[];
    forall name ensures name in none <==> Entered(rules, es, k + 1, k + 1, name) {
      NotYetEntered(rules, es, k, k + 1, name);
      EnteredStep(rules, es, k, k + 1, name);
    }
  }

  lemma FunctionsStay(es: seq<Event>, k: nat, funs: map<Signature, NodeId>)
    requires k < |es| && !es[k].Fun? && forall sig :: sig in funs <==> HasSignature(es, k, sig)
    ensures forall sig :: sig in funs <==> HasSignature(es, k + 1, sig)
  {
    forall sig ensures HasSignature(es, k + 1, sig) <==> HasSignature(es, k, sig) {
    }
  }

  lemma CloseUnfolds(es: seq<Event>, k: nat)
    requires k < |es| && es[k].Close?
    ensures LastOpened(es, k + 1) == LastOpened(es, k)
    ensures var scopes := OpenScopes(es, k); OpenScopes(es, k + 1) == if |scopes| > 1 then scopes[1..] else scopes
  {
  }

  lemma CloseTracked(rules: Rules, es: seq<Event>, k: nat, env: Env)
    requires k < |es| && Tracks(rules, es, k, env) && es[k].Close? && env.scopes != []
    ensures Tracks(rules, es, k + 1, if |env.scopes| > 1 then Closed(env) else env)
  {
    hide Holds, Entered, HasSignature, OpenScopes, LastOpened;
    var scopes := OpenScopes(es, k);
    Nested(es, k);
    CloseUnfolds(es, k);
    forall i | 0 <= i < |env.scopes| ensures Holds(rules, es, k + 1, env.scopes[i], scopes[i]) {
      HoldsStays(rules, es, k, env.scopes[i], scopes[i]);
    }
    if rules.AsCoded? && env.stale {
      HoldsStays(rules, es, k, env.aside, LastOpened(es, k));
    }
    FunctionsStay(es, k, env.funs);
  }

  lemma VarTracked(rules: Rules, es: seq<Event>, k: nat, env: Env)
    requires k < |es| && Tracks(rules, es, k, env) && es[k].Var? && env.scopes != []
    ensures Tracks(rules, es, k + 1, DeclareVar(rules, es[k].name, es[k].id, env).0)
  {
    hide Holds, Entered, HasSignature, Declare, OpenScopes, LastOpened;
    var scopes, s := OpenScopes(es, k), ScopeAt(rules, es, k);
    assert OpenScopes(es, k + 1) == scopes && LastOpened(es, k + 1) == LastOpened(es, k) by { VarOpensNothing(es, k); }
    Nested(es, k);
    FunctionsStay(es, k, env.funs);
    if rules.AsCoded? && env.stale {
      HoldsGrows(rules, es, k, env.aside, s);
    } else {
      HoldsGrows(rules, es, k, env.scopes[0], s);
    }
    forall i | 0 <= i < |env.scopes| && scopes[i] != s ensures Holds(rules, es, k + 1, env.scopes[i], scopes[i]) {
      HoldsStays(rules, es, k, env.scopes[i], scopes[i]);
    }
  }

  lemma VarOpensNothing(es: seq<Event>, k: nat)
    requires k < |es| && !es[k].Open? && !es[k].Close?
    ensures OpenScopes(es, k + 1) == OpenScopes(es, k) && LastOpened(es, k + 1) == LastOpened(es, k)
  {
  }

  lemma FunTracked(rules: Rules, es: seq<Event>, k: nat, env: Env)
    requires k < |es| && Tracks(rules, es, k, env) && es[k].Fun? && env.scopes != []
    ensures Tracks(rules, es, k + 1, Happens(rules, es[k], env).0)
  {
    hide Holds, Entered;
    var scopes := OpenScopes(es, k);
    forall i | 0 <= i < |env.scopes| ensures Holds(rules, es, k + 1, env.scopes[i], scopes[i]) {
      HoldsStays(rules, es, k, env.scopes[i], scopes[i]);
    }
    if rules.AsCoded? && env.stale {
      HoldsStays(rules, es, k, env.aside, LastOpened(es, k));
    }
    forall sig ensures HasSignature(es, k + 1, sig) <==> HasSignature(es, k, sig) || sig == es[k].sig {
      if sig == es[k].sig {
        assert es[k].Fun? && es[k].sig == sig;
      }
    }
  }

  lemma NameTracked(rules: Rules, es: seq<Event>, k: nat, env: Env)
    requires k < |es| && Tracks(rules, es, k, env) && (es[k].Use? || es[k].Call?) && env.scopes != []
    ensures Tracks(rules, es, k + 1, env)
  {
    hide Holds, Entered, HasSignature;
    var scopes := OpenScopes(es, k);
    forall i | 0 <= i < |env.scopes| ensures Holds(rules, es, k + 1, env.scopes[i], scopes[i]) {
      HoldsStays(rules, es, k, env.scopes[i], scopes[i]);
    }
    if rules.AsCoded? && env.stale {
      HoldsStays(rules, es, k, env.aside, LastOpened(es, k));
    }
    FunctionsStay(es, k, env.funs);
  }

  lemma NothingTracked(rules: Rules, es: seq<Event>)
    ensures Tracks(rules, es, 0, EnvAt(rules, es, 0))
  {
  }

  lemma {:induction false} EnvTracks(rules: Rules, es: seq<Event>, k: nat)
    requires k <= |es|
    ensures Tracks(rules, es, k, EnvAt(rules, es, k))
    decreases k
  {
    hide Tracks, DeclareVar, Resolve, FunctionsNamed, Opened, Closed;
    if k == 0 {
      NothingTracked(rules, es);
    } else {
      EnvTracks(rules, es, k - 1);
      var e, env := es[k - 1], EnvAt(rules, es, k - 1);
      if e.Open? {
        OpenTracked(rules, es, k - 1, env);
      } else if e.Close? {
        CloseTracked(rules, es, k - 1, env);
      } else if e.Var? {
        VarTracked(rules, es, k - 1, env);
      } else if e.Fun? {
        FunTracked(rules, es, k - 1, env);
      } else {
        NameTracked(rules, es, k - 1, env);
      }
    }
  }

  // ---------- violations ----------

  predicate EnteredInOneOf(rules: Rules, es: seq<Event>, k: nat, scopes: seq<nat>, name: string)
    requires k <= |es|
  {
    exists i | 0 <= i < |scopes| :: Entered(rules, es, k, scopes[i], name)
  }

  lemma {:induction false} ResolveTracks(rules: Rules, es: seq<Event>, k: nat, env: Env, i: nat, name: string)
    requires k <= |es| && Tracks(rules, es, k, env) && i <= |env.scopes|
    ensures ResolveFrom(env, i, name) != {} <==>
              EnteredInOneOf(rules, es, k, OpenScopes(es, k)[i..], name)
              || (i < |env.scopes| && FunctionsNamed(env.funs, name) != {})
    decreases |env.scopes| - i
  {
    hide Entered, HasSignature, FunctionsNamed, EnteredInOneOf;
    if i == |env.scopes| {
      assert OpenScopes(es, k)[i..] == [];
      NoScope(rules, es, k, name);
    } else {
      ResolveTracks(rules, es, k, env, i + 1, name);
      assert Holds(rules, es, k, env.scopes[i], OpenScopes(es, k)[i]);
      BoundTracks(env, i, name);
      OneMoreScope(rules, es, k, OpenScopes(es, k), i, name);
    }
  }

  lemma NoScope(rules: Rules, es: seq<Event>, k: nat, name: string)
    requires k <= |es|
    ensures !EnteredInOneOf(rules, es, k, [], name)
  {
  }

  lemma OneMoreScope(rules: Rules, es: seq<Event>, k: nat, scopes: seq<nat>, i: nat, name: string)
    requires k <= |es| && i < |scopes|
    ensures EnteredInOneOf(rules, es, k, scopes[i..], name) <==>
              Entered(rules, es, k, scopes[i], name) || EnteredInOneOf(rules, es, k, scopes[i + 1..], name)
  {
    hide Entered;
    var here, rest := scopes[i..], scopes[i + 1..];
    assert here[0] == scopes[i] && forall j | 0 <= j < |rest| :: rest[j] == here[j + 1];
    forall j | 0 <= j < |here| ensures Entered(rules, es, k, here[j], name) ==>
        j == 0 || Entered(rules, es, k, rest[j - 1], name)
    {
    }
  }

  lemma BoundTracks(env: Env, i: nat, name: string)
    requires i < |env.scopes|
    ensures BoundIn(env, i, name) != {} <==>
              name in env.scopes[i] || (i == |env.scopes| - 1 && FunctionsNamed(env.funs, name) != {})
  {
    hide FunctionsNamed;
    if name in env.scopes[i] {
      assert env.scopes[i][name] in BoundIn(env, i, name);
    }
  }

  lemma FunctionsTracked(rules: Rules, es: seq<Event>, k: nat, env: Env, name: string)
    requires k <= |es| && Tracks(rules, es, k, env)
    ensures FunctionsNamed(env.funs, name) != {} <==> IsFunction(es, k, name)
  {
    if FunctionsNamed(env.funs, name) != {} {
      var id :| id in FunctionsNamed(env.funs, name);
      var sig :| sig in env.funs && sig.name == name;
      assert HasSignature(es, k, sig);
    }
    if IsFunction(es, k, name) {
      var j :| 0 <= j < k && es[j].Fun? && es[j].sig.name == name;
      assert HasSignature(es, k, es[j].sig);
      assert env.funs[es[j].sig] in FunctionsNamed(env.funs, name);
    }
  }

  lemma VisibleTracked(rules: Rules, es: seq<Event>, k: nat, name: string)
    requires k <= |es|
    ensures Visible(rules, es, k, name) <==> EnteredInOneOf(rules, es, k, OpenScopes(es, k), name)
  {
    hide ScopeAt;
    var scopes := OpenScopes(es, k);
    if Visible(rules, es, k, name) {
      var j :| 0 <= j < k && Declares(es, j, name) && ScopeAt(rules, es, j) in scopes;
      var i :| 0 <= i < |scopes| && scopes[i] == ScopeAt(rules, es, j);
      assert Entered(rules, es, k, scopes[i], name);
    }
    if EnteredInOneOf(rules, es, k, scopes, name) {
      var i :| 0 <= i < |scopes| && Entered(rules, es, k, scopes[i], name);
      var j :| 0 <= j < k && Declares(es, j, name) && ScopeAt(rules, es, j) == scopes[i];
      assert ScopeAt(rules, es, j) in scopes;
    }
  }

  /** An event is a violation exactly when it is out of order. */
  lemma EventJudged(rules: Rules, es: seq<Event>, k: nat)
    requires k < |es|
    ensures Happens(rules, es[k], EnvAt(rules, es, k)).1.violations == 0 <==> InOrder(rules, es, k)
  {
    EnvTracks(rules, es, k);
    var e, env := es[k], EnvAt(rules, es, k);
    hide Entered, HasSignature, EnvAt, Visible, IsFunction, FunctionsNamed, EnteredInOneOf;
    assert OpenScopes(es, k)[0..] == OpenScopes(es, k);
    if e.Use? {
      ResolveTracks(rules, es, k, env, 0, e.name);
      VisibleTracked(rules, es, k, e.name);
      FunctionsTracked(rules, es, k, env, e.name);
    } else if e.Call? {
      FunctionsTracked(rules, es, k, env, e.name);
    } else if e.Var? {
      VarJudged(rules, es, k, env);
    }
  }

  lemma VarJudged(rules: Rules, es: seq<Event>, k: nat, env: Env)
    requires k < |es| && Tracks(rules, es, k, env) && es[k].Var? && env.scopes != []
    ensures DeclareVar(rules, es[k].name, es[k].id, env).1.violations == 0 <==> InOrder(rules, es, k)
  {
    hide Entered, HasSignature;
    var s := ScopeAt(rules, es, k);
    if rules.AsCoded? && env.stale {
      assert Holds(rules, es, k, env.aside, s);
    } else {
      assert Holds(rules, es, k, env.scopes[0], s);
    }
  }

  lemma {:induction false} AllJudged(rules: Rules, es: seq<Event>, k: nat)
    requires k <= |es|
    ensures HappenAll(rules, es[k..], EnvAt(rules, es, k)).1.violations == 0 <==>
              forall j | k <= j < |es| :: InOrder(rules, es, j)
    decreases |es| - k
  {
    hide Happens, InOrder;
    if k < |es| {
      EventJudged(rules, es, k);
      AllJudged(rules, es, k + 1);
      assert es[k..][0] == es[k] && es[k..][1..] == es[k + 1..];
    }
  }

  /** A program breaks no rule exactly when all its events are in order. */
  lemma ProgramJudged(rules: Rules, root: ASTNode)
    requires IsProgram(root)
    ensures CheckProgram(rules, root).violations == 0 <==>
              forall k | 0 <= k < |Events(root)| :: InOrder(rules, Events(root), k)
  {
    hide HappenAll, CheckProgram, InOrder, Events;
    ProgramHappens(rules, root);
    AllJudged(rules, Events(root), 0);
    assert Events(root)[0..] == Events(root);
  }

  // ---------- the two rules compared ----------

  /** A scope that is closed stays closed. */
  lemma {:induction false} StaysClosed(es: seq<Event>, j: nat, k: nat, s: nat)
    requires s <= j <= k <= |es| && s !in OpenScopes(es, j)
    ensures s !in OpenScopes(es, k)
    decreases k
  {
    if j < k {
      StaysClosed(es, j, k - 1, s);
    }
  }

  /** A late variable has landed in a scope that is closed for good. */
  lemma LateIsLost(es: seq<Event>, j: nat, k: nat)
    requires j <= k <= |es| && j < |es| && Late(es, j)
    ensures LastOpened(es, j) !in OpenScopes(es, k)
  {
    Nested(es, j);
    StaysClosed(es, j, k, LastOpened(es, j));
  }

  /** What the collector can see is what is visible through a variable that is not late. */
  lemma CodedVisibility(es: seq<Event>, k: nat, name: string)
    requires k <= |es|
    ensures Visible(AsCoded, es, k, name) <==>
              exists j | 0 <= j < k ::
                Declares(es, j, name) && OpenScopes(es, j)[0] in OpenScopes(es, k) && !Late(es, j)
  {
    forall j | 0 <= j < k && Declares(es, j, name)
      ensures LastOpened(es, j) in OpenScopes(es, k) <==> OpenScopes(es, j)[0] in OpenScopes(es, k) && !Late(es, j)
    {
      if Late(es, j) {
        LateIsLost(es, j, k);
      }
    }
  }

  lemma UseCompared(es: seq<Event>, k: nat)
    requires k < |es| && es[k].Use?
    ensures InOrder(AsCoded, es, k) <==> InOrder(Lexical, es, k) && !OnlyLate(es, k)
  {
    CodedVisibility(es, k, es[k].name);
    hide OpenScopes, LastOpened, Late, IsFunction;
  }

  lemma VarCompared(es: seq<Event>, k: nat)
    requires k < |es| && es[k].Var?
    ensures Late(es, k) ==> (InOrder(AsCoded, es, k) <==> !Collides(es, k))
    ensures !Late(es, k) ==> (InOrder(AsCoded, es, k) <==> InOrder(Lexical, es, k))
  {
    if !Late(es, k) {
      var s := LastOpened(es, k);
      forall j | 0 <= j < k && Declares(es, j, es[k].name)
        ensures ScopeAt(AsCoded, es, j) == s <==> ScopeAt(Lexical, es, j) == s
      {
        if Late(es, j) {
          LateIsLost(es, j, k);
          EarlierScope(es, j, k);
        }
      }
    }
  }

  /** Once another scope has been opened last, a scope that is still open is not the innermost. */
  lemma {:induction false} EarlierScope(es: seq<Event>, j: nat, k: nat)
    requires j <= k <= |es| && LastOpened(es, j) != OpenScopes(es, j)[0] && LastOpened(es, k) == OpenScopes(es, k)[0]
    ensures OpenScopes(es, j)[0] != OpenScopes(es, k)[0]
  {
    Nested(es, j);
    LastOpenedGrows(es, j, k);
  }

  lemma {:induction false} LastOpenedGrows(es: seq<Event>, j: nat, k: nat)
    requires j <= k <= |es|
    ensures LastOpened(es, j) <= LastOpened(es, k)
    decreases k
  {
    if j < k {
      LastOpenedGrows(es, j, k - 1);
      Nested(es, k - 1);
    }
  }

  // ---------- the verdict ----------

  predicate NoneOnlyLate(es: seq<Event>) {
    forall k | 0 <= k < |es| :: !OnlyLate(es, k)
  }

  predicate NoneCollides(es: seq<Event>) {
    forall k | 0 <= k < |es| :: !Collides(es, k)
  }

  /** All that is lexically wrong with the program is that late variables are declared twice. */
  predicate OnlyLateTwice(es: seq<Event>) {
    forall k | 0 <= k < |es| :: InOrder(Lexical, es, k) || Late(es, k)
  }

  lemma EventCompared(es: seq<Event>, k: nat)
    requires k < |es|
    ensures InOrder(AsCoded, es, k) <==>
              (InOrder(Lexical, es, k) || Late(es, k)) && !OnlyLate(es, k) && !Collides(es, k)
  {
    hide Visible, Entered, LastOpened, OpenScopes, Declares;
    if es[k].Var? {
      VarCompared(es, k);
    } else if es[k].Use? {
      UseCompared(es, k);
    }
  }

  /** For every program: the collector counts no error exactly when nothing is lexically wrong
      but late variables declared twice, no name is used that is visible through late variables
      only, and no late variable shares its name with an entry of the scope it lands in. */
  lemma AcceptedExactly(root: ASTNode)
    requires IsProgram(root)
    ensures CheckProgram(AsCoded, root).violations == 0 <==>
              OnlyLateTwice(Events(root)) && NoneOnlyLate(Events(root)) && NoneCollides(Events(root))
  {
    hide CheckProgram, InOrder, OnlyLate, Collides, Late, Events;
    var es := Events(root);
    ProgramJudged(AsCoded, root);
    forall k | 0 <= k < |es| ensures InOrder(AsCoded, es, k) <==>
        (InOrder(Lexical, es, k) || Late(es, k)) && !OnlyLate(es, k) && !Collides(es, k)
    {
      EventCompared(es, k);
    }
  }

  /** A well-scoped program is accepted exactly when no name is used that is visible through late
      variables only and no late variable collides; a program that is not well scoped is rejected
      exactly when something else than a late variable declared twice is wrong with it, or one of
      those holds. So this is when the collector is right. */
  lemma VerdictIsRightExactly(root: ASTNode)
    requires IsProgram(root)
    ensures var es, accepted := Events(root), CheckProgram(AsCoded, root).violations == 0;
            && (WellScoped(root) ==> (accepted <==> NoneOnlyLate(es) && NoneCollides(es)))
            && (!WellScoped(root) ==> (!accepted <==> !OnlyLateTwice(es) || !NoneOnlyLate(es) || !NoneCollides(es)))
            && ((accepted <==> WellScoped(root)) <==>
                 if WellScoped(root) then NoneOnlyLate(es) && NoneCollides(es)
                 else !OnlyLateTwice(es) || !NoneOnlyLate(es) || !NoneCollides(es))
  {
    hide CheckProgram, InOrder, NoneOnlyLate, NoneCollides, Late, Events;
    AcceptedExactly(root);
    ProgramJudged(Lexical, root);
  }
}
