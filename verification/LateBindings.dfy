/** Exactly when the collector binds identifiers as lexical scoping does. */
module LateBindings {
  import opened Ast
  import opened LexicalScoping
  import opened ScopeEvents
  import opened EventNodes
  import opened LateVariables

  // ---------- one scope under both rules ----------

  lemma FirstIsUnique(rules: Rules, es: seq<Event>, s: nat, name: string, i: nat, j: nat)
    requires i < |es| && j < |es| && First(rules, es, s, name, i) && First(rules, es, s, name, j)
    ensures i == j
  {
  }

  /** In an open scope the collector has entered just the variables that are not late. */
  lemma EnteredInOpen(es: seq<Event>, k: nat, s: nat, j: nat)
    requires j < k <= |es| && s in OpenScopes(es, k) && es[j].Var?
    ensures ScopeAt(AsCoded, es, j) == s <==> ScopeAt(Lexical, es, j) == s && !Late(es, j)
  {
    if Late(es, j) {
      LateIsLost(es, j, k);
    }
  }

  /** Behind a late variable all variables of its scope are late. */
  lemma LateStays(es: seq<Event>, i: nat, j: nat)
    requires i < j < |es| && es[i].Var? && es[j].Var? && Late(es, i) && ScopeAt(Lexical, es, i) == ScopeAt(Lexical, es, j)
    ensures Late(es, j)
  {
    hide OpenScopes, LastOpened;
    if !Late(es, j) {
      EarlierScope(es, i, j);
    }
  }

  /** The first variable of the scope with that name is also what the collector finds there,
      unless it is late; then the collector finds none. */
  lemma FirstCompared(es: seq<Event>, k: nat, s: nat, name: string, j: nat)
    requires j < k <= |es| && s in OpenScopes(es, k) && First(Lexical, es, s, name, j)
    ensures Late(es, j) ==> !Entered(AsCoded, es, k, s, name)
    ensures !Late(es, j) ==> Entered(AsCoded, es, k, s, name) && First(AsCoded, es, s, name, j)
  {
    hide OpenScopes, LastOpened, Late, ScopeAt;
    forall i | 0 <= i < k && Declares(es, i, name)
      ensures ScopeAt(AsCoded, es, i) == s <==> ScopeAt(Lexical, es, i) == s && !Late(es, i)
      ensures Late(es, j) && ScopeAt(Lexical, es, i) == s ==> Late(es, i)
    {
      EnteredInOpen(es, k, s, i);
      if Late(es, j) && ScopeAt(Lexical, es, i) == s && i > j {
        LateStays(es, j, i);
      }
    }
  }

  lemma NoneCompared(es: seq<Event>, k: nat, s: nat, name: string)
    requires k <= |es| && s in OpenScopes(es, k) && !Entered(Lexical, es, k, s, name)
    ensures !Entered(AsCoded, es, k, s, name)
  {
    hide OpenScopes, LastOpened, Late, ScopeAt;
    forall i | 0 <= i < k && Declares(es, i, name) ensures ScopeAt(AsCoded, es, i) != s {
      EnteredInOpen(es, k, s, i);
    }
  }

  lemma {:induction false} FirstExists(rules: Rules, es: seq<Event>, k: nat, s: nat, name: string) returns (j: nat)
    requires k <= |es| && Entered(rules, es, k, s, name)
    ensures j < k && First(rules, es, s, name, j)
    decreases k
  {
    hide ScopeAt;
    if Entered(rules, es, k - 1, s, name) {
      j := FirstExists(rules, es, k - 1, s, name);
    } else {
      j := k - 1;
    }
  }

  // ---------- functions ----------

  lemma HappensToFunctions(rules: Rules, e: Event, env: Env)
    requires env.scopes != []
    ensures Happens(rules, e, env).0.funs
         == if e.Fun? && e.sig !in env.funs then env.funs[e.sig := e.id] else env.funs
  {
    hide Resolve, FunctionsNamed, Declare;
  }

  lemma {:induction false} FunctionsAgree(es: seq<Event>, k: nat)
    requires k <= |es|
    ensures EnvAt(AsCoded, es, k).funs == EnvAt(Lexical, es, k).funs
    decreases k
  {
    hide Happens;
    if k > 0 {
      FunctionsAgree(es, k - 1);
      HappensToFunctions(AsCoded, es[k - 1], EnvAt(AsCoded, es, k - 1));
      HappensToFunctions(Lexical, es[k - 1], EnvAt(Lexical, es, k - 1));
    }
  }

  lemma {:induction false} FunctionIds(rules: Rules, es: seq<Event>, k: nat, sig: Signature)
    requires k <= |es| && sig in EnvAt(rules, es, k).funs
    ensures exists j :: 0 <= j < k && es[j].Fun? && es[j].id == EnvAt(rules, es, k).funs[sig]
    decreases k
  {
    hide Happens;
    if k > 0 {
      HappensToFunctions(rules, es[k - 1], EnvAt(rules, es, k - 1));
      if sig in EnvAt(rules, es, k - 1).funs {
        FunctionIds(rules, es, k - 1, sig);
      }
    }
  }

  // ---------- looking a name up ----------

  /** From the `i`-th open scope on, the first that has a variable `name` has a late one. */
  predicate LateFrom(es: seq<Event>, k: nat, i: nat, name: string)
    requires k <= |es| && i <= |OpenScopes(es, k)|
    decreases |OpenScopes(es, k)| - i
  {
    if i == |OpenScopes(es, k)| then false
    else
      var s := OpenScopes(es, k)[i];
      if Entered(Lexical, es, k, s, name) then exists j | 0 <= j < k :: First(Lexical, es, s, name, j) && Late(es, j)
      else LateFrom(es, k, i + 1, name)
  }

  /** Whatever the collector finds is a function or a variable that is not late. */
  lemma {:induction false} FoundIsInTime(es: seq<Event>, k: nat, env: Env, i: nat, name: string, d: NodeId)
    requires k <= |es| && env == EnvAt(AsCoded, es, k) && Tracks(AsCoded, es, k, env) && i <= |env.scopes|
    requires d in ResolveFrom(env, i, name)
    ensures exists j :: 0 <= j < k && HasId(es[j]) && es[j].id == d && (es[j].Fun? || (es[j].Var? && !Late(es, j)))
    decreases |env.scopes| - i
  {
    hide EnvAt, First, Entered, FunctionsNamed, Late, LastOpened;
    if BoundIn(env, i, name) == {} {
      FoundIsInTime(es, k, env, i + 1, name, d);
    } else if name in env.scopes[i] && d == env.scopes[i][name] {
      VariableIsInTime(es, k, env, i, name);
    } else {
      FunctionIsFound(es, k, name, d);
    }
  }

  lemma VariableIsInTime(es: seq<Event>, k: nat, env: Env, i: nat, name: string)
    requires k <= |es| && Tracks(AsCoded, es, k, env) && i < |env.scopes| && name in env.scopes[i]
    ensures exists j :: 0 <= j < k && es[j].Var? && es[j].id == env.scopes[i][name] && !Late(es, j)
  {
    hide OpenScopes, Late, LastOpened, Entered, ScopeAt;
    var s := OpenScopes(es, k)[i];
    assert Holds(AsCoded, es, k, env.scopes[i], s);
    var j :| 0 <= j < k && First(AsCoded, es, s, name, j) && es[j].id == env.scopes[i][name];
    EnteredInOpen(es, k, s, j);
  }

  lemma FunctionIsFound(es: seq<Event>, k: nat, name: string, d: NodeId)
    requires k <= |es| && d in FunctionsNamed(EnvAt(AsCoded, es, k).funs, name)
    ensures exists j :: 0 <= j < k && es[j].Fun? && es[j].id == d
  {
    hide EnvAt;
    var sig :| sig in EnvAt(AsCoded, es, k).funs && EnvAt(AsCoded, es, k).funs[sig] == d;
    FunctionIds(AsCoded, es, k, sig);
  }

  lemma BoundInCompared(c: Env, l: Env, i: nat, name: string)
    requires i < |c.scopes| == |l.scopes| && c.funs == l.funs
    ensures name in l.scopes[i] ==> l.scopes[i][name] in BoundIn(l, i, name)
    ensures name !in l.scopes[i] && BoundIn(l, i, name) != {} ==> i == |l.scopes| - 1
    ensures (name in c.scopes[i] <==> name in l.scopes[i]) && (name in l.scopes[i] ==> c.scopes[i][name] == l.scopes[i][name])
        ==> BoundIn(c, i, name) == BoundIn(l, i, name)
  {
    hide FunctionsNamed;
  }

  /** The scope under both rules. */
  lemma ScopeCompared(es: seq<Event>, k: nat, c: Env, l: Env, i: nat, name: string)
    requires k <= |es| && Tracks(AsCoded, es, k, c) && Tracks(Lexical, es, k, l) && c.funs == l.funs
    requires i < |OpenScopes(es, k)| && |c.scopes| == |l.scopes| == |OpenScopes(es, k)|
    ensures var s := OpenScopes(es, k)[i];
            if Entered(Lexical, es, k, s, name) then
              && name in l.scopes[i] && l.scopes[i][name] in BoundIn(l, i, name)
              && exists j :: 0 <= j < k && First(Lexical, es, s, name, j) && es[j].id == l.scopes[i][name]
                          && (!Late(es, j) ==> BoundIn(c, i, name) == BoundIn(l, i, name))
            else
              && BoundIn(c, i, name) == BoundIn(l, i, name)
              && (BoundIn(l, i, name) != {} ==> i == |OpenScopes(es, k)| - 1)
  {
    hide OpenScopes, LastOpened, Late, ScopeAt, BoundIn, Entered;
    var s := OpenScopes(es, k)[i];
    BoundInCompared(c, l, i, name);
    assert Holds(AsCoded, es, k, c.scopes[i], s) && Holds(Lexical, es, k, l.scopes[i], s);
    if Entered(Lexical, es, k, s, name) {
      var j :| 0 <= j < k && First(Lexical, es, s, name, j) && es[j].id == l.scopes[i][name];
      FirstCompared(es, k, s, name, j);
      if !Late(es, j) {
        var j' :| 0 <= j' < k && First(AsCoded, es, s, name, j') && es[j'].id == c.scopes[i][name];
        FirstIsUnique(AsCoded, es, s, name, j, j');
      }
    } else {
      NoneCompared(es, k, s, name);
    }
  }

  /** Looking a name up gives the same under both rules unless the lexical rules find a late
      variable. */
  lemma {:induction false} ResolveCompared(es: seq<Event>, k: nat, c: Env, l: Env, i: nat, name: string)
    requires k <= |es| && Distinct(es) && c == EnvAt(AsCoded, es, k) && l == EnvAt(Lexical, es, k)
    requires Tracks(AsCoded, es, k, c) && Tracks(Lexical, es, k, l) && c.funs == l.funs
    requires i <= |OpenScopes(es, k)| && |c.scopes| == |l.scopes| == |OpenScopes(es, k)|
    ensures ResolveFrom(c, i, name) == ResolveFrom(l, i, name) <==> !LateFrom(es, k, i, name)
    decreases |OpenScopes(es, k)| - i
  {
    hide OpenScopes, LastOpened, Late, ScopeAt, BoundIn, Entered, EnvAt, Tracks, First;
    if i < |OpenScopes(es, k)| {
      var s := OpenScopes(es, k)[i];
      ScopeCompared(es, k, c, l, i, name);
      ResolveCompared(es, k, c, l, i + 1, name);
      if Entered(Lexical, es, k, s, name) {
        var j :| 0 <= j < k && First(Lexical, es, s, name, j) && es[j].id == l.scopes[i][name]
                 && (!Late(es, j) ==> BoundIn(c, i, name) == BoundIn(l, i, name));
        OneFirst(es, k, s, name, j);
        if Late(es, j) {
          LateIsNotFound(es, k, c, i, name, j);
        }
      }
    }
  }

  lemma OneFirst(es: seq<Event>, k: nat, s: nat, name: string, j: nat)
    requires j < k <= |es| && First(Lexical, es, s, name, j)
    ensures Late(es, j) <==> exists i | 0 <= i < k :: First(Lexical, es, s, name, i) && Late(es, i)
  {
    hide Late, First;
    forall i | 0 <= i < k && First(Lexical, es, s, name, i) ensures i == j {
      FirstIsUnique(Lexical, es, s, name, i, j);
    }
  }

  lemma LateIsNotFound(es: seq<Event>, k: nat, env: Env, i: nat, name: string, j: nat)
    requires j < k <= |es| && Distinct(es) && env == EnvAt(AsCoded, es, k) && Tracks(AsCoded, es, k, env) && i <= |env.scopes|
    requires es[j].Var? && Late(es, j)
    ensures es[j].id !in ResolveFrom(env, i, name)
  {
    hide Late, EnvAt, Tracks, ResolveFrom;
    if es[j].id in ResolveFrom(env, i, name) {
      FoundIsInTime(es, k, env, i, name, es[j].id);
    }
  }

  // ---------- whole programs ----------

  /** The identifier used by the `k`-th event is, lexically, a late variable: the innermost open
      scope with a variable of that name has a late one. */
  predicate NamesLate(es: seq<Event>, k: nat)
    requires k < |es|
  {
    es[k].Use? && LateFrom(es, k, 0, es[k].name)
  }

  /** The declarations that the identifier used by the `k`-th event may be bound to. */
  function Found(rules: Rules, es: seq<Event>, k: nat): set<NodeId>
    requires k < |es| && es[k].Use?
  {
    Resolve(EnvAt(rules, es, k), es[k].name)
  }

  lemma UseIsBoundRightly(es: seq<Event>, k: nat)
    requires k < |es| && Distinct(es) && es[k].Use?
    ensures Found(AsCoded, es, k) == Found(Lexical, es, k) <==> !NamesLate(es, k)
  {
    EnvTracks(AsCoded, es, k);
    EnvTracks(Lexical, es, k);
    FunctionsAgree(es, k);
    hide EnvAt, LateFrom, ResolveFrom;
    ResolveCompared(es, k, EnvAt(AsCoded, es, k), EnvAt(Lexical, es, k), 0, es[k].name);
  }

  /** What the events from the `k`-th on are bound to. */
  ghost predicate Binds(rules: Rules, es: seq<Event>, k: nat, uses: map<NodeId, set<NodeId>>)
    requires k <= |es|
  {
    && (forall use :: use in uses ==> exists i :: k <= i < |es| && es[i].Use? && es[i].id == use)
    && forall i | k <= i < |es| && es[i].Use? ::
         if es[i].id in uses then uses[es[i].id] == Found(rules, es, i) != {} else Found(rules, es, i) == {}
  }

  lemma HappensToUses(rules: Rules, e: Event, env: Env)
    requires env.scopes != []
    ensures Happens(rules, e, env).1.uses
         == if e.Use? && Resolve(env, e.name) != {} then map[e.id := Resolve(env, e.name)] else map[]
  {
    hide Resolve, FunctionsNamed;
  }

  lemma {:induction false} AllBound(rules: Rules, es: seq<Event>, k: nat)
    requires k <= |es| && Distinct(es)
    ensures Binds(rules, es, k, HappenAll(rules, es[k..], EnvAt(rules, es, k)).1.uses)
    decreases |es| - k
  {
    hide Resolve, Happens;
    if k < |es| {
      AllBound(rules, es, k + 1);
      assert es[k..][0] == es[k] && es[k..][1..] == es[k + 1..];
      var env := EnvAt(rules, es, k);
      HappensToUses(rules, es[k], env);
      var first, rest := Happens(rules, es[k], env).1.uses, HappenAll(rules, es[k + 1..], EnvAt(rules, es, k + 1)).1.uses;
      assert HappenAll(rules, es[k..], env).1.uses == first + rest;
      hide EnvAt, HappenAll;
      OneMoreBound(rules, es, k, first, rest);
    }
  }

  lemma OneMoreBound(rules: Rules, es: seq<Event>, k: nat, first: map<NodeId, set<NodeId>>, rest: map<NodeId, set<NodeId>>)
    requires k < |es| && Distinct(es) && Binds(rules, es, k + 1, rest)
    requires first == if es[k].Use? && Found(rules, es, k) != {} then map[es[k].id := Found(rules, es, k)] else map[]
    ensures Binds(rules, es, k, first + rest)
  {
    hide Found;
    var uses := first + rest;
    if es[k].Use? {
      assert es[k].id !in rest;
    }
    forall use | use in uses ensures exists i :: k <= i < |es| && es[i].Use? && es[i].id == use {
      if use in rest {
        var i :| k + 1 <= i < |es| && es[i].Use? && es[i].id == use;
      }
    }
    forall i | k <= i < |es| && es[i].Use?
      ensures if es[i].id in uses then uses[es[i].id] == Found(rules, es, i) != {} else Found(rules, es, i) == {}
    {
      if i > k && es[k].Use? {
        assert HasId(es[k]) && HasId(es[i]) && es[i].id != es[k].id;
      }
    }
  }

  /** Both rules bind alike exactly when they do at every use. */
  lemma BoundAlike(es: seq<Event>, coded: map<NodeId, set<NodeId>>, lexical: map<NodeId, set<NodeId>>)
    requires Distinct(es) && Binds(AsCoded, es, 0, coded) && Binds(Lexical, es, 0, lexical)
    ensures coded == lexical <==> forall k | 0 <= k < |es| :: !NamesLate(es, k)
  {
    hide Found, LateFrom;
    forall k | 0 <= k < |es| && es[k].Use? ensures Found(AsCoded, es, k) == Found(Lexical, es, k) <==> !NamesLate(es, k) {
      UseIsBoundRightly(es, k);
    }
    if coded == lexical {
      forall k | 0 <= k < |es| ensures !NamesLate(es, k) {
      }
    }
    if forall k | 0 <= k < |es| :: !NamesLate(es, k) {
      forall use ensures use in coded <==> use in lexical {
        if use in coded {
          var i :| 0 <= i < |es| && es[i].Use? && es[i].id == use;
        }
        if use in lexical {
          var i :| 0 <= i < |es| && es[i].Use? && es[i].id == use;
        }
      }
      forall use | use in coded ensures coded[use] == lexical[use] {
        var i :| 0 <= i < |es| && es[i].Use? && es[i].id == use;
      }
    }
  }

  /** For every program: the collector's rules bind every identifier as lexical scoping does if
      and only if no identifier is, lexically, a late variable. */
  lemma BindingsAreRightExactly(root: ASTNode)
    requires IsProgram(root)
    ensures CheckProgram(AsCoded, root).uses == CheckProgram(Lexical, root).uses
       <==> forall k | 0 <= k < |Events(root)| :: !NamesLate(Events(root), k)
  {
    hide CheckProgram, Events, HappenAll, NamesLate, Distinct, Binds;
    var es := Events(root);
    NodesDiffer(root);
    ProgramHappens(AsCoded, root);
    ProgramHappens(Lexical, root);
    AllBound(AsCoded, es, 0);
    AllBound(Lexical, es, 0);
    assert es[0..] == es;
    BoundAlike(es, CheckProgram(AsCoded, root).uses, CheckProgram(Lexical, root).uses);
  }
}
