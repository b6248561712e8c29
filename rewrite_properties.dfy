/**
 * What the rewrites of module Rewrites guarantee: which `where` keys go and
 * which stay, the `$and` chain they build, the attribute projections, and
 * that every node of an include tree gets its own rewrite with the alias path
 * of its ancestors.
 */
module RewriteProperties {
  import opened Wrappers
  import opened JsStrings
  import opened Sql
  import opened Resolver
  import opened Rewrites

  // ---------------------------------------------------------------- where

  /** The comparison terms the keys `ks` of `w` contribute, in key order. */
  function Terms(reg: Registry, m: string, alias: string, w: JsObject, ks: seq<string>): seq<Value>
    requires WellFormed(reg) && m in reg
    decreases |ks|
  {
    if |ks| == 0 then []
    else
      var k := ks[|ks| - 1];
      Terms(reg, m, alias, w, ks[..|ks| - 1]) +
        match GetDerivedExpr(reg, m, k, alias)
        case Ok(Some(e)) => [Cond(e, "=", InWrapped(Get(w, k)))]
        case _ => []
  }

  /** `$and` after conjoining the terms `ts` one after the other onto `init`. */
  function Chain(init: Value, ts: seq<Value>): Value
    decreases |ts|
  {
    if |ts| == 0 then init else Conjoin(Chain(init, ts[..|ts| - 1]), ts[|ts| - 1])
  }

  /** Whether key `k` names a derived field (resolves without error to an expression). */
  predicate Resolves(reg: Registry, m: string, alias: string, k: string)
    requires WellFormed(reg) && m in reg
  {
    GetDerivedExpr(reg, m, k, alias).Ok? && GetDerivedExpr(reg, m, k, alias).value.Some?
  }

  /** One turn of the loop for a key that resolves without error: the key goes if it is derived, and adds its term to `$and`. */
  lemma StepKeyEffect(reg: Registry, m: string, alias: string, w: JsObject, k: string)
    requires WellFormed(reg) && m in reg && ObjValid(w)
    requires "$and" !in reg[m].derived && GetDerivedExpr(reg, m, k, alias).Ok?
    ensures StepKey(reg, m, alias, w, k).1.None?
    ensures !Resolves(reg, m, alias, k) ==> StepKey(reg, m, alias, w, k).0 == w
    ensures Resolves(reg, m, alias, k) ==>
      var r := StepKey(reg, m, alias, w, k).0;
      && k != "$and" && k !in r.props
      && (forall x :: x != k && x != "$and" ==> (x in r.props <==> x in w.props))
      && (forall x :: x != k && x != "$and" && x in r.props ==> r.props[x] == w.props[x])
      && Get(r, "$and") == Conjoin(Get(w, "$and"), Cond(GetDerivedExpr(reg, m, k, alias).value.value, "=", InWrapped(Get(w, k))))
  {
    assert k == "$and" ==> !Resolves(reg, m, alias, k);
  }

  /**
   * The state after the loop has visited the keys `ks` without error: the keys
   * visited that resolve are gone, every other key keeps its value, and `$and`
   * holds the chain of the terms.
   */
  lemma {:induction false} RewriteKeysEffect(reg: Registry, m: string, alias: string, w: JsObject, ks: seq<string>)
    requires WellFormed(reg) && m in reg && ObjValid(w)
    requires Distinct(ks) && "$and" !in reg[m].derived
    requires forall i :: 0 <= i < |ks| ==> GetDerivedExpr(reg, m, ks[i], alias).Ok?
    ensures RewriteKeys(reg, m, alias, w, ks).1.None?
    ensures var r := RewriteKeys(reg, m, alias, w, ks).0;
      && (forall k :: k != "$and" ==> (k in r.props <==> k in w.props && !(k in ks && Resolves(reg, m, alias, k))))
      && (forall k :: k != "$and" && k in r.props ==> r.props[k] == w.props[k])
      && Get(r, "$and") == Chain(Get(w, "$and"), Terms(reg, m, alias, w, ks))
    decreases |ks|
  {
    if |ks| > 0 {
      var pre := ks[..|ks| - 1];
      var k := ks[|ks| - 1];
      assert Distinct(pre);
      RewriteKeysEffect(reg, m, alias, w, pre);
      var w1 := RewriteKeys(reg, m, alias, w, pre).0;
      assert k !in pre;
      assert forall x :: x in ks <==> x in pre || x == k;
      StepKeyEffect(reg, m, alias, w1, k);
      if Resolves(reg, m, alias, k) {
        assert Get(w1, k) == Get(w, k);
        var ts := Terms(reg, m, alias, w, pre);
        assert Terms(reg, m, alias, w, ks) == ts + [Cond(GetDerivedExpr(reg, m, k, alias).value.value, "=", InWrapped(Get(w, k)))];
      } else {
        assert Terms(reg, m, alias, w, ks) == Terms(reg, m, alias, w, pre);
      }
    }
  }

  /**
   * `processWhere` on an object `w` whose keys all resolve without error: the
   * derived keys are removed, the other keys keep their values, and each
   * derived key adds one term (`{ $in: … }` for an array) to the `$and` chain.
   */
  lemma RewriteWhereEffect(reg: Registry, m: string, alias: string, w: JsObject)
    requires WellFormed(reg) && m in reg && ObjValid(w)
    requires "$and" !in reg[m].derived
    requires forall i :: 0 <= i < |w.keys| ==> GetDerivedExpr(reg, m, w.keys[i], alias).Ok?
    ensures RewriteWhere(reg, m, alias, w).1.None?
    ensures var r := RewriteWhere(reg, m, alias, w).0;
      && (forall k :: k != "$and" ==> (k in r.props <==> k in w.props && !Resolves(reg, m, alias, k)))
      && (forall k :: k != "$and" && k in r.props ==> r.props[k] == w.props[k])
      && Get(r, "$and") == Chain(Get(w, "$and"), Terms(reg, m, alias, w, w.keys))
  {
    RewriteKeysEffect(reg, m, alias, w, w.keys);
  }

  /** One turn of the loop throws exactly when its key fails to resolve. */
  lemma StepKeyThrows(reg: Registry, m: string, alias: string, w: JsObject, k: string)
    requires WellFormed(reg) && m in reg && ObjValid(w)
    ensures StepKey(reg, m, alias, w, k).1.None? <==> GetDerivedExpr(reg, m, k, alias).Ok?
  {
  }

  /** Every key of `ks` resolves without error. */
  ghost predicate AllResolve(reg: Registry, m: string, alias: string, ks: seq<string>)
    requires WellFormed(reg) && m in reg
  {
    forall i :: 0 <= i < |ks| ==> GetDerivedExpr(reg, m, ks[i], alias).Ok?
  }

  lemma AllResolveSnoc(reg: Registry, m: string, alias: string, ks: seq<string>)
    requires WellFormed(reg) && m in reg && |ks| > 0
    ensures AllResolve(reg, m, alias, ks) <==>
              AllResolve(reg, m, alias, ks[..|ks| - 1]) && GetDerivedExpr(reg, m, ks[|ks| - 1], alias).Ok?
  {
    var pre := ks[..|ks| - 1];
    assert forall i :: 0 <= i < |pre| ==> ks[i] == pre[i];
  }

  /** The loop throws exactly when some key fails to resolve. */
  lemma {:induction false} RewriteKeysThrows(reg: Registry, m: string, alias: string, w: JsObject, ks: seq<string>)
    requires WellFormed(reg) && m in reg && ObjValid(w)
    ensures RewriteKeys(reg, m, alias, w, ks).1.None? <==>
              forall i :: 0 <= i < |ks| ==> GetDerivedExpr(reg, m, ks[i], alias).Ok?
    decreases |ks|
  {
    if |ks| > 0 {
      var pre := ks[..|ks| - 1];
      RewriteKeysThrows(reg, m, alias, w, pre);
      StepKeyThrows(reg, m, alias, RewriteKeys(reg, m, alias, w, pre).0, ks[|ks| - 1]);
      AllResolveSnoc(reg, m, alias, ks);
    }
  }

  /**
   * When the loop throws, it throws the error of the first key that fails to
   * resolve, and the rewrites of the keys before that one stay done.
   */
  lemma {:induction false} RewriteKeysFirstError(reg: Registry, m: string, alias: string, w: JsObject, ks: seq<string>) returns (i: nat)
    requires WellFormed(reg) && m in reg && ObjValid(w)
    requires RewriteKeys(reg, m, alias, w, ks).1.Some?
    ensures i < |ks|
    ensures GetDerivedExpr(reg, m, ks[i], alias) == Err(RewriteKeys(reg, m, alias, w, ks).1.value)
    ensures forall j :: 0 <= j < i ==> GetDerivedExpr(reg, m, ks[j], alias).Ok?
    ensures RewriteKeys(reg, m, alias, w, ks).0 == RewriteKeys(reg, m, alias, w, ks[..i]).0
    decreases |ks|
  {
    var pre := ks[..|ks| - 1];
    var r1 := RewriteKeys(reg, m, alias, w, pre);
    if r1.1.Some? {
      i := RewriteKeysFirstError(reg, m, alias, w, pre);
      assert ks[i] == pre[i] && ks[..i] == pre[..i];
      assert forall j :: 0 <= j < i ==> ks[j] == pre[j];
    } else {
      i := |ks| - 1;
      RewriteKeysThrows(reg, m, alias, w, pre);
      assert ks[..i] == pre;
      assert forall j :: 0 <= j < i ==> ks[j] == pre[j];
    }
  }

  /** The loop over one more key, when the keys before it completed: one more turn. */
  lemma RewriteKeysSnoc(reg: Registry, m: string, alias: string, w: JsObject, ks: seq<string>, i: nat, cur: JsObject)
    requires WellFormed(reg) && m in reg && ObjValid(w) && i < |ks|
    requires RewriteKeys(reg, m, alias, w, ks[..i]) == (cur, None)
    ensures ObjValid(cur) && RewriteKeys(reg, m, alias, w, ks[..i + 1]) == StepKey(reg, m, alias, cur, ks[i])
  {
    assert ks[..i + 1][..i] == ks[..i];
  }

  /** Once a key has thrown, the loop is over: the later keys change nothing. */
  lemma {:induction false} RewriteKeysAbort(reg: Registry, m: string, alias: string, w: JsObject, ks: seq<string>, i: nat)
    requires WellFormed(reg) && m in reg && ObjValid(w)
    requires i <= |ks| && RewriteKeys(reg, m, alias, w, ks[..i]).1.Some?
    ensures RewriteKeys(reg, m, alias, w, ks) == RewriteKeys(reg, m, alias, w, ks[..i])
    decreases |ks| - i
  {
    if i < |ks| {
      assert ks[..|ks| - 1][..i] == ks[..i];
      RewriteKeysAbort(reg, m, alias, w, ks[..|ks| - 1], i);
    } else {
      assert ks[..i] == ks;
    }
  }

  /** `processWhere` always leaves `attributes` set, defaulting it to all of the model's attribute names, and leaves an absent `where` absent. */
  lemma WhereDefaults(reg: Registry, m: string, n: Inclusion, alias: string)
    requires WellFormed(reg) && m in reg
    requires n.where.Some? ==> ObjValid(n.where.value)
    ensures WhereOnNode(reg, m, n, alias).0.attributes ==
              if n.attributes.None? then Some(AllAttributes(reg[m].attributes)) else n.attributes
    ensures n.where.None? ==> WhereOnNode(reg, m, n, alias) == (n.(attributes := WhereOnNode(reg, m, n, alias).0.attributes), None)
    ensures n.where.Some? ==> WhereOnNode(reg, m, n, alias).0.where == Some(RewriteWhere(reg, m, alias, n.where.value).0)
  {
  }

  // ----------------------------------------------------------- attributes

  /**
   * `attributes.map` keeps the length and order of the list, replaces exactly
   * the names that resolve by `[expr, name]` and leaves every other entry as it
   * was; it throws exactly when some entry fails to resolve.
   */
  lemma {:induction false} MapAttributesEffect(reg: Registry, m: string, attrs: seq<Attr>, alias: string)
    requires WellFormed(reg) && m in reg
    ensures MapAttributes(reg, m, attrs, alias).Ok? <==>
              forall i :: 0 <= i < |attrs| ==> ResolveAttr(reg, m, attrs[i], alias).Ok?
    ensures MapAttributes(reg, m, attrs, alias).Ok? ==>
              var r := MapAttributes(reg, m, attrs, alias).value;
              && |r| == |attrs|
              && forall i :: 0 <= i < |attrs| ==>
                   r[i] == match ResolveAttr(reg, m, attrs[i], alias)
                           case Ok(Some(e)) => Projection(e, attrs[i].name)
                           case _ => attrs[i]
    decreases |attrs|
  {
    if |attrs| > 0 {
      var pre := attrs[..|attrs| - 1];
      MapAttributesEffect(reg, m, pre, alias);
      assert forall i :: 0 <= i < |pre| ==> attrs[i] == pre[i];
      if MapAttributes(reg, m, pre, alias).Err? {
        var i :| 0 <= i < |pre| && !ResolveAttr(reg, m, pre[i], alias).Ok?;
        assert !ResolveAttr(reg, m, attrs[i], alias).Ok?;
      }
    }
  }

  /** The alias of the attribute rewrite at the root (`path = []`) is the root's own alias; below it, the root's alias is left out. */
  lemma AttributeAliasShape(path: seq<string>, alias: string)
    ensures |path| == 0 ==> AttributeAlias(path, alias) == alias
    ensures |path| >= 2 ==> AttributeAlias(path, alias) == Join(path[1..]) + "." + alias
    ensures |path| == 1 ==> AttributeAlias(path, alias) == alias
  {
    if |path| >= 2 {
      JoinAppend(path[1..], [alias]);
    } else {
      assert (if |path| >= 1 then path[1..] else []) + [alias] == [alias];
    }
  }

  // ------------------------------------------------------------- includes

  /** A position in an include forest: the index of a node, then positions among its children. */
  ghost predicate IsPos(ns: seq<Inclusion>, p: seq<nat>)
    decreases |p|
  {
    |p| >= 1 && p[0] < |ns| && (|p| == 1 || IsPos(ns[p[0]].includes, p[1..]))
  }

  ghost function At(ns: seq<Inclusion>, p: seq<nat>): Inclusion
    requires IsPos(ns, p)
    decreases |p|
  {
    if |p| == 1 then ns[p[0]] else At(ns[p[0]].includes, p[1..])
  }

  /** The alias path the node at `p` is rewritten with, when the forest `ns` is rewritten with `path`: `path`, then its ancestors' aliases. */
  ghost function PathAt(singularize: string -> string, ns: seq<Inclusion>, p: seq<nat>, path: seq<string>): seq<string>
    requires IsPos(ns, p)
    decreases |p|
  {
    if |p| == 1 then path else PathAt(singularize, ns[p[0]].includes, p[1..], path + [IncludeAs(singularize, ns[p[0]])])
  }

  lemma AtTreeOk(reg: Registry, ns: seq<Inclusion>, p: seq<nat>)
    requires AllTreeOk(reg, ns) && IsPos(ns, p)
    ensures TreeOk(reg, At(ns, p))
    decreases |p|
  {
    if |p| > 1 {
      AtTreeOk(reg, ns[p[0]].includes, p[1..]);
    }
  }

  /** A completed `processInclude` has completed the rewrite of every node it was given. */
  lemma {:induction false} RewriteNodesEach(reg: Registry, singularize: string -> string, ns: seq<Inclusion>, path: seq<string>, i: nat)
    requires WellFormed(reg) && AllTreeOk(reg, ns) && i < |ns|
    requires RewriteNodes(reg, singularize, ns, path).1.None?
    ensures RewriteNode(reg, singularize, ns[i], path).1.None?
    ensures RewriteNodes(reg, singularize, ns, path).0[i] == RewriteNode(reg, singularize, ns[i], path).0
    decreases |ns|
  {
    var pre := ns[..|ns| - 1];
    assert AllTreeOk(reg, pre);
    if i < |ns| - 1 {
      RewriteNodesEach(reg, singularize, pre, path, i);
      assert pre[i] == ns[i];
    }
  }

  /** The tail of `s` from `i` is the tail of its front part with the last element put back. */
  lemma SnocTail<T>(done: seq<T>, s: seq<T>, i: nat)
    requires i < |s|
    ensures (done + s[..|s| - 1][i..]) + [s[|s| - 1]] == done + s[i..]
  {
    assert s[..|s| - 1][i..] + [s[|s| - 1]] == s[i..];
  }

  /**
   * Once the rewrite of node `i` has thrown, `forEach` is over: the nodes
   * after it are left as they were.
   */
  lemma {:induction false} RewriteNodesAbort(reg: Registry, singularize: string -> string, ns: seq<Inclusion>, path: seq<string>, i: nat)
    requires WellFormed(reg) && AllTreeOk(reg, ns)
    requires i <= |ns| && RewriteNodes(reg, singularize, ns[..i], path).1.Some?
    ensures RewriteNodes(reg, singularize, ns, path) ==
              (RewriteNodes(reg, singularize, ns[..i], path).0 + ns[i..], RewriteNodes(reg, singularize, ns[..i], path).1)
    decreases |ns| - i
  {
    if i < |ns| {
      var pre := ns[..|ns| - 1];
      assert AllTreeOk(reg, pre);
      assert pre[..i] == ns[..i];
      RewriteNodesAbort(reg, singularize, pre, path, i);
      SnocTail(RewriteNodes(reg, singularize, ns[..i], path).0, ns, i);
    } else {
      assert ns[..i] == ns && ns[i..] == [];
      var r := RewriteNodes(reg, singularize, ns, path).0;
      assert r + [] == r;
    }
  }

  /** A completed rewrite of one node: its own rewrite completed, and so did the rewrite of its children. */
  lemma RewriteNodeParts(reg: Registry, singularize: string -> string, n: Inclusion, path: seq<string>)
    requires WellFormed(reg) && TreeOk(reg, n)
    requires RewriteNode(reg, singularize, n, path).1.None?
    ensures LocalRewrite(reg, singularize, n, path).1.None?
    ensures AllTreeOk(reg, n.includes)
    ensures RewriteNodes(reg, singularize, n.includes, path + [IncludeAs(singularize, n)]).1.None?
    ensures RewriteNode(reg, singularize, n, path).0.includes ==
              RewriteNodes(reg, singularize, n.includes, path + [IncludeAs(singularize, n)]).0
    ensures RewriteNode(reg, singularize, n, path).0 ==
              LocalRewrite(reg, singularize, n, path).0.(includes :=
                RewriteNodes(reg, singularize, n.includes, path + [IncludeAs(singularize, n)]).0)
  {
  }

  /** `n'` is `n` after its own where and attribute rewrite with alias path `path`, completed. */
  ghost predicate RewrittenAs(reg: Registry, singularize: string -> string, n: Inclusion, n': Inclusion, path: seq<string>)
    requires WellFormed(reg) && TreeOk(reg, n)
  {
    var l := LocalRewrite(reg, singularize, n, path);
    && l.1.None?
    && n'.where == l.0.where && n'.attributes == l.0.attributes
    && n'.model == n.model && n'.alias == n.alias && |n'.includes| == |n.includes|
  }

  /**
   * Pre-order visit: when `processInclude(ns, path)` completes, the node at
   * every position has had exactly its own where and attribute rewrite, with
   * `path` followed by its ancestors' aliases; model, `as` and the shape of the
   * tree are kept.
   */
  lemma {:induction false} RewriteNodesAtEveryPosition(reg: Registry, singularize: string -> string, ns: seq<Inclusion>, path: seq<string>, rs: seq<Inclusion>, p: seq<nat>)
    requires WellFormed(reg) && AllTreeOk(reg, ns) && IsPos(ns, p)
    requires RewriteNodes(reg, singularize, ns, path) == (rs, None)
    ensures IsPos(rs, p) && TreeOk(reg, At(ns, p))
    ensures RewrittenAs(reg, singularize, At(ns, p), At(rs, p), PathAt(singularize, ns, p, path))
    decreases |p|
  {
    AtTreeOk(reg, ns, p);
    var i := p[0];
    RewriteNodesEach(reg, singularize, ns, path, i);
    RewriteNodeParts(reg, singularize, ns[i], path);
    if |p| > 1 {
      var a := IncludeAs(singularize, ns[i]);
      var kr := RewriteNodes(reg, singularize, ns[i].includes, path + [a]).0;
      RewriteNodesAtEveryPosition(reg, singularize, ns[i].includes, path + [a], kr, p[1..]);
    }
  }

  /**
   * The root set-up of the `beforeFindAfterExpandIncludeAll` hook: the options
   * get `model` = the model itself and `as` = its name, so the root's where and
   * attributes are rewritten with the model's name as alias.
   */
  lemma RootSetup(reg: Registry, singularize: string -> string, m: string, options: Inclusion)
    requires WellFormed(reg) && m in reg && m != ""
    requires AllTreeOk(reg, options.includes)
    requires options.where.Some? ==> ObjValid(options.where.value)
    ensures var root := options.(model := m, alias := Some(m));
            && TreeOk(reg, root)
            && IncludeAs(singularize, root) == m
            && AttributeAlias([], m) == m
            && (RewriteNodes(reg, singularize, [root], []).1.None? ==>
                  var r := RewriteNodes(reg, singularize, [root], []).0[0];
                  var l := LocalRewrite(reg, singularize, root, []).0;
                  r.where == l.where && r.attributes == l.attributes)
  {
    var root := options.(model := m, alias := Some(m));
    assert AllTreeOk(reg, [root]);
    if RewriteNodes(reg, singularize, [root], []).1.None? {
      RewriteNodesAtEveryPosition(reg, singularize, [root], [], RewriteNodes(reg, singularize, [root], []).0, [0]);
    }
  }
}
