/**
 * The find-options objects of lib/derived-fields.js as the hooks see them:
 * objects whose `where`, `attributes`, `model` and `as` are overwritten in
 * place by `processWhere`, `processAttributes`, `processInclude` and the root
 * set-up of the `beforeFindAfterExpandIncludeAll` hook. Every method is proved
 * against the functions of module Rewrites on the value the tree had before.
 */
module Inclusions {
  import opened Wrappers
  import opened Sql
  import opened Resolver
  import opened Rewrites
  import opened RewriteProperties

  /**
   * A find-options object or one of its inclusions. The nested `include` list
   * is already normalised and none of the rewrites replaces it, so it is a
   * constant; `Repr` is the node and everything below it.
   */
  class FindOptions {
    var model: string
    var alias: Option<string>
    var where: Option<JsObject>
    var attributes: Option<seq<Attr>>
    const includes: seq<FindOptions>
    ghost const Repr: set<FindOptions>

    /** The node owns itself, the children own disjoint subtrees below it. */
    ghost predicate Valid()
      decreases Repr, 0, 0
    {
      && this in Repr
      && this !in ReprOf(includes)
      && Repr == {this} + ReprOf(includes)
      && AllValid(includes)
      && Disjoint(includes)
    }

    /** The descriptor as a value: its own fields and the views of its children. */
    ghost function View(): Inclusion
      reads Repr
      requires Valid()
      decreases Repr, 0, 0
    {
      Inclusion(model, alias, where, attributes, Views(includes))
    }

    constructor (model: string, alias: Option<string>, where: Option<JsObject>,
                 attributes: Option<seq<Attr>>, includes: seq<FindOptions>)
      requires AllValid(includes) && Disjoint(includes)
      ensures Valid() && fresh(this)
      ensures View() == Inclusion(model, alias, where, attributes, old(Views(includes)))
    {
      ReprOfAllocated(includes);
      this.model := model;
      this.alias := alias;
      this.where := where;
      this.attributes := attributes;
      this.includes := includes;
      this.Repr := {this} + ReprOf(includes);
      new;
      ViewsUnchanged(includes);
    }

    /**
     * `processWhere.call(M, this, alias)`: default `attributes` to the names of
     * M's attributes, then, for each key `where` had when the loop began, put
     * the comparison term of a derived key into `$and` and delete the key. A
     * thrown error leaves the keys already handled rewritten.
     */
    method ProcessWhere(reg: Registry, m: string, alias: string) returns (err: Option<Error>)
      requires WellFormed(reg) && m in reg && Valid()
      requires where.Some? ==> ObjValid(where.value)
      modifies this
      ensures Valid() && (View(), err) == WhereOnNode(reg, m, old(View()), alias)
    {
      if attributes.None? {
        attributes := Some(AllAttributes(reg[m].attributes));
      }
      err := None;
      if where.Some? {
        err := RewriteKeysInPlace(reg, m, alias);
      }
      ViewsUnchanged(includes);
    }

    /**
     * The `for…in` loop of `processWhere` over the keys `where` had when it
     * began; a thrown error ends it with the keys before it rewritten.
     */
    method RewriteKeysInPlace(reg: Registry, m: string, alias: string) returns (err: Option<Error>)
      requires WellFormed(reg) && m in reg && where.Some? && ObjValid(where.value)
      modifies this`where
      ensures where.Some? && (where.value, err) == RewriteWhere(reg, m, alias, old(where.value))
    {
      err := None;
      var ks := where.value.keys;
      ghost var w0 := where.value;
      var i := 0;
      while i < |ks| && err.None?
        invariant 0 <= i <= |ks|
        invariant where.Some? && (where.value, err) == RewriteKeys(reg, m, alias, w0, ks[..i])
        decreases |ks| - i
      {
        RewriteKeysSnoc(reg, m, alias, w0, ks, i, where.value);
        err := RewriteKey(reg, m, alias, ks[i]);
        i := i + 1;
      }
      if err.Some? {
        RewriteKeysAbort(reg, m, alias, w0, ks, i);
      } else {
        assert ks[..i] == ks;
      }
    }

    /**
     * The body of the `for…in` loop of `processWhere` for key `key`: a derived
     * key has an array value wrapped as `{ $in: … }`, its comparison term
     * added to `$and` (paired with an existing `$and`), and is deleted.
     */
    method RewriteKey(reg: Registry, m: string, alias: string, key: string) returns (err: Option<Error>)
      requires WellFormed(reg) && m in reg && where.Some? && ObjValid(where.value)
      modifies this`where
      ensures where.Some? && (where.value, err) == StepKey(reg, m, alias, old(where.value), key)
    {
      err := None;
      var w := where.value;
      match GetDerivedExpr(reg, m, key, alias) {
        case Err(e) =>
          err := Some(e);
        case Ok(None) =>
        case Ok(Some(e)) =>
          if Get(w, key).List? {
            w := Set(w, key, Dict(JsObject(["$in"], map["$in" := Get(w, key)])));
          }
          var term := Cond(e, "=", Get(w, key));
          if Get(w, "$and") != Null {
            w := Set(w, "$and", List([Get(w, "$and"), term]));
          } else {
            w := Set(w, "$and", term);
          }
          where := Some(Delete(w, key));
      }
    }

    /**
     * `processAttributes.call(M, this, alias, path)`: every attribute entry
     * that names a derived field of M becomes the pair `[expr, name]`, resolved
     * with alias `path[1..] ++ [alias]` joined by dots; the list is replaced
     * only when the whole map completes.
     */
    method ProcessAttributes(reg: Registry, m: string, alias: string, path: seq<string>) returns (err: Option<Error>)
      requires WellFormed(reg) && m in reg && Valid() && attributes.Some?
      modifies this
      ensures Valid() && (View(), err) == AttributesOnNode(reg, m, old(View()), alias, path)
    {
      match MapAttributes(reg, m, attributes.value, AttributeAlias(path, alias)) {
        case Err(e) =>
          err := Some(e);
        case Ok(mapped) =>
          attributes := Some(mapped);
          err := None;
      }
      ViewsUnchanged(includes);
    }
  }

  /** Every object of the subtrees of `ns`. */
  ghost function ReprOf(ns: seq<FindOptions>): (r: set<FindOptions>)
    ensures forall i :: 0 <= i < |ns| ==> ns[i].Repr <= r
  {
    if |ns| == 0 then {} else ReprOf(ns[..|ns| - 1]) + ns[|ns| - 1].Repr
  }

  /** `ReprOf(ns)` holds only objects that already exist, so never a newer object. */
  lemma {:induction false} ReprOfAllocated(ns: seq<FindOptions>)
    ensures forall o :: o in ReprOf(ns) ==> allocated(o)
  {
    if |ns| > 0 {
      ReprOfAllocated(ns[..|ns| - 1]);
    }
  }

  ghost predicate AllValid(ns: seq<FindOptions>)
    decreases ReprOf(ns), 1, 0
  {
    forall i :: 0 <= i < |ns| ==> ns[i].Valid()
  }

  /** No two siblings share an object. */
  ghost predicate Disjoint(ns: seq<FindOptions>) {
    forall i, j :: 0 <= i < j < |ns| ==> ns[i].Repr !! ns[j].Repr
  }

  /** The inclusion list as values. */
  ghost function Views(ns: seq<FindOptions>): (r: seq<Inclusion>)
    reads ReprOf(ns)
    requires AllValid(ns)
    ensures |r| == |ns|
    decreases ReprOf(ns), 1, |ns|
  {
    if |ns| == 0 then [] else Views(ns[..|ns| - 1]) + [ns[|ns| - 1].View()]
  }

  lemma {:induction false} ViewsAt(ns: seq<FindOptions>, i: nat)
    requires AllValid(ns) && i < |ns|
    ensures Views(ns)[i] == ns[i].View()
    decreases |ns|
  {
    if i < |ns| - 1 {
      ViewsAt(ns[..|ns| - 1], i);
    }
  }

  lemma ViewsEach(ns: seq<FindOptions>)
    requires AllValid(ns)
    ensures forall j :: 0 <= j < |ns| ==> Views(ns)[j] == ns[j].View()
  {
    forall j | 0 <= j < |ns| ensures Views(ns)[j] == ns[j].View() {
      ViewsAt(ns, j);
    }
  }

  lemma ViewsOfEach(ns: seq<FindOptions>, s: seq<Inclusion>)
    requires AllValid(ns) && |s| == |ns|
    requires forall j :: 0 <= j < |ns| ==> ns[j].View() == s[j]
    ensures Views(ns) == s
  {
    ViewsEach(ns);
  }

  /** A state in which no node of `ns` has changed has the same list view. */
  twostate lemma {:induction false} ViewsUnchanged(ns: seq<FindOptions>)
    requires AllValid(ns)
    requires forall i :: 0 <= i < |ns| ==> unchanged(ns[i].Repr)
    ensures Views(ns) == old(Views(ns))
    decreases |ns|
  {
    if |ns| > 0 {
      ViewsUnchanged(ns[..|ns| - 1]);
    }
  }

  /**
   * The `forEach` callback of `processInclude` for one inclusion: its where
   * rewrite with its own alias (`as`, or the singularised model name), then
   * its attribute rewrite with the path of its ancestors, then its children
   * with that alias added to the path.
   */
  method ProcessNode(reg: Registry, singularize: string -> string, n: FindOptions, path: seq<string>) returns (err: Option<Error>)
    requires WellFormed(reg) && n.Valid() && TreeOk(reg, n.View())
    modifies n.Repr
    ensures n.Valid() && (n.View(), err) == RewriteNode(reg, singularize, old(n.View()), path)
    decreases n.Repr, 0, 0
  {
    ghost var v0 := n.View();
    var a := if n.alias.Some? && n.alias.value != "" then n.alias.value else singularize(n.model);
    assert a == IncludeAs(singularize, v0);
    err := n.ProcessWhere(reg, n.model, a);
    if err.None? {
      err := n.ProcessAttributes(reg, n.model, a, path);
    }
    if err.None? {
      ghost var v1 := n.View();
      assert v1.includes == v0.includes;
      err := ProcessInclude(reg, singularize, n.includes, path + [a]);
    }
  }

  /** One more node of the walk, when the nodes before it completed. */
  lemma NodesStep(reg: Registry, singularize: string -> string, v: seq<Inclusion>, path: seq<string>, k: nat)
    requires WellFormed(reg) && AllTreeOk(reg, v) && k < |v|
    requires RewriteNodes(reg, singularize, v[..k], path).1.None?
    ensures var done := RewriteNodes(reg, singularize, v[..k], path).0;
            var (n, e) := RewriteNode(reg, singularize, v[k], path);
            && RewriteNodes(reg, singularize, v[..k + 1], path) == (done + [n], e)
            && (done + v[k..])[k := n] == done + [n] + v[k + 1..]
  {
    var done := RewriteNodes(reg, singularize, v[..k], path).0;
    assert v[..k + 1][..k] == v[..k];
    assert AllTreeOk(reg, v[..k]);
    assert |done| == k;
    var n := RewriteNode(reg, singularize, v[k], path).0;
    assert (done + v[k..])[k := n] == done + [n] + v[k + 1..];
  }

  /** The walk is over once every node is done or a node has thrown. */
  lemma NodesFinish(reg: Registry, singularize: string -> string, v: seq<Inclusion>, path: seq<string>, k: nat)
    requires WellFormed(reg) && AllTreeOk(reg, v) && k <= |v|
    requires k == |v| || RewriteNodes(reg, singularize, v[..k], path).1.Some?
    ensures (RewriteNodes(reg, singularize, v[..k], path).0 + v[k..], RewriteNodes(reg, singularize, v[..k], path).1)
            == RewriteNodes(reg, singularize, v, path)
  {
    if RewriteNodes(reg, singularize, v[..k], path).1.Some? {
      RewriteNodesAbort(reg, singularize, v, path, k);
    } else {
      assert v[..k] == v && v[k..] == [];
      assert RewriteNodes(reg, singularize, v, path).0 + [] == RewriteNodes(reg, singularize, v, path).0;
    }
  }

  /** The callback applied to the `k`-th inclusion of `ns`: only that node and its subtree change. */
  method Visit(reg: Registry, singularize: string -> string, ns: seq<FindOptions>, k: nat, path: seq<string>) returns (err: Option<Error>)
    requires WellFormed(reg) && AllValid(ns) && Disjoint(ns) && k < |ns| && TreeOk(reg, Views(ns)[k])
    modifies ns[k].Repr
    ensures Views(ns) == old(Views(ns))[k := RewriteNode(reg, singularize, old(Views(ns))[k], path).0]
    ensures err == RewriteNode(reg, singularize, old(Views(ns))[k], path).1
    decreases ReprOf(ns), 0, 1
  {
    ViewsEach(ns);
    ghost var before := Views(ns);
    assert TreeOk(reg, ns[k].View());
    assert ns[k].Repr < ReprOf(ns) || ns[k].Repr == ReprOf(ns);
    label Visit:
    err := ProcessNode(reg, singularize, ns[k], path);
    forall j | 0 <= j < |ns| && j != k ensures ns[j].View() == before[j] {
      assert ns[j].Repr !! ns[k].Repr;
      assert ns[j].View() == old@Visit(ns[j].View());
    }
    ViewsOfEach(ns, before[k := ns[k].View()]);
  }

  /** One turn of the `forEach` of `processInclude`, when the nodes before `k` completed: the walk is one node further. */
  method VisitNext(reg: Registry, singularize: string -> string, ns: seq<FindOptions>, k: nat, path: seq<string>,
                   ghost v0: seq<Inclusion>, ghost done: seq<Inclusion>) returns (err: Option<Error>)
    requires WellFormed(reg) && AllValid(ns) && Disjoint(ns) && k < |ns| == |v0| && AllTreeOk(reg, v0)
    requires (done, None) == RewriteNodes(reg, singularize, v0[..k], path) && Views(ns) == done + v0[k..]
    modifies ns[k].Repr
    ensures var n := RewriteNode(reg, singularize, v0[k], path).0;
            && (done + [n], err) == RewriteNodes(reg, singularize, v0[..k + 1], path)
            && Views(ns) == done + [n] + v0[k + 1..]
    decreases ReprOf(ns), 0, 2
  {
    assert Views(ns)[k] == v0[k];
    err := Visit(reg, singularize, ns, k, path);
    NodesStep(reg, singularize, v0, path, k);
  }

  /** `processInclude(ns, path)`: the nodes in order; a thrown error ends the walk. */
  method ProcessInclude(reg: Registry, singularize: string -> string, ns: seq<FindOptions>, path: seq<string>) returns (err: Option<Error>)
    requires WellFormed(reg) && AllValid(ns) && Disjoint(ns) && AllTreeOk(reg, Views(ns))
    modifies ReprOf(ns)
    ensures (Views(ns), err) == RewriteNodes(reg, singularize, old(Views(ns)), path)
    decreases ReprOf(ns), 1, 0
  {
    ghost var v0 := Views(ns);
    ghost var done: seq<Inclusion> := [];
    err := None;
    var k := 0;
    assert v0[..0] == [] && done + v0[0..] == v0;
    while k < |ns| && err.None?
      invariant 0 <= k <= |ns|
      invariant (done, err) == RewriteNodes(reg, singularize, v0[..k], path)
      invariant Views(ns) == done + v0[k..]
    {
      err := VisitNext(reg, singularize, ns, k, path, v0, done);
      done := done + [RewriteNode(reg, singularize, v0[k], path).0];
      k := k + 1;
    }
    NodesFinish(reg, singularize, v0, path, k);
  }

  /**
   * The `beforeFindAfterExpandIncludeAll` hook of model `m`: the options get
   * `model` = m and `as` = m, and `processInclude` runs on `[options]` with an
   * empty path.
   */
  method BeforeFindAfterExpandIncludeAll(reg: Registry, singularize: string -> string, m: string, options: FindOptions)
    returns (err: Option<Error>)
    requires WellFormed(reg) && m in reg && options.Valid()
    requires AllTreeOk(reg, options.View().includes)
    requires options.where.Some? ==> ObjValid(options.where.value)
    modifies options.Repr
    ensures options.Valid()
    ensures ([options.View()], err) ==
              RewriteNodes(reg, singularize, [old(options.View()).(model := m, alias := Some(m))], [])
  {
    options.model := m;
    options.alias := Some(m);
    ViewsUnchanged(options.includes);
    ghost var root := options.View();
    assert root == old(options.View()).(model := m, alias := Some(m));
    assert TreeOk(reg, root);
    SingletonList(options);
    err := ProcessInclude(reg, singularize, [options], []);
    SingletonList(options);
  }

  /** The one-element inclusion list `[o]`. */
  lemma SingletonList(o: FindOptions)
    requires o.Valid()
    ensures AllValid([o]) && Disjoint([o]) && ReprOf([o]) == o.Repr && Views([o]) == [o.View()]
  {
    assert [o][..0] == [];
  }

  /**
   * A model class as `patchModelCount` sees it: whether its `count` is the
   * wrapper, and the options each call of the original `count` received (as
   * values; `None` for a call without options).
   */
  class ModelClass {
    const name: string
    var countPatched: bool
    ghost var received: seq<Option<Inclusion>>

    constructor (name: string)
      ensures this.name == name && !countPatched && received == []
    {
      this.name := name;
      countPatched := false;
      received := [];
    }

    /** The `afterDefine` hook: `count` is wrapped when the model has a derived field. */
    method InstallCount(reg: Registry)
      requires name in reg
      modifies this`countPatched
      ensures countPatched == (old(countPatched) || |reg[name].derived| > 0)
    {
      if |reg[name].derived| > 0 {
        countPatched := true;
      }
    }

    /**
     * `Model.count(options)`. Wrapped, it runs the where rewrite with the
     * model's name as alias (a missing options object is replaced by a
     * throw-away empty one) and then calls the original `count` exactly once
     * with the same options; a thrown error means the original is not called.
     */
    method Count(reg: Registry, options: FindOptions?) returns (err: Option<Error>)
      requires WellFormed(reg) && name in reg
      requires options != null ==> options.Valid() && (options.where.Some? ==> ObjValid(options.where.value))
      modifies this`received, options
      ensures options != null ==> options.Valid()
      ensures !countPatched ==> err.None? && (options != null ==> options.View() == old(options.View()))
      ensures !countPatched ==> received == old(received) + [if options == null then None else Some(options.View())]
      ensures countPatched && options == null ==> err.None? && received == old(received) + [None]
      ensures countPatched && options != null ==>
                && (options.View(), err) == WhereOnNode(reg, name, old(options.View()), name)
                && received == old(received) + (if err.None? then [Some(options.View())] else [])
    {
      err := None;
      if countPatched && options != null {
        err := options.ProcessWhere(reg, name, name);
      }
      if err.None? {
        received := received + [if options == null then None else Some(options.View())];
      }
    }
  }
}
