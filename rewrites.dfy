/**
 * What `processWhere`, `processAttributes` and `processInclude` of
 * lib/derived-fields.js compute, as functions on descriptor values. The
 * methods of module Inclusions, which change descriptors in place, are
 * proved against these.
 */
module Rewrites {
  import opened Wrappers
  import opened JsStrings
  import opened Sql
  import opened Resolver

  // ---------------------------------------------------------------- where

  /** An array filter value becomes a membership test `{ $in: array }`. */
  function InWrapped(v: Value): (r: Value)
    ensures v.List? ==> r == Dict(JsObject(["$in"], map["$in" := v]))
    ensures !v.List? ==> r == v
  {
    if v.List? then Dict(JsObject(["$in"], map["$in" := v])) else v
  }

  /** `where.$and` after adding `term`: the term alone if `$and` was null, else the pair `[old, term]`. */
  function Conjoin(old_and: Value, term: Value): Value {
    if old_and != Null then List([old_and, term]) else term
  }

  /** One turn of the `for…in` loop of `processWhere`, for key `key`. */
  function StepKey(reg: Registry, m: string, alias: string, w: JsObject, key: string): (r: (JsObject, Option<Error>))
    requires WellFormed(reg) && m in reg && ObjValid(w)
    ensures ObjValid(r.0)
  {
    match GetDerivedExpr(reg, m, key, alias)
    case Err(e) => (w, Some(e))
    case Ok(None) => (w, None)
    case Ok(Some(e)) =>
      var w1 := if Get(w, key).List? then Set(w, key, InWrapped(Get(w, key))) else w;
      var term := Cond(e, "=", Get(w1, key));
      var w2 := Set(w1, "$and", Conjoin(Get(w1, "$and"), term));
      (Delete(w2, key), None)
  }

  /** The loop over the keys `ks`, in order, stopping at the first thrown error. */
  function RewriteKeys(reg: Registry, m: string, alias: string, w: JsObject, ks: seq<string>): (r: (JsObject, Option<Error>))
    requires WellFormed(reg) && m in reg && ObjValid(w)
    ensures ObjValid(r.0)
    decreases |ks|
  {
    if |ks| == 0 then (w, None)
    else
      var (w1, e1) := RewriteKeys(reg, m, alias, w, ks[..|ks| - 1]);
      if e1.Some? then (w1, e1) else StepKey(reg, m, alias, w1, ks[|ks| - 1])
  }

  /** The loop over the keys `where` had when the loop began. */
  function RewriteWhere(reg: Registry, m: string, alias: string, w: JsObject): (r: (JsObject, Option<Error>))
    requires WellFormed(reg) && m in reg && ObjValid(w)
  {
    RewriteKeys(reg, m, alias, w, w.keys)
  }

  // ----------------------------------------------------------- attributes

  /** Resolution of one attribute entry; only a plain name can name a derived field. */
  function ResolveAttr(reg: Registry, m: string, a: Attr, alias: string): Result<Option<Expr>, Error>
    requires WellFormed(reg) && m in reg
  {
    match a
    case Name(n) => GetDerivedExpr(reg, m, n, alias)
    case Projection(_, _) => Ok(None)
  }

  /** The entry `attributes.map` puts in place of `a` once it is resolved. */
  function Projected(a: Attr, res: Option<Expr>): Attr {
    if res.Some? && a.Name? then Projection(res.value, a.name) else a
  }

  /** `attributes.map(…)`: left to right, the first thrown error aborts the whole map. */
  function MapAttributes(reg: Registry, m: string, attrs: seq<Attr>, alias: string): (r: Result<seq<Attr>, Error>)
    requires WellFormed(reg) && m in reg
    decreases |attrs|
  {
    if |attrs| == 0 then Ok([])
    else
      match MapAttributes(reg, m, attrs[..|attrs| - 1], alias)
      case Err(e) => Err(e)
      case Ok(pre) =>
        var a := attrs[|attrs| - 1];
        match ResolveAttr(reg, m, a, alias)
        case Err(e) => Err(e)
        case Ok(res) => Ok(pre + [Projected(a, res)])
  }

  /** `path.slice(1).concat(alias).join('.')`: the alias `processAttributes` resolves with. */
  function AttributeAlias(path: seq<string>, alias: string): string {
    Join((if |path| >= 1 then path[1..] else []) + [alias])
  }

  /** `Object.keys(this.attributes)`, as attribute entries. */
  function AllAttributes(names: seq<string>): (r: seq<Attr>)
    ensures |r| == |names| && forall i :: 0 <= i < |names| ==> r[i] == Name(names[i])
  {
    if |names| == 0 then [] else [Name(names[0])] + AllAttributes(names[1..])
  }

  // ------------------------------------------------------------- includes

  /**
   * A find-options object or one of its (already normalised) inclusions:
   * the model it is about (`inclusion.model`), its `as`, its `where`, its
   * `attributes` and its nested `include` list (an absent list is empty).
   */
  datatype Inclusion = Inclusion(
    model: string,
    alias: Option<string>,
    where: Option<JsObject>,
    attributes: Option<seq<Attr>>,
    includes: seq<Inclusion>)

  /** Every model named in the tree is registered and every `where` object is well-formed. */
  ghost predicate TreeOk(reg: Registry, n: Inclusion) {
    && n.model in reg
    && (n.where.Some? ==> ObjValid(n.where.value))
    && forall i :: 0 <= i < |n.includes| ==> TreeOk(reg, n.includes[i])
  }

  ghost predicate AllTreeOk(reg: Registry, ns: seq<Inclusion>) {
    forall i :: 0 <= i < |ns| ==> TreeOk(reg, ns[i])
  }

  /** `inclusion.as || Utils.singularize(inclusion.model.name)`: an empty `as` is falsy too. */
  function IncludeAs(singularize: string -> string, n: Inclusion): string {
    if n.alias.Some? && n.alias.value != "" then n.alias.value else singularize(n.model)
  }

  /**
   * `processWhere.call(model, options, alias)` on the descriptor `n`: default
   * `attributes` to the model's attribute names, then rewrite `where`.
   */
  function WhereOnNode(reg: Registry, m: string, n: Inclusion, alias: string): (r: (Inclusion, Option<Error>))
    requires WellFormed(reg) && m in reg
    requires n.where.Some? ==> ObjValid(n.where.value)
    ensures r.0.attributes.Some? && r.0.includes == n.includes
    ensures r.0.model == n.model && r.0.alias == n.alias
    ensures r.0.where.Some? ==> ObjValid(r.0.where.value)
  {
    var attrs := if n.attributes.None? then Some(AllAttributes(reg[m].attributes)) else n.attributes;
    if n.where.None? then (n.(attributes := attrs), None)
    else
      var (w, e) := RewriteWhere(reg, m, alias, n.where.value);
      (n.(attributes := attrs, where := Some(w)), e)
  }

  /**
   * `processAttributes.call(model, options, alias, path)`: the attribute list is
   * replaced only when the map completes.
   */
  function AttributesOnNode(reg: Registry, m: string, n: Inclusion, alias: string, path: seq<string>): (r: (Inclusion, Option<Error>))
    requires WellFormed(reg) && m in reg
    requires n.attributes.Some?
  {
    match MapAttributes(reg, m, n.attributes.value, AttributeAlias(path, alias))
    case Err(e) => (n, Some(e))
    case Ok(attrs) => (n.(attributes := Some(attrs)), None)
  }

  /** The where and attribute rewrites of one node, without its children. */
  function LocalRewrite(reg: Registry, singularize: string -> string, n: Inclusion, path: seq<string>): (r: (Inclusion, Option<Error>))
    requires WellFormed(reg) && n.model in reg
    requires n.where.Some? ==> ObjValid(n.where.value)
    ensures r.0.model == n.model && r.0.alias == n.alias && r.0.includes == n.includes
  {
    var a := IncludeAs(singularize, n);
    var (n1, e1) := WhereOnNode(reg, n.model, n, a);
    if e1.Some? then (n1, e1) else AttributesOnNode(reg, n.model, n1, a, path)
  }

  /** One turn of the `forEach` of `processInclude`: the node, then its children with `path ++ [alias]`. */
  function RewriteNode(reg: Registry, singularize: string -> string, n: Inclusion, path: seq<string>): (r: (Inclusion, Option<Error>))
    requires WellFormed(reg) && TreeOk(reg, n)
    ensures r.0.model == n.model && r.0.alias == n.alias && |r.0.includes| == |n.includes|
    decreases n, 1
  {
    var (n1, e1) := LocalRewrite(reg, singularize, n, path);
    if e1.Some? then (n1, e1)
    else
      var (kids, e2) := RewriteNodes(reg, singularize, n.includes, path + [IncludeAs(singularize, n)]);
      (n1.(includes := kids), e2)
  }

  /** `processInclude(includes, path)`: the nodes in order, stopping at the first thrown error. */
  function RewriteNodes(reg: Registry, singularize: string -> string, ns: seq<Inclusion>, path: seq<string>): (r: (seq<Inclusion>, Option<Error>))
    requires WellFormed(reg) && AllTreeOk(reg, ns)
    ensures |r.0| == |ns|
    ensures forall i :: 0 <= i < |ns| ==> r.0[i].model == ns[i].model && r.0[i].alias == ns[i].alias
    decreases ns, 0
  {
    if |ns| == 0 then ([], None)
    else
      var (pre, e1) := RewriteNodes(reg, singularize, ns[..|ns| - 1], path);
      if e1.Some? then (pre + [ns[|ns| - 1]], e1)
      else
        var (last, e2) := RewriteNode(reg, singularize, ns[|ns| - 1], path);
        (pre + [last], e2)
  }
}
