/**
 * The query-descriptor values the rewriters read and build: Sequelize's
 * expression constructors (`sequelize.col`, `fn`, `literal`, `where`),
 * plain JavaScript objects with their key order, and attribute-list entries.
 */
module Sql {
  import opened Wrappers

  /** The SQL-fragment builders of the host library, as constructors. */
  datatype Expr =
    | Col(name: string)                 // sequelize.col(name)
    | Fn(fname: string, args: seq<Expr>) // sequelize.fn(fname, ...args)
    | Literal(text: string)             // sequelize.literal(text)

  /** A value that can stand in a `where` tree. */
  datatype Value =
    | Null                                   // null or undefined
    | Atom(text: string)                     // a number, string, boolean or date, opaque here
    | List(items: seq<Value>)                // a JavaScript array
    | Dict(obj: JsObject)                    // a plain object such as `{ $lt: … }`
    | Sql(e: Expr)                           // an expression built by the host
    | Cond(lhs: Expr, op: string, rhs: Value) // sequelize.where(lhs, op, rhs)

  /**
   * A plain JavaScript object: its own keys in insertion order and their
   * values. Assigning a new key appends it; assigning an existing key keeps
   * its place; `delete` removes it.
   */
  datatype JsObject = JsObject(keys: seq<string>, props: map<string, Value>)

  /** No key is listed twice. */
  ghost predicate Distinct(ks: seq<string>) {
    forall i, j :: 0 <= i < j < |ks| ==> ks[i] != ks[j]
  }

  /** Keys are distinct and are exactly the keys of the property map. */
  ghost predicate ObjValid(o: JsObject) {
    Distinct(o.keys) && forall k :: k in o.props <==> k in o.keys
  }

  /** `o[k]`: a missing key reads as `undefined`, which compares like `null`. */
  function Get(o: JsObject, k: string): Value {
    if k in o.props then o.props[k] else Null
  }

  /** `o[k] = v`. */
  function Set(o: JsObject, k: string, v: Value): (r: JsObject)
    requires ObjValid(o)
    ensures ObjValid(r)
    ensures Get(r, k) == v
    ensures forall k' :: k' != k ==> Get(r, k') == Get(o, k')
    ensures forall k' :: k' in r.props <==> k' in o.props || k' == k
  {
    if k in o.props then JsObject(o.keys, o.props[k := v])
    else JsObject(o.keys + [k], o.props[k := v])
  }

  /** The list with every occurrence of `k` taken out. */
  function Without(ks: seq<string>, k: string): (r: seq<string>)
    ensures forall x :: x in r <==> x in ks && x != k
    ensures Distinct(ks) ==> Distinct(r)
  {
    if |ks| == 0 then []
    else if ks[0] == k then Without(ks[1..], k)
    else
      var rest := Without(ks[1..], k);
      assert Distinct(ks) ==> Distinct(ks[1..]) && ks[0] !in rest;
      DistinctCons(ks[0], rest);
      [ks[0]] + rest
  }

  lemma DistinctCons(x: string, ks: seq<string>)
    ensures Distinct(ks) && x !in ks ==> Distinct([x] + ks)
  {
  }

  /** `delete o[k]`. */
  function Delete(o: JsObject, k: string): (r: JsObject)
    requires ObjValid(o)
    ensures ObjValid(r)
    ensures k !in r.props
    ensures forall k' :: k' != k ==> Get(r, k') == Get(o, k') && (k' in r.props <==> k' in o.props)
  {
    JsObject(Without(o.keys, k), o.props - {k})
  }

  /** An entry of an `attributes` list: a field name, or an `[expression, name]` projection. */
  datatype Attr =
    | Name(name: string)
    | Projection(expr: Expr, alias: string)
}
