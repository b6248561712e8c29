/**
 * The two methods lib/derived-fields.js adds to every model:
 * `getWhereConditions(where)` and `getDerivedExpr(field)`. Rendering the
 * result to SQL text is the host's query generator and is not modelled;
 * what is modelled is the descriptor handed to it.
 */
module ModelMethods {
  import opened Wrappers
  import opened JsStrings
  import opened Sql
  import opened Resolver
  import opened Rewrites

  /** The one-key object `{ k: v }`. */
  function Single(k: string, v: Value): (o: JsObject)
    ensures ObjValid(o) && o.keys == [k] && Get(o, k) == v
  {
    JsObject([k], map[k := v])
  }

  /** Adding `$and` to `{ k: v }` and then deleting `k` leaves `{ $and: t }`. */
  lemma ReplaceByConjunct(k: string, v: Value, t: Value)
    requires k != "$and"
    ensures Delete(Set(Single(k, v), "$and", t), k) == Single("$and", t)
  {
    var w2 := Set(Single(k, v), "$and", t);
    assert w2.keys == [k, "$and"];
    assert ["$and"][1..] == [];
    assert Without(["$and"], k) == ["$and"] + Without([], k);
    assert [k, "$and"][1..] == ["$and"];
    assert Without([k, "$and"], k) == Without(["$and"], k);
    assert w2.props - {k} == map["$and" := t];
  }

  /** A where object with one derived key becomes `{ $and: derived = value }`, an array value turned into `{ $in: … }`. */
  lemma SingleDerivedKey(reg: Registry, m: string, alias: string, k: string, v: Value, e: Expr)
    requires WellFormed(reg) && m in reg && k != "$and"
    requires GetDerivedExpr(reg, m, k, alias) == Ok(Some(e))
    ensures RewriteWhere(reg, m, alias, Single(k, v)) == (Single("$and", Cond(e, "=", InWrapped(v))), None)
  {
    var w := Single(k, v);
    var w1 := if Get(w, k).List? then Set(w, k, InWrapped(Get(w, k))) else w;
    assert w1 == Single(k, InWrapped(v));
    var t := Cond(e, "=", InWrapped(v));
    assert Conjoin(Get(w1, "$and"), t) == t;
    ReplaceByConjunct(k, InWrapped(v), t);
    assert StepKey(reg, m, alias, w, k) == (Single("$and", t), None);
    assert w.keys[..0] == [];
    assert RewriteKeys(reg, m, alias, w, []) == (w, None);
  }

  /**
   * The alias `getWhereConditions` hands its builders: it calls
   * `processWhere` without one, and a builder's template string spells the
   * missing value as `undefined`.
   */
  const UndefinedAlias: string := "undefined"

  /** `getWhereConditions(where)` as written: the where rewrite under the alias `undefined`. */
  function WhereConditionsAsWritten(reg: Registry, m: string, w: JsObject): (r: (JsObject, Option<Error>))
    requires WellFormed(reg) && m in reg && ObjValid(w)
    ensures ObjValid(r.0)
  {
    RewriteWhere(reg, m, UndefinedAlias, w)
  }

  /**
   * `getWhereConditions(where)` with the model's own name as alias, as
   * `count` (line 146) and `getDerivedExpr` (line 66) pass it: the `where`
   * part of what the wrapped `count` does to `{ where }`.
   */
  function WhereConditions(reg: Registry, m: string, w: JsObject): (r: (JsObject, Option<Error>))
    requires WellFormed(reg) && m in reg && ObjValid(w)
    ensures ObjValid(r.0)
    ensures var n := WhereOnNode(reg, m, Inclusion(m, None, Some(w), None, []), m);
            n.0.where == Some(r.0) && n.1 == r.1
  {
    RewriteWhere(reg, m, m, w)
  }

  /** A plain derived key: its builder sees the model's name, where the code as written gives it `undefined`. */
  lemma WhereConditionsPlainKey(reg: Registry, m: string, k: string, v: Value)
    requires WellFormed(reg) && m in reg && k != "$and" && k in reg[m].derived
    ensures WhereConditions(reg, m, Single(k, v)) ==
              (Single("$and", Cond(DerivedExpr(reg[m].derived[k], m), "=", InWrapped(v))), None)
    ensures WhereConditionsAsWritten(reg, m, Single(k, v)) ==
              (Single("$and", Cond(DerivedExpr(reg[m].derived[k], UndefinedAlias), "=", InWrapped(v))), None)
  {
    PlainKey(reg, m, k, m);
    SingleDerivedKey(reg, m, m, k, v, DerivedExpr(reg[m].derived[k], m));
    PlainKey(reg, m, k, UndefinedAlias);
    SingleDerivedKey(reg, m, UndefinedAlias, k, v, DerivedExpr(reg[m].derived[k], UndefinedAlias));
  }

  /** The `lcName` builder of the Detail model of the tests: `LOWER(<alias>.name)`. */
  function LowerName(alias: string): Expr {
    Fn("LOWER", [Col(alias + ".name")])
  }

  /** A registry holding only that Detail model. */
  function DetailOnly(): (reg: Registry)
    ensures WellFormed(reg) && "Detail" in reg
  {
    map["Detail" := ModelInfo(["name", "lcName"], map[], map["lcName" := ByAlias(LowerName)])]
  }

  /**
   * `Detail.getWhereConditions({ lcName: 'detail 1' })`: as written the
   * condition reads the column `undefined.name`, which no query has; with
   * the model's name it reads `Detail.name`.
   */
  lemma UndefinedAliasCounterexample()
    ensures Get(WhereConditionsAsWritten(DetailOnly(), "Detail", Single("lcName", Atom("detail 1"))).0, "$and")
            == Cond(Fn("LOWER", [Col("undefined.name")]), "=", Atom("detail 1"))
    ensures Get(WhereConditions(DetailOnly(), "Detail", Single("lcName", Atom("detail 1"))).0, "$and")
            == Cond(Fn("LOWER", [Col("Detail.name")]), "=", Atom("detail 1"))
  {
    LowerNameColumns();
    WhereConditionsPlainKey(DetailOnly(), "Detail", "lcName", Atom("detail 1"));
  }

  /** The columns the `lcName` builder reads under the two aliases. */
  lemma LowerNameColumns()
    ensures LowerName(UndefinedAlias) == Fn("LOWER", [Col("undefined.name")])
    ensures LowerName("Detail") == Fn("LOWER", [Col("Detail.name")])
  {
    assert UndefinedAlias + ".name" == "undefined.name";
    assert "Detail" + ".name" == "Detail.name";
  }

  /**
   * `Model.prototype.getDerivedExpr(field)`: the resolver under the model's
   * own name; a derived field is built for that name, and any other name
   * without `$` delimiters has no expression.
   */
  function ModelDerivedExpr(reg: Registry, m: string, field: string): (r: Result<Option<Expr>, Error>)
    requires WellFormed(reg) && m in reg
    ensures field in reg[m].derived ==> r == Ok(Some(DerivedExpr(reg[m].derived[field], m)))
    ensures field !in reg[m].derived && !IsColString(field) ==> r == Ok(None)
  {
    GetDerivedExpr(reg, m, field, m)
  }

  /**
   * `$assoc.field$` names a derived field of the associated model, built
   * for the association's name (as `Master.getDerivedExpr('$detailcheta.lcName$')`
   * yields `LOWER(detailcheta.name)`), whatever the model is called.
   */
  lemma ModelDerivedExprThroughAssociation(reg: Registry, m: string, assoc: string, field: string)
    requires WellFormed(reg) && m in reg && '.' !in assoc && '.' !in field
    requires assoc in reg[m].associations && field in reg[reg[m].associations[assoc]].derived
    requires Reference([assoc], field) !in reg[m].derived
    ensures ModelDerivedExpr(reg, m, Reference([assoc], field))
            == Ok(Some(DerivedExpr(reg[reg[m].associations[assoc]].derived[field], assoc)))
  {
    var t := reg[m].associations[assoc];
    DottedReference(reg, m, [assoc], field, m);
    assert [assoc][1..] == [];
    assert Walk(reg, t, []) == Ok(t);
    assert GetSubmodel(reg, m, [assoc]) == Ok(t);
    PlainKey(reg, t, field, assoc);
  }
}
