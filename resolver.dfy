/**
 * The derived-expression resolver of lib/derived-fields.js: `derivedExpr`,
 * `DerivedMixin.getSubmodel` and `DerivedMixin.getDerivedExpr`, over a
 * registry of models keyed by model name.
 */
module Resolver {
  import opened Wrappers
  import opened JsStrings
  import opened Sql

  /**
   * A `derived` map entry: a ready expression, or a function of the alias
   * under which the owning model appears in the query.
   */
  datatype Builder =
    | Static(e: Expr)
    | ByAlias(build: string -> Expr)

  /** What the resolver needs of a model: its attribute names, its associations (alias to target model name) and its derived map. */
  datatype ModelInfo = ModelInfo(
    attributes: seq<string>,
    associations: map<string, string>,
    derived: map<string, Builder>)

  /** The host's models, keyed by model name (`Model.name`). */
  type Registry = map<string, ModelInfo>

  /** Every association leads to a registered model. */
  ghost predicate WellFormed(reg: Registry) {
    forall n, a :: n in reg && a in reg[n].associations ==> reg[n].associations[a] in reg
  }

  /** The one error the resolver raises. */
  datatype Error = InvalidAssociation(alias: string)

  /** The text of the thrown `Error`. */
  function Message(e: Error): string {
    "Invalid association: " + e.alias
  }

  /** `derivedExpr`: a function builder is called with the alias; anything else is the expression itself. */
  function DerivedExpr(b: Builder, alias: string): Expr {
    match b
    case Static(e) => e
    case ByAlias(build) => build(alias)
  }

  /**
   * The `reduce` of `getSubmodel`: follow the associations named by `path`
   * left to right, throwing at the first alias the current model lacks.
   */
  function Walk(reg: Registry, m: string, path: seq<string>): (r: Result<string, Error>)
    requires WellFormed(reg) && m in reg
    ensures r.Ok? ==> r.value in reg
    ensures r.Err? ==> r.error.alias in path
    decreases |path|
  {
    if |path| == 0 then Ok(m)
    else if path[0] !in reg[m].associations then Err(InvalidAssociation(path[0]))
    else
      var r := Walk(reg, reg[m].associations[path[0]], path[1..]);
      assert r.Err? ==> r.error.alias in path by {
        if r.Err? { assert r.error.alias in path[1..]; }
      }
      r
  }

  /**
   * `getSubmodel`: `[own name]` names the model itself unless an association
   * of that name exists; otherwise the path is walked.
   */
  function GetSubmodel(reg: Registry, m: string, path: seq<string>): (r: Result<string, Error>)
    requires WellFormed(reg) && m in reg
    ensures r.Ok? ==> r.value in reg
    ensures r.Err? ==> r.error.alias in path
  {
    if |path| == 1 && path[0] == m && path[0] !in reg[m].associations then Ok(m)
    else Walk(reg, m, path)
  }

  /** The association path and the field name of a `$…$` reference. */
  function PathOf(key: string): seq<string> {
    var segs := Split(Inner(key));
    segs[..|segs| - 1]
  }

  function FieldOf(key: string): (f: string)
    ensures IsColString(key) ==> |f| < |key|
  {
    var segs := Split(Inner(key));
    segs[|segs| - 1]
  }

  /**
   * `getDerivedExpr(key, alias)` on model `m`: `Ok(Some(e))` when the key
   * names a derived field (directly or through a `$path.field$` reference),
   * `Ok(None)` when it does not, `Err` when the path names a missing
   * association.
   */
  function GetDerivedExpr(reg: Registry, m: string, key: string, alias: string): (r: Result<Option<Expr>, Error>)
    requires WellFormed(reg) && m in reg
    decreases |key|
  {
    if key in reg[m].derived then Ok(Some(DerivedExpr(reg[m].derived[key], alias)))
    else if !IsColString(key) then Ok(None)
    else
      match GetSubmodel(reg, m, PathOf(key))
      case Err(e) => Err(e)
      case Ok(sub) => GetDerivedExpr(reg, sub, FieldOf(key), Join(PathOf(key)))
  }

  /**
   * A derived name resolves at once to its builder applied to the alias, even
   * when it looks like a `$…$` reference; any other undelimited key resolves
   * to nothing.
   */
  lemma PlainKey(reg: Registry, m: string, key: string, alias: string)
    requires WellFormed(reg) && m in reg
    requires key in reg[m].derived || !IsColString(key)
    ensures GetDerivedExpr(reg, m, key, alias) ==
              if key in reg[m].derived then Ok(Some(DerivedExpr(reg[m].derived[key], alias)))
              else Ok(None)
  {
  }

  /** Walking `p + q` is walking `p`, then walking `q` from where `p` ended. */
  lemma {:induction false} WalkConcat(reg: Registry, m: string, p: seq<string>, q: seq<string>)
    requires WellFormed(reg) && m in reg
    ensures Walk(reg, m, p + q) ==
              match Walk(reg, m, p)
              case Err(e) => Err(e)
              case Ok(s) => Walk(reg, s, q)
    decreases |p|
  {
    if |p| == 0 {
      assert p + q == q;
    } else {
      assert (p + q)[0] == p[0] && (p + q)[1..] == p[1..] + q;
      if p[0] in reg[m].associations {
        WalkConcat(reg, reg[m].associations[p[0]], p[1..], q);
      }
    }
  }

  /** The walk fails with the first alias that is missing on the model reached so far. */
  lemma WalkFailsAtFirstMissing(reg: Registry, m: string, path: seq<string>, i: nat)
    requires WellFormed(reg) && m in reg
    requires i < |path|
    requires Walk(reg, m, path[..i]).Ok?
    requires path[i] !in reg[Walk(reg, m, path[..i]).value].associations
    ensures Walk(reg, m, path) == Err(InvalidAssociation(path[i]))
  {
    WalkConcat(reg, m, path[..i], path[i..]);
    assert path[..i] + path[i..] == path;
  }

  /** Conversely, a failed walk names an alias missing on the model reached by the aliases before it. */
  lemma {:induction false} WalkErrorAt(reg: Registry, m: string, path: seq<string>) returns (i: nat)
    requires WellFormed(reg) && m in reg
    requires Walk(reg, m, path).Err?
    ensures i < |path| && Walk(reg, m, path[..i]).Ok?
    ensures path[i] !in reg[Walk(reg, m, path[..i]).value].associations
    ensures Walk(reg, m, path).error == InvalidAssociation(path[i])
    decreases |path|
  {
    if path[0] !in reg[m].associations {
      i := 0;
      assert path[..0] == [];
    } else {
      var t := reg[m].associations[path[0]];
      var j := WalkErrorAt(reg, t, path[1..]);
      i := j + 1;
      assert path[..i] == [path[0]] + path[1..][..j];
      WalkConcat(reg, m, [path[0]], path[1..][..j]);
      assert [path[0]][1..] == [];
    }
  }

  /** The model named by a plain association path, and the `[own name]` special case. */
  lemma SubmodelOfOwnName(reg: Registry, m: string)
    requires WellFormed(reg) && m in reg
    ensures GetSubmodel(reg, m, []) == Ok(m)
    ensures m !in reg[m].associations ==> GetSubmodel(reg, m, [m]) == Ok(m)
    ensures m in reg[m].associations ==> GetSubmodel(reg, m, [m]) == Ok(reg[m].associations[m])
  {
    if m in reg[m].associations {
      var t := reg[m].associations[m];
      assert [m][1..] == [];
      assert Walk(reg, t, []) == Ok(t);
      assert Walk(reg, m, [m]) == Walk(reg, t, [m][1..]);
    }
  }

  /** A `$…$` reference spelt out from its association path and field. */
  function Reference(path: seq<string>, field: string): string {
    "$" + Join(path + [field]) + "$"
  }

  /**
   * Resolving `$a1.….an.f$` is resolving `f` on the model the walk reaches,
   * with `"a1.….an"` as alias; the caller's alias plays no part.
   */
  lemma DottedReference(reg: Registry, m: string, path: seq<string>, field: string, alias: string)
    requires WellFormed(reg) && m in reg
    requires NoDots(path) && '.' !in field
    requires Reference(path, field) !in reg[m].derived
    ensures GetDerivedExpr(reg, m, Reference(path, field), alias) ==
              match GetSubmodel(reg, m, path)
              case Err(e) => Err(e)
              case Ok(sub) => GetDerivedExpr(reg, sub, field, Join(path))
  {
    var segs := path + [field];
    assert NoDots(segs) by {
      forall i | 0 <= i < |segs| ensures '.' !in segs[i] {
        if i < |path| { assert segs[i] == path[i]; }
      }
    }
    SplitJoin(segs);
    var key := Reference(path, field);
    InnerOfDelimited(Join(segs));
    assert Split(Inner(key)) == segs;
    assert PathOf(key) == path && FieldOf(key) == field;
  }

  /**
   * `$Self.f$` on model `Self` resolves like plain `f` under the alias `Self`
   * as long as `Self` has no association of its own name.
   */
  lemma SelfQualified(reg: Registry, m: string, field: string, alias: string)
    requires WellFormed(reg) && m in reg
    requires '.' !in m && '.' !in field
    requires m !in reg[m].associations
    requires Reference([m], field) !in reg[m].derived
    ensures GetDerivedExpr(reg, m, Reference([m], field), alias) == GetDerivedExpr(reg, m, field, m)
  {
    DottedReference(reg, m, [m], field, alias);
  }
}
