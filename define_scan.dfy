/**
 * The `beforeDefine` hook of lib/derived-fields.js: before a model is
 * defined, every VIRTUAL attribute with an `sqlExpr` is remembered in
 * `options.derived`, gets a default getter if it has none, and loses its
 * `sqlExpr`.
 */
module DefineScan {
  import opened Wrappers
  import opened Resolver

  /**
   * The getter of an attribute definition: none, one the author wrote
   * (identified by a tag), or the default getter the hook installs, which
   * reads the instance's data value of the named field.
   */
  datatype Getter = NoGetter | Custom(tag: nat) | DefaultGetter(field: string)

  /** The parts of an attribute definition the hook looks at. */
  datatype AttrDef = AttrDef(isVirtual: bool, sqlExpr: Option<Builder>, get: Getter)

  /** The attributes the hook takes up: VIRTUAL ones with an `sqlExpr`. */
  predicate Eligible(a: AttrDef) {
    a.isVirtual && a.sqlExpr.Some?
  }

  /** Attribute `name` after the hook: `sqlExpr` removed and, if there was no getter, the default one. */
  function Cleaned(name: string, a: AttrDef): (r: AttrDef)
    ensures r.isVirtual == a.isVirtual
    ensures !Eligible(a) ==> r == a
    ensures Eligible(a) ==> r.sqlExpr.None? && !Eligible(r)
    ensures Eligible(a) ==> r.get == if a.get.NoGetter? then DefaultGetter(name) else a.get
  {
    if Eligible(a) then
      a.(sqlExpr := None, get := if a.get.NoGetter? then DefaultGetter(name) else a.get)
    else a
  }

  /** The derived map after the hook: the existing entries, overwritten by the sqlExpr of every eligible attribute. */
  function DerivedAfter(base: map<string, Builder>, attrs: map<string, AttrDef>): (r: map<string, Builder>)
    ensures forall n :: n in r <==> n in base || (n in attrs && Eligible(attrs[n]))
    ensures forall n :: n in attrs && Eligible(attrs[n]) ==> r[n] == attrs[n].sqlExpr.value
    ensures forall n :: n in base && !(n in attrs && Eligible(attrs[n])) ==> r[n] == base[n]
  {
    base + map n | n in attrs && Eligible(attrs[n]) :: attrs[n].sqlExpr.value
  }

  /** Every attribute after the hook; none is removed. */
  function AttrsAfter(attrs: map<string, AttrDef>): (r: map<string, AttrDef>)
    ensures r.Keys == attrs.Keys
    ensures forall n :: n in attrs ==> r[n] == Cleaned(n, attrs[n])
  {
    map n | n in attrs :: Cleaned(n, attrs[n])
  }

  /**
   * The hook is idempotent: a second scan of its own output finds no
   * eligible attribute, so it changes neither the attributes nor the derived map.
   */
  lemma ScanIdempotent(base: map<string, Builder>, attrs: map<string, AttrDef>)
    ensures AttrsAfter(AttrsAfter(attrs)) == AttrsAfter(attrs)
    ensures DerivedAfter(DerivedAfter(base, attrs), AttrsAfter(attrs)) == DerivedAfter(base, attrs)
  {
    var once := AttrsAfter(attrs);
    assert forall n :: n in once ==> !Eligible(once[n]) && Cleaned(n, once[n]) == once[n];
  }

  /**
   * Once the model is defined with the derived map the hook built, each
   * attribute the hook took up resolves, under any alias, to its `sqlExpr`
   * applied to that alias.
   */
  lemma ScannedAttributeResolves(reg: Registry, m: string, base: map<string, Builder>,
                                 attrs: map<string, AttrDef>, name: string, alias: string)
    requires WellFormed(reg) && m in reg && reg[m].derived == DerivedAfter(base, attrs)
    requires name in attrs && Eligible(attrs[name])
    ensures GetDerivedExpr(reg, m, name, alias) == Ok(Some(DerivedExpr(attrs[name].sqlExpr.value, alias)))
  {
    PlainKey(reg, m, name, alias);
  }

  /**
   * The state of the scan once it has visited `names[..i]`: the attributes
   * visited are cleaned, and the derived map is `base` overwritten by the
   * `sqlExpr` of each eligible attribute visited.
   */
  ghost predicate ScannedUpTo(a0: map<string, AttrDef>, base: map<string, Builder>, names: seq<string>, i: nat,
                              attrs: map<string, AttrDef>, derived: map<string, Builder>)
    requires i <= |names|
  {
    && attrs.Keys == a0.Keys
    && (forall n :: n in a0 ==> attrs[n] == if n in names[..i] then Cleaned(n, a0[n]) else a0[n])
    && (forall n :: n in derived <==> n in base || (n in names[..i] && n in a0 && Eligible(a0[n])))
    && (forall n :: n in derived ==>
          derived[n] == if n in names[..i] && n in a0 && Eligible(a0[n]) then a0[n].sqlExpr.value else base[n])
  }

  /** Visiting `names[i]` moves the scan one name further. */
  lemma ScanStep(a0: map<string, AttrDef>, base: map<string, Builder>, names: seq<string>, i: nat,
                 attrs: map<string, AttrDef>, derived: map<string, Builder>)
    requires i < |names| && names[i] in a0 && ScannedUpTo(a0, base, names, i, attrs, derived)
    ensures var n := names[i];
            if Eligible(attrs[n])
            then ScannedUpTo(a0, base, names, i + 1, attrs[n := Cleaned(n, attrs[n])], derived[n := attrs[n].sqlExpr.value])
            else ScannedUpTo(a0, base, names, i + 1, attrs, derived)
  {
    assert names[..i + 1] == names[..i] + [names[i]];
  }

  /** The scan of every name of `a0` ends in the state the hook promises. */
  lemma ScanDone(a0: map<string, AttrDef>, base: map<string, Builder>, names: seq<string>,
                 attrs: map<string, AttrDef>, derived: map<string, Builder>)
    requires forall n :: n in a0 <==> n in names
    requires ScannedUpTo(a0, base, names, |names|, attrs, derived)
    ensures attrs == AttrsAfter(a0) && derived == DerivedAfter(base, a0)
  {
    assert names[..|names|] == names;
  }

  /**
   * What `sequelize.define(name, attributes, options)` hands the hook: the
   * attribute definitions (with their keys in `for…in` order) and
   * `options.derived`.
   */
  class Definition {
    var names: seq<string>
    var attrs: map<string, AttrDef>
    var derived: Option<map<string, Builder>>

    ghost predicate Valid()
      reads this
    {
      forall n :: n in attrs <==> n in names
    }

    constructor (names: seq<string>, attrs: map<string, AttrDef>, derived: Option<map<string, Builder>>)
      requires forall n :: n in attrs <==> n in names
      ensures Valid() && this.names == names && this.attrs == attrs && this.derived == derived
    {
      this.names := names;
      this.attrs := attrs;
      this.derived := derived;
    }

    /** The hook: `options.derived` defaults to `{}`, then the scan of the attributes. */
    method BeforeDefine()
      requires Valid()
      modifies this
      ensures Valid() && names == old(names)
      ensures derived == Some(DerivedAfter(old(if derived.Some? then derived.value else map[]), old(attrs)))
      ensures attrs == AttrsAfter(old(attrs))
    {
      derived := Some(if derived.Some? then derived.value else map[]);
      ghost var base := derived.value;
      ghost var a0 := attrs;
      var i := 0;
      assert names[..0] == [];
      while i < |names|
        invariant 0 <= i <= |names| && names == old(names) && derived.Some?
        invariant ScannedUpTo(a0, base, names, i, attrs, derived.value)
      {
        var name := names[i];
        var attr := attrs[name];
        ScanStep(a0, base, names, i, attrs, derived.value);
        if attr.isVirtual && attr.sqlExpr.Some? {
          derived := Some(derived.value[name := attr.sqlExpr.value]);
          if attr.get.NoGetter? {
            attr := attr.(get := DefaultGetter(name));
          }
          attr := attr.(sqlExpr := None);
          attrs := attrs[name := attr];
        }
        i := i + 1;
      }
      ScanDone(a0, base, names, attrs, derived.value);
    }
  }
}
