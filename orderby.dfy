/**
 * lib/derived-orderby.js: before a find, every `$…$` entry of `order` is
 * turned into a single quoted identifier literal, with a default direction
 * `ASC` and without a leading segment that only repeats the model's name.
 * Item arrays are changed in place, as the source does.
 */
module OrderBy {
  import opened Wrappers
  import opened JsStrings
  import opened Sql

  /** A JavaScript array, changed in place by `push` and index assignment. */
  class JsArray {
    var elems: seq<OrderValue>

    constructor (elems: seq<OrderValue>)
      ensures this.elems == elems
    {
      this.elems := elems;
    }
  }

  /**
   * A value found in an `order` option: a string, an array, a
   * `sequelize.literal`/`fn`/`col` object, or anything else (a model, an
   * `{ model, as }` object), identified by a tag.
   */
  datatype OrderValue = Str(s: string) | Arr(a: JsArray) | SqlExpr(e: Expr) | Other(tag: nat)

  /**
   * `Utils.isColString(item[0])` on a string item: the test is made on its
   * first character alone, so it holds exactly when the item starts with `$`.
   */
  predicate StartsAsColumn(s: string) {
    IsColString(if |s| > 0 then [s[0]] else "")
  }

  /** The path segments after dropping a first segment equal to the model's name, when there are exactly two. */
  function Unqualified(modelName: string, path: seq<string>): (r: seq<string>)
    ensures |path| == 2 && path[0] == modelName ==> r == path[1..]
    ensures !(|path| == 2 && path[0] == modelName) ==> r == path
  {
    if |path| == 2 && path[0] == modelName then path[1..] else path
  }

  /** The text of the literal that replaces the `$…$` string `s`: one double-quoted identifier. */
  function QuotedColumn(modelName: string, s: string): string {
    "\"" + Join(Unqualified(modelName, Split(Inner(s)))) + "\""
  }

  /** Whether an item array is one the rewrite changes: its first element is a `$…$` string. */
  predicate Rewritable(elems: seq<OrderValue>) {
    |elems| >= 1 && elems[0].Str? && IsColString(elems[0].s)
  }

  /** The elements of an item array after `processOrderItem`. */
  function RewriteElems(modelName: string, elems: seq<OrderValue>): (r: seq<OrderValue>)
    ensures !Rewritable(elems) || |elems| > 2 ==> r == elems
    ensures Rewritable(elems) && |elems| <= 2 ==>
              && |r| == 2
              && r[0] == SqlExpr(Literal(QuotedColumn(modelName, elems[0].s)))
              && r[1] == (if |elems| == 1 then Str("ASC") else elems[1])
  {
    if !Rewritable(elems) then elems
    else if |elems| == 1 then [SqlExpr(Literal(QuotedColumn(modelName, elems[0].s))), Str("ASC")]
    else if |elems| == 2 then [SqlExpr(Literal(QuotedColumn(modelName, elems[0].s))), elems[1]]
    else elems
  }

  /** Rewriting an item a second time changes nothing: its first element is no longer a string. */
  lemma RewriteIdempotent(modelName: string, elems: seq<OrderValue>)
    ensures RewriteElems(modelName, RewriteElems(modelName, elems)) == RewriteElems(modelName, elems)
  {
  }

  /**
   * A column reference whose path has exactly two segments, the first being
   * the model's own name, is quoted without that segment.
   */
  lemma SelfQualifiedColumn(modelName: string, field: string)
    requires '.' !in modelName && '.' !in field
    ensures QuotedColumn(modelName, "$" + modelName + "." + field + "$") == "\"" + field + "\""
  {
    var path := modelName + "." + field;
    assert "$" + modelName + "." + field + "$" == "$" + path + "$";
    InnerOfDelimited(path);
    SplitAppend(modelName, field);
    SplitNoDot(field);
    assert Split(path) == [modelName, field];
  }

  /** Any other column reference is quoted whole: its text between the `$` delimiters, dots included. */
  lemma QuotedWhole(modelName: string, s: string)
    requires !(|Split(Inner(s))| == 2 && Split(Inner(s))[0] == modelName)
    ensures QuotedColumn(modelName, s) == "\"" + Inner(s) + "\""
  {
    JoinSplit(Inner(s));
  }

  /** When the leading segment is dropped, what is quoted is exactly the rest of the path after `modelName.`. */
  lemma QuotedWithoutSelf(modelName: string, s: string)
    requires |Split(Inner(s))| == 2 && Split(Inner(s))[0] == modelName
    ensures Inner(s) == modelName + "." + Split(Inner(s))[1]
    ensures QuotedColumn(modelName, s) == "\"" + Split(Inner(s))[1] + "\""
  {
    JoinSplit(Inner(s));
  }

  /** A path qualified by another name (an association alias) keeps its qualifier. */
  lemma OtherQualifiedColumn(modelName: string, qualifier: string, field: string)
    requires '.' !in qualifier && '.' !in field && qualifier != modelName
    ensures QuotedColumn(modelName, "$" + qualifier + "." + field + "$") == "\"" + qualifier + "." + field + "\""
  {
    var path := qualifier + "." + field;
    var s := "$" + qualifier + "." + field + "$";
    assert s == "$" + path + "$";
    InnerOfDelimited(path);
    SplitAppend(qualifier, field);
    SplitNoDot(field);
    assert Split(Inner(s)) == [qualifier, field];
    QuotedWhole(modelName, s);
  }

  /**
   * An order entry `'$q.f$'` or `['$q.f$', dir]` (as in `'$Master.name$'` or
   * `['$Detail.lcName$', 'DESC']` on the Detail model) is ordered by the quoted
   * path, without `q` when it is the model's own name, in the given direction
   * or else `ASC`.
   */
  lemma QualifiedOrderEntry(modelName: string, q: string, f: string, rest: seq<OrderValue>)
    requires '.' !in q && '.' !in f && |rest| <= 1
    ensures RewriteElems(modelName, [Str("$" + q + "." + f + "$")] + rest)
            == [SqlExpr(Literal(if q == modelName then "\"" + f + "\"" else "\"" + q + "." + f + "\"")),
                if rest == [] then Str("ASC") else rest[0]]
  {
    var s := "$" + q + "." + f + "$";
    InnerOfDelimited(q + "." + f);
    assert s == "$" + (q + "." + f) + "$";
    if q == modelName {
      SelfQualifiedColumn(modelName, f);
    } else {
      OtherQualifiedColumn(modelName, q, f);
    }
  }

  /** An order entry `'$f$'` or `['$f$', dir]` naming a plain field is ordered by the quoted field name. */
  lemma PlainOrderEntry(modelName: string, f: string, rest: seq<OrderValue>)
    requires '.' !in f && |rest| <= 1
    ensures RewriteElems(modelName, [Str("$" + f + "$")] + rest)
            == [SqlExpr(Literal("\"" + f + "\"")), if rest == [] then Str("ASC") else rest[0]]
  {
    InnerOfDelimited(f);
    SplitNoDot(f);
    QuotedWhole(modelName, "$" + f + "$");
  }

  /**
   * `processOrderItem.call(model, item)`: a string starting with `$` is first
   * wrapped as the new array `[item, 'ASC']`; an array item is changed in
   * place (`push('ASC')`, then `item[0] = literal`) and returned itself;
   * everything else is returned as it is.
   */
  method ProcessOrderItem(modelName: string, item: OrderValue) returns (r: OrderValue)
    modifies if item.Arr? then {item.a} else {}
    ensures ItemOutcome(modelName, item, r)
  {
    r := item;
    if item.Str? {
      if !StartsAsColumn(item.s) {
        return;
      }
      var wrapped := new JsArray([item, Str("ASC")]);
      r := Arr(wrapped);
    }
    if !r.Arr? {
      return;
    }
    var a := r.a;
    if |a.elems| == 0 || !a.elems[0].Str? || !IsColString(a.elems[0].s) {
      return;
    }
    if |a.elems| == 1 {
      a.elems := a.elems + [Str("ASC")];
    } else if |a.elems| != 2 {
      return;
    }
    var path := Split(Inner(a.elems[0].s));
    if |path| == 2 && path[0] == modelName {
      path := path[1..];
    }
    a.elems := a.elems[0 := SqlExpr(Literal("\"" + Join(path) + "\""))];
  }

  /** The arrays among the items. */
  ghost function ArraysOf(items: seq<OrderValue>): set<JsArray> {
    if |items| == 0 then {}
    else ArraysOf(items[..|items| - 1]) + if items[|items| - 1].Arr? then {items[|items| - 1].a} else {}
  }

  /** Every array item is among the arrays of the items. */
  lemma {:induction false} ArrayOfItem(items: seq<OrderValue>, i: int)
    requires 0 <= i < |items| && items[i].Arr?
    ensures items[i].a in ArraysOf(items)
    decreases |items|
  {
    if i < |items| - 1 {
      ArrayOfItem(items[..|items| - 1], i);
    }
  }

  /**
   * The outcome of `processOrderItem` on `item` in the state before it ran:
   * an array is rewritten in place and returned itself, a `$`-string becomes
   * a new rewritten array,
   * anything else comes back unchanged.
   */
  twostate predicate ItemOutcome(modelName: string, item: OrderValue, new out: OrderValue)
    reads if out.Arr? then {out.a} else {}
  {
    && (item.Arr? ==> out == item && item.a.elems == RewriteElems(modelName, old(item.a.elems)))
    && (item.Str? && StartsAsColumn(item.s) ==>
          out.Arr? && fresh(out.a) && out.a.elems == RewriteElems(modelName, [item, Str("ASC")]))
    && (!item.Arr? && !(item.Str? && StartsAsColumn(item.s)) ==> out == item)
  }

  lemma {:induction false} AllocatedArrays(items: seq<OrderValue>)
    ensures forall x :: x in ArraysOf(items) ==> allocated(x)
    decreases |items|
  {
    if |items| > 0 {
      AllocatedArrays(items[..|items| - 1]);
    }
  }

  /** What an array of the list holds after the rewrite of the arrays in `done`. */
  ghost function Expected(modelName: string, orig: map<JsArray, seq<OrderValue>>, done: set<JsArray>, x: JsArray): seq<OrderValue>
    requires x in orig
  {
    if x in done then RewriteElems(modelName, orig[x]) else orig[x]
  }

  /** The heap-free part of the outcome of the first `|mapped|` items: which result is the item itself and which a new array. */
  ghost predicate Outcomes(list: seq<OrderValue>, mapped: seq<OrderValue>, arrays: set<JsArray>)
    requires |mapped| <= |list|
  {
    forall j :: 0 <= j < |mapped| ==>
      if list[j].Str? && StartsAsColumn(list[j].s) then mapped[j].Arr? && mapped[j].a !in arrays
      else mapped[j] == list[j]
  }

  lemma OutcomesStep(list: seq<OrderValue>, mapped: seq<OrderValue>, arrays: set<JsArray>, out: OrderValue)
    requires |mapped| < |list| && Outcomes(list, mapped, arrays)
    requires var item := list[|mapped|];
             if item.Str? && StartsAsColumn(item.s) then out.Arr? && out.a !in arrays else out == item
    ensures Outcomes(list, mapped + [out], arrays)
  {
  }

  /**
   * `list.map(processOrderItem)` over the items, in order. An array met
   * twice is rewritten once, as a second rewrite changes nothing.
   */
  method MapItems(modelName: string, list: seq<OrderValue>) returns (mapped: seq<OrderValue>)
    modifies ArraysOf(list)
    ensures |mapped| == |list|
    ensures forall j :: 0 <= j < |list| ==> ItemOutcome(modelName, list[j], mapped[j])
  {
    ghost var arrays := ArraysOf(list);
    ghost var orig := map x | x in arrays :: x.elems;
    AllocatedArrays(list);
    mapped := [];
    var k := 0;
    while k < |list|
      invariant 0 <= k <= |list| && |mapped| == k
      invariant forall x :: x in arrays ==> allocated(x)
      invariant forall x :: x in arrays ==> orig[x] == old(x.elems)
      invariant forall x :: x in arrays ==> x.elems == Expected(modelName, orig, ArraysOf(list[..k]), x)
      invariant Outcomes(list, mapped, arrays)
      invariant forall j :: 0 <= j < k && list[j].Str? && StartsAsColumn(list[j].s) && mapped[j].Arr? ==>
                  fresh(mapped[j].a) && mapped[j].a.elems == RewriteElems(modelName, [list[j], Str("ASC")])
    {
      ghost var done := ArraysOf(list[..k]);
      assert list[..k + 1][..k] == list[..k];
      assert ArraysOf(list[..k + 1]) == done + if list[k].Arr? then {list[k].a} else {};
      if list[k].Arr? {
        ArrayOfItem(list, k);
        if list[k].a in done {
          RewriteIdempotent(modelName, orig[list[k].a]);
        }
      }
      label Pre:
      var out := ProcessOrderItem(modelName, list[k]);
      forall x | x in arrays
        ensures x.elems == Expected(modelName, orig, ArraysOf(list[..k + 1]), x)
      {
        if !(list[k].Arr? && x == list[k].a) {
          assert x.elems == old@Pre(x.elems);
        }
      }
      assert Outcomes(list, mapped, arrays);
      OutcomesStep(list, mapped, arrays, out);
      mapped := mapped + [out];
      k := k + 1;
    }
    assert list[..k] == list;
    forall j | 0 <= j < |list| && list[j].Arr?
      ensures list[j].a in arrays
    {
      ArrayOfItem(list, j);
    }
  }

  /** The `options` of a find, as far as the order hook reads and writes them. */
  class FindOrder {
    var order: Option<OrderValue>

    constructor (order: Option<OrderValue>)
      ensures this.order == order
    {
      this.order := order;
    }

    /** The items the hook maps over: the list itself, or a non-array `order` as a one-element list. */
    ghost function Items(): seq<OrderValue>
      reads this, if order.Some? && order.value.Arr? then {order.value.a} else {}
      requires order.Some?
    {
      if order.value.Arr? then order.value.a.elems else [order.value]
    }

    /**
     * The `beforeFindAfterOptions` hook of a model: a null `order` is left
     * alone; otherwise `order` becomes a new list holding the outcome of
     * `processOrderItem` on each item, in order.
     */
    method BeforeFindAfterOptions(modelName: string)
      requires order.Some? && order.value.Arr? ==> order.value.a !in ArraysOf(order.value.a.elems)
      modifies this, if order.Some? && order.value.Arr? then ArraysOf(order.value.a.elems) else {}
      ensures old(order).None? ==> order.None?
      ensures old(order).Some? ==> order.Some? && order.value.Arr? && fresh(order.value.a)
      ensures old(order).Some? ==> |order.value.a.elems| == |old(Items())|
      ensures old(order).Some? ==> forall j :: 0 <= j < |old(Items())| ==>
                ItemOutcome(modelName, old(Items())[j], order.value.a.elems[j])
    {
      if order.None? {
        return;
      }
      var list: seq<OrderValue>;
      if !order.value.Arr? {
        list := [order.value];
        assert list[..0] == [];
        assert ArraysOf(list) == {};
      } else {
        list := order.value.a.elems;
      }
      var mapped := MapItems(modelName, list);
      var result := new JsArray(mapped);
      order := Some(Arr(result));
    }
  }
}
