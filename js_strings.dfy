/**
 * The handful of JavaScript string operations the rewriters rely on:
 * `split('.')`, `join('.')`, `substr(1, length - 2)` and Sequelize's
 * `Utils.isColString`.
 */
module JsStrings {

  /** `Utils.isColString`: a string whose first and last characters are `$`. */
  predicate IsColString(s: string) {
    |s| >= 1 && s[0] == '$' && s[|s| - 1] == '$'
  }

  /**
   * `s.substr(1, s.length - 2)`: the text between the two delimiters.
   * A negative length is read as zero, so on `"$"` it yields `""`.
   */
  function Inner(s: string): (r: string)
    ensures |s| >= 2 ==> r == s[1..|s| - 1]
    ensures |s| >= 1 ==> |r| < |s|
  {
    if |s| >= 2 then s[1..|s| - 1] else ""
  }

  /** `s.split('.')`: never empty, and no segment contains a dot or is longer than `s`. */
  function Split(s: string): (r: seq<string>)
    ensures |r| >= 1
    ensures forall i :: 0 <= i < |r| ==> '.' !in r[i] && |r[i]| <= |s|
  {
    if |s| == 0 then [""]
    else
      var rest := Split(s[1..]);
      if s[0] == '.' then [""] + rest
      else [[s[0]] + rest[0]] + rest[1..]
  }

  /** `segs.join('.')`; the empty list joins to `""`. */
  function Join(segs: seq<string>): string {
    if |segs| == 0 then ""
    else if |segs| == 1 then segs[0]
    else segs[0] + "." + Join(segs[1..])
  }

  /** Segments free of the separator, as `Split` produces them. */
  predicate NoDots(segs: seq<string>) {
    forall i :: 0 <= i < |segs| ==> '.' !in segs[i]
  }

  /** Joining what was split gives the original text back. */
  lemma {:induction false} JoinSplit(s: string)
    ensures Join(Split(s)) == s
  {
    if |s| > 0 {
      JoinSplit(s[1..]);
      var rest := Split(s[1..]);
      if s[0] == '.' {
        assert Split(s) == [""] + rest;
        assert Join([""] + rest) == "" + "." + Join(rest);
      } else {
        assert Split(s) == [[s[0]] + rest[0]] + rest[1..];
        if |rest| == 1 {
          assert Join(Split(s)) == [s[0]] + rest[0];
        } else {
          assert Join(rest) == rest[0] + "." + Join(rest[1..]);
          assert Join(Split(s)) == ([s[0]] + rest[0]) + "." + Join(rest[1..]);
        }
        assert s == [s[0]] + s[1..];
      }
    }
  }

  /** Prepending one character to a dot-free first segment. */
  lemma {:induction false} SplitCons(c: char, s: string)
    requires c != '.'
    ensures Split([c] + s) == [[c] + Split(s)[0]] + Split(s)[1..]
  {
    assert ([c] + s)[1..] == s;
  }

  /** Splitting `a + "." + b` when `a` has no dot separates `a` from the split of `b`. */
  lemma {:induction false} SplitAppend(a: string, b: string)
    requires '.' !in a
    ensures Split(a + "." + b) == [a] + Split(b)
    decreases |a|
  {
    if |a| == 0 {
      assert a + "." + b == ['.'] + b;
      assert (['.'] + b)[1..] == b;
    } else {
      SplitAppend(a[1..], b);
      assert a + "." + b == [a[0]] + (a[1..] + "." + b);
      SplitCons(a[0], a[1..] + "." + b);
      assert [a[0]] + a[1..] == a;
    }
  }

  /** A dot-free string splits into itself. */
  lemma {:induction false} SplitNoDot(a: string)
    requires '.' !in a
    ensures Split(a) == [a]
    decreases |a|
  {
    if |a| > 0 {
      SplitNoDot(a[1..]);
      SplitCons(a[0], a[1..]);
      assert [a[0]] + a[1..] == a;
    }
  }

  /** Splitting what was joined gives the segments back, for a non-empty list of dot-free segments. */
  lemma {:induction false} SplitJoin(segs: seq<string>)
    requires |segs| >= 1 && NoDots(segs)
    ensures Split(Join(segs)) == segs
    decreases |segs|
  {
    if |segs| == 1 {
      SplitNoDot(segs[0]);
    } else {
      SplitJoin(segs[1..]);
      SplitAppend(segs[0], Join(segs[1..]));
      assert [segs[0]] + segs[1..] == segs;
    }
  }

  /** Joining two non-empty lists puts one dot between their joins. */
  lemma {:induction false} JoinAppend(p: seq<string>, q: seq<string>)
    requires |p| >= 1 && |q| >= 1
    ensures Join(p + q) == Join(p) + "." + Join(q)
    decreases |p|
  {
    if |p| == 1 {
      assert (p + q)[1..] == q;
    } else {
      JoinAppend(p[1..], q);
      assert (p + q)[1..] == p[1..] + q;
    }
  }

  /** The delimiters `$…$` added around a text are exactly what `Inner` strips. */
  lemma InnerOfDelimited(x: string)
    ensures IsColString("$" + x + "$") && Inner("$" + x + "$") == x
  {
    var s := "$" + x + "$";
    assert s[1..|s| - 1] == x;
  }
}
