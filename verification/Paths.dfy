/** Row paths: how the generator builds them and how tree assembly takes them apart. */
module Paths {
  import opened Text
  import opened Objects

  /** The text that one object adds to a path: `.kind.namespace/name`, the kind in lower case. */
  function Segment(o: Obj): (s: string)
    ensures s != ""
  {
    "." + Lower(o.kind) + "." + o.namespace + "/" + o.name
  }

  /** The path of a chain of objects, root first. */
  function PathOf(chain: seq<Obj>): string {
    if chain == [] then "" else PathOf(chain[..|chain| - 1]) + Segment(chain[|chain| - 1])
  }

  /** The path a row's parent is looked up under: all but the last two dot-separated parts. */
  function ParentPath(path: string): (parent: string)
    ensures path != "" ==> |parent| < |path|
  {
    var parts := Split(path, '.');
    if |parts| <= 3 then ""
    else
      AllButTwoIsShorter(path);
      Join(parts[..|parts| - 2], '.')
  }

  predicate DotFree(o: Obj) {
    Free(o.kind, '.') && Free(o.namespace, '.') && Free(o.name, '.')
  }

  lemma {:induction false} JoinConcat(a: seq<string>, b: seq<string>, c: char)
    requires a != [] && b != []
    ensures Join(a + b, c) == Join(a, c) + [c] + Join(b, c)
    decreases |a|
  {
    if |a| == 1 {
      assert (a + b)[1..] == b;
    } else {
      JoinConcat(a[1..], b, c);
      assert (a + b)[1..] == a[1..] + b;
    }
  }

  lemma AllButTwoIsShorter(path: string)
    requires |Split(path, '.')| > 3
    ensures |Join(Split(path, '.')[..|Split(path, '.')| - 2], '.')| < |path|
  {
    var parts := Split(path, '.');
    var n := |parts| - 2;
    JoinSplit(path, '.');
    assert parts == parts[..n] + parts[n..];
    JoinConcat(parts[..n], parts[n..], '.');
  }

  lemma LowerKeepsDots(s: string)
    ensures Free(Lower(s), '.') <==> Free(s, '.')
  {
    if '.' in s {
      var i :| 0 <= i < |s| && s[i] == '.';
      assert Lower(s)[i] == '.';
    }
    if '.' in Lower(s) {
      var i :| 0 <= i < |s| && Lower(s)[i] == '.';
      assert s[i] == '.';
    }
  }

  /** For an ancestor path with at least one dot, stripping two parts undoes appending
      `.kind.rest` exactly when neither appended part has a dot of its own. */
  lemma ParentPathInverse(p: string, kind: string, rest: string)
    requires p != ""
    ensures ParentPath(p + "." + kind + "." + rest) == p
       <==> !Free(p, '.') && Free(kind, '.') && Free(rest, '.')
  {
    var path := p + "." + kind + "." + rest;
    var parts := Split(path, '.');
    var n := |parts| - 2;
    assert path == (p + "." + kind) + "." + rest;
    SplitConcat(p + "." + kind, rest, '.');
    SplitConcat(p, kind, '.');
    assert parts == Split(p, '.') + Split(kind, '.') + Split(rest, '.');
    JoinSplit(p, '.');
    if Free(kind, '.') && Free(rest, '.') {
      SplitFree(kind, '.');
      SplitFree(rest, '.');
      assert parts[..n] == Split(p, '.');
      if Free(p, '.') {
        SplitFree(p, '.');
      } else if |parts| <= 3 {
        SplitLengthOne(p, '.');
      }
    } else {
      if !Free(kind, '.') && |Split(kind, '.')| == 1 {
        SplitLengthOne(kind, '.');
      }
      if !Free(rest, '.') && |Split(rest, '.')| == 1 {
        SplitLengthOne(rest, '.');
      }
      assert |parts| > |Split(p, '.')| + 2;
      SplitJoin(parts[..n], '.');
    }
  }

  /** The same law for objects: a child's parent path is recovered exactly when its kind,
      namespace and name have no dot, whatever dots the ancestors contain. */
  lemma ParentOfChild(p: string, o: Obj)
    requires p != "" && p[0] == '.'
    ensures ParentPath(p + Segment(o)) == p <==> DotFree(o)
  {
    var kind, rest := Lower(o.kind), o.namespace + "/" + o.name;
    assert p + Segment(o) == p + "." + kind + "." + rest;
    LowerKeepsDots(o.kind);
    assert Free(rest, '.') <==> Free(o.namespace, '.') && Free(o.name, '.') by {
      assert forall c :: c in rest <==> c in o.namespace || c in "/" || c in o.name;
    }
    ParentPathInverse(p, kind, rest);
  }
}
