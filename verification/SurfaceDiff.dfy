/** The comparison of two API surfaces: a recursive differ over JSON-like trees,
    with patterns that silence parts of the report. */
module SurfaceDiff {
  import opened Keys

  // ---- Trees ----

  /** What stands at a leaf once the two dumps are parsed back. */
  datatype Scalar =
    | Null
    | Bool(b: bool)
    | Int(n: int)
    | Float(x: real)
    | Infinity(negative: bool)
    | NaN
    | Str(s: string)
    | List(items: seq<string>)

  datatype Tree = Leaf(v: Scalar) | Dict(kids: map<string, Tree>)

  function Number(v: Scalar): (x: real)
    requires v.Bool? || v.Int? || v.Float?
  {
    match v
    case Bool(b) => if b then 1.0 else 0.0
    case Int(n) => n as real
    case Float(x) => x
  }

  /** Python's `==` on leaves: True == 1 == 1.0, and a NaN differs from itself. */
  predicate Same(v: Scalar, w: Scalar) {
    if (v.Bool? || v.Int? || v.Float?) && (w.Bool? || w.Int? || w.Float?) then Number(v) == Number(w)
    else v == w && v != NaN
  }

  /** Python's `==` on trees. */
  ghost predicate Equal(a: Tree, b: Tree) {
    match (a, b)
    case (Leaf(v), Leaf(w)) => Same(v, w)
    case (Dict(m), Dict(n)) => m.Keys == n.Keys && forall k :: k in m.Keys ==> k in n.Keys && Equal(m[k], n[k])
    case (_, _) => false
  }

  // ---- Paths and patterns ----

  type Path = seq<string>
  /** A compiled regular expression, by what it finds something in. */
  datatype Pattern = Regex(search: string -> bool)

  /** The text of a path, as patterns see it: ".Circle.attrs.area". */
  function Text(path: Path): string {
    if path == [] then "" else Text(path[..|path| - 1]) + "." + path[|path| - 1]
  }

  predicate Silenced(ignore: seq<Pattern>, path: Path) {
    exists i :: 0 <= i < |ignore| && ignore[i].search(Text(path))
  }

  datatype Entry =
    | OnlyInEmit(path: Path)
    | OnlyInConstexpr(path: Path)
    | Mismatch(path: Path, constexpr: Tree, emit: Tree)

  // ---- The differ, as a function ----

  function Diff(a: Tree, b: Tree, path: Path, ignore: seq<Pattern>): seq<Entry>
    decreases a, 1, 0
  {
    if Silenced(ignore, path) then []
    else if a.Dict? && b.Dict? then DiffKeys(a, b, path, ignore, Sorted(a.kids.Keys + b.kids.Keys))
    else if a.Leaf? && b.Leaf? && Same(a.v, b.v) then []
    else [Mismatch(path, a, b)]
  }

  function DiffKeys(a: Tree, b: Tree, path: Path, ignore: seq<Pattern>, keys: seq<string>): seq<Entry>
    requires a.Dict? && b.Dict? && forall k :: k in keys ==> k in a.kids || k in b.kids
    decreases a, 0, |keys|
  {
    if keys == [] then []
    else DiffKey(a, b, path, ignore, keys[0]) + DiffKeys(a, b, path, ignore, keys[1..])
  }

  function DiffKey(a: Tree, b: Tree, path: Path, ignore: seq<Pattern>, k: string): seq<Entry>
    requires a.Dict? && b.Dict? && (k in a.kids || k in b.kids)
    decreases a, 0, 0
  {
    var p := path + [k];
    if Silenced(ignore, p) then []
    else if k !in a.kids then [OnlyInEmit(p)]
    else if k !in b.kids then [OnlyInConstexpr(p)]
    else Diff(a.kids[k], b.kids[k], p, ignore)
  }

  lemma DiffKeysUnfolds(a: Tree, b: Tree, path: Path, ignore: seq<Pattern>, keys: seq<string>, i: nat)
    requires a.Dict? && b.Dict? && forall k :: k in keys ==> k in a.kids || k in b.kids
    requires i < |keys|
    ensures DiffKeys(a, b, path, ignore, keys[i..]) ==
      DiffKey(a, b, path, ignore, keys[i]) + DiffKeys(a, b, path, ignore, keys[i + 1..])
  {
    assert keys[i..][1..] == keys[i + 1..];
  }

  // ---- The differ, as the source has it: it appends to one shared list ----

  class Report {
    var out: seq<Entry>

    constructor ()
      ensures out == []
    {
      out := [];
    }

    method Add(a: Tree, b: Tree, path: Path, ignore: seq<Pattern>)
      modifies this
      ensures out == old(out) + Diff(a, b, path, ignore)
      decreases a, 2
    {
      if Silenced(ignore, path) {
        return;
      }
      if a.Dict? && b.Dict? {
        AddKeys(a, b, path, ignore, Sorted(a.kids.Keys + b.kids.Keys));
      } else if !(a.Leaf? && b.Leaf? && Same(a.v, b.v)) {
        out := out + [Mismatch(path, a, b)];
      }
    }

    /** The loop over the merged keys. */
    method AddKeys(a: Tree, b: Tree, path: Path, ignore: seq<Pattern>, keys: seq<string>)
      requires a.Dict? && b.Dict? && forall k :: k in keys ==> k in a.kids || k in b.kids
      modifies this
      ensures out == old(out) + DiffKeys(a, b, path, ignore, keys)
      decreases a, 1
    {
      ghost var goal := out + DiffKeys(a, b, path, ignore, keys);
      for i := 0 to |keys|
        invariant out + DiffKeys(a, b, path, ignore, keys[i..]) == goal
      {
        DiffKeysUnfolds(a, b, path, ignore, keys, i);
        AddKey(a, b, path, ignore, keys[i]);
      }
    }

    /** One round of that loop. */
    method AddKey(a: Tree, b: Tree, path: Path, ignore: seq<Pattern>, k: string)
      requires a.Dict? && b.Dict? && (k in a.kids || k in b.kids)
      modifies this
      ensures out == old(out) + DiffKey(a, b, path, ignore, k)
      decreases a, 0
    {
      var p := path + [k];
      if Silenced(ignore, p) {
        return;
      }
      if k !in a.kids {
        out := out + [OnlyInEmit(p)];
      } else if k !in b.kids {
        out := out + [OnlyInConstexpr(p)];
      } else {
        Add(a.kids[k], b.kids[k], p, ignore);
      }
    }
  }

  /** The exit status of a comparison. */
  method Compare(cx: Tree, em: Tree, ignore: seq<Pattern>) returns (code: int)
    ensures code == if Diff(cx, em, [], ignore) == [] then 0 else 1
  {
    var mismatches := new Report();
    mismatches.Add(cx, em, [], ignore);
    code := if mismatches.out == [] then 0 else 1;
  }
}
