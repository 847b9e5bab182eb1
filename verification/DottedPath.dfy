/** Resolving a dotted key path against a parsed document. */
module DottedPath {
  import opened Common

  /** A document node: a table, or anything that is not one. */
  datatype Node = Table(entries: map<string, Node>) | Other(what: string)

  // ---- resolve, as the source has it ----

  /** `find('.', start)`: the first dot at or after `start`, or None. */
  function FindDot(s: string, start: nat): (dot: Option<nat>)
    requires start <= |s|
    ensures dot.Some? ==> start <= dot.value < |s| && s[dot.value] == '.' && '.' !in s[start..dot.value]
    ensures dot.None? ==> '.' !in s[start..]
    decreases |s| - start
  {
    if start == |s| then None
    else if s[start] == '.' then Some(start)
    else FindDot(s, start + 1)
  }

  method Resolve(root: Node, dotted: string) returns (r: Option<Node>)
    requires root.Table?
    ensures r == Walk(root, Split(dotted))
  {
    var cur := root;
    var start := 0;
    assert dotted[0..] == dotted;
    while start <= |dotted|
      invariant start <= |dotted|
      invariant Walk(cur, Split(dotted[start..])) == Walk(root, Split(dotted))
      decreases |dotted| - start
    {
      var dot := FindDot(dotted, start);
      var part := if dot.None? then dotted[start..] else dotted[start..dot.value];
      if dot.None? {
        SplitNoDot(part);
      } else {
        RestSplits(dotted, start, dot.value);
      }
      if !cur.Table? {
        return None;
      }
      if part !in cur.entries {
        return None;
      }
      cur := cur.entries[part];
      if dot.None? {
        break;
      }
      start := dot.value + 1;
    }
    r := Some(cur);
  }

  // ---- What it computes: split at every dot, then walk ----

  /** The parts between the dots; empty parts are parts. */
  function Split(s: string): (parts: seq<string>)
    ensures parts != []
    decreases |s|
  {
    if s == "" then [""]
    else if s[0] == '.' then [""] + Split(s[1..])
    else
      var rest := Split(s[1..]);
      [[s[0]] + rest[0]] + rest[1..]
  }

  function Join(parts: seq<string>): string
    requires parts != []
  {
    if |parts| == 1 then parts[0] else parts[0] + "." + Join(parts[1..])
  }

  function Walk(from: Node, keys: seq<string>): Option<Node>
    decreases |keys|
  {
    if keys == [] then Some(from)
    else if from.Table? && keys[0] in from.entries then Walk(from.entries[keys[0]], keys[1..])
    else None
  }

  lemma {:induction false} SplitNoDot(s: string)
    requires '.' !in s
    ensures Split(s) == [s]
    decreases |s|
  {
    if s != "" {
      assert s[0] in s;
      SplitNoDot(s[1..]);
      assert s == [s[0]] + s[1..];
    }
  }

  /** A dot separates, wherever the text before it may itself be split. */
  lemma {:induction false} SplitConcat(p: string, q: string)
    ensures Split(p + "." + q) == Split(p) + Split(q)
    decreases |p|
  {
    var s := p + "." + q;
    if p == "" {
      assert s[0] == '.' && s[1..] == q;
    } else {
      assert s[0] == p[0] && s[1..] == p[1..] + "." + q;
      SplitConcat(p[1..], q);
    }
  }

  lemma SplitFirst(p: string, q: string)
    requires '.' !in p
    ensures Split(p + "." + q) == [p] + Split(q)
  {
    SplitNoDot(p);
    SplitConcat(p, q);
  }

  lemma SlicesAroundDot(s: string, start: nat, dot: nat)
    requires start <= dot < |s| && s[dot] == '.'
    ensures s[start..] == s[start..dot] + "." + s[dot + 1..]
  {}

  /** One round of the loop takes the first part of what is left. */
  lemma RestSplits(s: string, start: nat, dot: nat)
    requires start <= dot < |s| && s[dot] == '.' && '.' !in s[start..dot]
    ensures Split(s[start..]) == [s[start..dot]] + Split(s[dot + 1..])
  {
    SlicesAroundDot(s, start, dot);
    SplitFirst(s[start..dot], s[dot + 1..]);
  }

  lemma JoinCons(c: char, parts: seq<string>)
    requires parts != []
    ensures Join([[c] + parts[0]] + parts[1..]) == [c] + Join(parts)
  {
    var longer := [[c] + parts[0]] + parts[1..];
    assert longer[1..] == parts[1..];
    if |parts| > 1 {
      assert [c] + parts[0] + "." + Join(parts[1..]) == [c] + (parts[0] + "." + Join(parts[1..]));
    }
  }

  lemma JoinEmptyFirst(parts: seq<string>)
    requires parts != []
    ensures Join([""] + parts) == "." + Join(parts)
  {
    assert ([""] + parts)[1..] == parts;
  }

  /** The parts hold no dot, and joining them gives the path back. */
  lemma {:induction false} JoinSplit(s: string)
    ensures Join(Split(s)) == s
    ensures forall p :: p in Split(s) ==> '.' !in p
    decreases |s|
  {
    if s != "" {
      JoinSplit(s[1..]);
      var rest := Split(s[1..]);
      assert s == [s[0]] + s[1..];
      if s[0] == '.' {
        JoinEmptyFirst(rest);
      } else {
        JoinCons(s[0], rest);
        assert rest[0] in rest;
      }
    }
  }

  /** Splitting a join of dot-free keys gives the keys back. */
  lemma {:induction false} SplitJoin(keys: seq<string>)
    requires keys != [] && forall k :: k in keys ==> '.' !in k
    ensures Split(Join(keys)) == keys
    decreases |keys|
  {
    SplitNoDot(keys[0]);
    if |keys| > 1 {
      SplitJoin(keys[1..]);
      SplitConcat(keys[0], Join(keys[1..]));
      assert keys == [keys[0]] + keys[1..];
    }
  }

  lemma {:induction false} WalkConcat(from: Node, xs: seq<string>, ys: seq<string>)
    ensures Walk(from, xs + ys) ==
      match Walk(from, xs) case None => None case Some(n) => Walk(n, ys)
    decreases |xs|
  {
    if xs == [] {
      assert xs + ys == ys;
    } else if from.Table? && xs[0] in from.entries {
      assert (xs + ys)[1..] == xs[1..] + ys;
      WalkConcat(from.entries[xs[0]], xs[1..], ys);
    }
  }

  /** Resolving p.q is resolving q from the node that p resolves to. */
  lemma ResolveComposes(root: Node, p: string, q: string)
    ensures Walk(root, Split(p + "." + q)) ==
      match Walk(root, Split(p)) case None => None case Some(n) => Walk(n, Split(q))
  {
    SplitConcat(p, q);
    WalkConcat(root, Split(p), Split(q));
  }

  /** A list of keys can be addressed: some path resolves as walking the keys does,
      in every document. */
  ghost predicate Addressable(keys: seq<string>) {
    exists dotted :: Addresses(dotted, keys)
  }

  ghost predicate Addresses(dotted: string, keys: seq<string>) {
    forall root: Node :: SameNode(root, dotted, keys)
  }

  ghost predicate SameNode(root: Node, dotted: string, keys: seq<string>) {
    Walk(root, Split(dotted)) == Walk(root, keys)
  }

  /** A document in which exactly one list of keys leads to a leaf. */
  function Spine(keys: seq<string>): Node {
    if keys == [] then Other("leaf") else Table(map[keys[0] := Spine(keys[1..])])
  }

  lemma {:induction false} SpineLeads(keys: seq<string>, other: seq<string>)
    ensures Walk(Spine(keys), other) == Some(Other("leaf")) <==> other == keys
    decreases |keys|
  {
    if keys != [] && other != [] {
      SpineLeads(keys[1..], other[1..]);
      assert keys == [keys[0]] + keys[1..] && other == [other[0]] + other[1..];
    }
  }

  /** Exactly the non-empty lists of dot-free keys can be addressed: a key that
      contains a dot, and the document itself, are out of reach. */
  lemma AddressableIffDotFree(keys: seq<string>)
    ensures Addressable(keys) <==> keys != [] && forall k :: k in keys ==> '.' !in k
  {
    if keys != [] && forall k :: k in keys ==> '.' !in k {
      SplitJoin(keys);
      assert Addresses(Join(keys), keys);
    }
    if Addressable(keys) {
      var dotted :| Addresses(dotted, keys);
      assert SameNode(Spine(keys), dotted, keys);
      SpineLeads(keys, keys);
      SpineLeads(keys, Split(dotted));
      JoinSplit(dotted);
    }
  }

  // ---- When resolving fails ----

  /** `nodes` are the stations on the way from a node along the keys. */
  ghost predicate IsTrail(from: Node, keys: seq<string>, nodes: seq<Node>) {
    && |nodes| == |keys| + 1 && nodes[0] == from
    && forall k :: 0 <= k < |keys| ==> Holds(nodes[k], keys[k], nodes[k + 1])
  }

  /** The node is a table with this entry. */
  ghost predicate Holds(table: Node, key: string, entry: Node) {
    table.Table? && key in table.entries && table.entries[key] == entry
  }

  lemma {:induction false} WalkLeavesTrail(from: Node, keys: seq<string>) returns (nodes: seq<Node>)
    requires Walk(from, keys).Some?
    ensures IsTrail(from, keys, nodes) && nodes[|keys|] == Walk(from, keys).value
    decreases |keys|
  {
    nodes := [from];
    if keys != [] {
      var rest := WalkLeavesTrail(from.entries[keys[0]], keys[1..]);
      nodes := [from] + rest;
      forall k | 0 <= k < |keys| ensures Holds(nodes[k], keys[k], nodes[k + 1]) {
        if k > 0 { assert Holds(rest[k - 1], keys[1..][k - 1], rest[k]); }
      }
    }
  }

  lemma {:induction false} TrailIsWalked(from: Node, keys: seq<string>, nodes: seq<Node>)
    requires IsTrail(from, keys, nodes)
    ensures Walk(from, keys) == Some(nodes[|keys|])
    decreases |keys|
  {
    if keys != [] {
      assert Holds(nodes[0], keys[0], nodes[1]);
      forall k | 0 <= k < |keys[1..]| ensures Holds(nodes[1..][k], keys[1..][k], nodes[1..][k + 1]) {
        assert Holds(nodes[k + 1], keys[k + 1], nodes[k + 2]);
      }
      TrailIsWalked(nodes[1], keys[1..], nodes[1..]);
    }
  }

  /** A path resolves to a node iff a trail of table entries, one for each part, leads
      from the document to that node. */
  lemma ResolvedIffTrail(root: Node, dotted: string, node: Node)
    ensures Walk(root, Split(dotted)) == Some(node) <==>
      exists nodes :: IsTrail(root, Split(dotted), nodes) && nodes[|Split(dotted)|] == node
  {
    var keys := Split(dotted);
    if Walk(root, keys) == Some(node) {
      var nodes := WalkLeavesTrail(root, keys);
    }
    if nodes :| IsTrail(root, keys, nodes) && nodes[|keys|] == node {
      TrailIsWalked(root, keys, nodes);
    }
  }

  ghost predicate Offers(node: Node, key: string) {
    node.Table? && key in node.entries
  }

  /** After the first n keys there is a node, and it is no table or lacks the next key. */
  ghost predicate StuckAt(from: Node, keys: seq<string>, n: nat) {
    && n < |keys|
    && exists nodes :: IsTrail(from, keys[..n], nodes) && !Offers(nodes[n], keys[n])
  }

  lemma {:induction false} NoneMeansStuck(from: Node, keys: seq<string>) returns (n: nat)
    requires Walk(from, keys).None?
    ensures StuckAt(from, keys, n)
    decreases |keys|
  {
    n := 0;
    if from.Table? && keys[0] in from.entries {
      var m := NoneMeansStuck(from.entries[keys[0]], keys[1..]);
      var rest :| IsTrail(from.entries[keys[0]], keys[1..][..m], rest)
                  && !Offers(rest[m], keys[1..][m]);
      n := m + 1;
      assert keys[1..][..m] == keys[..n][1..];
      var nodes := [from] + rest;
      forall k | 0 <= k < n ensures Holds(nodes[k], keys[..n][k], nodes[k + 1]) {
        if k > 0 { assert Holds(rest[k - 1], keys[1..][..m][k - 1], rest[k]); }
      }
      assert IsTrail(from, keys[..n], nodes);
    } else {
      assert IsTrail(from, keys[..0], [from]);
    }
  }

  /** Resolving fails iff some part finds no table or no such entry. */
  lemma FailsIffStuck(root: Node, dotted: string)
    ensures Walk(root, Split(dotted)).None? <==> exists n :: StuckAt(root, Split(dotted), n)
  {
    var keys := Split(dotted);
    if Walk(root, keys).None? {
      var n := NoneMeansStuck(root, keys);
    }
    if n: nat :| StuckAt(root, keys, n) {
      var nodes :| IsTrail(root, keys[..n], nodes) && !Offers(nodes[n], keys[n]);
      TrailIsWalked(root, keys[..n], nodes);
      WalkConcat(root, keys[..n], keys[n..]);
      assert keys[..n] + keys[n..] == keys;
    }
  }
}
