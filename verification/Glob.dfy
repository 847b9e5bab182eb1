/** The wildcard engine of the matcher spike: `*` and `?` over C strings, with a
    single backtrack point.

    `Matches` is the textbook meaning of a glob.  The engine compares characters
    before it looks for a wildcard, so a `*` in the subject swallows a `*` of the
    pattern as an ordinary character; `Accepts` is that meaning, and `GlobMatch`
    is proved to compute it on every input.  The lemmas relate the two. */
module Glob {
  import opened Common

  /** What a `const char*` denotes: the characters before the terminator. */
  type CString = s: string | '\0' !in s

  /** The character a pointer sees, the terminator included. */
  function At(s: CString, i: nat): (c: char)
    requires i <= |s|
    ensures c == '\0' <==> i == |s|
  {
    if i < |s| then assert s[i] in s; s[i] else '\0'
  }

  /** One pattern character against one subject character, as the engine tests it
      before it considers a wildcard. */
  predicate Literal(c: char, d: char) {
    c == '?' || c == d
  }

  /** Textbook glob: `*` stands for any string, `?` for any one character.
      p[i..] against s[j..]. */
  ghost predicate Matches(p: CString, s: CString, i: nat := 0, j: nat := 0)
    requires i <= |p| && j <= |s|
    decreases |p| - i, 0
  {
    if i == |p| then j == |s|
    else if p[i] == '*' then MatchesFrom(p, s, i + 1, j)
    else j < |s| && Literal(p[i], s[j]) && Matches(p, s, i + 1, j + 1)
  }

  /** p[i..] against some suffix of s[j..]. */
  ghost predicate MatchesFrom(p: CString, s: CString, i: nat, j: nat)
    requires i <= |p|
    decreases |p| - i, 1
  {
    exists k :: j <= k <= |s| && Matches(p, s, i, k)
  }

  /** What one pattern character stands for, as a piece of the subject. */
  ghost predicate StandsFor(c: char, piece: string) {
    if c == '*' then true else if c == '?' then |piece| == 1 else piece == [c]
  }

  /** A cut of a subject into one piece for each pattern character. */
  ghost predicate Covers(p: string, pieces: seq<string>) {
    |pieces| == |p| && forall k :: 0 <= k < |p| ==> StandsFor(p[k], pieces[k])
  }

  function Concat(pieces: seq<string>): string {
    if pieces == [] then "" else pieces[0] + Concat(pieces[1..])
  }

  ghost predicate CanBeCut(p: string, s: string) {
    exists pieces :: Covers(p, pieces) && Concat(pieces) == s
  }

  /** The same, except that a `*` facing a `*` in the subject is a literal. */
  ghost predicate Accepts(p: CString, s: CString, i: nat := 0, j: nat := 0)
    requires i <= |p| && j <= |s|
    decreases |p| - i, 0
  {
    if i == |p| then j == |s|
    else if j < |s| && Literal(p[i], s[j]) then Accepts(p, s, i + 1, j + 1)
    else p[i] == '*' && AcceptsFrom(p, s, i + 1, j)
  }

  ghost predicate AcceptsFrom(p: CString, s: CString, i: nat, j: nat)
    requires i <= |p|
    decreases |p| - i, 1
  {
    exists k :: j <= k <= |s| && Accepts(p, s, i, k)
  }

  // ---- Why remembering only the newest star is enough ----

  /** p[a..i] lies literally on s[x..], one character for one. */
  ghost predicate Aligned(p: CString, s: CString, a: nat, i: nat, x: nat) {
    && a <= i <= |p| && x + (i - a) <= |s|
    && forall t :: a <= t < i ==> Literal(p[t], s[x + (t - a)])
  }

  /** If p[a..i] lies on s[x..], then an acceptance of p[a..] that starts at or
      after x consumes at least as much of s by the time it reaches i. */
  lemma {:induction false} AcceptanceReaches(p: CString, s: CString, a: nat, i: nat, x: nat, k: nat)
    returns (k': nat)
    requires Aligned(p, s, a, i, x) && x <= k <= |s| && Accepts(p, s, a, k)
    ensures x + (i - a) <= k' <= |s| && Accepts(p, s, i, k')
    decreases i - a
  {
    if a == i {
      k' := k;
    } else if k < |s| && Literal(p[a], s[k]) {
      k' := AcceptanceReaches(p, s, a + 1, i, x + 1, k + 1);
    } else {
      var m :| k <= m <= |s| && Accepts(p, s, a + 1, m);
      assert Literal(p[a], s[x]);
      k' := AcceptanceReaches(p, s, a + 1, i, x + 1, m);
    }
  }

  /** A star that faces a non-star can stand in for itself further right. */
  lemma StarSlidesLeft(p: CString, s: CString, i: nat, j: nat, k: nat)
    requires i < |p| && p[i] == '*' && j <= k <= |s| && (j < |s| ==> s[j] != '*')
    requires Accepts(p, s, i, k)
    ensures Accepts(p, s, i, j)
  {
    if k < |s| && Literal(p[i], s[k]) {
      assert Accepts(p, s, i + 1, k + 1);
    }
  }

  /** At the end of the subject only stars may remain. */
  lemma OnlyStarsLeft(p: CString, s: CString, i: nat)
    requires i < |p|
    ensures Accepts(p, s, i, |s|) <==> p[i] == '*' && Accepts(p, s, i + 1, |s|)
  {}

  /** Whatever the remembered star could still accept, the scan accepts from (i, j),
      if the subject ends at j or a newer star stands at i facing a non-star. */
  lemma OlderStarCovered(p: CString, s: CString, i: nat, j: nat, at: nat, anchor: nat)
    requires at < i <= |p| && Aligned(p, s, at + 1, i, anchor) && j == anchor + (i - (at + 1))
    requires j == |s| || (i < |p| && p[i] == '*' && s[j] != '*')
    requires AcceptsFrom(p, s, at + 1, anchor)
    ensures Accepts(p, s, i, j)
  {
    var k :| anchor <= k <= |s| && Accepts(p, s, at + 1, k);
    var k' := AcceptanceReaches(p, s, at + 1, i, anchor, k);
    if j < |s| {
      StarSlidesLeft(p, s, i, j, k');
    }
  }

  // ---- The engine ----

  /** The budget for `anchors` further anchor positions at |p| + 1 rounds each. */
  function Budget(p: CString, anchors: nat): nat {
    if anchors == 0 then 0 else Budget(p, anchors - 1) + |p| + 1
  }

  /** So the whole scan, whose budget is |s| + 2 anchors, is never exponential. */
  lemma {:induction false} BudgetIsProduct(p: CString, anchors: nat)
    ensures Budget(p, anchors) == anchors * (|p| + 1)
  {
    if anchors > 0 {
      BudgetIsProduct(p, anchors - 1);
      assert anchors * (|p| + 1) == (anchors - 1) * (|p| + 1) + (|p| + 1);
    }
  }

  lemma {:induction false} BudgetGrows(p: CString, less: nat, more: nat)
    requires less <= more
    ensures Budget(p, less) <= Budget(p, more)
    decreases more
  {
    if less < more {
      BudgetGrows(p, less, more - 1);
    }
  }

  /** An upper bound on the rounds still to run: each backtrack moves the anchor
      right, and between backtracks the pattern pointer moves right. */
  function Fuel(p: CString, s: CString, i: nat, star: Option<(nat, nat)>): nat
    requires i <= |p| && (star.Some? ==> star.value.1 <= |s|)
  {
    Budget(p, if star.Some? then |s| - star.value.1 else |s| + 1) + (|p| - i)
  }

  /** What the scan keeps at pattern position i and subject position j: since the
      newest star everything lay literally, and the subject is accepted iff it is
      accepted from here or from a later anchor of that star. */
  ghost predicate Scanning(p: CString, s: CString, i: nat, j: nat, star: Option<(nat, nat)>) {
    && i <= |p| && j <= |s|
    && match star
       case None => Accepts(p, s) <==> Accepts(p, s, i, j)
       case Some((at, anchor)) =>
         && at < i && p[at] == '*' && anchor <= j && j - anchor == i - (at + 1)
         && Aligned(p, s, at + 1, i, anchor)
         && (Accepts(p, s) <==> Accepts(p, s, i, j) || AcceptsFrom(p, s, at + 1, anchor + 1))
  }

  lemma OnLiteral(p: CString, s: CString, i: nat, j: nat, star: Option<(nat, nat)>)
    requires Scanning(p, s, i, j, star) && i < |p| && j < |s| && Literal(p[i], s[j])
    ensures Scanning(p, s, i + 1, j + 1, star)
  {}

  lemma OnStar(p: CString, s: CString, i: nat, j: nat, star: Option<(nat, nat)>)
    requires Scanning(p, s, i, j, star)
    requires i < |p| && j < |s| && p[i] == '*' && !Literal(p[i], s[j])
    ensures Scanning(p, s, i + 1, j, Some((i, j)))
    ensures Fuel(p, s, i + 1, Some((i, j))) < Fuel(p, s, i, star)
  {
    if star.Some? && AcceptsFrom(p, s, star.value.0 + 1, star.value.1 + 1) {
      OlderStarCovered(p, s, i, j, star.value.0, star.value.1);
    }
    assert AcceptsFrom(p, s, i + 1, j) <==>
      Accepts(p, s, i + 1, j) || AcceptsFrom(p, s, i + 1, j + 1);
    BudgetGrows(p, |s| - j, if star.Some? then |s| - star.value.1 else |s| + 1);
  }

  lemma OnBacktrack(p: CString, s: CString, i: nat, j: nat, at: nat, anchor: nat)
    requires Scanning(p, s, i, j, Some((at, anchor)))
    requires j < |s| && (i < |p| ==> p[i] != '*' && !Literal(p[i], s[j]))
    ensures Scanning(p, s, at + 1, anchor + 1, Some((at, anchor + 1)))
    ensures Fuel(p, s, at + 1, Some((at, anchor + 1))) < Fuel(p, s, i, Some((at, anchor)))
  {
    assert AcceptsFrom(p, s, at + 1, anchor + 1) <==>
      Accepts(p, s, at + 1, anchor + 1) || AcceptsFrom(p, s, at + 1, anchor + 2);
  }

  lemma OnSubjectEnd(p: CString, s: CString, i: nat, star: Option<(nat, nat)>)
    requires Scanning(p, s, i, |s|, star)
    ensures Accepts(p, s) <==> Accepts(p, s, i, |s|)
  {
    if star.Some? && AcceptsFrom(p, s, star.value.0 + 1, star.value.1 + 1) {
      OlderStarCovered(p, s, i, |s|, star.value.0, star.value.1);
    }
  }

  /** `star` holds the position of the newest star and its anchor in the subject. */
  method GlobMatch(p: CString, s: CString) returns (matched: bool, ghost rounds: nat)
    ensures matched <==> Accepts(p, s)
    ensures rounds <= Budget(p, |s| + 2)
  {
    var i, j := 0, 0;
    var star: Option<(nat, nat)> := None;
    rounds := 0;
    while At(s, j) != '\0'
      invariant Scanning(p, s, i, j, star)
      invariant rounds + Fuel(p, s, i, star) < Budget(p, |s| + 2)
      decreases Fuel(p, s, i, star)
    {
      if At(p, i) == '?' || At(p, i) == At(s, j) {
        OnLiteral(p, s, i, j, star);
        i, j := i + 1, j + 1;
      } else if At(p, i) == '*' {
        OnStar(p, s, i, j, star);
        star := Some((i, j));
        i := i + 1;
      } else if star.Some? {
        var (at, anchor) := star.value;
        OnBacktrack(p, s, i, j, at, anchor);
        i, j, star := at + 1, anchor + 1, Some((at, anchor + 1));
      } else {
        return false, rounds + 1;
      }
      rounds := rounds + 1;
    }
    OnSubjectEnd(p, s, i, star);
    while At(p, i) == '*'
      invariant i <= |p|
      invariant Accepts(p, s) <==> Accepts(p, s, i, |s|)
      decreases |p| - i
    {
      OnlyStarsLeft(p, s, i);
      i := i + 1;
    }
    matched := At(p, i) == '\0';
  }

  // ---- How the engine's meaning relates to the textbook meaning ----

  /** Sound for every subject: what the engine accepts, a glob matches. */
  lemma {:induction false} AcceptedIsMatched(p: CString, s: CString, i: nat := 0, j: nat := 0)
    requires i <= |p| && j <= |s| && Accepts(p, s, i, j)
    ensures Matches(p, s, i, j)
    decreases |p| - i
  {
    if i == |p| {
    } else if j < |s| && Literal(p[i], s[j]) {
      AcceptedIsMatched(p, s, i + 1, j + 1);
    } else {
      var k :| j <= k <= |s| && Accepts(p, s, i + 1, k);
      AcceptedIsMatched(p, s, i + 1, k);
    }
  }

  /** Complete when no star of the pattern can face a star of the subject. */
  lemma {:induction false} MatchedIsAccepted(p: CString, s: CString, i: nat := 0, j: nat := 0)
    requires '*' !in p || '*' !in s
    requires i <= |p| && j <= |s| && Matches(p, s, i, j)
    ensures Accepts(p, s, i, j)
    decreases |p| - i
  {
    if i == |p| {
    } else if p[i] == '*' {
      var k :| j <= k <= |s| && Matches(p, s, i + 1, k);
      MatchedIsAccepted(p, s, i + 1, k);
    } else {
      MatchedIsAccepted(p, s, i + 1, j + 1);
    }
  }

  ghost predicate Agree(p: CString, s: CString) {
    Accepts(p, s) <==> Matches(p, s)
  }

  /** n wildcards for one character each. */
  function AnyOf(n: nat): (r: CString)
    ensures |r| == n && forall t :: 0 <= t < n ==> r[t] == '?'
  {
    if n == 0 then "" else "?" + AnyOf(n - 1)
  }

  /** A run of `?` consumes as many characters, whatever they are. */
  lemma {:induction false} AnyRun(p: CString, s: CString, i: nat, j: nat, n: nat)
    requires i + n <= |p| && j <= |s| && forall t :: i <= t < i + n ==> p[t] == '?'
    ensures Accepts(p, s, i, j) <==> j + n <= |s| && Accepts(p, s, i + n, j + n)
    ensures Matches(p, s, i, j) <==> j + n <= |s| && Matches(p, s, i + n, j + n)
    decreases n
  {
    if n > 0 && j < |s| {
      AnyRun(p, s, i + 1, j + 1, n - 1);
    }
  }

  /** A subject is matched as documented by every pattern iff it holds no `*`. */
  lemma SubjectSafeIffStarFree(s: CString)
    ensures (forall p: CString :: Agree(p, s)) <==> '*' !in s
  {
    if '*' in s {
      var i :| 0 <= i < |s| && s[i] == '*';
      var n := |s| - i;
      var p: CString := AnyOf(i) + "*" + AnyOf(n);
      AnyRun(p, s, 0, 0, i);
      AnyRun(p, s, i + 1, i, n);
      AnyRun(p, s, i + 1, i + 1, n);
      assert Matches(p, s, i + 1, i);
      assert !Agree(p, s);
    } else {
      forall p: CString ensures Agree(p, s) {
        if Accepts(p, s) { AcceptedIsMatched(p, s); }
        if Matches(p, s) { MatchedIsAccepted(p, s); }
      }
    }
  }

  /** p[i..] lies literally on s[j..] to the end of both. */
  lemma {:induction false} LiteralTail(p: CString, s: CString, i: nat, j: nat)
    requires i <= |p| && j <= |s| && p[i..] == s[j..]
    ensures Matches(p, s, i, j)
    decreases |p| - i
  {
    if i < |p| {
      assert p[i] == s[j] by { assert p[i..][0] == s[j..][0]; }
      assert p[i + 1..] == p[i..][1..] == s[j..][1..] == s[j + 1..];
      LiteralTail(p, s, i + 1, j + 1);
    }
  }

  /** Literal pattern characters before `n` carry a match at n back to the start. */
  lemma {:induction false} LiteralHead(p: CString, s: CString, i: nat, n: nat)
    requires i <= n <= |p| && n <= |s| && p[..n] == s[..n] && Matches(p, s, n, n)
    ensures Matches(p, s, i, i)
    decreases n - i
  {
    if i < n {
      assert p[i] == s[i] by { assert p[..n][i] == s[..n][i]; }
      LiteralHead(p, s, i + 1, n);
    }
  }

  /** The engine reads a pattern prefix that lies literally on the subject as is. */
  lemma {:induction false} AcceptsPastLiteral(p: CString, s: CString, i: nat, n: nat)
    requires i <= n <= |p| && n <= |s| && p[..n] == s[..n]
    ensures Accepts(p, s, i, i) <==> Accepts(p, s, n, n)
    decreases n - i
  {
    if i < n {
      assert p[i] == s[i] by { assert p[..n][i] == s[..n][i]; }
      AcceptsPastLiteral(p, s, i + 1, n);
    }
  }

  /** Without stars the lengths must agree. */
  lemma {:induction false} StarFreeLength(p: CString, s: CString, i: nat, j: nat)
    requires i <= |p| && j <= |s| && '*' !in p[i..] && Accepts(p, s, i, j)
    ensures |p| - i == |s| - j
    decreases |p| - i
  {
    if i < |p| {
      assert p[i] in p[i..];
      assert p[i..][1..] == p[i + 1..];
      StarFreeLength(p, s, i + 1, j + 1);
    }
  }

  lemma {:induction false} LastStar(p: CString) returns (l: nat)
    requires '*' in p
    ensures l < |p| && p[l] == '*' && '*' !in p[l + 1..]
  {
    l :| l < |p| && p[l] == '*';
    while '*' in p[l + 1..]
      invariant l < |p| && p[l] == '*'
      decreases |p| - l
    {
      var t :| 0 <= t < |p[l + 1..]| && p[l + 1..][t] == '*';
      l := l + 1 + t;
    }
  }

  /** A pattern is matched as documented on every subject iff it holds no `*`. */
  lemma PatternSafeIffStarFree(p: CString)
    ensures (forall s: CString :: Agree(p, s)) <==> '*' !in p
  {
    if '*' in p {
      var l := LastStar(p);
      var s: CString := p[..l + 1] + "x" + p[l + 1..];
      LiteralTail(p, s, l + 1, l + 2);
      assert Matches(p, s, l, l);
      LiteralHead(p, s, 0, l);
      AcceptsPastLiteral(p, s, 0, l + 1);
      if Accepts(p, s, l + 1, l + 1) { StarFreeLength(p, s, l + 1, l + 1); }
      assert !Agree(p, s);
    } else {
      forall s: CString ensures Agree(p, s) {
        if Accepts(p, s) { AcceptedIsMatched(p, s); }
        if Matches(p, s) { MatchedIsAccepted(p, s); }
      }
    }
  }

  // ---- What a pattern accepts, without the matcher ----

  lemma CutFirst(c: char, p: string, piece: string, s: string)
    requires StandsFor(c, piece) && CanBeCut(p, s)
    ensures CanBeCut([c] + p, piece + s)
  {
    var pieces :| Covers(p, pieces) && Concat(pieces) == s;
    var all := [piece] + pieces;
    assert all[1..] == pieces && ([c] + p)[1..] == p;
    assert Covers([c] + p, all) by {
      forall k | 0 <= k < |all| ensures StandsFor(([c] + p)[k], all[k]) {
        if k > 0 { assert all[k] == pieces[k - 1]; }
      }
    }
    assert Concat(all) == piece + s;
  }

  lemma CutRest(c: char, p: string, s: string) returns (piece: string, rest: string)
    requires CanBeCut([c] + p, s)
    ensures StandsFor(c, piece) && s == piece + rest && CanBeCut(p, rest)
  {
    var all :| Covers([c] + p, all) && Concat(all) == s;
    piece, rest := all[0], Concat(all[1..]);
    assert ([c] + p)[0] == c;
    assert Covers(p, all[1..]) by {
      forall k | 0 <= k < |p| ensures StandsFor(p[k], all[1..][k]) {
        assert ([c] + p)[k + 1] == p[k];
      }
    }
  }

  lemma {:induction false} MatchedCanBeCut(p: CString, s: CString, i: nat, j: nat)
    requires i <= |p| && j <= |s| && Matches(p, s, i, j)
    ensures CanBeCut(p[i..], s[j..])
    decreases |p| - i
  {
    if i == |p| {
      assert Covers(p[i..], []) && Concat([]) == s[j..];
    } else {
      var k: nat;
      if p[i] == '*' {
        k :| j <= k <= |s| && Matches(p, s, i + 1, k);
      } else {
        k := j + 1;
      }
      MatchedCanBeCut(p, s, i + 1, k);
      CutFirst(p[i], p[i + 1..], s[j..k], s[k..]);
      assert [p[i]] + p[i + 1..] == p[i..] && s[j..k] + s[k..] == s[j..];
    }
  }

  lemma {:induction false} CutIsMatched(p: CString, s: CString, i: nat, j: nat)
    requires i <= |p| && j <= |s| && CanBeCut(p[i..], s[j..])
    ensures Matches(p, s, i, j)
    decreases |p| - i
  {
    if i == |p| {
      var pieces :| Covers(p[i..], pieces) && Concat(pieces) == s[j..];
      assert pieces == [];
    } else {
      assert [p[i]] + p[i + 1..] == p[i..];
      var piece, rest := CutRest(p[i], p[i + 1..], s[j..]);
      var k := j + |piece|;
      assert s[k..] == rest;
      assert p[i] != '*' ==> s[j..][0] == piece[0];
      CutIsMatched(p, s, i + 1, k);
    }
  }

  /** A pattern matches a subject iff the subject can be cut into one piece for each
      pattern character: anything for `*`, one character for `?`, itself for any other. */
  lemma MatchesIffCanBeCut(p: CString, s: CString)
    ensures Matches(p, s) <==> CanBeCut(p, s)
  {
    assert p[0..] == p && s[0..] == s;
    if Matches(p, s) { MatchedCanBeCut(p, s, 0, 0); }
    if CanBeCut(p, s) { CutIsMatched(p, s, 0, 0); }
  }

  /** Without `*` the engine compares position by position. */
  lemma {:induction false} StarFreeAccepts(p: CString, s: CString, i: nat, j: nat)
    requires i <= |p| && j <= |s| && '*' !in p[i..]
    ensures Accepts(p, s, i, j) <==>
      |p| - i == |s| - j && forall k :: i <= k < |p| ==> p[k] == '?' || p[k] == s[j + k - i]
    decreases |p| - i
  {
    if i < |p| {
      assert p[i] in p[i..] && p[i + 1..] == p[i..][1..];
      if j < |s| { StarFreeAccepts(p, s, i + 1, j + 1); }
    }
  }

  /** So a pattern without wildcards is accepted by itself alone. */
  lemma LiteralPatternIsItself(p: CString, s: CString, i: nat, j: nat)
    requires i <= |p| && j <= |s| && '*' !in p && '?' !in p
    ensures Accepts(p, s, i, j) <==> p[i..] == s[j..]
  {
    StarFreeAccepts(p, s, i, j);
    forall k | i <= k < |p| ensures p[k] != '?' { assert p[k] in p; }
    if |p| - i == |s| - j {
      assert forall k :: i <= k < |p| ==> p[i..][k - i] == p[k] && s[j..][k - i] == s[j + k - i];
    }
  }
}
