/** The flag lists and diagnostics excerpts of the orchestrator. */
module Flags {
  import opened Common

  const STEPS := "-fconstexpr-steps"
  const OPS := "-fconstexpr-ops-limit"
  const REFLECTION := "-freflection"

  predicate Starts(flag: string, prefix: string) {
    prefix <= flag
  }

  /** One flag in the spelling of the gcc backend. */
  function Translated(flag: string): string {
    if Starts(flag, STEPS + "=") then OPS + "=" + flag[|STEPS| + 1..] else flag
  }

  function TranslatedAll(flags: seq<string>, gcc: bool): (r: seq<string>)
    ensures |r| == |flags| && forall i :: 0 <= i < |r| ==> r[i] == if gcc then Translated(flags[i]) else flags[i]
  {
    seq(|flags|, i requires 0 <= i < |flags| => if gcc then Translated(flags[i]) else flags[i])
  }

  method TranslateCflags(flags: seq<string>, gcc: bool) returns (out: seq<string>)
    ensures out == TranslatedAll(flags, gcc)
  {
    if !gcc {
      return flags;
    }
    out := [];
    for i := 0 to |flags|
      invariant |out| == i && forall j :: 0 <= j < i ==> out[j] == Translated(flags[j])
    {
      var f := flags[i];
      if Starts(f, STEPS + "=") {
        out := out + [OPS + "=" + f[|STEPS| + 1..]];
      } else {
        out := out + [f];
      }
    }
  }

  predicate ReflectionOnly(flag: string) {
    Starts(flag, STEPS) || Starts(flag, OPS) || Starts(flag, REFLECTION)
  }

  function Strip(flags: seq<string>): seq<string> {
    if flags == [] then []
    else (if ReflectionOnly(flags[0]) then [] else [flags[0]]) + Strip(flags[1..])
  }

  lemma TranslationKeepsKind(flag: string)
    ensures ReflectionOnly(Translated(flag)) <==> ReflectionOnly(flag)
    ensures !ReflectionOnly(flag) ==> Translated(flag) == flag
  {
    if Starts(flag, STEPS + "=") {
      assert flag[..|STEPS|] == (STEPS + "=")[..|STEPS|] == STEPS;
      assert Starts(Translated(flag), OPS);
    }
  }

  lemma {:induction false} StripKeepsOthers(flags: seq<string>, f: string)
    ensures f in Strip(flags) <==> f in flags && !ReflectionOnly(f)
    decreases |flags|
  {
    if flags != [] {
      StripKeepsOthers(flags[1..], f);
      assert flags == [flags[0]] + flags[1..];
    }
  }

  lemma {:induction false} StripTranslated(flags: seq<string>, gcc: bool)
    ensures Strip(TranslatedAll(flags, gcc)) == Strip(flags)
    decreases |flags|
  {
    if flags != [] {
      StripTranslated(flags[1..], gcc);
      TranslationKeepsKind(flags[0]);
      assert TranslatedAll(flags, gcc)[1..] == TranslatedAll(flags[1..], gcc);
    }
  }

  /** The production compile sees the same flags whether or not they were translated
      first, and none of them is for reflection. */
  lemma StripIgnoresTranslation(flags: seq<string>, gcc: bool)
    ensures Strip(TranslatedAll(flags, gcc)) == Strip(flags)
    ensures forall f :: f in Strip(flags) <==> f in flags && !ReflectionOnly(f)
  {
    StripTranslated(flags, gcc);
    forall f ensures f in Strip(flags) <==> f in flags && !ReflectionOnly(f) {
      StripKeepsOthers(flags, f);
    }
  }

  /** The raised budget of constant evaluation keeps its value, whatever that is, and
      no other flag is touched. */
  lemma TranslationRespells(value: string, other: string)
    requires !("-fconstexpr-steps=" <= other)
    ensures Translated("-fconstexpr-steps=" + value) == "-fconstexpr-ops-limit=" + value
    ensures Translated(other) == other
  {
    assert STEPS + "=" == "-fconstexpr-steps=" && OPS + "=" == "-fconstexpr-ops-limit=";
    assert ("-fconstexpr-steps=" + value)[|STEPS| + 1..] == value;
  }

  /** Stripping judges each flag by itself and keeps the others in order. */
  lemma {:induction false} StripConcat(xs: seq<string>, ys: seq<string>)
    ensures Strip(xs + ys) == Strip(xs) + Strip(ys)
    decreases |xs|
  {
    if xs == [] {
      assert xs + ys == ys;
    } else {
      assert (xs + ys)[1..] == xs[1..] + ys;
      StripConcat(xs[1..], ys);
    }
  }

  lemma StripOne(f: string)
    ensures Strip([f]) ==
      if "-fconstexpr-steps" <= f || "-fconstexpr-ops-limit" <= f || "-freflection" <= f then [] else [f]
  {
    assert [f][1..] == [];
  }

  // ---- first_lines ----

  predicate IsSpace(c: char) {
    c == ' ' || '\t' <= c <= '\r'
  }

  function TrimLeft(s: string): string {
    if s != "" && IsSpace(s[0]) then TrimLeft(s[1..]) else s
  }

  function TrimRight(s: string): string {
    if s != "" && IsSpace(s[|s| - 1]) then TrimRight(s[..|s| - 1]) else s
  }

  function Trim(s: string): string {
    TrimRight(TrimLeft(s))
  }

  ghost predicate AllSpace(s: string) {
    forall c :: c in s ==> c in {' ', '\t', '\n', 11 as char, 12 as char, '\r'}
  }

  lemma {:induction false} TrimLeftCuts(s: string) returns (cut: string)
    ensures s == cut + TrimLeft(s) && AllSpace(cut)
    ensures TrimLeft(s) != "" ==> !IsSpace(TrimLeft(s)[0])
    decreases |s|
  {
    cut := "";
    if s != "" && IsSpace(s[0]) {
      var more := TrimLeftCuts(s[1..]);
      cut := [s[0]] + more;
    }
  }

  lemma {:induction false} TrimRightCuts(s: string) returns (cut: string)
    ensures s == TrimRight(s) + cut && AllSpace(cut) && TrimRight(s) <= s
    ensures TrimRight(s) != "" ==> !IsSpace(TrimRight(s)[|TrimRight(s)| - 1])
    decreases |s|
  {
    cut := "";
    if s != "" && IsSpace(s[|s| - 1]) {
      var more := TrimRightCuts(s[..|s| - 1]);
      cut := more + [s[|s| - 1]];
    }
  }

  /** Trimming cuts white space off both ends, all of it, and nothing else. */
  lemma TrimCutsSpace(s: string) returns (left: string, right: string)
    ensures s == left + Trim(s) + right && AllSpace(left) && AllSpace(right)
    ensures Trim(s) != "" ==> !AllSpace(Trim(s)[..1]) && !AllSpace(Trim(s)[|Trim(s)| - 1..])
  {
    left := TrimLeftCuts(s);
    right := TrimRightCuts(TrimLeft(s));
    var t := Trim(s);
    if t != "" {
      assert t[0] in t[..1] && t[|t| - 1] in t[|t| - 1..];
      assert t[0] == TrimLeft(s)[0];
    }
  }

  /** The lines, trimmed, without the blank ones. */
  function NonBlank(lines: seq<string>): seq<string> {
    if lines == [] then []
    else
      var before, line := NonBlank(lines[..|lines| - 1]), Trim(lines[|lines| - 1]);
      if line != "" then before + [line] else before
  }

  lemma {:induction false} NonBlankHas(lines: seq<string>, d: string)
    ensures d in NonBlank(lines) <==> d != "" && exists i :: 0 <= i < |lines| && d == Trim(lines[i])
    decreases |lines|
  {
    if lines != [] {
      var front := lines[..|lines| - 1];
      NonBlankHas(front, d);
      if d != "" && d in NonBlank(front) {
        var i :| 0 <= i < |front| && d == Trim(front[i]);
        assert lines[i] == front[i];
      }
      if i :| 0 <= i < |front| && d == Trim(lines[i]) {
        assert front[i] == lines[i];
      }
    }
  }

  function Excerpt(lines: seq<string>): seq<string> {
    Distinct(NonBlank(lines))
  }

  lemma ExcerptNext(lines: seq<string>, i: nat)
    requires i < |lines|
    ensures
      var (before, ln) := (Excerpt(lines[..i]), Trim(lines[i]));
      Excerpt(lines[..i + 1]) == if ln != "" && ln !in before then before + [ln] else before
  {
    var before := NonBlank(lines[..i]);
    assert lines[..i + 1][..i] == lines[..i];
    assert (before + [Trim(lines[i])])[..|before|] == before;
  }

  lemma {:induction false} ExcerptIsPrefixed(lines: seq<string>, k: nat)
    requires k <= |lines|
    ensures Excerpt(lines[..k]) <= Excerpt(lines)
    decreases |lines| - k
  {
    if k == |lines| {
      assert lines[..k] == lines;
    } else {
      ExcerptIsPrefixed(lines, k + 1);
      ExcerptNext(lines, k);
    }
  }

  /** What the excerpt is taken from: nothing blank, nothing twice, and exactly the
      lines of the text. */
  lemma ExcerptIsSound(lines: seq<string>)
    ensures NoRepeats(Excerpt(lines))
    ensures forall d :: d in Excerpt(lines) <==> d != "" && exists i :: 0 <= i < |lines| && d == Trim(lines[i])
  {
    DistinctHasAll(NonBlank(lines));
    forall d ensures d in NonBlank(lines) <==> d != "" && exists i :: 0 <= i < |lines| && d == Trim(lines[i]) {
      NonBlankHas(lines, d);
    }
  }

  /** The first n of the distinct lines; asked for none, those of the first line. */
  function FirstOf(lines: seq<string>, n: nat): seq<string> {
    if n == 0 then Excerpt(if lines == [] then [] else lines[..1])
    else if |Excerpt(lines)| <= n then Excerpt(lines)
    else Excerpt(lines)[..n]
  }

  lemma PrefixOfLength<T>(part: seq<T>, whole: seq<T>, n: nat)
    requires part <= whole && |part| == n
    ensures part == if |whole| <= n then whole else whole[..n]
  {}

  /** The first n lines are n of them if there are as many, from the front. */
  lemma FirstOfIsCut(lines: seq<string>, n: nat)
    requires n > 0
    ensures FirstOf(lines, n) <= Excerpt(lines)
    ensures |FirstOf(lines, n)| <= n && (|FirstOf(lines, n)| == n || FirstOf(lines, n) == Excerpt(lines))
  {}

  /** Asked for none it yields what it would if asked for one, of the first line alone. */
  lemma AskedForNone(lines: seq<string>)
    requires lines != []
    ensures FirstOf(lines, 0) == FirstOf(lines[..1], 1) == if Trim(lines[0]) == "" then [] else [Trim(lines[0])]
  {
    assert lines[..0] == [];
    ExcerptNext(lines, 0);
  }

  /** Where the limit is reached the excerpt is complete. */
  lemma LimitReached(lines: seq<string>, i: nat, n: nat)
    requires i < |lines| && |Excerpt(lines[..i + 1])| >= n
    requires if n == 0 then i == 0 else |Excerpt(lines[..i])| < n
    ensures Excerpt(lines[..i + 1]) == FirstOf(lines, n)
  {
    if n > 0 {
      var part := Excerpt(lines[..i + 1]);
      assert |part| == n by { ExcerptNext(lines, i); }
      assert part <= Excerpt(lines) by { ExcerptIsPrefixed(lines, i + 1); }
      PrefixOfLength(part, Excerpt(lines), n);
    }
  }

  /** The limit is looked at after each line, so asked for none the loop still takes
      in the first line of the text. */
  method FirstLines(lines: seq<string>, n: nat) returns (out: seq<string>)
    ensures out == FirstOf(lines, n)
  {
    out := [];
    var seen: set<string> := {};
    for i := 0 to |lines|
      invariant out == Excerpt(lines[..i]) && seen == Elements(out)
      invariant if n == 0 then i == 0 else |out| < n
    {
      ExcerptNext(lines, i);
      var ln := Trim(lines[i]);
      if ln != "" && ln !in seen {
        seen := seen + {ln};
        out := out + [ln];
      }
      if |out| >= n {
        LimitReached(lines, i, n);
        return;
      }
    }
    assert lines[..|lines|] == lines;
  }
}
