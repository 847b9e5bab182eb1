/** A reader of JSON texts that is told nothing about types, after RFC 8259, for the
    part of the language that the writer uses: true and false, integers, objects, and
    names without escapes, without white space. */
module JsonReader {
  import opened Common
  import opened Decimal
  import opened Serde
  import opened SerdeEqual
  import opened SerdeJson

  datatype JsonValue = Truth(b: bool) | Number(n: int) | Object(members: seq<(string, JsonValue)>)

  // ---- The reader: each function returns what it read and the rest of the text ----

  /** The characters before the first quotation mark. */
  function NameLength(s: string): (n: nat)
    ensures n <= |s|
  {
    if s == "" || s[0] == '"' then 0 else 1 + NameLength(s[1..])
  }

  /** Section 4: a name in quotation marks, and a colon. */
  function ReadName(s: string): (r: Option<(string, string)>)
    ensures r.Some? ==> |r.value.1| < |s|
  {
    if s == "" || s[0] != '"' then None
    else
      var n := NameLength(s[1..]);
      if n + 3 <= |s| && s[n + 1] == '"' && s[n + 2] == ':' then Some((s[1..n + 1], s[n + 3..])) else None
  }

  /** Sections 3, 4 and 6. */
  function ReadValue(s: string): (r: Option<(JsonValue, string)>)
    ensures r.Some? ==> |r.value.1| < |s|
    decreases |s|, 1
  {
    if "true" <= s then Some((Truth(true), s[4..]))
    else if "false" <= s then Some((Truth(false), s[5..]))
    else if s != "" && s[0] == '{' then
      if |s| > 1 && s[1] == '}' then Some((Object([]), s[2..]))
      else
        match ReadMembers(s[1..])
        case None => None
        case Some((ms, rest)) => Some((Object(ms), rest))
    else
      var (n, rest) := ParseInt(s);
      if |rest| < |s| && s[|s| - |rest| - 1] != '-' then Some((Number(n), rest)) else None
  }

  /** One member, and the others up to the closing brace. */
  function ReadMembers(s: string): (r: Option<(seq<(string, JsonValue)>, string)>)
    ensures r.Some? ==> |r.value.1| < |s|
    decreases |s|, 0
  {
    match ReadName(s)
    case None => None
    case Some((name, text)) =>
      match ReadValue(text)
      case None => None
      case Some((v, rest)) =>
        if rest != "" && rest[0] == '}' then Some(([(name, v)], rest[1..]))
        else if rest != "" && rest[0] == ',' then
          match ReadMembers(rest[1..])
          case None => None
          case Some((ms, end)) => Some(([(name, v)] + ms, end))
        else None
  }

  // ---- What it reads of the writer's output ----

  /** The names that the reader can tell: identifiers are such names. */
  ghost predicate PlainNames(t: Type) {
    match t
    case Scalar(_) => true
    case Aggregate(fs) => forall i :: 0 <= i < |fs| ==> '"' !in fs[i].name && PlainNames(fs[i].ty)
  }

  /** The object, as anyone would write it down: names and values in declaration order. */
  function Meaning(t: Type, v: Value): JsonValue
    requires Writable(t, v)
    decreases t, 0
  {
    match t
    case Scalar(k) =>
      (match k
       case BoolKind => Truth(v.rep == [1])
       case IntKind(_, signed) => Number(IntOf(v.rep, signed)))
    case Aggregate(fs) => Object(MeaningFrom(t, v, 0))
  }

  function MeaningFrom(t: Type, v: Value, i: nat): seq<(string, JsonValue)>
    requires Writable(t, v) && t.Aggregate? && i <= |t.fields|
    decreases t, 0, |t.fields| - i
  {
    if i == |t.fields| then []
    else
      MemberWritable(t, v, i);
      [(t.fields[i].name, Meaning(t.fields[i].ty, v.members[i]))] + MeaningFrom(t, v, i + 1)
  }

  lemma {:induction false} NameEnds(name: string, rest: string)
    requires '"' !in name
    ensures NameLength(name + "\"" + rest) == |name|
    decreases |name|
  {
    var s := name + "\"" + rest;
    if name != "" {
      assert s[0] == name[0] && name[0] in name;
      assert s[1..] == name[1..] + "\"" + rest;
      NameEnds(name[1..], rest);
    }
  }

  lemma NameIsRead(name: string, text: string)
    requires '"' !in name
    ensures ReadName(("\"" + name + "\":") + text) == Some((name, text))
  {
    var s := ("\"" + name + "\":") + text;
    assert s[1..] == name + "\"" + (":" + text);
    NameEnds(name, ":" + text);
    assert s[1..|name| + 1] == name && s[|name| + 3..] == text;
  }

  /** A numeral begins with neither a letter nor a brace. */
  lemma NumberIsRead(n: int, rest: string)
    requires EndsNumeral(rest)
    ensures ReadValue(ToString(n) + rest) == Some((Number(n), rest))
  {
    var text := ToString(n);
    IntParses(n, rest);
    var s := text + rest;
    assert s[0] == text[0] && (text[0] == '-' || IsDigit(text[0]));
    assert "true"[0] == 't' && "false"[0] == 'f';
    assert s[|text| - 1] == text[|text| - 1] && IsDigit(text[|text| - 1]);
  }

  lemma BoolIsRead(v: Value, rest: string)
    requires Writable(Scalar(BoolKind), v)
    ensures ReadValue(Json(Scalar(BoolKind), v) + rest) == Some((Truth(v.rep == [1]), rest))
  {
    assert v.rep == [v.rep[0]];
    var s := Json(Scalar(BoolKind), v) + rest;
    if v.rep[0] == 1 {
      assert "true" <= s && s[4..] == rest;
    } else {
      assert "false" <= s && s[0] == 'f' && "true"[0] == 't' && s[5..] == rest;
    }
  }

  /** The reader, told nothing, recovers names and values of every object, in order,
      and stops where the text of the object stops. */
  lemma {:induction false} ObjectIsRead(t: Type, v: Value, rest: string)
    requires Writable(t, v) && PlainNames(t) && (t.Scalar? ==> EndsNumeral(rest))
    ensures ReadValue(Json(t, v) + rest) == Some((Meaning(t, v), rest))
    decreases t, 1, 0
  {
    match t
    case Scalar(k) =>
      if k.BoolKind? { BoolIsRead(v, rest); } else { NumberIsRead(IntOf(v.rep, k.signed), rest); }
    case Aggregate(fs) =>
      assert Json(t, v) + rest == "{" + (JsonFrom(t, v, 0) + ("}" + rest));
      if fs == [] {
        EmptyIsRead(rest);
      } else {
        FirstIsName(t, v);
        MembersAreRead(t, v, 0, rest);
        BracesAreRead(JsonFrom(t, v, 0), MeaningFrom(t, v, 0), rest);
      }
  }

  lemma EmptyIsRead(rest: string)
    ensures ReadValue("{" + ("" + ("}" + rest))) == Some((Object([]), rest))
  {
    var s := "{" + ("" + ("}" + rest));
    assert s[0] == '{' && s[1] == '}' && s[2..] == rest;
    assert "true"[0] == 't' && "false"[0] == 'f';
  }

  lemma BracesAreRead(inside: string, ms: seq<(string, JsonValue)>, rest: string)
    requires inside != "" && inside[0] == '"' && ReadMembers(inside + ("}" + rest)) == Some((ms, rest))
    ensures ReadValue("{" + (inside + ("}" + rest))) == Some((Object(ms), rest))
  {
    var s := "{" + (inside + ("}" + rest));
    assert s[0] == '{' && s[1] == '"' && s[1..] == inside + ("}" + rest);
    assert "true"[0] == 't' && "false"[0] == 'f';
  }

  /** The members from the i-th on, without the comma before them. */
  function Bare(t: Type, v: Value, i: nat): string
    requires Writable(t, v) && t.Aggregate? && i < |t.fields|
  {
    MemberWritable(t, v, i);
    ("\"" + t.fields[i].name + "\":") + (Json(t.fields[i].ty, v.members[i]) + JsonFrom(t, v, i + 1))
  }

  lemma BareAfterComma(t: Type, v: Value, i: nat)
    requires Writable(t, v) && t.Aggregate? && i < |t.fields|
    ensures JsonFrom(t, v, i) == (if i == 0 then "" else ",") + Bare(t, v, i)
  {
    JsonUnfolds(t, v, i);
  }

  lemma FirstIsName(t: Type, v: Value)
    requires Writable(t, v) && t.Aggregate? && t.fields != []
    ensures JsonFrom(t, v, 0) != "" && JsonFrom(t, v, 0)[0] == '"'
    ensures JsonFrom(t, v, 0) == Bare(t, v, 0)
  {
    BareAfterComma(t, v, 0);
    assert Bare(t, v, 0)[0] == '"';
  }

  lemma Regrouped(a: string, b: string, c: string, d: string)
    ensures a + (b + c) + d == a + (b + (c + d))
  {}

  /** What follows a member: the closing brace, or a comma and the next one. */
  lemma Following(t: Type, v: Value, i: nat, rest: string)
    requires Writable(t, v) && t.Aggregate? && i < |t.fields|
    ensures
      var after := JsonFrom(t, v, i + 1) + ("}" + rest);
      if i + 1 == |t.fields| then after == "}" + rest
      else after == "," + (Bare(t, v, i + 1) + ("}" + rest))
  {
    if i + 1 < |t.fields| {
      BareAfterComma(t, v, i + 1);
    }
  }

  /** One round of the reader over the members. */
  lemma OneMember(name: string, text: string, after: string, value: JsonValue)
    requires ReadName(("\"" + name + "\":") + (text + after)) == Some((name, text + after))
    requires ReadValue(text + after) == Some((value, after)) && after != ""
    ensures
      var s := ("\"" + name + "\":") + (text + after);
      && (after[0] == '}' ==> ReadMembers(s) == Some(([(name, value)], after[1..])))
      && (after[0] == ',' && ReadMembers(after[1..]).Some? ==>
            var (ms, end) := ReadMembers(after[1..]).value; ReadMembers(s) == Some(([(name, value)] + ms, end)))
  {}

  lemma MeaningUnfolds(t: Type, v: Value, i: nat)
    requires Writable(t, v) && t.Aggregate? && i < |t.fields|
    ensures i < |v.members| && Writable(t.fields[i].ty, v.members[i])
    ensures MeaningFrom(t, v, i) ==
      [(t.fields[i].name, Meaning(t.fields[i].ty, v.members[i]))] + MeaningFrom(t, v, i + 1)
    ensures i + 1 == |t.fields| ==> MeaningFrom(t, v, i) == [(t.fields[i].name, Meaning(t.fields[i].ty, v.members[i]))]
  {
    MemberWritable(t, v, i);
  }

  /** The text of the members from the i-th on, as the reader takes it apart. */
  lemma BareSplits(t: Type, v: Value, i: nat, rest: string)
    requires Writable(t, v) && t.Aggregate? && i < |t.fields|
    ensures i < |v.members| && Writable(t.fields[i].ty, v.members[i])
    ensures
      var after := JsonFrom(t, v, i + 1) + ("}" + rest);
      Bare(t, v, i) + ("}" + rest) ==
        ("\"" + t.fields[i].name + "\":") + (Json(t.fields[i].ty, v.members[i]) + after)
  {
    MemberWritable(t, v, i);
    Regrouped("\"" + t.fields[i].name + "\":", Json(t.fields[i].ty, v.members[i]), JsonFrom(t, v, i + 1), "}" + rest);
  }

  lemma {:induction false} MembersAreRead(t: Type, v: Value, i: nat, rest: string)
    requires Writable(t, v) && PlainNames(t) && t.Aggregate? && i < |t.fields|
    ensures ReadMembers(Bare(t, v, i) + ("}" + rest)) == Some((MeaningFrom(t, v, i), rest))
    decreases t, 0, |t.fields| - i
  {
    MeaningUnfolds(t, v, i);
    BareSplits(t, v, i, rest);
    Following(t, v, i, rest);
    var name, text := t.fields[i].name, Json(t.fields[i].ty, v.members[i]);
    var after := JsonFrom(t, v, i + 1) + ("}" + rest);
    NameIsRead(name, text + after);
    ObjectIsRead(t.fields[i].ty, v.members[i], after);
    OneMember(name, text, after, Meaning(t.fields[i].ty, v.members[i]));
    if i + 1 < |t.fields| {
      MembersAreRead(t, v, i + 1, rest);
      assert after[0] == ',' && after[1..] == Bare(t, v, i + 1) + ("}" + rest);
    } else {
      assert after[0] == '}' && after[1..] == rest;
    }
  }
}
