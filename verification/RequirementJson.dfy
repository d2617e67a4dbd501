/** The compact JSON text of a requirement set and a strict parser for it
    (internal/artifactrequirements/set.go). The shape is that of sections 4 to 7 of
    RFC 8259 without insignificant white space; empty lists are printed as null. */
module RequirementJson {
  import opened Common
  import opened RequirementSet

  // ------------------------------------------------------------------ printer

  /** Characters that a JSON string shows as they are, and that the encoder does
      not escape for embedding in HTML either. */
  predicate Plain(c: char) {
    ' ' <= c <= '~' && c != '"' && c != '\\' && c != '<' && c != '>' && c != '&'
  }

  predicate AllPlain(s: string) {
    forall i :: 0 <= i < |s| ==> Plain(s[i])
  }

  function PrintString(v: string): string {
    "\"" + v + "\""
  }

  function PrintNumber(n: int): string
    decreases n < 0, if n < 0 then -n else n
  {
    if n < 0 then "-" + PrintNumber(-n)
    else if n < 10 then [('0' as int + n) as char]
    else PrintNumber(n / 10) + PrintNumber(n % 10)
  }

  function PrintStrings(vs: seq<string>): string
    requires vs != []
  {
    PrintString(vs[0]) + if |vs| == 1 then "]" else "," + PrintStrings(vs[1..])
  }

  function PrintRequirement(r: Requirement): string {
    "{\"id\":" + (PrintString(r.id) + (",\"revision\":" + (PrintString(r.revision) + "}")))
  }

  function PrintRequirements(rs: seq<Requirement>): string
    requires rs != []
  {
    PrintRequirement(rs[0]) + if |rs| == 1 then "]" else "," + PrintRequirements(rs[1..])
  }

  function PrintList(rs: seq<Requirement>): string {
    if rs == [] then "null" else "[" + PrintRequirements(rs)
  }

  const DISTROS_KEY := "\"distros\":["
  const ARCHITECTURES_KEY := "\"architectures\":["

  /** A target with no values at all cannot be valid; its members are omitted
      when they are empty. */
  function PrintTarget(t: TargetPredicate): string {
    if t.distros == [] then
      if t.architectures == [] then "}" else ARCHITECTURES_KEY + (PrintStrings(t.architectures) + "}")
    else
      DISTROS_KEY + (PrintStrings(t.distros) +
        (if t.architectures == [] then "}" else "," + (ARCHITECTURES_KEY + (PrintStrings(t.architectures) + "}"))))
  }

  function PrintOptionalTarget(t: Option<TargetPredicate>): string {
    if t.None? then "" else ",\"target\":{" + PrintTarget(t.value)
  }

  const VERSION_KEY := "{\"version\":"
  const SCHEMA_KEY := ",\"artifactSchemaVersion\":"
  const TARGET_KEY := ",\"target\":{"
  const RESOURCES_KEY := ",\"resourceCapabilities\":"
  const PROVIDERS_KEY := ",\"providerCapabilities\":"

  function PrintLists(s: Set): string {
    RESOURCES_KEY + (PrintList(s.resources) + (PROVIDERS_KEY + (PrintList(s.providers) + "}")))
  }

  function Print(s: Set): string {
    VERSION_KEY + (PrintNumber(s.version) + (SCHEMA_KEY + (PrintNumber(s.schemaVersion) +
      (PrintOptionalTarget(s.target) + PrintLists(s)))))
  }

  // ------------------------------------------------------------------- parser

  type Parsed<T> = Option<(T, string)>

  function Expect(lit: string, s: string): Option<string> {
    if lit <= s then Some(s[|lit|..]) else None
  }

  function ParseStringBody(s: string): Parsed<string> {
    if s == "" then None
    else if s[0] == '"' then Some(("", s[1..]))
    else if !Plain(s[0]) then None
    else
      var rest := ParseStringBody(s[1..]);
      if rest.None? then None else Some(([s[0]] + rest.value.0, rest.value.1))
  }

  function ParseString(s: string): (r: Parsed<string>)
    ensures r.Some? ==> |r.value.1| < |s|
  {
    var body := Expect("\"", s);
    if body.None? then None
    else
      StringBodyShrinks(body.value);
      ParseStringBody(body.value)
  }

  lemma {:induction false} StringBodyShrinks(s: string)
    ensures ParseStringBody(s).Some? ==> |ParseStringBody(s).value.1| < |s|
  {
    if s != "" {
      StringBodyShrinks(s[1..]);
    }
  }

  /** The digits of a number without a leading zero. */
  function ParseDigits(s: string, acc: nat): (nat, string) {
    if s != "" && Digit(s[0]) then ParseDigits(s[1..], 10 * acc + (s[0] as int - '0' as int)) else (acc, s)
  }

  function ParseNumber(s: string): Parsed<int> {
    if s == "" || !Digit(s[0]) then None
    else if s[0] == '0' then Some((0, s[1..]))
    else Some(ParseDigits(s, 0))
  }

  /** The elements of a list of strings and its closing bracket. */
  function ParseStrings(s: string): Parsed<seq<string>>
    decreases |s|
  {
    var v := ParseString(s);
    if v.None? || v.value.1 == "" then None
    else if v.value.1[0] == ']' then Some(([v.value.0], v.value.1[1..]))
    else if v.value.1[0] != ',' then None
    else
      var more := ParseStrings(v.value.1[1..]);
      if more.None? then None else Some(([v.value.0] + more.value.0, more.value.1))
  }

  function ParseRequirement(s: string): (r: Parsed<Requirement>)
    ensures r.Some? ==> |r.value.1| < |s|
  {
    var a := Expect("{\"id\":", s);
    if a.None? then None else
    var id := ParseString(a.value);
    if id.None? then None else
    var b := Expect(",\"revision\":", id.value.1);
    if b.None? then None else
    var revision := ParseString(b.value);
    if revision.None? then None else
    var c := Expect("}", revision.value.1);
    if c.None? then None else Some((Requirement(id.value.0, revision.value.0), c.value))
  }

  /** The elements of a list of requirements and its closing bracket. */
  function ParseRequirements(s: string): Parsed<seq<Requirement>>
    decreases |s|
  {
    var v := ParseRequirement(s);
    if v.None? || v.value.1 == "" then None
    else if v.value.1[0] == ']' then Some(([v.value.0], v.value.1[1..]))
    else if v.value.1[0] != ',' then None
    else
      var more := ParseRequirements(v.value.1[1..]);
      if more.None? then None else Some(([v.value.0] + more.value.0, more.value.1))
  }

  function ParseList(s: string): Parsed<seq<Requirement>> {
    var none := Expect("null", s);
    if none.Some? then Some(([], none.value))
    else
      var items := Expect("[", s);
      if items.None? then None else ParseRequirements(items.value)
  }

  function ParseArchitectures(s: string, distros: seq<string>): Parsed<TargetPredicate> {
    var a := Expect(ARCHITECTURES_KEY, s);
    if a.None? then None else
    var values := ParseStrings(a.value);
    if values.None? then None else
    var z := Expect("}", values.value.1);
    if z.None? then None else Some((TargetPredicate(distros, values.value.0), z.value))
  }

  function ParseTarget(s: string): Parsed<TargetPredicate> {
    var d := Expect(DISTROS_KEY, s);
    if d.None? then ParseArchitectures(s, []) else
    var distros := ParseStrings(d.value);
    if distros.None? then None else
    var z := Expect("}", distros.value.1);
    if z.Some? then Some((TargetPredicate(distros.value.0, []), z.value)) else
    var more := Expect(",", distros.value.1);
    if more.None? then None else ParseArchitectures(more.value, distros.value.0)
  }

  function ParseOptionalTarget(s: string): Parsed<Option<TargetPredicate>> {
    var t := Expect(TARGET_KEY, s);
    if t.None? then Some((None, s)) else
    var target := ParseTarget(t.value);
    if target.None? then None else Some((Some(target.value.0), target.value.1))
  }

  /** The two lists, the closing brace, and the end of the text. */
  function ParseLists(s: string): Option<(seq<Requirement>, seq<Requirement>)> {
    var a := Expect(RESOURCES_KEY, s);
    if a.None? then None else
    var resources := ParseList(a.value);
    if resources.None? then None else
    var b := Expect(PROVIDERS_KEY, resources.value.1);
    if b.None? then None else
    var providers := ParseList(b.value);
    if providers.None? || providers.value.1 != "}" then None
    else Some((resources.value.0, providers.value.0))
  }

  function Parse(s: string): Option<Set> {
    var a := Expect(VERSION_KEY, s);
    if a.None? then None else
    var version := ParseNumber(a.value);
    if version.None? then None else
    var b := Expect(SCHEMA_KEY, version.value.1);
    if b.None? then None else
    var schema := ParseNumber(b.value);
    if schema.None? then None else
    var target := ParseOptionalTarget(schema.value.1);
    if target.None? then None else
    var lists := ParseLists(target.value.1);
    if lists.None? then None
    else Some(Set(version.value.0, schema.value.0, target.value.0, lists.value.0, lists.value.1))
  }

  // --------------------------------------------------------------- round trip

  lemma ExpectHere(lit: string, rest: string)
    ensures Expect(lit, lit + rest) == Some(rest)
  {
    assert (lit + rest)[|lit|..] == rest;
  }

  lemma ExpectOther(lit: string, s: string)
    requires lit != "" && (s == "" || s[0] != lit[0])
    ensures Expect(lit, s) == None
  {
  }

  lemma {:induction false} StringBodyRoundTrip(v: string, rest: string)
    requires AllPlain(v)
    ensures ParseStringBody(v + ("\"" + rest)) == Some((v, rest))
  {
    var s := v + ("\"" + rest);
    if v == "" {
      assert s == "\"" + rest && s[1..] == rest;
    } else {
      StringBodyRoundTrip(v[1..], rest);
      assert s[1..] == v[1..] + ("\"" + rest);
      assert v == [v[0]] + v[1..];
    }
  }

  lemma StringRoundTrip(v: string, rest: string)
    requires AllPlain(v)
    ensures ParseString(PrintString(v) + rest) == Some((v, rest))
  {
    assert PrintString(v) + rest == "\"" + (v + ("\"" + rest));
    ExpectHere("\"", v + ("\"" + rest));
    StringBodyRoundTrip(v, rest);
  }

  lemma {:induction false} StringsRoundTrip(vs: seq<string>, rest: string)
    requires vs != [] && forall i :: 0 <= i < |vs| ==> AllPlain(vs[i])
    ensures ParseStrings(PrintStrings(vs) + rest) == Some((vs, rest))
  {
    if |vs| == 1 {
      assert PrintStrings(vs) + rest == PrintString(vs[0]) + ("]" + rest);
      StringRoundTrip(vs[0], "]" + rest);
      assert ("]" + rest)[1..] == rest && vs == [vs[0]];
    } else {
      var more := "," + (PrintStrings(vs[1..]) + rest);
      assert PrintStrings(vs) + rest == PrintString(vs[0]) + more;
      StringRoundTrip(vs[0], more);
      assert more[1..] == PrintStrings(vs[1..]) + rest;
      StringsRoundTrip(vs[1..], rest);
      assert vs == [vs[0]] + vs[1..];
    }
  }

  predicate PlainRequirement(r: Requirement) {
    AllPlain(r.id) && AllPlain(r.revision)
  }

  lemma RequirementRoundTrip(r: Requirement, rest: string)
    requires PlainRequirement(r)
    ensures ParseRequirement(PrintRequirement(r) + rest) == Some((r, rest))
  {
    var c := "}" + rest;
    var b := PrintString(r.revision) + c;
    var a := PrintString(r.id) + (",\"revision\":" + b);
    assert PrintRequirement(r) + rest == "{\"id\":" + a;
    ExpectHere("{\"id\":", a);
    StringRoundTrip(r.id, ",\"revision\":" + b);
    ExpectHere(",\"revision\":", b);
    StringRoundTrip(r.revision, c);
    ExpectHere("}", rest);
  }

  lemma Reassociate(head: string, mid: string, rest: string)
    ensures (head + mid) + rest == head + (mid + rest)
  {
  }

  lemma LastRequirementRoundTrip(r: Requirement, rest: string)
    requires PlainRequirement(r)
    ensures ParseRequirements(PrintRequirements([r]) + rest) == Some(([r], rest))
  {
    Reassociate(PrintRequirement(r), "]", rest);
    RequirementRoundTrip(r, "]" + rest);
    assert ("]" + rest)[1..] == rest;
  }

  lemma {:induction false} RequirementsRoundTrip(rs: seq<Requirement>, rest: string)
    requires rs != [] && forall i :: 0 <= i < |rs| ==> PlainRequirement(rs[i])
    ensures ParseRequirements(PrintRequirements(rs) + rest) == Some((rs, rest))
  {
    assert rs == [rs[0]] + rs[1..];
    if |rs| == 1 {
      assert rs == [rs[0]];
      LastRequirementRoundTrip(rs[0], rest);
    } else {
      var tail := "," + PrintRequirements(rs[1..]);
      Reassociate(PrintRequirement(rs[0]), tail, rest);
      RequirementRoundTrip(rs[0], tail + rest);
      assert (tail + rest)[1..] == PrintRequirements(rs[1..]) + rest;
      RequirementsRoundTrip(rs[1..], rest);
    }
  }

  lemma ListRoundTrip(rs: seq<Requirement>, rest: string)
    requires forall i :: 0 <= i < |rs| ==> PlainRequirement(rs[i])
    ensures ParseList(PrintList(rs) + rest) == Some((rs, rest))
  {
    if rs == [] {
      ExpectHere("null", rest);
    } else {
      assert PrintList(rs) + rest == "[" + (PrintRequirements(rs) + rest);
      ExpectOther("null", "[" + (PrintRequirements(rs) + rest));
      ExpectHere("[", PrintRequirements(rs) + rest);
      RequirementsRoundTrip(rs, rest);
    }
  }

  ghost predicate PlainTarget(t: TargetPredicate) {
    && (t.distros != [] || t.architectures != [])
    && (forall i :: 0 <= i < |t.distros| ==> AllPlain(t.distros[i]))
    && (forall i :: 0 <= i < |t.architectures| ==> AllPlain(t.architectures[i]))
  }

  lemma ArchitecturesRoundTrip(t: TargetPredicate, rest: string)
    requires PlainTarget(t) && t.architectures != []
    ensures ParseArchitectures(ARCHITECTURES_KEY + (PrintStrings(t.architectures) + ("}" + rest)), t.distros)
            == Some((t, rest))
  {
    ExpectHere(ARCHITECTURES_KEY, PrintStrings(t.architectures) + ("}" + rest));
    StringsRoundTrip(t.architectures, "}" + rest);
    ExpectHere("}", rest);
  }

  lemma NoDistrosRoundTrip(t: TargetPredicate, rest: string)
    requires PlainTarget(t) && t.distros == []
    ensures ParseTarget(PrintTarget(t) + rest) == Some((t, rest))
  {
    var archs := ARCHITECTURES_KEY + (PrintStrings(t.architectures) + ("}" + rest));
    assert PrintTarget(t) + rest == archs;
    assert archs[1] != DISTROS_KEY[1];
    ArchitecturesRoundTrip(t, rest);
  }

  lemma OnlyDistrosRoundTrip(t: TargetPredicate, rest: string)
    requires PlainTarget(t) && t.distros != [] && t.architectures == []
    ensures ParseTarget(PrintTarget(t) + rest) == Some((t, rest))
  {
    var tail := "}" + rest;
    assert PrintTarget(t) + rest == DISTROS_KEY + (PrintStrings(t.distros) + tail);
    ExpectHere(DISTROS_KEY, PrintStrings(t.distros) + tail);
    StringsRoundTrip(t.distros, tail);
    ExpectHere("}", rest);
  }

  lemma BothListsRoundTrip(t: TargetPredicate, rest: string)
    requires PlainTarget(t) && t.distros != [] && t.architectures != []
    ensures ParseTarget(PrintTarget(t) + rest) == Some((t, rest))
  {
    var archs := ARCHITECTURES_KEY + (PrintStrings(t.architectures) + ("}" + rest));
    var tail := "," + archs;
    assert PrintTarget(t) + rest == DISTROS_KEY + (PrintStrings(t.distros) + tail);
    ExpectHere(DISTROS_KEY, PrintStrings(t.distros) + tail);
    StringsRoundTrip(t.distros, tail);
    ExpectOther("}", tail);
    ExpectHere(",", archs);
    ArchitecturesRoundTrip(t, rest);
  }

  lemma TargetRoundTrip(t: TargetPredicate, rest: string)
    requires PlainTarget(t)
    ensures ParseTarget(PrintTarget(t) + rest) == Some((t, rest))
  {
    if t.distros == [] {
      NoDistrosRoundTrip(t, rest);
    } else if t.architectures == [] {
      OnlyDistrosRoundTrip(t, rest);
    } else {
      BothListsRoundTrip(t, rest);
    }
  }

  lemma OptionalTargetRoundTrip(t: Option<TargetPredicate>, lists: string)
    requires t.Some? ==> PlainTarget(t.value)
    ensures ParseOptionalTarget(PrintOptionalTarget(t) + (RESOURCES_KEY + lists)) == Some((t, RESOURCES_KEY + lists))
  {
    var rest := RESOURCES_KEY + lists;
    if t.None? {
      assert PrintOptionalTarget(t) + rest == rest;
      assert rest[2] == 'r' && TARGET_KEY[2] == 't';
    } else {
      assert PrintOptionalTarget(t) + rest == TARGET_KEY + (PrintTarget(t.value) + rest);
      ExpectHere(TARGET_KEY, PrintTarget(t.value) + rest);
      TargetRoundTrip(t.value, rest);
    }
  }

  lemma ListsRoundTrip(s: Set)
    requires forall i :: 0 <= i < |s.resources| ==> PlainRequirement(s.resources[i])
    requires forall i :: 0 <= i < |s.providers| ==> PlainRequirement(s.providers[i])
    ensures ParseLists(PrintLists(s)) == Some((s.resources, s.providers))
  {
    var b := PrintList(s.providers) + "}";
    var a := PrintList(s.resources) + (PROVIDERS_KEY + b);
    ExpectHere(RESOURCES_KEY, a);
    ListRoundTrip(s.resources, PROVIDERS_KEY + b);
    ExpectHere(PROVIDERS_KEY, b);
    ListRoundTrip(s.providers, "}");
  }

  /** A one-digit number followed by a comma. */
  lemma NumberRoundTrip(n: int, rest: string)
    requires 0 <= n < 10 && rest != "" && !Digit(rest[0])
    ensures ParseNumber(PrintNumber(n) + rest) == Some((n, rest))
  {
    var s := PrintNumber(n) + rest;
    assert s[0] == ('0' as int + n) as char && s[1..] == rest;
    assert ParseDigits(rest, n) == (n, rest);
  }

  // Valid sets consist of plain text.

  lemma {:induction false} IdTailIsPlain(s: string, separated: bool)
    requires IdTail(s, separated)
    ensures AllPlain(s)
  {
    if s != "" {
      if Lower(s[0]) || Digit(s[0]) {
        IdTailIsPlain(s[1..], false);
      } else {
        IdTailIsPlain(s[1..], true);
      }
      assert s == [s[0]] + s[1..];
    }
  }

  lemma {:induction false} WordTailIsPlain(s: string, separated: bool)
    requires WordTail(s, separated)
    ensures AllPlain(s)
  {
    if s != "" {
      if Letter(s[0]) || Digit(s[0]) {
        WordTailIsPlain(s[1..], false);
      } else {
        WordTailIsPlain(s[1..], true);
      }
      assert s == [s[0]] + s[1..];
    }
  }

  lemma {:induction false} NumberIsPlain(s: string, dots: nat)
    ensures NumberTail(s, dots) || Component(s, dots) ==> AllPlain(s)
    decreases |s|
  {
    if s != "" {
      NumberIsPlain(s[1..], dots);
      if dots > 0 {
        NumberIsPlain(s[1..], dots - 1);
        if |s| > 1 {
          NumberIsPlain(s[2..], dots - 1);
          assert s == [s[0], s[1]] + s[2..];
        }
      }
      assert s == [s[0]] + s[1..];
    }
  }

  lemma ContractIsPlain(r: Requirement, prefix: string)
    requires ValidContract(r, prefix)
    ensures PlainRequirement(r)
  {
    IdTailIsPlain(r.id[1..], false);
    assert r.id == [r.id[0]] + r.id[1..];
    if r.revision != "0" {
      assert r.revision == [r.revision[0]] + r.revision[1..];
      NumberIsPlain(r.revision[1..], 2);
      if Letter(r.revision[0]) {
        WordTailIsPlain(r.revision[1..], false);
      }
    }
  }

  lemma ValidIsPlain(s: Set)
    requires Valid(s)
    ensures s.target.Some? ==> PlainTarget(s.target.value)
    ensures forall i :: 0 <= i < |s.resources| ==> PlainRequirement(s.resources[i])
    ensures forall i :: 0 <= i < |s.providers| ==> PlainRequirement(s.providers[i])
  {
    forall i | 0 <= i < |s.resources| ensures PlainRequirement(s.resources[i]) {
      ContractIsPlain(s.resources[i], "resource:");
    }
    forall i | 0 <= i < |s.providers| ensures PlainRequirement(s.providers[i]) {
      ContractIsPlain(s.providers[i], "provider:");
    }
  }

  /** Parsing what was printed gives the set back, whatever its order. */
  lemma PrintThenParse(s: Set)
    requires Valid(s)
    ensures Parse(Print(s)) == Some(s)
  {
    ValidIsPlain(s);
    var lists := PrintLists(s);
    var c := PrintOptionalTarget(s.target) + lists;
    var b := PrintNumber(s.schemaVersion) + c;
    var a := PrintNumber(s.version) + (SCHEMA_KEY + b);
    assert Print(s) == VERSION_KEY + a;
    ExpectHere(VERSION_KEY, a);
    NumberRoundTrip(s.version, SCHEMA_KEY + b);
    ExpectHere(SCHEMA_KEY, b);
    assert c != "" && c[0] == ',';
    NumberRoundTrip(s.schemaVersion, c);
    OptionalTargetRoundTrip(s.target, PrintList(s.resources) + (PROVIDERS_KEY + (PrintList(s.providers) + "}")));
    ListsRoundTrip(s);
  }
}
