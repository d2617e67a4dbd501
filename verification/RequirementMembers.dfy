/** What a canonical body says to a JSON reader that knows nothing of requirement sets:
    each field of the set under its own name (internal/artifactrequirements/set.go). */
module RequirementMembers {
  import opened Common
  import opened Ordering
  import opened RequirementSet
  import opened RequirementJson
  import opened RequirementCanonical
  import opened Json

  // ------------------------------------------------------------ what it should say

  function RequirementValue(r: Requirement): Value {
    Obj([("id", Str(r.id)), ("revision", Str(r.revision))])
  }

  function RequirementValues(rs: seq<Requirement>): seq<Value> {
    if rs == [] then [] else [RequirementValue(rs[0])] + RequirementValues(rs[1..])
  }

  function ListValue(rs: seq<Requirement>): Value {
    if rs == [] then Null else Arr(RequirementValues(rs))
  }

  function StringValues(vs: seq<string>): seq<Value> {
    if vs == [] then [] else [Str(vs[0])] + StringValues(vs[1..])
  }

  function TargetMembers(t: TargetPredicate): seq<(string, Value)> {
    (if t.distros == [] then [] else [("distros", Arr(StringValues(t.distros)))])
    + (if t.architectures == [] then [] else [("architectures", Arr(StringValues(t.architectures)))])
  }

  function SetMembers(s: Set): seq<(string, Value)> {
    [("version", Number("1"))]
    + [("artifactSchemaVersion", Number(if s.schemaVersion == 0 then "0" else "1"))]
    + (if s.target.None? then [] else [("target", Obj(TargetMembers(s.target.value)))])
    + [("resourceCapabilities", ListValue(s.resources))]
    + [("providerCapabilities", ListValue(s.providers))]
  }

  // --------------------------------------------------------------- strings, requirements

  lemma PlainIsBare(v: string)
    requires AllPlain(v)
    ensures AllBare(v)
  {
  }

  lemma PrintedString(v: string, rest: string)
    requires AllPlain(v)
    ensures PrintString(v) + rest == Quoted(v, rest) && ReadValue(PrintString(v) + rest) == Some((Str(v), rest))
  {
    PlainIsBare(v);
    assert PrintString(v) + rest == Quoted(v, rest);
    StringIsRead(v, rest);
  }

  lemma LastMember(name: string, text: string, v: Value, rest: string)
    requires AllBare(name) && ReadValue(text) == Some((v, "}" + rest))
    ensures ReadMembers(Member(name, text)) == Some(([(name, v)], rest))
  {
    MemberIsRead(name, text, v, "}" + rest);
    assert ("}" + rest)[1..] == rest;
  }

  lemma NextMember(name: string, text: string, v: Value, after: string, more: seq<(string, Value)>, rest: string)
    requires AllBare(name) && ReadValue(text) == Some((v, "," + after)) && ReadMembers(after) == Some((more, rest))
    ensures ReadMembers(Member(name, text)) == Some(([(name, v)] + more, rest))
  {
    MemberIsRead(name, text, v, "," + after);
    assert ("," + after)[1..] == after;
  }

  lemma PrintedObject(name: string, text: string, members: seq<(string, Value)>, rest: string)
    requires ReadMembers(Member(name, text)) == Some((members, rest))
    ensures ReadValue("{" + Member(name, text)) == Some((Obj(members), rest))
  {
    ObjectIsRead(Member(name, text), members, rest);
  }

  lemma RequirementShape(r: Requirement, rest: string)
    ensures PrintRequirement(r) + rest ==
            "{" + Member("id", PrintString(r.id) + ("," + Member("revision", PrintString(r.revision) + ("}" + rest))))
  {
    var id, revision := PrintString(r.id), PrintString(r.revision);
    assert "{\"id\":" == "{" + Key("id") && ",\"revision\":" == "," + Key("revision");
    ShapeOfTwo(Key("id"), id, Key("revision"), revision, rest);
    MemberShape("revision", revision + ("}" + rest));
    MemberShape("id", id + ("," + (Key("revision") + (revision + ("}" + rest)))));
  }

  lemma ShapeOfTwo(k: string, v: string, l: string, w: string, rest: string)
    ensures (("{" + k) + (v + (("," + l) + (w + "}")))) + rest == "{" + (k + (v + ("," + (l + (w + ("}" + rest))))))
  {
  }

  lemma PrintedRequirement(r: Requirement, rest: string)
    requires PlainRequirement(r)
    ensures ReadValue(PrintRequirement(r) + rest) == Some((RequirementValue(r), rest))
  {
    var b := PrintString(r.revision) + ("}" + rest);
    var a := PrintString(r.id) + ("," + Member("revision", b));
    RequirementShape(r, rest);
    PrintedString(r.revision, "}" + rest);
    LastMember("revision", b, Str(r.revision), rest);
    PrintedString(r.id, "," + Member("revision", b));
    NextMember("id", a, Str(r.id), Member("revision", b), [("revision", Str(r.revision))], rest);
    assert [("id", Str(r.id))] + [("revision", Str(r.revision))] == [("id", Str(r.id)), ("revision", Str(r.revision))];
    PrintedObject("id", a, [("id", Str(r.id)), ("revision", Str(r.revision))], rest);
  }

  // -------------------------------------------------------------------------- lists

  lemma LastItem(text: string, v: Value, rest: string)
    requires ReadValue(text) == Some((v, "]" + rest))
    ensures ReadItems(text) == Some(([v], rest))
  {
    ItemIsRead(text, v, "]" + rest);
    assert ("]" + rest)[1..] == rest;
  }

  lemma NextItem(text: string, v: Value, after: string, more: seq<Value>, rest: string)
    requires ReadValue(text) == Some((v, "," + after)) && ReadItems(after) == Some((more, rest))
    ensures ReadItems(text) == Some(([v] + more, rest))
  {
    ItemIsRead(text, v, "," + after);
    assert ("," + after)[1..] == after;
  }

  lemma {:induction false} PrintedRequirements(rs: seq<Requirement>, rest: string)
    requires rs != [] && forall i :: 0 <= i < |rs| ==> PlainRequirement(rs[i])
    ensures ReadItems(PrintRequirements(rs) + rest) == Some((RequirementValues(rs), rest))
  {
    var first := PrintRequirement(rs[0]);
    if |rs| == 1 {
      assert rs[1..] == [] && [RequirementValue(rs[0])] + [] == [RequirementValue(rs[0])];
      assert PrintRequirements(rs) + rest == first + ("]" + rest);
      PrintedRequirement(rs[0], "]" + rest);
      LastItem(first + ("]" + rest), RequirementValue(rs[0]), rest);
    } else {
      var after := PrintRequirements(rs[1..]) + rest;
      assert PrintRequirements(rs) + rest == first + ("," + after);
      PrintedRequirement(rs[0], "," + after);
      PrintedRequirements(rs[1..], rest);
      NextItem(first + ("," + after), RequirementValue(rs[0]), after, RequirementValues(rs[1..]), rest);
    }
  }

  lemma PrintedList(rs: seq<Requirement>, rest: string)
    requires forall i :: 0 <= i < |rs| ==> PlainRequirement(rs[i])
    ensures ReadValue(PrintList(rs) + rest) == Some((ListValue(rs), rest))
  {
    if rs == [] {
      assert ("null" + rest)[4..] == rest;
    } else {
      var items := PrintRequirements(rs) + rest;
      assert PrintList(rs) + rest == "[" + items;
      PrintedRequirements(rs, rest);
      assert items[0] == '{';
      ArrayIsRead(items, RequirementValues(rs), rest);
    }
  }

  lemma {:induction false} PrintedStrings(vs: seq<string>, rest: string)
    requires vs != [] && forall i :: 0 <= i < |vs| ==> AllPlain(vs[i])
    ensures ReadItems(PrintStrings(vs) + rest) == Some((StringValues(vs), rest))
  {
    var first := PrintString(vs[0]);
    if |vs| == 1 {
      assert vs[1..] == [] && [Str(vs[0])] + [] == [Str(vs[0])];
      assert PrintStrings(vs) + rest == first + ("]" + rest);
      PrintedString(vs[0], "]" + rest);
      LastItem(first + ("]" + rest), Str(vs[0]), rest);
    } else {
      var after := PrintStrings(vs[1..]) + rest;
      assert PrintStrings(vs) + rest == first + ("," + after);
      PrintedString(vs[0], "," + after);
      PrintedStrings(vs[1..], rest);
      NextItem(first + ("," + after), Str(vs[0]), after, StringValues(vs[1..]), rest);
    }
  }

  lemma PrintedArray(vs: seq<string>, rest: string)
    requires vs != [] && forall i :: 0 <= i < |vs| ==> AllPlain(vs[i])
    ensures ReadValue("[" + (PrintStrings(vs) + rest)) == Some((Arr(StringValues(vs)), rest))
  {
    PrintedStrings(vs, rest);
    assert (PrintStrings(vs) + rest)[0] == '"';
    ArrayIsRead(PrintStrings(vs) + rest, StringValues(vs), rest);
  }

  // ------------------------------------------------------------------------- target

  lemma ArchitecturesRead(vs: seq<string>, rest: string)
    requires vs != [] && forall i :: 0 <= i < |vs| ==> AllPlain(vs[i])
    ensures ReadMembers(ARCHITECTURES_KEY + (PrintStrings(vs) + ("}" + rest))) ==
            Some(([("architectures", Arr(StringValues(vs)))], rest))
  {
    var list := PrintStrings(vs) + ("}" + rest);
    PrintedArray(vs, "}" + rest);
    assert ARCHITECTURES_KEY == Key("architectures") + "[";
    Reassociate(Key("architectures"), "[", list);
    MemberShape("architectures", "[" + list);
    LastMember("architectures", "[" + list, Arr(StringValues(vs)), rest);
  }

  lemma DistrosShape(vs: seq<string>, tail: string)
    requires vs != []
    ensures DISTROS_KEY + (PrintStrings(vs) + tail) == Member("distros", "[" + (PrintStrings(vs) + tail))
  {
    var list := PrintStrings(vs) + tail;
    assert DISTROS_KEY == Key("distros") + "[";
    Reassociate(Key("distros"), "[", list);
    MemberShape("distros", "[" + list);
  }

  lemma DistrosIsBare()
    ensures AllBare("distros")
  {
  }

  lemma OnlyDistrosRead(vs: seq<string>, rest: string)
    requires vs != [] && forall i :: 0 <= i < |vs| ==> AllPlain(vs[i])
    ensures ReadMembers(DISTROS_KEY + (PrintStrings(vs) + ("}" + rest))) == Some(([("distros", Arr(StringValues(vs)))], rest))
  {
    PrintedArray(vs, "}" + rest);
    DistrosShape(vs, "}" + rest);
    LastMember("distros", "[" + (PrintStrings(vs) + ("}" + rest)), Arr(StringValues(vs)), rest);
  }

  lemma DistrosAndMoreRead(vs: seq<string>, after: string, more: seq<(string, Value)>, rest: string)
    requires vs != [] && forall i :: 0 <= i < |vs| ==> AllPlain(vs[i])
    requires ReadMembers(after) == Some((more, rest))
    ensures ReadMembers(DISTROS_KEY + (PrintStrings(vs) + ("," + after))) ==
            Some(([("distros", Arr(StringValues(vs)))] + more, rest))
  {
    PrintedArray(vs, "," + after);
    DistrosShape(vs, "," + after);
    DistrosIsBare();
    NextMember("distros", "[" + (PrintStrings(vs) + ("," + after)), Arr(StringValues(vs)), after, more, rest);
  }

  lemma TargetShape(t: TargetPredicate, rest: string)
    ensures
      var archs := if t.architectures == [] then "" else ARCHITECTURES_KEY + (PrintStrings(t.architectures) + ("}" + rest));
      PrintTarget(t) + rest ==
        if t.distros == [] then if t.architectures == [] then "}" + rest else archs
        else DISTROS_KEY + (PrintStrings(t.distros) + (if t.architectures == [] then "}" + rest else "," + archs))
  {
    if t.distros != [] && t.architectures != [] {
      ShapeOfLists(DISTROS_KEY, PrintStrings(t.distros), ARCHITECTURES_KEY, PrintStrings(t.architectures), rest);
    }
  }

  lemma ShapeOfLists(k: string, v: string, l: string, w: string, rest: string)
    ensures (k + (v + ("," + (l + (w + "}"))))) + rest == k + (v + ("," + (l + (w + ("}" + rest)))))
  {
  }

  lemma TargetMembersRead(t: TargetPredicate, rest: string)
    requires PlainTarget(t)
    ensures ReadMembers(PrintTarget(t) + rest) == Some((TargetMembers(t), rest))
  {
    TargetShape(t, rest);
    if t.distros == [] {
      ArchitecturesRead(t.architectures, rest);
      assert TargetMembers(t) == [("architectures", Arr(StringValues(t.architectures)))];
    } else if t.architectures == [] {
      OnlyDistrosRead(t.distros, rest);
      assert TargetMembers(t) == [("distros", Arr(StringValues(t.distros)))];
    } else {
      ArchitecturesRead(t.architectures, rest);
      DistrosAndMoreRead(t.distros, ARCHITECTURES_KEY + (PrintStrings(t.architectures) + ("}" + rest)),
                         [("architectures", Arr(StringValues(t.architectures)))], rest);
    }
  }

  lemma TargetRead(t: TargetPredicate, rest: string)
    requires PlainTarget(t)
    ensures ReadValue("{" + (PrintTarget(t) + rest)) == Some((Obj(TargetMembers(t)), rest))
  {
    TargetMembersRead(t, rest);
    assert (PrintTarget(t) + rest)[0] == '"';
    ObjectIsRead(PrintTarget(t) + rest, TargetMembers(t), rest);
  }

  // ---------------------------------------------------------------------- whole body

  function ListMembers(s: Set): seq<(string, Value)> {
    [("resourceCapabilities", ListValue(s.resources))] + [("providerCapabilities", ListValue(s.providers))]
  }

  lemma ResourcesKey()
    ensures RESOURCES_KEY == "," + Key("resourceCapabilities")
  {
  }

  lemma ProvidersKey()
    ensures PROVIDERS_KEY == "," + Key("providerCapabilities")
  {
  }

  lemma HeadKeys()
    ensures VERSION_KEY == "{" + Key("version")
    ensures SCHEMA_KEY == "," + Key("artifactSchemaVersion")
    ensures TARGET_KEY == ("," + Key("target")) + "{"
  {
  }

  lemma KeyWithComma(key: string, name: string, text: string)
    requires key == "," + Key(name)
    ensures key + text == "," + Member(name, text) && (key + text)[1..] == Member(name, text)
  {
    Reassociate(",", Key(name), text);
    MemberShape(name, text);
    assert ("," + Member(name, text))[1..] == Member(name, text);
  }

  lemma LastListRead(name: string, rs: seq<Requirement>)
    requires AllBare(name) && forall i :: 0 <= i < |rs| ==> PlainRequirement(rs[i])
    ensures ReadMembers(Member(name, PrintList(rs) + "}")) == Some(([(name, ListValue(rs))], ""))
  {
    PrintedList(rs, "}");
    assert "}" + "" == "}";
    LastMember(name, PrintList(rs) + "}", ListValue(rs), "");
  }

  lemma NextListRead(name: string, rs: seq<Requirement>, after: string, more: seq<(string, Value)>)
    requires AllBare(name) && forall i :: 0 <= i < |rs| ==> PlainRequirement(rs[i])
    requires ReadMembers(after) == Some((more, ""))
    ensures ReadMembers(Member(name, PrintList(rs) + ("," + after))) == Some(([(name, ListValue(rs))] + more, ""))
  {
    PrintedList(rs, "," + after);
    NextMember(name, PrintList(rs) + ("," + after), ListValue(rs), after, more, "");
  }

  lemma NamesAreBare()
    ensures AllBare("resourceCapabilities") && AllBare("providerCapabilities")
  {
  }

  lemma ListsShape(s: Set)
    ensures PrintLists(s) == "," + Member("resourceCapabilities", PrintList(s.resources) +
                                         ("," + Member("providerCapabilities", PrintList(s.providers) + "}")))
  {
    var providers := PrintList(s.providers) + "}";
    ResourcesKey();
    ProvidersKey();
    KeyWithComma(PROVIDERS_KEY, "providerCapabilities", providers);
    KeyWithComma(RESOURCES_KEY, "resourceCapabilities", PrintList(s.resources) + (PROVIDERS_KEY + providers));
  }

  /** The members from the two lists on, after a comma. */
  lemma ListsRead(s: Set)
    requires forall i :: 0 <= i < |s.resources| ==> PlainRequirement(s.resources[i])
    requires forall i :: 0 <= i < |s.providers| ==> PlainRequirement(s.providers[i])
    ensures PrintLists(s) != "" && PrintLists(s)[0] == ','
    ensures ReadMembers(PrintLists(s)[1..]) == Some((ListMembers(s), ""))
  {
    var providers := Member("providerCapabilities", PrintList(s.providers) + "}");
    ListsShape(s);
    NamesAreBare();
    LastListRead("providerCapabilities", s.providers);
    NextListRead("resourceCapabilities", s.resources, providers, [("providerCapabilities", ListValue(s.providers))]);
    assert PrintLists(s)[1..] == Member("resourceCapabilities", PrintList(s.resources) + ("," + providers));
  }

  function TailMembers(s: Set): seq<(string, Value)> {
    (if s.target.None? then [] else [("target", Obj(TargetMembers(s.target.value)))]) + ListMembers(s)
  }

  lemma TargetTailShape(t: TargetPredicate, lists: string)
    ensures (",\"target\":{" + PrintTarget(t)) + lists == "," + Member("target", "{" + (PrintTarget(t) + lists))
  {
    HeadKeys();
    Reassociate(TARGET_KEY, PrintTarget(t), lists);
    Reassociate("," + Key("target"), "{", PrintTarget(t) + lists);
    KeyWithComma("," + Key("target"), "target", "{" + (PrintTarget(t) + lists));
  }

  lemma TargetTailRead(t: TargetPredicate, lists: string, more: seq<(string, Value)>)
    requires PlainTarget(t) && lists != "" && lists[0] == ',' && ReadMembers(lists[1..]) == Some((more, ""))
    ensures ReadMembers(Member("target", "{" + (PrintTarget(t) + lists))) ==
            Some(([("target", Obj(TargetMembers(t)))] + more, ""))
  {
    TargetRead(t, lists);
    assert lists == "," + lists[1..];
    NextMember("target", "{" + (PrintTarget(t) + lists), Obj(TargetMembers(t)), lists[1..], more, "");
  }

  lemma TailRead(s: Set)
    requires s.target.Some? ==> PlainTarget(s.target.value)
    requires forall i :: 0 <= i < |s.resources| ==> PlainRequirement(s.resources[i])
    requires forall i :: 0 <= i < |s.providers| ==> PlainRequirement(s.providers[i])
    ensures var tail := PrintOptionalTarget(s.target) + PrintLists(s);
            tail != "" && tail[0] == ',' && ReadMembers(tail[1..]) == Some((TailMembers(s), ""))
  {
    var lists := PrintLists(s);
    ListsRead(s);
    if s.target.None? {
      assert PrintOptionalTarget(s.target) + lists == lists;
      assert TailMembers(s) == ListMembers(s);
    } else {
      var member := Member("target", "{" + (PrintTarget(s.target.value) + lists));
      TargetTailShape(s.target.value, lists);
      TargetTailRead(s.target.value, lists, ListMembers(s));
      assert ("," + member)[1..] == member;
    }
  }

  lemma NumberRead(n: int, tail: string)
    requires 0 <= n <= 1 && tail != "" && tail[0] == ','
    ensures ReadValue(PrintNumber(n) + tail) == Some((Number(if n == 0 then "0" else "1"), tail))
  {
    var s := PrintNumber(n) + tail;
    assert s[1..] == tail && s[..1] == PrintNumber(n);
    assert Digits(s) == 1 + Digits(tail);
  }

  lemma NumberMemberRead(name: string, n: int, after: string, more: seq<(string, Value)>)
    requires AllBare(name) && 0 <= n <= 1 && ReadMembers(after) == Some((more, ""))
    ensures ReadMembers(Member(name, PrintNumber(n) + ("," + after))) ==
            Some(([(name, Number(if n == 0 then "0" else "1"))] + more, ""))
  {
    NumberRead(n, "," + after);
    NextMember(name, PrintNumber(n) + ("," + after), Number(if n == 0 then "0" else "1"), after, more, "");
  }

  lemma SchemaIsBare()
    ensures AllBare("artifactSchemaVersion")
  {
  }

  lemma VersionRead(after: string, more: seq<(string, Value)>)
    requires ReadMembers(after) == Some((more, ""))
    ensures ReadValue("{" + Member("version", PrintNumber(1) + ("," + after))) ==
            Some((Obj([("version", Number("1"))] + more), ""))
  {
    NumberMemberRead("version", 1, after, more);
    PrintedObject("version", PrintNumber(1) + ("," + after), [("version", Number("1"))] + more, "");
  }

  lemma BodyShape(s: Set)
    requires s.version == 1
    ensures
      var tail := PrintOptionalTarget(s.target) + PrintLists(s);
      Print(s) == "{" + Member("version", PrintNumber(1) +
                              ("," + Member("artifactSchemaVersion", PrintNumber(s.schemaVersion) + tail)))
  {
    var schema := PrintNumber(s.schemaVersion) + (PrintOptionalTarget(s.target) + PrintLists(s));
    HeadKeys();
    KeyWithComma(SCHEMA_KEY, "artifactSchemaVersion", schema);
    Reassociate("{", Key("version"), PrintNumber(1) + (SCHEMA_KEY + schema));
    MemberShape("version", PrintNumber(1) + (SCHEMA_KEY + schema));
  }

  lemma ObjectBody(s: Set, tail: string)
    requires tail == PrintOptionalTarget(s.target) + PrintLists(s) && tail != "" && tail[0] == ','
    requires s.version == 1 && 0 <= s.schemaVersion <= 1 && ReadMembers(tail[1..]) == Some((TailMembers(s), ""))
    ensures ReadValue(Print(s)) == Some((Obj(SetMembers(s)), ""))
  {
    var schema := Member("artifactSchemaVersion", PrintNumber(s.schemaVersion) + tail);
    var value := Number(if s.schemaVersion == 0 then "0" else "1");
    SchemaIsBare();
    assert tail == "," + tail[1..];
    NumberMemberRead("artifactSchemaVersion", s.schemaVersion, tail[1..], TailMembers(s));
    VersionRead(schema, [("artifactSchemaVersion", value)] + TailMembers(s));
    BodyShape(s);
    MembersShape(s);
  }

  lemma MembersShape(s: Set)
    ensures SetMembers(s) == [("version", Number("1"))] +
              ([("artifactSchemaVersion", Number(if s.schemaVersion == 0 then "0" else "1"))] + TailMembers(s))
  {
    var target := if s.target.None? then [] else [("target", Obj(TargetMembers(s.target.value)))];
    ShapeOfFive([("version", Number("1"))], [("artifactSchemaVersion", Number(if s.schemaVersion == 0 then "0" else "1"))],
                target, [("resourceCapabilities", ListValue(s.resources))], [("providerCapabilities", ListValue(s.providers))]);
  }

  lemma ShapeOfFive<T>(a: seq<T>, b: seq<T>, c: seq<T>, d: seq<T>, e: seq<T>)
    ensures a + b + c + d + e == a + (b + (c + (d + e)))
  {
  }

  /** A canonical body is an object with exactly these members in this order: version,
      artifactSchemaVersion, target if there is one, resourceCapabilities and
      providerCapabilities, each with the field of the sorted set that it names. */
  lemma CanonicalBodyReads(s: Set)
    requires Valid(s)
    ensures CanonicalBody(s).Some? && ReadJson(CanonicalBody(s).value) == Some(Obj(SetMembers(Canonical(s))))
  {
    var c := Canonical(s);
    CanonicalIsValid(s);
    ValidIsPlain(c);
    TailRead(c);
    ObjectBody(c, PrintOptionalTarget(c.target) + PrintLists(c));
    WholeIsRead(Print(c), Obj(SetMembers(c)));
  }
}
