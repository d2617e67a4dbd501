/** How a command reads the arguments of a replay line (cmd/remotr/cli_replay.go), by a
    reader that knows how flags are given and nothing of how they are printed. */
module ReplayReading {
  import opened Common
  import opened Ordering
  import opened Text
  import opened ShellQuote
  import opened ReplayCommand

  /** A flag given: a switch by its name alone, any other with a text. */
  datatype Given = Given(name: string, text: Option<string>)

  type Reading = Option<(seq<Given>, seq<string>)>

  /** A token that is no flag: blank, a lone hyphen, or not beginning with one. */
  predicate IsOperand(token: string) {
    var t := TrimSpace(token);
    t == "" || t == "-" || t[0] != '-'
  }

  /** Reads flags and operands as they come. `kinds` says of each flag the command knows
      whether it is a switch. Two hyphens alone end the flags; an unknown flag, or one
      whose text is missing, is an error, and so is here a flag of one hyphen or with an
      equals sign, which a replay line never has. */
  function ReadArgs(tokens: seq<string>, kinds: map<string, bool>): Reading {
    if tokens == [] then Some(([], []))
    else
      var t := TrimSpace(tokens[0]);
      if IsOperand(tokens[0]) then Then([], [tokens[0]], ReadArgs(tokens[1..], kinds))
      else if t == "--" then Some(([], tokens[1..]))
      else if |t| < 2 || t[1] != '-' || t[2..] !in kinds then None
      else if kinds[t[2..]] then Then([Given(t[2..], None)], [], ReadArgs(tokens[1..], kinds))
      else if |tokens| == 1 then None
      else Then([Given(t[2..], Some(tokens[1]))], [], ReadArgs(tokens[2..], kinds))
  }

  function Then(given: seq<Given>, operands: seq<string>, rest: Reading): Reading {
    if rest.None? then None else Some((given + rest.value.0, operands + rest.value.1))
  }

  /** The texts given for one flag, in order. */
  function TextsFor(given: seq<Given>, name: string): seq<Option<string>> {
    if given == [] then []
    else TextsFor(given[..|given| - 1], name) + if given[|given| - 1].name == name then [given[|given| - 1].text] else []
  }

  // ------------------------------------------------------- what should be read

  /** What giving a flag this value takes: a switch once if it is on, a list once for each
      item, any other value once unless it is blank. */
  function ValueGiven(v: FlagValue): seq<Option<string>> {
    match v
    case Switch(on) => if on then [None] else []
    case Duration(text) => [Some(text)]
    case List(items) => seq(|items|, i requires 0 <= i < |items| => Some(items[i]))
    case Str(text) => if Blank(text) then [] else [Some(text)]
    case Nil => []
    case Other(printed) => if Blank(printed) then [] else [Some(TrimSpace(printed))]
  }

  predicate BuiltIn(name: string) {
    name == "help" || name == "h" || name == "version" || name == "v" || name == "generate-shell-completion"
  }

  /** A flag is given where it is listed and set, but not the built-in ones. */
  function GivenAt(c: Command, name: string): seq<Option<string>> {
    if name in c.localFlagNames && name in c.setFlags && !BuiltIn(name)
    then ValueGiven(if name in c.values then c.values[name] else Nil)
    else []
  }

  /** From the child of the root, at `n - 1`, down to the leaf. */
  function TextsBelow(lineage: seq<Command>, n: nat, name: string): (r: seq<seq<Option<string>>>)
    requires n <= |lineage|
    ensures |r| == n
  {
    seq(n, k requires 0 <= k < n => GivenAt(lineage[n - 1 - k], name))
  }

  function GivenBelow(lineage: seq<Command>, n: nat, name: string): seq<Option<string>>
    requires n <= |lineage|
  {
    Flat(TextsBelow(lineage, n, name))
  }

  function GivenOnLine(lineage: seq<Command>, flags: map<string, string>, name: string): seq<Option<string>>
    requires lineage != []
  {
    GivenAt(lineage[|lineage| - 1], name) + GivenBelow(lineage, |lineage| - 1, name)
    + if name in flags && name !in lineage[0].setFlags then [Some(flags[name])] else []
  }

  /** The names on the path, from the child of the root down to `i`. */
  function PathNames(lineage: seq<Command>, n: nat, i: nat): seq<string>
    requires i <= n <= |lineage|
    decreases n - i
  {
    if i == n then [] else PathNames(lineage, n, i + 1) + [lineage[i].name]
  }

  /** The flag is known as the kind of its value, and its name has nothing that the reader
      would cut off. */
  predicate Proper(name: string) {
    name != "" && !IsSpace(name[|name| - 1])
  }

  ghost predicate KnownAs(kinds: map<string, bool>, name: string, v: FlagValue) {
    Proper(name) && name in kinds && (kinds[name] <==> v.Switch?)
  }

  /** As many names as there are different ones. */
  predicate NoneTwice(names: seq<string>) {
    |set name | name in names| == |names|
  }

  ghost predicate LevelKnown(c: Command, kinds: map<string, bool>) {
    && NoneTwice(c.localFlagNames)
    && forall name <- c.localFlagNames :: FlagKnown(c, kinds, name)
  }

  ghost predicate FlagKnown(c: Command, kinds: map<string, bool>, name: string) {
    name in c.values ==> KnownAs(kinds, name, c.values[name])
  }

  /** The command knows its flags and reads the names on its path as such. */
  ghost predicate Known(lineage: seq<Command>, flags: map<string, string>, kinds: map<string, bool>) {
    && (forall c <- lineage :: IsOperand(c.name) && LevelKnown(c, kinds))
    && (forall name <- flags :: Proper(name) && name in kinds && !kinds[name])
  }

  // ------------------------------------------------------------------ one unit

  lemma ThenIsAssociative(a: seq<Given>, p: seq<string>, b: seq<Given>, q: seq<string>, rest: Reading)
    ensures Then(a, p, Then(b, q, rest)) == Then(a + b, p + q, rest)
  {
    if rest.Some? {
      assert a + (b + rest.value.0) == (a + b) + rest.value.0;
      assert p + (q + rest.value.1) == (p + q) + rest.value.1;
    }
  }

  lemma FlagToken(name: string)
    requires Proper(name)
    ensures !IsOperand("--" + name) && TrimSpace("--" + name) == "--" + name && ("--" + name)[2..] == name
  {
    TrimSpaceKeeps("--" + name);
    assert ("--" + name)[0] == '-' && ("--" + name)[1] == '-';
    assert ("--" + name)[|name| + 1] == name[|name| - 1];
  }

  lemma SwitchIsRead(name: string, rest: seq<string>, kinds: map<string, bool>)
    requires Proper(name) && name in kinds && kinds[name]
    ensures ReadArgs(["--" + name] + rest, kinds) == Then([Given(name, None)], [], ReadArgs(rest, kinds))
  {
    FlagToken(name);
    assert (["--" + name] + rest)[1..] == rest;
  }

  lemma TextIsRead(name: string, text: string, rest: seq<string>, kinds: map<string, bool>)
    requires Proper(name) && name in kinds && !kinds[name]
    ensures ReadArgs(["--" + name, text] + rest, kinds) == Then([Given(name, Some(text))], [], ReadArgs(rest, kinds))
  {
    FlagToken(name);
    assert (["--" + name, text] + rest)[2..] == rest;
  }

  lemma {:induction false} OperandsAreRead(operands: seq<string>, rest: seq<string>, kinds: map<string, bool>)
    requires forall t <- operands :: IsOperand(t)
    ensures ReadArgs(operands + rest, kinds) == Then([], operands, ReadArgs(rest, kinds))
  {
    if operands == [] {
      assert [] + rest == rest;
      var r := ReadArgs(rest, kinds);
      assert r.Some? ==> [] + r.value.0 == r.value.0 && [] + r.value.1 == r.value.1;
    } else {
      assert (operands + rest)[1..] == operands[1..] + rest;
      OperandsAreRead(operands[1..], rest, kinds);
      ThenIsAssociative([], [operands[0]], [], operands[1..], ReadArgs(rest, kinds));
      assert [operands[0]] + operands[1..] == operands;
      var none: seq<Given> := [];
      assert none + none == none;
    }
  }

  /** A reading never has more than it was given. */
  lemma {:induction false} ReadsNoMore(tokens: seq<string>, kinds: map<string, bool>)
    requires ReadArgs(tokens, kinds).Some?
    ensures |ReadArgs(tokens, kinds).value.0| + |ReadArgs(tokens, kinds).value.1| <= |tokens|
    decreases |tokens|
  {
    if tokens != [] {
      var t := TrimSpace(tokens[0]);
      if IsOperand(tokens[0]) || (t != "--" && kinds[t[2..]]) {
        ReadsNoMore(tokens[1..], kinds);
      } else if t != "--" {
        ReadsNoMore(tokens[2..], kinds);
      }
    }
  }

  /** Tokens are read as operands, all and in order, exactly when each of them is one. */
  lemma {:induction false} OperandsExactly(tokens: seq<string>, kinds: map<string, bool>)
    ensures ReadArgs(tokens, kinds) == Some(([], tokens)) <==> forall t <- tokens :: IsOperand(t)
  {
    if tokens != [] {
      var rest := ReadArgs(tokens[1..], kinds);
      assert tokens == [tokens[0]] + tokens[1..];
      assert (forall t <- tokens :: IsOperand(t)) <==> IsOperand(tokens[0]) && forall t <- tokens[1..] :: IsOperand(t);
      OperandsExactly(tokens[1..], kinds);
      if ReadArgs(tokens, kinds).Some? {
        ReadsNoMore(tokens, kinds);
      }
      if IsOperand(tokens[0]) && rest.Some? {
        assert [] + rest.value.0 == rest.value.0;
        assert ([tokens[0]] + rest.value.1)[1..] == rest.value.1;
      }
    }
  }

  // ------------------------------------------------------------- what is printed

  function Named(name: string, texts: seq<Option<string>>): (r: seq<Given>)
    ensures |r| == |texts|
  {
    seq(|texts|, i requires 0 <= i < |texts| => Given(name, texts[i]))
  }

  lemma {:induction false} TextsForAppend(a: seq<Given>, b: seq<Given>, name: string)
    ensures TextsFor(a + b, name) == TextsFor(a, name) + TextsFor(b, name)
  {
    if b == [] {
      assert a + b == a;
    } else {
      assert (a + b)[..|a + b| - 1] == a + b[..|b| - 1];
      TextsForAppend(a, b[..|b| - 1], name);
    }
  }

  lemma {:induction false} TextsForNamed(name: string, texts: seq<Option<string>>, other: string)
    ensures TextsFor(Named(name, texts), other) == if other == name then texts else []
  {
    if texts != [] {
      assert Named(name, texts)[..|texts| - 1] == Named(name, texts[..|texts| - 1]);
      TextsForNamed(name, texts[..|texts| - 1], other);
      assert texts == texts[..|texts| - 1] + [texts[|texts| - 1]];
    }
  }

  lemma TextsAppend(a: seq<Part>, b: seq<Part>, rest: seq<string>)
    ensures Texts(a + b) + rest == Texts(a) + (Texts(b) + rest)
  {
  }

  /** What is read one after the other is read together. */
  lemma ReadTogether(a: seq<Part>, given: seq<Given>, b: seq<Part>, more: seq<Given>, rest: seq<string>, kinds: map<string, bool>)
    requires ReadArgs(Texts(a) + (Texts(b) + rest), kinds) == Then(given, [], ReadArgs(Texts(b) + rest, kinds))
    requires ReadArgs(Texts(b) + rest, kinds) == Then(more, [], ReadArgs(rest, kinds))
    ensures ReadArgs(Texts(a + b) + rest, kinds) == Then(given + more, [], ReadArgs(rest, kinds))
  {
    TextsAppend(a, b, rest);
    ThenIsAssociative(given, [], more, [], ReadArgs(rest, kinds));
    NoOperands();
  }

  function ItemsGiven(items: seq<string>): seq<Option<string>> {
    seq(|items|, i requires 0 <= i < |items| => Some(items[i]))
  }

  lemma ItemsGivenMore(name: string, front: seq<string>, last: string)
    ensures Named(name, ItemsGiven(front + [last])) == Named(name, ItemsGiven(front)) + [Given(name, Some(last))]
  {
  }

  lemma {:induction false} ListIsRead(name: string, items: seq<string>, rest: seq<string>, kinds: map<string, bool>)
    requires Proper(name) && name in kinds && !kinds[name]
    ensures ReadArgs(Texts(ListParts(name, items)) + rest, kinds) ==
            Then(Named(name, ItemsGiven(items)), [], ReadArgs(rest, kinds))
  {
    if items == [] {
      NothingPrintedIsRead([], name, rest, kinds);
      assert Named(name, ItemsGiven(items)) == Named(name, []);
    } else {
      var front, last := items[..|items| - 1], items[|items| - 1];
      var pair := [Flag(name), Value(last)];
      assert Texts(pair) == ["--" + name, last];
      ListIsRead(name, front, Texts(pair) + rest, kinds);
      TextIsRead(name, last, rest, kinds);
      ReadTogether(ListParts(name, front), Named(name, ItemsGiven(front)), pair, [Given(name, Some(last))], rest, kinds);
      ItemsGivenMore(name, front, last);
      assert items == front + [last];
    }
  }

  lemma NoOperands()
    ensures var none: seq<string> := []; none + none == none
  {
  }

  lemma NothingIsRead(rest: seq<string>, kinds: map<string, bool>)
    ensures ReadArgs(rest, kinds) == Then([], [], ReadArgs(rest, kinds))
  {
    var r := ReadArgs(rest, kinds);
    assert r.Some? ==> [] + r.value.0 == r.value.0 && [] + r.value.1 == r.value.1;
  }

  lemma NothingPrintedIsRead(parts: seq<Part>, name: string, rest: seq<string>, kinds: map<string, bool>)
    requires parts == []
    ensures ReadArgs(Texts(parts) + rest, kinds) == Then(Named(name, []), [], ReadArgs(rest, kinds))
  {
    NothingIsRead(rest, kinds);
    assert Texts(parts) + rest == rest;
  }

  lemma OneTextIsRead(name: string, text: string, rest: seq<string>, kinds: map<string, bool>)
    requires Proper(name) && name in kinds && !kinds[name]
    ensures ReadArgs(Texts([Flag(name), Value(text)]) + rest, kinds) ==
            Then(Named(name, [Some(text)]), [], ReadArgs(rest, kinds))
  {
    TextIsRead(name, text, rest, kinds);
    assert Texts([Flag(name), Value(text)]) == ["--" + name, text];
    assert Named(name, [Some(text)]) == [Given(name, Some(text))];
  }

  lemma SwitchPartIsRead(name: string, rest: seq<string>, kinds: map<string, bool>)
    requires Proper(name) && name in kinds && kinds[name]
    ensures ReadArgs(Texts([Flag(name)]) + rest, kinds) == Then(Named(name, [None]), [], ReadArgs(rest, kinds))
  {
    SwitchIsRead(name, rest, kinds);
    assert Texts([Flag(name)]) == ["--" + name];
    assert Named(name, [None]) == [Given(name, None)];
  }

  /** What is printed for a flag is read as the value of the flag. */
  lemma FlagIsRead(name: string, v: FlagValue, rest: seq<string>, kinds: map<string, bool>)
    requires v != Nil ==> KnownAs(kinds, name, v)
    ensures ReadArgs(Texts(FlagParts(name, v)) + rest, kinds) == Then(Named(name, ValueGiven(v)), [], ReadArgs(rest, kinds))
  {
    match v
    case Switch(on) =>
      if on { SwitchPartIsRead(name, rest, kinds); } else { NothingPrintedIsRead([], name, rest, kinds); }
    case Duration(text) => OneTextIsRead(name, text, rest, kinds);
    case List(items) => ListIsRead(name, items, rest, kinds);
    case Str(text) =>
      TrimSpaceOfBlank(text);
      if Blank(text) { NothingPrintedIsRead([], name, rest, kinds); } else { OneTextIsRead(name, text, rest, kinds); }
    case Nil => NothingPrintedIsRead([], name, rest, kinds);
    case Other(printed) =>
      TrimSpaceOfBlank(printed);
      if Blank(printed) { NothingPrintedIsRead([], name, rest, kinds); } else { OneTextIsRead(name, TrimSpace(printed), rest, kinds); }
  }

  // ------------------------------------------------------------------ one command

  function OwnGiven(c: Command, name: string): seq<Option<string>> {
    if name in c.setFlags && !BuiltIn(name)
    then ValueGiven(if name in c.values then c.values[name] else Nil)
    else []
  }

  function FlagsGiven(c: Command, names: seq<string>): seq<Given> {
    if names == [] then []
    else FlagsGiven(c, names[..|names| - 1]) + Named(names[|names| - 1], OwnGiven(c, names[|names| - 1]))
  }

  lemma OwnIsRead(c: Command, name: string, rest: seq<string>, kinds: map<string, bool>)
    requires FlagKnown(c, kinds, name)
    ensures ReadArgs(Texts(OwnParts(c, name)) + rest, kinds) == Then(Named(name, OwnGiven(c, name)), [], ReadArgs(rest, kinds))
  {
    if SkipReplayFlag(name) || !c.IsSet(name) {
      NothingPrintedIsRead([], name, rest, kinds);
    } else {
      FlagIsRead(name, c.Lookup(name), rest, kinds);
    }
  }

  lemma {:induction false} FlagsAreRead(c: Command, names: seq<string>, rest: seq<string>, kinds: map<string, bool>)
    requires forall name <- names :: FlagKnown(c, kinds, name)
    ensures ReadArgs(Texts(FlagsParts(c, names)) + rest, kinds) == Then(FlagsGiven(c, names), [], ReadArgs(rest, kinds))
  {
    if names == [] {
      NothingPrintedIsRead([], "", rest, kinds);
    } else {
      var front, last := names[..|names| - 1], names[|names| - 1];
      FlagsAreRead(c, front, Texts(OwnParts(c, last)) + rest, kinds);
      OwnIsRead(c, last, rest, kinds);
      ReadTogether(FlagsParts(c, front), FlagsGiven(c, front), OwnParts(c, last), Named(last, OwnGiven(c, last)), rest, kinds);
    }
  }

  lemma NamedAfter(given: seq<Given>, last: string, texts: seq<Option<string>>, name: string)
    ensures TextsFor(given + Named(last, texts), name) == TextsFor(given, name) + if name == last then texts else []
  {
    TextsForAppend(given, Named(last, texts), name);
    TextsForNamed(last, texts, name);
  }

  lemma DistinctLast(names: seq<string>)
    requires names != [] && Distinct(names)
    ensures Distinct(names[..|names| - 1]) && names[|names| - 1] !in names[..|names| - 1]
    ensures forall name :: name in names <==> name in names[..|names| - 1] || name == names[|names| - 1]
  {
    assert names == names[..|names| - 1] + [names[|names| - 1]];
  }

  lemma {:induction false} FlagsGiveEach(c: Command, names: seq<string>, name: string)
    requires Distinct(names)
    ensures TextsFor(FlagsGiven(c, names), name) == if name in names then OwnGiven(c, name) else []
  {
    if names != [] {
      var front, last := names[..|names| - 1], names[|names| - 1];
      DistinctLast(names);
      FlagsGiveEach(c, front, name);
      NamedAfter(FlagsGiven(c, front), last, OwnGiven(c, last), name);
    }
  }

  function LevelGiven(c: Command): seq<Given> {
    FlagsGiven(c, Sort(c.localFlagNames, StringLess))
  }

  lemma {:induction false} DistinctHasOnce(s: seq<string>)
    ensures Distinct(s) <==> forall x :: multiset(s)[x] <= 1
  {
    if s != [] {
      var front, last := s[..|s| - 1], s[|s| - 1];
      assert s == front + [last];
      DistinctHasOnce(front);
      if Distinct(s) {
        assert last !in multiset(front);
      }
      if forall x :: multiset(s)[x] <= 1 {
        assert forall x :: multiset(front)[x] <= multiset(s)[x];
        assert multiset(s)[last] == multiset(front)[last] + 1;
        assert last !in front;
      }
    }
  }

  lemma {:induction false} NoneTwiceIsDistinct(names: seq<string>)
    ensures |set name | name in names| <= |names|
    ensures NoneTwice(names) ==> Distinct(names)
  {
    if names != [] {
      var front, last := names[..|names| - 1], names[|names| - 1];
      var all := set name | name in front;
      NoneTwiceIsDistinct(front);
      assert (set name | name in names) == all + {last};
      if last in all {
        assert all + {last} == all;
      }
    }
  }

  lemma SortedNames(c: Command)
    ensures forall name :: name in Sort(c.localFlagNames, StringLess) <==> name in c.localFlagNames
    ensures NoneTwice(c.localFlagNames) ==> Distinct(Sort(c.localFlagNames, StringLess))
  {
    NoneTwiceIsDistinct(c.localFlagNames);
    StringOrder();
    SortSorts(c.localFlagNames, StringLess);
    DistinctHasOnce(c.localFlagNames);
    DistinctHasOnce(Sort(c.localFlagNames, StringLess));
    forall name ensures name in Sort(c.localFlagNames, StringLess) <==> name in c.localFlagNames {
      assert name in Sort(c.localFlagNames, StringLess) <==> name in multiset(c.localFlagNames);
    }
  }

  lemma LevelIsRead(c: Command, rest: seq<string>, kinds: map<string, bool>)
    requires LevelKnown(c, kinds)
    ensures ReadArgs(Texts(LevelParts(c)) + rest, kinds) == Then(LevelGiven(c), [], ReadArgs(rest, kinds))
  {
    SortedNames(c);
    FlagsAreRead(c, Sort(c.localFlagNames, StringLess), rest, kinds);
  }

  lemma LevelGivesEach(c: Command, name: string)
    requires NoneTwice(c.localFlagNames)
    ensures TextsFor(LevelGiven(c), name) == GivenAt(c, name)
  {
    SortedNames(c);
    FlagsGiveEach(c, Sort(c.localFlagNames, StringLess), name);
  }

  // ---------------------------------------------------------------- the whole line

  /** What the commands from `n - 1` down to the leaf give, each in its turn. */
  function LevelLists(lineage: seq<Command>, n: nat): (r: seq<seq<Given>>)
    requires n <= |lineage|
    ensures |r| == n
  {
    seq(n, k requires 0 <= k < n => LevelGiven(lineage[n - 1 - k]))
  }

  function LevelsGiven(lineage: seq<Command>, n: nat): seq<Given>
    requires n <= |lineage|
  {
    Flat(LevelLists(lineage, n))
  }

  /** Whatever follows, the parts are read as this. */
  ghost predicate ReadAs(parts: seq<Part>, given: seq<Given>, kinds: map<string, bool>) {
    forall rest :: ReadArgs(Texts(parts) + rest, kinds) == Then(given, [], ReadArgs(rest, kinds))
  }

  lemma LevelReadAs(c: Command, kinds: map<string, bool>)
    requires LevelKnown(c, kinds)
    ensures ReadAs(LevelParts(c), LevelGiven(c), kinds)
  {
    forall rest ensures ReadArgs(Texts(LevelParts(c)) + rest, kinds) == Then(LevelGiven(c), [], ReadArgs(rest, kinds)) {
      LevelIsRead(c, rest, kinds);
    }
  }

  lemma {:induction false} FlatReadAs(parts: seq<seq<Part>>, given: seq<seq<Given>>, kinds: map<string, bool>)
    requires |parts| == |given| && forall k :: 0 <= k < |parts| ==> ReadAs(parts[k], given[k], kinds)
    ensures ReadAs(Flat(parts), Flat(given), kinds)
  {
    var last := |parts| - 1;
    if parts != [] {
      FlatReadAs(parts[..last], given[..last], kinds);
    }
    forall rest ensures ReadArgs(Texts(Flat(parts)) + rest, kinds) == Then(Flat(given), [], ReadArgs(rest, kinds)) {
      if parts == [] {
        NothingPrintedIsRead([], "", rest, kinds);
      } else {
        assert ReadAs(parts[last], given[last], kinds);
        ReadTogether(Flat(parts[..last]), Flat(given[..last]), parts[last], given[last], rest, kinds);
      }
    }
  }

  lemma LevelsAreRead(lineage: seq<Command>, n: nat, rest: seq<string>, kinds: map<string, bool>)
    requires n <= |lineage| && forall c <- lineage :: LevelKnown(c, kinds)
    ensures ReadArgs(Texts(LevelsParts(lineage, n, 0)) + rest, kinds) == Then(LevelsGiven(lineage, n), [], ReadArgs(rest, kinds))
  {
    var parts, given := PartLists(lineage, n, 0), LevelLists(lineage, n);
    forall k | 0 <= k < n ensures ReadAs(parts[k], given[k], kinds) {
      OneLevelReadAs(lineage, n, k, kinds);
    }
    FlatReadAs(parts, given, kinds);
    assert ReadAs(LevelsParts(lineage, n, 0), LevelsGiven(lineage, n), kinds);
  }

  lemma OneLevelReadAs(lineage: seq<Command>, n: nat, k: nat, kinds: map<string, bool>)
    requires k < n <= |lineage| && forall c <- lineage :: LevelKnown(c, kinds)
    ensures ReadAs(PartLists(lineage, n, 0)[k], LevelLists(lineage, n)[k], kinds)
  {
    var c := lineage[n - 1 - k];
    assert PartLists(lineage, n, 0)[k] == LevelParts(c) && LevelLists(lineage, n)[k] == LevelGiven(c);
    LevelReadAs(c, kinds);
  }

  lemma {:induction false} FlatGives(lists: seq<seq<Given>>, texts: seq<seq<Option<string>>>, name: string)
    requires |lists| == |texts| && forall k :: 0 <= k < |lists| ==> TextsFor(lists[k], name) == texts[k]
    ensures TextsFor(Flat(lists), name) == Flat(texts)
  {
    if lists != [] {
      var last := |lists| - 1;
      FlatGives(lists[..last], texts[..last], name);
      TextsForAppend(Flat(lists[..last]), lists[last], name);
    }
  }

  ghost predicate AllDistinct(lineage: seq<Command>) {
    forall c <- lineage :: NoneTwice(c.localFlagNames)
  }

  lemma OneLevelGives(lineage: seq<Command>, n: nat, k: nat, name: string)
    requires k < n <= |lineage| && AllDistinct(lineage)
    ensures TextsFor(LevelLists(lineage, n)[k], name) == TextsBelow(lineage, n, name)[k]
  {
    var c := lineage[n - 1 - k];
    assert LevelLists(lineage, n)[k] == LevelGiven(c) && TextsBelow(lineage, n, name)[k] == GivenAt(c, name);
    LevelGivesEach(c, name);
  }

  lemma LevelsGiveEach(lineage: seq<Command>, n: nat, name: string)
    requires n <= |lineage| && AllDistinct(lineage)
    ensures TextsFor(LevelsGiven(lineage, n), name) == GivenBelow(lineage, n, name)
  {
    var lists, texts := LevelLists(lineage, n), TextsBelow(lineage, n, name);
    forall k | 0 <= k < n ensures TextsFor(lists[k], name) == texts[k] {
      OneLevelGives(lineage, n, k, name);
    }
    FlatGives(lists, texts, name);
  }

  lemma {:induction false} PathIsPrinted(lineage: seq<Command>, n: nat, i: nat)
    requires i <= n <= |lineage|
    ensures Texts(NameParts(lineage, n, i)) == PathNames(lineage, n, i)
    decreases n - i
  {
    if i < n {
      PathIsPrinted(lineage, n, i + 1);
      assert Texts(NameParts(lineage, n, i + 1) + [Bare(lineage[i].name)]) == Texts(NameParts(lineage, n, i + 1)) + [lineage[i].name];
    }
  }

  lemma {:induction false} PathIsOperands(lineage: seq<Command>, n: nat, i: nat)
    requires i <= n <= |lineage| && forall c <- lineage :: IsOperand(c.name)
    ensures forall t <- PathNames(lineage, n, i) :: IsOperand(t)
    decreases n - i
  {
    if i < n {
      PathIsOperands(lineage, n, i + 1);
    }
  }

  function InjectedGiven(c: Command, keys: seq<string>, flags: map<string, string>): seq<Given>
    requires forall k <- keys :: k in flags
  {
    if keys == [] then []
    else
      var name := keys[|keys| - 1];
      InjectedGiven(c, keys[..|keys| - 1], flags) + if name in c.setFlags then [] else [Given(name, Some(flags[name]))]
  }

  lemma {:induction false} InjectedIsRead(c: Command, keys: seq<string>, flags: map<string, string>, rest: seq<string>, kinds: map<string, bool>)
    requires forall k <- keys :: k in flags && Proper(k) && k in kinds && !kinds[k]
    ensures ReadArgs(Texts(InjectedParts(c, keys, flags)) + rest, kinds) ==
            Then(InjectedGiven(c, keys, flags), [], ReadArgs(rest, kinds))
  {
    if keys == [] {
      NothingPrintedIsRead([], "", rest, kinds);
    } else {
      var front, name := keys[..|keys| - 1], keys[|keys| - 1];
      var printed := if c.IsSet(name) then [] else [Flag(name), Value(flags[name])];
      var given := if name in c.setFlags then [] else [Given(name, Some(flags[name]))];
      InjectedIsRead(c, front, flags, Texts(printed) + rest, kinds);
      if c.IsSet(name) {
        NothingPrintedIsRead(printed, name, rest, kinds);
        assert Named(name, []) == given;
      } else {
        OneTextIsRead(name, flags[name], rest, kinds);
        assert Named(name, [Some(flags[name])]) == given;
      }
      ReadTogether(InjectedParts(c, front, flags), InjectedGiven(c, front, flags), printed, given, rest, kinds);
    }
  }

  lemma OneMoreGiven(given: seq<Given>, last: string, text: string, isSet: bool, name: string)
    ensures TextsFor(given + (if isSet then [] else [Given(last, Some(text))]), name) ==
            TextsFor(given, name) + if last == name && !isSet then [Some(text)] else []
  {
    if isSet {
      assert given + [] == given;
    } else {
      assert (given + [Given(last, Some(text))])[..|given|] == given;
    }
  }

  lemma {:induction false} InjectedGivesEach(c: Command, keys: seq<string>, flags: map<string, string>, name: string)
    requires Distinct(keys) && forall k <- keys :: k in flags
    ensures TextsFor(InjectedGiven(c, keys, flags), name) ==
            if name in keys && name !in c.setFlags then [Some(flags[name])] else []
  {
    if keys != [] {
      var front, last := keys[..|keys| - 1], keys[|keys| - 1];
      InjectedGivesEach(c, front, flags, name);
      OneMoreGiven(InjectedGiven(c, front, flags), last, flags[last], last in c.setFlags, name);
      DistinctLast(keys);
    }
  }

  ghost function LineGiven(lineage: seq<Command>, flags: map<string, string>): seq<Given>
    requires lineage != []
  {
    LevelGiven(lineage[|lineage| - 1]) + LevelsGiven(lineage, |lineage| - 1)
    + InjectedGiven(lineage[0], SortedKeys(flags.Keys), flags)
  }

  lemma LineGivesEach(lineage: seq<Command>, flags: map<string, string>, name: string)
    requires lineage != [] && AllDistinct(lineage)
    ensures TextsFor(LineGiven(lineage, flags), name) == GivenOnLine(lineage, flags, name)
  {
    var n, keys := |lineage| - 1, SortedKeys(flags.Keys);
    DistinctHasOnce(keys);
    LevelGivesEach(lineage[n], name);
    LevelsGiveEach(lineage, n, name);
    InjectedGivesEach(lineage[0], keys, flags, name);
    TextsForAppend(LevelGiven(lineage[n]), LevelsGiven(lineage, n), name);
    TextsForAppend(LevelGiven(lineage[n]) + LevelsGiven(lineage, n), InjectedGiven(lineage[0], keys, flags), name);
  }

  /** The tokens up to the positionals are read as the flags and the path. */
  lemma CommandIsRead(lineage: seq<Command>, flags: map<string, string>, kinds: map<string, bool>, rest: seq<string>)
    requires lineage != [] && Known(lineage, flags, kinds)
    ensures ReadArgs(Texts(CommandParts(lineage, flags)) + rest, kinds) ==
            Then(LineGiven(lineage, flags), ["remotr"] + PathNames(lineage, |lineage| - 1, 0), ReadArgs(rest, kinds))
  {
    var n, keys := |lineage| - 1, SortedKeys(flags.Keys);
    var root, levels, injected := LevelParts(lineage[n]), LevelsParts(lineage, n, 0), InjectedParts(lineage[0], keys, flags);
    var path := PathNames(lineage, n, 0);
    var afterLevels := Texts(injected) + rest;
    var afterPath := Texts(levels) + afterLevels;
    var afterRoot := path + afterPath;
    CommandTokens(lineage, flags, rest);
    InjectedIsRead(lineage[0], keys, flags, rest, kinds);
    LevelsAreRead(lineage, n, afterLevels, kinds);
    PathIsOperands(lineage, n, 0);
    OperandsAreRead(path, afterPath, kinds);
    LevelIsRead(lineage[n], afterRoot, kinds);
    ExecutableIsOperand();
    OperandsAreRead(["remotr"], Texts(root) + afterRoot, kinds);
    Assembled(LevelGiven(lineage[n]), path, LevelsGiven(lineage, n), InjectedGiven(lineage[0], keys, flags), ReadArgs(rest, kinds));
  }

  lemma ExecutableIsOperand()
    ensures IsOperand("remotr")
  {
    TrimSpaceKeeps("remotr");
  }

  lemma CommandTokens(lineage: seq<Command>, flags: map<string, string>, rest: seq<string>)
    requires lineage != []
    ensures
      var n := |lineage| - 1;
      Texts(CommandParts(lineage, flags)) + rest ==
        ["remotr"] + (Texts(LevelParts(lineage[n])) + (PathNames(lineage, n, 0) + (Texts(LevelsParts(lineage, n, 0))
        + (Texts(InjectedParts(lineage[0], SortedKeys(flags.Keys), flags)) + rest))))
  {
    var n := |lineage| - 1;
    var root, levels := LevelParts(lineage[n]), LevelsParts(lineage, n, 0);
    var path, injected := NameParts(lineage, n, 0), InjectedParts(lineage[0], SortedKeys(flags.Keys), flags);
    PathIsPrinted(lineage, n, 0);
    TextsAppend([Bare("remotr")] + root + path + levels, injected, rest);
    TextsAppend([Bare("remotr")] + root + path, levels, Texts(injected) + rest);
    TextsAppend([Bare("remotr")] + root, path, Texts(levels) + (Texts(injected) + rest));
    TextsAppend([Bare("remotr")], root, Texts(path) + (Texts(levels) + (Texts(injected) + rest)));
    assert Texts([Bare("remotr")]) == ["remotr"];
  }

  lemma Assembled(root: seq<Given>, path: seq<string>, levels: seq<Given>, injected: seq<Given>, rest: Reading)
    ensures Then([], ["remotr"], Then(root, [], Then([], path, Then(levels, [], Then(injected, [], rest))))) ==
            Then(root + levels + injected, ["remotr"] + path, rest)
  {
    ThenIsAssociative(levels, [], injected, [], rest);
    NoOperands();
    ThenIsAssociative([], path, levels + injected, [], rest);
    assert [] + (levels + injected) == levels + injected && path + [] == path;
    ThenIsAssociative(root, [], levels + injected, path, rest);
    assert root + (levels + injected) == root + levels + injected && [] + path == path;
    ThenIsAssociative([], ["remotr"], root + levels + injected, path, rest);
    assert [] + (root + levels + injected) == root + levels + injected;
  }

  /** The arguments that a replay line stands for. */
  ghost function LineTokens(lineage: seq<Command>, positionals: seq<string>, flags: map<string, string>, args: seq<string>): seq<string>
    requires lineage != []
  {
    Texts(LineParts(lineage, positionals, flags, args))
  }

  /** Executable, path, positionals and arguments, in this order. */
  function Operands(lineage: seq<Command>, positionals: seq<string>, args: seq<string>): seq<string>
    requires lineage != []
  {
    ["remotr"] + PathNames(lineage, |lineage| - 1, 0) + (positionals + args)
  }

  ghost predicate ReadAsMeant(r: Reading, lineage: seq<Command>, positionals: seq<string>, flags: map<string, string>, args: seq<string>)
    requires lineage != []
  {
    && r.Some? && r.value.1 == Operands(lineage, positionals, args)
    && forall name :: TextsFor(r.value.0, name) == GivenOnLine(lineage, flags, name)
  }

  lemma LineIsRead(lineage: seq<Command>, positionals: seq<string>, flags: map<string, string>, args: seq<string>, kinds: map<string, bool>)
    requires lineage != [] && Known(lineage, flags, kinds)
    ensures ReadArgs(LineTokens(lineage, positionals, flags, args), kinds) ==
            Then(LineGiven(lineage, flags), ["remotr"] + PathNames(lineage, |lineage| - 1, 0), ReadArgs(positionals + args, kinds))
  {
    TokensOf(CommandParts(lineage, flags), positionals, args);
    CommandIsRead(lineage, flags, kinds, positionals + args);
  }

  lemma TokensOf(command: seq<Part>, positionals: seq<string>, args: seq<string>)
    ensures Texts(command + Values(positionals) + Values(args)) == Texts(command) + (positionals + args)
  {
    assert Texts(Values(positionals)) == positionals && Texts(Values(args)) == args;
    TextsAppend(command + Values(positionals), Values(args), []);
    TextsAppend(command, Values(positionals), args);
  }

  /** Reading the arguments of a replay line gives each flag that is set exactly its value,
      at each command that lists it, no other flag anything, and the path, positionals and
      arguments as they are, if and only if no positional and no argument looks like a flag:
      the line has nothing that would keep such a one from being read as a flag. */
  lemma ReplayIsReadAsMeant(lineage: seq<Command>, positionals: seq<string>, flags: map<string, string>, args: seq<string>, kinds: map<string, bool>)
    requires lineage != [] && Known(lineage, flags, kinds)
    ensures ReadAsMeant(ReadArgs(LineTokens(lineage, positionals, flags, args), kinds), lineage, positionals, flags, args)
            <==> forall t <- positionals + args :: IsOperand(t)
  {
    var tail, rest := positionals + args, ReadArgs(positionals + args, kinds);
    LineIsRead(lineage, positionals, flags, args, kinds);
    OperandsExactly(tail, kinds);
    if rest == Some(([], tail)) {
      assert LineGiven(lineage, flags) + [] == LineGiven(lineage, flags);
      forall name ensures TextsFor(LineGiven(lineage, flags), name) == GivenOnLine(lineage, flags, name) {
        LineGivesEach(lineage, flags, name);
      }
    } else if rest.Some? {
      ReadsNoMore(tail, kinds);
      OperandsDiffer(["remotr"] + PathNames(lineage, |lineage| - 1, 0), rest.value.1, tail);
    }
  }

  lemma OperandsDiffer(front: seq<string>, a: seq<string>, b: seq<string>)
    ensures front + a == front + b <==> a == b
  {
    assert (front + a)[|front|..] == a && (front + b)[|front|..] == b;
  }

  /** From end to end: a shell and then the command read the replay line as it was meant. */
  lemma ReplayRoundTripsThroughShell(lineage: seq<Command>, positionals: seq<string>, flags: map<string, string>, args: seq<string>, kinds: map<string, bool>)
    requires lineage != [] && NamesRead(lineage, flags) && Known(lineage, flags, kinds)
    requires AllNulFree(LineTokens(lineage, positionals, flags, args))
    requires forall t <- positionals + args :: IsOperand(t)
    ensures
      var words := Tokenize(Join(PrintAll(LineParts(lineage, positionals, flags, args))));
      words.Some? && ReadAsMeant(ReadArgs(words.value, kinds), lineage, positionals, flags, args)
  {
    ReplayRoundTrips(lineage, positionals, flags, args);
    ReplayIsReadAsMeant(lineage, positionals, flags, args, kinds);
  }
}
