/** The command line that replays an interactive session (cmd/remotr/cli_replay.go). */
module ReplayCommand {
  import opened Ordering
  import opened Text
  import opened ShellQuote
  import opened Common

  datatype FlagValue = Switch(on: bool) | Duration(text: string) | List(items: seq<string>) | Str(text: string) | Nil | Other(printed: string)

  /** A command on the path from the leaf to the root; `setFlags` and `values` answer for any
      name, as the lookup through the ancestors does. */
  datatype Command = Command(name: string, localFlagNames: seq<string>, setFlags: set<string>, values: map<string, FlagValue>) {
    predicate IsSet(flag: string) {
      flag in setFlags
    }

    function Lookup(flag: string): FlagValue {
      if flag in values then values[flag] else Nil
    }
  }

  predicate SkipReplayFlag(name: string) {
    name == "help" || name == "h" || name == "version" || name == "v" || name == "generate-shell-completion"
  }

  // What a replay line prints, argument by argument: names bare and values quoted.

  function Flag(name: string): Part {
    Bare("--" + name)
  }

  function ListParts(name: string, items: seq<string>): seq<Part> {
    if items == [] then [] else ListParts(name, items[..|items| - 1]) + [Flag(name), Value(items[|items| - 1])]
  }

  function FlagParts(name: string, v: FlagValue): seq<Part> {
    match v
    case Switch(on) => if on then [Flag(name)] else []
    case Duration(text) => [Flag(name), Value(text)]
    case List(items) => ListParts(name, items)
    case Str(text) => if TrimSpace(text) == "" then [] else [Flag(name), Value(text)]
    case Nil => []
    case Other(printed) => if TrimSpace(printed) == "" then [] else [Flag(name), Value(TrimSpace(printed))]
  }

  function OwnParts(c: Command, name: string): seq<Part> {
    if SkipReplayFlag(name) || !c.IsSet(name) then [] else FlagParts(name, c.Lookup(name))
  }

  function FlagsParts(c: Command, names: seq<string>): seq<Part> {
    if names == [] then [] else FlagsParts(c, names[..|names| - 1]) + OwnParts(c, names[|names| - 1])
  }

  function LevelParts(c: Command): seq<Part> {
    FlagsParts(c, Sort(c.localFlagNames, StringLess))
  }

  /** From the child of the root, at `n - 1`, down to `i`; the leaf is at 0. */
  function NameParts(lineage: seq<Command>, n: nat, i: nat): seq<Part>
    requires i <= n <= |lineage|
    decreases n - i
  {
    if i == n then [] else NameParts(lineage, n, i + 1) + [Bare(lineage[i].name)]
  }

  function PartLists(lineage: seq<Command>, n: nat, i: nat): (r: seq<seq<Part>>)
    requires i <= n <= |lineage|
    ensures |r| == n - i
  {
    seq(n - i, k requires 0 <= k < n - i => LevelParts(lineage[n - 1 - k]))
  }

  /** The flags of the commands from `n - 1` down to `i`. */
  function LevelsParts(lineage: seq<Command>, n: nat, i: nat): seq<Part>
    requires i <= n <= |lineage|
  {
    Flat(PartLists(lineage, n, i))
  }

  lemma OneLevelOfParts(lineage: seq<Command>, n: nat, i: nat)
    requires i < n <= |lineage|
    ensures LevelsParts(lineage, n, i) == LevelsParts(lineage, n, i + 1) + LevelParts(lineage[i])
  {
    var lists := PartLists(lineage, n, i);
    assert lists[..|lists| - 1] == PartLists(lineage, n, i + 1);
  }

  function InjectedParts(c: Command, keys: seq<string>, flags: map<string, string>): seq<Part>
    requires forall k <- keys :: k in flags
  {
    if keys == [] then []
    else
      var name := keys[|keys| - 1];
      InjectedParts(c, keys[..|keys| - 1], flags) + if c.IsSet(name) then [] else [Flag(name), Value(flags[name])]
  }

  ghost function SortedKeys(s: set<string>): (keys: seq<string>)
    ensures multiset(keys) == multiset(s) && Sorted(keys, StringLess)
    ensures forall k :: k in keys <==> k in s
  {
    if s == {} then []
    else
      var k :| k in s;
      StringOrder();
      InsertKeeps(k, SortedKeys(s - {k}), StringLess);
      var keys := Insert(k, SortedKeys(s - {k}), StringLess);
      assert multiset(keys) == multiset(s);
      assert forall x :: x in keys <==> x in multiset(keys);
      keys
  }

  /** Executable, flags of the root, path, flags of the other levels, and injected flags. */
  ghost function CommandParts(lineage: seq<Command>, flags: map<string, string>): seq<Part>
    requires lineage != []
  {
    var n := |lineage| - 1;
    [Bare("remotr")] + LevelParts(lineage[n]) + NameParts(lineage, n, 0) + LevelsParts(lineage, n, 0)
    + InjectedParts(lineage[0], SortedKeys(flags.Keys), flags)
  }

  ghost function LineParts(lineage: seq<Command>, positionals: seq<string>, flags: map<string, string>, args: seq<string>): seq<Part>
    requires lineage != []
  {
    CommandParts(lineage, flags) + Values(positionals) + Values(args)
  }

  // ------------------------------------------------------------- printing them

  /** `r` is `parts` and then what is printed for `more`. */
  ghost predicate Renders(r: seq<string>, parts: seq<string>, more: seq<Part>) {
    r == parts + PrintAll(more)
  }

  lemma RendersMore(r: seq<string>, parts: seq<string>, first: seq<Part>, next: seq<string>, more: seq<Part>)
    requires Renders(r, parts, first) && Renders(next, r, more)
    ensures Renders(next, parts, first + more)
  {
    assert PrintAll(first + more) == PrintAll(first) + PrintAll(more);
  }

  lemma RendersNothing(parts: seq<string>)
    ensures Renders(parts, parts, [])
  {
  }

  method FormatSetFlagArgs(name: string, v: FlagValue) returns (parts: seq<string>)
    ensures parts == PrintAll(FlagParts(name, v))
  {
    match v
    case Switch(on) =>
      parts := if on then ["--" + name] else [];
    case Duration(text) =>
      parts := ["--" + name, Quote(text)];
    case List(items) =>
      parts := [];
      for i := 0 to |items|
        invariant Renders(parts, [], ListParts(name, items[..i]))
      {
        assert items[..i + 1][..i] == items[..i];
        var before := parts;
        parts := parts + ["--" + name, Quote(items[i])];
        RendersMore(before, [], ListParts(name, items[..i]), parts, [Flag(name), Value(items[i])]);
      }
      assert items[..|items|] == items;
    case Str(text) =>
      parts := if TrimSpace(text) == "" then [] else ["--" + name, Quote(text)];
    case Nil =>
      parts := [];
    case Other(printed) =>
      var s := TrimSpace(printed);
      parts := if s == "" then [] else ["--" + name, Quote(s)];
  }

  method SortedStrings(values: seq<string>) returns (out: seq<string>)
    ensures out == Sort(values, StringLess) && multiset(out) == multiset(values)
  {
    StringOrder();
    var copy := new string[|values|](i requires 0 <= i < |values| => values[i]);
    assert copy[..] == values;
    SortSlice(copy, StringLess);
    SortSorts(values, StringLess);
    SortedUnique(copy[..], Sort(values, StringLess), StringLess);
    out := copy[..];
  }

  /** The keys come in whatever order the map is walked. */
  method MapKeys(m: map<string, string>) returns (out: seq<string>)
    ensures multiset(out) == multiset(m.Keys)
  {
    out := [];
    var left := m.Keys;
    while left != {}
      invariant left <= m.Keys && multiset(out) == multiset(m.Keys - left)
      decreases |left|
    {
      var k :| k in left;
      out := out + [k];
      left := left - {k};
      assert m.Keys - left == (m.Keys - (left + {k})) + {k};
    }
  }

  lemma SortedKeysUnique(keys: seq<string>, s: set<string>)
    requires multiset(keys) == multiset(s)
    ensures Sort(keys, StringLess) == SortedKeys(s)
  {
    StringOrder();
    SortSorts(keys, StringLess);
    SortedUnique(Sort(keys, StringLess), SortedKeys(s), StringLess);
  }

  method AppendFlag(parts: seq<string>, c: Command, name: string) returns (r: seq<string>)
    ensures Renders(r, parts, OwnParts(c, name))
  {
    r := parts;
    if SkipReplayFlag(name) {
      return;
    }
    if c.IsSet(name) {
      var flag := FormatSetFlagArgs(name, c.Lookup(name));
      r := r + flag;
    }
  }

  method AppendLevel(parts: seq<string>, c: Command) returns (r: seq<string>)
    ensures Renders(r, parts, LevelParts(c))
  {
    r := parts;
    var names := SortedStrings(c.localFlagNames);
    RendersNothing(parts);
    for i := 0 to |names|
      invariant Renders(r, parts, FlagsParts(c, names[..i]))
    {
      assert names[..i + 1][..i] == names[..i];
      var before := r;
      r := AppendFlag(r, c, names[i]);
      RendersMore(before, parts, FlagsParts(c, names[..i]), r, OwnParts(c, names[i]));
    }
    assert names[..|names|] == names;
  }

  method AppendQuoted(parts: seq<string>, values: seq<string>) returns (r: seq<string>)
    ensures Renders(r, parts, Values(values))
  {
    r := parts;
    for i := 0 to |values|
      invariant Renders(r, parts, Values(values[..i]))
    {
      assert Values(values[..i + 1]) == Values(values[..i]) + [Value(values[i])];
      var before := r;
      r := r + [Quote(values[i])];
      RendersMore(before, parts, Values(values[..i]), r, [Value(values[i])]);
    }
    assert values[..|values|] == values;
  }

  method AppendKeys(parts: seq<string>, c: Command, keys: seq<string>, flags: map<string, string>) returns (r: seq<string>)
    requires forall k <- keys :: k in flags
    ensures Renders(r, parts, InjectedParts(c, keys, flags))
  {
    r := parts;
    RendersNothing(parts);
    for i := 0 to |keys|
      invariant Renders(r, parts, InjectedParts(c, keys[..i], flags))
    {
      assert keys[..i + 1][..i] == keys[..i];
      if !c.IsSet(keys[i]) {
        var before := r;
        r := r + ["--" + keys[i], Quote(flags[keys[i]])];
        RendersMore(before, parts, InjectedParts(c, keys[..i], flags), r, [Flag(keys[i]), Value(flags[keys[i]])]);
      } else {
        assert InjectedParts(c, keys[..i + 1], flags) == InjectedParts(c, keys[..i], flags);
      }
    }
    assert keys[..|keys|] == keys;
  }

  method AppendInjected(parts: seq<string>, c: Command, flags: map<string, string>) returns (r: seq<string>)
    ensures Renders(r, parts, InjectedParts(c, SortedKeys(flags.Keys), flags))
  {
    var keys := MapKeys(flags);
    SortedKeysUnique(keys, flags.Keys);
    keys := SortedStrings(keys);
    r := AppendKeys(parts, c, keys, flags);
  }

  method AppendLevels(parts: seq<string>, lineage: seq<Command>, n: nat) returns (r: seq<string>)
    requires n <= |lineage|
    ensures Renders(r, parts, LevelsParts(lineage, n, 0))
  {
    r := parts;
    RendersNothing(parts);
    var i: nat := n;
    while i > 0
      invariant i <= n
      invariant Renders(r, parts, LevelsParts(lineage, n, i))
    {
      i := i - 1;
      var before := r;
      r := AppendLevel(r, lineage[i]);
      RendersMore(before, parts, LevelsParts(lineage, n, i + 1), r, LevelParts(lineage[i]));
      OneLevelOfParts(lineage, n, i);
    }
  }

  method AppendPath(parts: seq<string>, lineage: seq<Command>, n: nat) returns (r: seq<string>)
    requires n <= |lineage|
    ensures Renders(r, parts, NameParts(lineage, n, 0))
  {
    r := parts;
    RendersNothing(parts);
    var i: nat := n;
    while i > 0
      invariant i <= n
      invariant Renders(r, parts, NameParts(lineage, n, i))
    {
      i := i - 1;
      var before := r;
      r := r + [lineage[i].name];
      RendersMore(before, parts, NameParts(lineage, n, i + 1), r, [Bare(lineage[i].name)]);
    }
  }

  lemma StagesRender(a: seq<string>, b: seq<string>, c: seq<string>, d: seq<string>,
                     pa: seq<Part>, pb: seq<Part>, pc: seq<Part>, pd: seq<Part>)
    requires Renders(a, [], pa) && Renders(b, a, pb) && Renders(c, b, pc) && Renders(d, c, pd)
    ensures Renders(d, [], pa + pb + pc + pd)
  {
    RendersMore(a, [], pa, b, pb);
    RendersMore(b, [], pa + pb, c, pc);
    RendersMore(c, [], pa + pb + pc, d, pd);
  }

  method AppendRoot(c: Command) returns (r: seq<string>)
    ensures Renders(r, [], [Bare("remotr")] + LevelParts(c))
  {
    r := AppendLevel(["remotr"], c);
    RendersMore(["remotr"], [], [Bare("remotr")], r, LevelParts(c));
  }

  method FormatCommand(lineage: seq<Command>, flags: map<string, string>) returns (parts: seq<string>)
    requires lineage != []
    ensures Renders(parts, [], CommandParts(lineage, flags))
  {
    var n := |lineage| - 1;
    var root := AppendRoot(lineage[n]);
    var path := AppendPath(root, lineage, n);
    var levels := AppendLevels(path, lineage, n);
    parts := AppendInjected(levels, lineage[0], flags);
    StagesRender(root, path, levels, parts, [Bare("remotr")] + LevelParts(lineage[n]), NameParts(lineage, n, 0),
                 LevelsParts(lineage, n, 0), InjectedParts(lineage[0], SortedKeys(flags.Keys), flags));
  }

  /** `lineage` runs from the leaf to the root. */
  method FormatReplayCommand(lineage: seq<Command>, positionals: seq<string>, flags: map<string, string>, args: seq<string>)
      returns (line: string)
    ensures line == if lineage == [] then "" else Join(PrintAll(LineParts(lineage, positionals, flags, args)))
  {
    if lineage == [] {
      return "";
    }
    var command := FormatCommand(lineage, flags);
    var named := AppendQuoted(command, positionals);
    var parts := AppendQuoted(named, args);
    var printed := CommandParts(lineage, flags);
    RendersMore(command, [], printed, named, Values(positionals));
    RendersMore(named, [], printed + Values(positionals), parts, Values(args));
    assert parts == PrintAll(printed + Values(positionals) + Values(args));
    return Join(parts);
  }

  // ------------------------------------------------------------- reading it back

  ghost predicate Reads(name: string) {
    Tokenize(name) == Some([name])
  }

  ghost predicate FlagsRead(names: seq<string>) {
    forall name <- names :: Reads("--" + name)
  }

  /** Every name printed bare is one that a shell reads as itself: it is not empty and
      has literal characters only. */
  ghost predicate NamesRead(lineage: seq<Command>, flags: map<string, string>) {
    && (forall c <- lineage :: Reads(c.name))
    && (forall c <- lineage :: FlagsRead(c.localFlagNames))
    && (forall name <- flags :: Reads("--" + name))
  }

  ghost predicate AllRead(parts: seq<Part>) {
    forall p <- parts :: BareReads(p)
  }

  lemma {:induction false} ListReads(name: string, items: seq<string>)
    requires Reads("--" + name)
    ensures AllRead(ListParts(name, items))
  {
    if items != [] {
      ListReads(name, items[..|items| - 1]);
    }
  }

  lemma {:induction false} FlagsPartsRead(c: Command, names: seq<string>)
    requires FlagsRead(names)
    ensures AllRead(FlagsParts(c, names))
  {
    if names != [] {
      FlagsPartsRead(c, names[..|names| - 1]);
      var name := names[|names| - 1];
      assert name in names;
      if c.Lookup(name).List? {
        ListReads(name, c.Lookup(name).items);
      }
    }
  }

  lemma LevelReads(c: Command)
    requires FlagsRead(c.localFlagNames)
    ensures AllRead(LevelParts(c))
  {
    StringOrder();
    SortSorts(c.localFlagNames, StringLess);
    var names := Sort(c.localFlagNames, StringLess);
    forall name <- names ensures Reads("--" + name) {
      assert name in multiset(c.localFlagNames);
    }
    FlagsPartsRead(c, names);
  }

  lemma {:induction false} PathReads(lineage: seq<Command>, n: nat, i: nat)
    requires i <= n <= |lineage| && forall c <- lineage :: Reads(c.name)
    ensures AllRead(NameParts(lineage, n, i))
    decreases n - i
  {
    if i < n {
      PathReads(lineage, n, i + 1);
      AllReadTogether(NameParts(lineage, n, i + 1), [Bare(lineage[i].name)]);
    }
  }

  lemma {:induction false} LevelsRead(lineage: seq<Command>, n: nat, i: nat)
    requires i <= n <= |lineage| && forall c <- lineage :: FlagsRead(c.localFlagNames)
    ensures AllRead(LevelsParts(lineage, n, i))
    decreases n - i
  {
    if i < n {
      LevelsRead(lineage, n, i + 1);
      LevelReads(lineage[i]);
      AllReadTogether(LevelsParts(lineage, n, i + 1), LevelParts(lineage[i]));
      OneLevelOfParts(lineage, n, i);
    }
  }

  lemma {:induction false} InjectedRead(c: Command, keys: seq<string>, flags: map<string, string>)
    requires (forall k <- keys :: k in flags) && forall name <- flags :: Reads("--" + name)
    ensures AllRead(InjectedParts(c, keys, flags))
  {
    if keys != [] {
      InjectedRead(c, keys[..|keys| - 1], flags);
    }
  }

  lemma ExecutableReads()
    ensures Reads("remotr")
  {
    BareWordReads("remotr");
  }

  lemma AllReadTogether(a: seq<Part>, b: seq<Part>)
    requires AllRead(a) && AllRead(b)
    ensures AllRead(a + b)
  {
  }

  lemma CommandReads(lineage: seq<Command>, flags: map<string, string>)
    requires lineage != [] && NamesRead(lineage, flags)
    ensures AllRead(CommandParts(lineage, flags))
  {
    var n := |lineage| - 1;
    var root, path, levels := LevelParts(lineage[n]), NameParts(lineage, n, 0), LevelsParts(lineage, n, 0);
    ExecutableReads();
    LevelReads(lineage[n]);
    AllReadTogether([Bare("remotr")], root);
    PathReads(lineage, n, 0);
    LevelsRead(lineage, n, 0);
    AllReadTogether([Bare("remotr")] + root, path);
    AllReadTogether([Bare("remotr")] + root + path, levels);
    InjectedRead(lineage[0], SortedKeys(flags.Keys), flags);
    AllReadTogether([Bare("remotr")] + root + path + levels, InjectedParts(lineage[0], SortedKeys(flags.Keys), flags));
  }

  /** A shell reads the replay line back as the arguments it stands for, whatever the
      values are, exactly when none has a NUL. */
  lemma ReplayRoundTrips(lineage: seq<Command>, positionals: seq<string>, flags: map<string, string>, args: seq<string>)
    requires lineage != [] && NamesRead(lineage, flags)
    ensures
      var parts := LineParts(lineage, positionals, flags, args);
      Tokenize(Join(PrintAll(parts))) == if AllNulFree(Texts(parts)) then Some(Texts(parts)) else None
  {
    CommandReads(lineage, flags);
    PartsRoundTrip(LineParts(lineage, positionals, flags, args));
  }

  /** The line does not depend on the order in which a command lists its flags. */
  lemma FlagOrderIsForgotten(c: Command, d: Command)
    requires c.setFlags == d.setFlags && c.values == d.values && multiset(c.localFlagNames) == multiset(d.localFlagNames)
    ensures LevelParts(c) == LevelParts(d)
  {
    StringOrder();
    SortsAgree(c.localFlagNames, d.localFlagNames, StringLess);
    FlagsPartsAgree(c, d, Sort(c.localFlagNames, StringLess));
  }

  lemma {:induction false} FlagsPartsAgree(c: Command, d: Command, names: seq<string>)
    requires c.setFlags == d.setFlags && c.values == d.values
    ensures FlagsParts(c, names) == FlagsParts(d, names)
  {
    if names != [] {
      FlagsPartsAgree(c, d, names[..|names| - 1]);
    }
  }
}
