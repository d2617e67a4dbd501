/** Regular expressions, by what they match. */
module Pattern {

  datatype Regex =
    | Empty
    | Class(ranges: seq<(char, char)>)
    | Cat(first: Regex, second: Regex)
    | Or(left: Regex, right: Regex)
    | Star(body: Regex)
    | Opt(body: Regex)

  ghost predicate InClass(c: char, ranges: seq<(char, char)>) {
    exists i :: 0 <= i < |ranges| && ranges[i].0 <= c <= ranges[i].1
  }

  /** The whole string matches. */
  ghost predicate Matches(r: Regex, s: string)
    decreases |s|, r
  {
    match r
    case Empty => s == ""
    case Class(ranges) => |s| == 1 && InClass(s[0], ranges)
    case Cat(a, b) => exists i :: 0 <= i <= |s| && Matches(a, s[..i]) && Matches(b, s[i..])
    case Or(a, b) => Matches(a, s) || Matches(b, s)
    case Star(a) => s == "" || exists i :: 0 < i <= |s| && Matches(a, s[..i]) && Matches(r, s[i..])
    case Opt(a) => s == "" || Matches(a, s)
  }

  lemma Joins(a: Regex, b: Regex, u: string, v: string)
    requires Matches(a, u) && Matches(b, v)
    ensures Matches(Cat(a, b), u + v)
  {
    assert (u + v)[..|u|] == u && (u + v)[|u|..] == v;
  }

  lemma Splits(a: Regex, b: Regex, s: string) returns (u: string, v: string)
    requires Matches(Cat(a, b), s)
    ensures s == u + v && Matches(a, u) && Matches(b, v)
  {
    var i :| 0 <= i <= |s| && Matches(a, s[..i]) && Matches(b, s[i..]);
    u, v := s[..i], s[i..];
  }

  lemma Begins(a: Regex, s: string) returns (u: string, v: string)
    requires Matches(Star(a), s) && s != ""
    ensures s == u + v && u != "" && Matches(a, u) && Matches(Star(a), v)
  {
    var i :| 0 < i <= |s| && Matches(a, s[..i]) && Matches(Star(a), s[i..]);
    u, v := s[..i], s[i..];
  }

  lemma BeginsWith(a: Regex, u: string, v: string)
    requires u != "" && Matches(a, u) && Matches(Star(a), v)
    ensures Matches(Star(a), u + v)
  {
    assert (u + v)[..|u|] == u && (u + v)[|u|..] == v;
  }

  lemma ClassThen(ranges: seq<(char, char)>, b: Regex, s: string)
    ensures Matches(Cat(Class(ranges), b), s) <==> s != "" && InClass(s[0], ranges) && Matches(b, s[1..])
  {
    var r := Cat(Class(ranges), b);
    if Matches(r, s) {
      var i :| 0 <= i <= |s| && Matches(r.first, s[..i]) && Matches(r.second, s[i..]);
      assert i == 1;
    }
    if s != "" && InClass(s[0], ranges) && Matches(b, s[1..]) {
      assert s[..1][0] == s[0];
      assert Matches(r.first, s[..1]) && Matches(r.second, s[1..]);
    }
  }

  lemma {:induction false} StarOfClass(ranges: seq<(char, char)>, s: string)
    ensures Matches(Star(Class(ranges)), s) <==> forall i :: 0 <= i < |s| ==> InClass(s[i], ranges)
  {
    if s != "" {
      var r := Star(Class(ranges));
      StarOfClass(ranges, s[1..]);
      if Matches(r, s) {
        var i :| 0 < i <= |s| && Matches(r.body, s[..i]) && Matches(r, s[i..]);
        assert i == 1 && s[..1][0] == s[0];
        assert forall j :: 0 < j < |s| ==> s[j] == s[1..][j - 1];
      }
      if forall i :: 0 <= i < |s| ==> InClass(s[i], ranges) {
        assert s[..1][0] == s[0];
        assert Matches(r.body, s[..1]) && Matches(r, s[1..]);
      }
    }
  }

  lemma StarShorter(ranges: seq<(char, char)>, b: Regex, s: string)
    requires s != "" && Matches(Cat(Star(Class(ranges)), b), s)
    ensures Matches(Cat(Star(Class(ranges)), b), s[1..]) || Matches(b, s)
  {
    var u, v := Splits(Star(Class(ranges)), b, s);
    if u == "" {
      assert v == s;
    } else {
      StarOfClass(ranges, u);
      StarOfClass(ranges, u[1..]);
      Joins(Star(Class(ranges)), b, u[1..], v);
      assert u[1..] + v == s[1..];
    }
  }

  lemma StarLonger(ranges: seq<(char, char)>, b: Regex, s: string)
    requires s != "" && InClass(s[0], ranges) && Matches(Cat(Star(Class(ranges)), b), s[1..])
    ensures Matches(Cat(Star(Class(ranges)), b), s)
  {
    var u, v := Splits(Star(Class(ranges)), b, s[1..]);
    OneMoreInStar(ranges, s[0], u);
    Joins(Star(Class(ranges)), b, [s[0]] + u, v);
    OneInFront(s, u, v);
  }

  lemma OneMoreInStar(ranges: seq<(char, char)>, c: char, u: string)
    requires InClass(c, ranges) && Matches(Star(Class(ranges)), u)
    ensures Matches(Star(Class(ranges)), [c] + u)
  {
    StarOfClass(ranges, u);
    StarOfClass(ranges, [c] + u);
  }

  lemma OneInFront(s: string, u: string, v: string)
    requires s != "" && s[1..] == u + v
    ensures ([s[0]] + u) + v == s
  {
    assert s == [s[0]] + s[1..];
  }

  /** A run of characters of a class, and then what `b` matches. */
  lemma StarThen(ranges: seq<(char, char)>, b: Regex, s: string)
    requires s != "" && InClass(s[0], ranges)
    ensures Matches(Cat(Star(Class(ranges)), b), s) <==>
            Matches(Cat(Star(Class(ranges)), b), s[1..]) || Matches(b, s)
  {
    if Matches(Cat(Star(Class(ranges)), b), s) {
      StarShorter(ranges, b, s);
    } else if Matches(b, s) {
      NothingThen(ranges, b, s);
    } else if Matches(Cat(Star(Class(ranges)), b), s[1..]) {
      StarLonger(ranges, b, s);
    }
  }

  lemma NothingThen(ranges: seq<(char, char)>, b: Regex, s: string)
    requires Matches(b, s)
    ensures Matches(Cat(Star(Class(ranges)), b), s)
  {
    Joins(Star(Class(ranges)), b, "", s);
    assert "" + s == s;
  }

  /** Where the class does not match, only `b` is left. */
  lemma StarStops(ranges: seq<(char, char)>, b: Regex, s: string)
    requires s == "" || !InClass(s[0], ranges)
    ensures Matches(Cat(Star(Class(ranges)), b), s) <==> Matches(b, s)
  {
    var a := Star(Class(ranges));
    if Matches(Cat(a, b), s) {
      var u, v := Splits(a, b, s);
      StarOfClass(ranges, u);
      assert u == "" && v == s;
    }
    if Matches(b, s) {
      NothingThen(ranges, b, s);
    }
  }

  // ------------------------------------------------- words joined by separators

  function Group(letters: seq<(char, char)>, separators: seq<(char, char)>): Regex {
    Cat(Class(separators), Cat(Class(letters), Star(Class(letters))))
  }

  /** `[letters]*([separators][letters]+)*` */
  function Joined(letters: seq<(char, char)>, separators: seq<(char, char)>): Regex {
    Cat(Star(Class(letters)), Star(Group(letters, separators)))
  }

  /** What it is to match that, character by character; a separator may just have been read. */
  ghost predicate JoinedTail(letters: seq<(char, char)>, separators: seq<(char, char)>, s: string, separated: bool) {
    if s == "" then !separated
    else if InClass(s[0], letters) then JoinedTail(letters, separators, s[1..], false)
    else InClass(s[0], separators) && !separated && JoinedTail(letters, separators, s[1..], true)
  }

  ghost predicate Apart(letters: seq<(char, char)>, separators: seq<(char, char)>) {
    forall c :: !(InClass(c, letters) && InClass(c, separators))
  }

  /** After a separator, at least one letter must come, and then the rest of the joined words. */
  ghost predicate AfterSeparator(letters: seq<(char, char)>, separators: seq<(char, char)>, s: string) {
    s != "" && InClass(s[0], letters) && Matches(Joined(letters, separators), s[1..])
  }

  lemma OneGroup(letters: seq<(char, char)>, separators: seq<(char, char)>, u: string)
    ensures Matches(Group(letters, separators), u) <==>
            |u| >= 2 && InClass(u[0], separators) && InClass(u[1], letters) && Matches(Star(Class(letters)), u[2..])
  {
    ClassThen(separators, Cat(Class(letters), Star(Class(letters))), u);
    if u != "" {
      ClassThen(letters, Star(Class(letters)), u[1..]);
      assert |u| >= 2 ==> u[1..][1..] == u[2..];
    }
  }

  lemma DropTwo(u: string, v: string)
    requires |u| >= 2
    ensures (u + v)[0] == u[0] && (u + v)[1..][0] == u[1] && (u + v)[1..][1..] == u[2..] + v
  {
  }

  lemma GroupsGiveSeparator(letters: seq<(char, char)>, separators: seq<(char, char)>, s: string)
    requires s != "" && Matches(Star(Group(letters, separators)), s)
    ensures InClass(s[0], separators) && AfterSeparator(letters, separators, s[1..])
  {
    var u, v := Begins(Group(letters, separators), s);
    OneGroup(letters, separators, u);
    Joins(Star(Class(letters)), Star(Group(letters, separators)), u[2..], v);
    DropTwo(u, v);
  }

  lemma GroupsFrom(letters: seq<(char, char)>, separators: seq<(char, char)>, c: char, d: char, u: string, v: string)
    requires InClass(c, separators) && InClass(d, letters)
    requires Matches(Star(Class(letters)), u) && Matches(Star(Group(letters, separators)), v)
    ensures Matches(Star(Group(letters, separators)), ([c, d] + u) + v)
  {
    assert ([c, d] + u)[2..] == u;
    OneGroup(letters, separators, [c, d] + u);
    BeginsWith(Group(letters, separators), [c, d] + u, v);
  }

  lemma SeparatorGivesGroups(letters: seq<(char, char)>, separators: seq<(char, char)>, s: string)
    requires s != "" && InClass(s[0], separators) && AfterSeparator(letters, separators, s[1..])
    ensures Matches(Star(Group(letters, separators)), s)
  {
    var u, v := Splits(Star(Class(letters)), Star(Group(letters, separators)), s[1..][1..]);
    GroupsFrom(letters, separators, s[0], s[1], u, v);
    TwoInFront(s, u, v);
  }

  lemma TwoInFront(s: string, u: string, v: string)
    requires |s| >= 2 && s[1..][1..] == u + v
    ensures ([s[0], s[1]] + u) + v == s
  {
    assert s == [s[0], s[1]] + s[1..][1..];
  }

  lemma GroupsBegin(letters: seq<(char, char)>, separators: seq<(char, char)>, s: string)
    requires s != ""
    ensures Matches(Star(Group(letters, separators)), s) <==>
            InClass(s[0], separators) && AfterSeparator(letters, separators, s[1..])
  {
    if Matches(Star(Group(letters, separators)), s) {
      GroupsGiveSeparator(letters, separators, s);
    } else if InClass(s[0], separators) && AfterSeparator(letters, separators, s[1..]) {
      SeparatorGivesGroups(letters, separators, s);
    }
  }

  lemma {:induction false} JoinedIsMatched(letters: seq<(char, char)>, separators: seq<(char, char)>, s: string)
    requires Apart(letters, separators)
    ensures JoinedTail(letters, separators, s, false) <==> Matches(Joined(letters, separators), s)
    ensures JoinedTail(letters, separators, s, true) <==> AfterSeparator(letters, separators, s)
  {
    var groups := Star(Group(letters, separators));
    if s == "" {
      StarStops(letters, groups, s);
    } else {
      JoinedIsMatched(letters, separators, s[1..]);
      GroupsBegin(letters, separators, s);
      if InClass(s[0], letters) {
        StarThen(letters, groups, s);
      } else {
        StarStops(letters, groups, s);
      }
    }
  }
}
