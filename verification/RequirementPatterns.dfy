/** Identifiers and revisions are what the two patterns match
    (internal/artifactrequirements/set.go). */
module RequirementPatterns {
  import opened Pattern
  import opened RequirementSet

  const LOWER := [('a', 'z')]
  const LOWER_OR_DIGIT := [('a', 'z'), ('0', '9')]
  const ID_SEPARATORS := [('.', '.'), ('_', '_'), (':', ':'), ('/', '/'), ('-', '-')]
  const LETTER := [('A', 'Z'), ('a', 'z')]
  const LETTER_OR_DIGIT := [('A', 'Z'), ('a', 'z'), ('0', '9')]
  const WORD_SEPARATORS := [('.', '.'), ('_', '_'), ('-', '-')]
  const DIGIT := [('0', '9')]
  const NONZERO := [('1', '9')]
  const ZERO := [('0', '0')]
  const DOT := [('.', '.')]

  /** `[a-z][a-z0-9]*(?:[._:/-][a-z0-9]+)*` */
  const IDENTIFIER := Cat(Class(LOWER), Joined(LOWER_OR_DIGIT, ID_SEPARATORS))

  /** `[A-Za-z][A-Za-z0-9]*(?:[._-][A-Za-z0-9]+)*` */
  const WORD := Cat(Class(LETTER), Joined(LETTER_OR_DIGIT, WORD_SEPARATORS))

  /** `0|[1-9][0-9]*` */
  const COMPONENT := Or(Class(ZERO), Cat(Class(NONZERO), Star(Class(DIGIT))))

  /** `(?:\.(?:0|[1-9][0-9]*)){0,n}` */
  function UpTo(n: nat): Regex {
    if n == 0 then Empty else Opt(Cat(Class(DOT), Cat(COMPONENT, UpTo(n - 1))))
  }

  /** `0|[1-9][0-9]*(?:\.(?:0|[1-9][0-9]*)){0,2}|` and a word */
  const REVISION := Or(Class(ZERO), Or(Cat(Class(NONZERO), Cat(Star(Class(DIGIT)), UpTo(2))), WORD))

  // --------------------------------------------------------------------- words

  lemma One(range: (char, char), c: char)
    ensures InClass(c, [range]) <==> range.0 <= c <= range.1
  {
    assert [range][0] == range;
  }

  lemma TwoRanges(a: (char, char), b: (char, char), c: char)
    ensures InClass(c, [a, b]) <==> a.0 <= c <= a.1 || b.0 <= c <= b.1
  {
    assert [a, b][0] == a && [a, b][1] == b;
  }

  lemma ThreeRanges(a: (char, char), b: (char, char), d: (char, char), c: char)
    ensures InClass(c, [a, b, d]) <==> a.0 <= c <= a.1 || b.0 <= c <= b.1 || d.0 <= c <= d.1
  {
    assert [a, b, d][0] == a && [a, b, d][1] == b && [a, b, d][2] == d;
  }

  lemma IdClasses(c: char)
    ensures InClass(c, LOWER) <==> Lower(c)
    ensures InClass(c, LOWER_OR_DIGIT) <==> Lower(c) || Digit(c)
    ensures InClass(c, ID_SEPARATORS) <==> IdSeparator(c)
  {
    One(('a', 'z'), c);
    TwoRanges(('a', 'z'), ('0', '9'), c);
    assert ID_SEPARATORS[0] == ('.', '.') && ID_SEPARATORS[1] == ('_', '_') && ID_SEPARATORS[2] == (':', ':')
           && ID_SEPARATORS[3] == ('/', '/') && ID_SEPARATORS[4] == ('-', '-');
  }

  lemma WordClasses(c: char)
    ensures InClass(c, LETTER) <==> Letter(c)
    ensures InClass(c, LETTER_OR_DIGIT) <==> Letter(c) || Digit(c)
    ensures InClass(c, WORD_SEPARATORS) <==> WordSeparator(c)
  {
    TwoRanges(('A', 'Z'), ('a', 'z'), c);
    ThreeRanges(('A', 'Z'), ('a', 'z'), ('0', '9'), c);
    ThreeRanges(('.', '.'), ('_', '_'), ('-', '-'), c);
  }

  lemma {:induction false} IdTailIsJoined(s: string, separated: bool)
    ensures IdTail(s, separated) <==> JoinedTail(LOWER_OR_DIGIT, ID_SEPARATORS, s, separated)
  {
    if s != "" {
      IdClasses(s[0]);
      IdTailIsJoined(s[1..], false);
      IdTailIsJoined(s[1..], true);
    }
  }

  lemma {:induction false} WordTailIsJoined(s: string, separated: bool)
    ensures WordTail(s, separated) <==> JoinedTail(LETTER_OR_DIGIT, WORD_SEPARATORS, s, separated)
  {
    if s != "" {
      WordClasses(s[0]);
      WordTailIsJoined(s[1..], false);
      WordTailIsJoined(s[1..], true);
    }
  }

  /** An identifier is what its pattern matches. */
  lemma IdentifierIsMatched(s: string)
    ensures Identifier(s) <==> Matches(IDENTIFIER, s)
  {
    ClassThen(LOWER, Joined(LOWER_OR_DIGIT, ID_SEPARATORS), s);
    if s != "" {
      IdClasses(s[0]);
      forall c ensures !(InClass(c, LOWER_OR_DIGIT) && InClass(c, ID_SEPARATORS)) {
        IdClasses(c);
      }
      IdTailIsJoined(s[1..], false);
      JoinedIsMatched(LOWER_OR_DIGIT, ID_SEPARATORS, s[1..]);
    }
  }

  lemma WordIsMatched(s: string)
    ensures s != "" && Letter(s[0]) && WordTail(s[1..], false) <==> Matches(WORD, s)
  {
    ClassThen(LETTER, Joined(LETTER_OR_DIGIT, WORD_SEPARATORS), s);
    if s != "" {
      WordClasses(s[0]);
      forall c ensures !(InClass(c, LETTER_OR_DIGIT) && InClass(c, WORD_SEPARATORS)) {
        WordClasses(c);
      }
      WordTailIsJoined(s[1..], false);
      JoinedIsMatched(LETTER_OR_DIGIT, WORD_SEPARATORS, s[1..]);
    }
  }

  // ------------------------------------------------------------------- numbers

  lemma NumberClasses(c: char)
    ensures InClass(c, DIGIT) <==> Digit(c)
    ensures InClass(c, NONZERO) <==> '1' <= c <= '9'
    ensures InClass(c, ZERO) <==> c == '0'
    ensures InClass(c, DOT) <==> c == '.'
  {
    One(('0', '9'), c);
    One(('1', '9'), c);
    One(('0', '0'), c);
    One(('.', '.'), c);
  }

  /** After a component, nothing or a dot and one component more. */
  lemma UpToBegins(dots: nat, s: string)
    ensures Matches(UpTo(dots), s) <==>
            s == "" || (dots > 0 && s[0] == '.' && Matches(Cat(COMPONENT, UpTo(dots - 1)), s[1..]))
  {
    if dots > 0 && s != "" {
      ClassThen(DOT, Cat(COMPONENT, UpTo(dots - 1)), s);
      NumberClasses(s[0]);
    }
  }

  lemma ZeroOnly(s: string)
    ensures Matches(Class(ZERO), s) <==> s == "0"
  {
    if |s| == 1 {
      NumberClasses(s[0]);
      assert s == [s[0]];
    }
  }

  lemma ComponentMeans(u: string)
    ensures Matches(COMPONENT, u) ==>
              u == "0" || (u != "" && '1' <= u[0] <= '9' && Matches(Star(Class(DIGIT)), u[1..]))
  {
    ZeroOnly(u);
    ClassThen(NONZERO, Star(Class(DIGIT)), u);
    if u != "" {
      NumberClasses(u[0]);
    }
  }

  lemma FirstDropped(u: string, v: string)
    requires u != ""
    ensures (u + v)[0] == u[0] && (u + v)[1..] == u[1..] + v
  {
  }

  lemma ComponentSplits(b: Regex, s: string)
    requires s != ""
    ensures Matches(Cat(COMPONENT, b), s) ==>
              (s[0] == '0' && Matches(b, s[1..]))
              || ('1' <= s[0] <= '9' && Matches(Cat(Star(Class(DIGIT)), b), s[1..]))
  {
    if Matches(Cat(COMPONENT, b), s) {
      var u, v := Splits(COMPONENT, b, s);
      ComponentMeans(u);
      FirstDropped(u, v);
      if u == "0" {
        assert u[1..] + v == v;
      } else {
        Joins(Star(Class(DIGIT)), b, u[1..], v);
      }
    }
  }

  lemma ComponentJoins(b: Regex, s: string)
    requires s != ""
    ensures (s[0] == '0' && Matches(b, s[1..])) ==> Matches(Cat(COMPONENT, b), s)
    ensures ('1' <= s[0] <= '9' && Matches(Cat(Star(Class(DIGIT)), b), s[1..])) ==> Matches(Cat(COMPONENT, b), s)
  {
    NumberClasses(s[0]);
    assert s == [s[0]] + s[1..];
    if s[0] == '0' && Matches(b, s[1..]) {
      ZeroOnly([s[0]]);
      Joins(COMPONENT, b, [s[0]], s[1..]);
    }
    if '1' <= s[0] <= '9' && Matches(Cat(Star(Class(DIGIT)), b), s[1..]) {
      var u, v := Splits(Star(Class(DIGIT)), b, s[1..]);
      NonzeroFrom(s[0], u);
      Joins(COMPONENT, b, [s[0]] + u, v);
      OneInFront(s, u, v);
    }
  }

  lemma NonzeroFrom(c: char, u: string)
    requires '1' <= c <= '9' && Matches(Star(Class(DIGIT)), u)
    ensures Matches(COMPONENT, [c] + u)
  {
    NumberClasses(c);
    assert ([c] + u)[1..] == u;
    ClassThen(NONZERO, Star(Class(DIGIT)), [c] + u);
  }

  lemma {:induction false} NumberTailIsMatched(s: string, dots: nat)
    ensures NumberTail(s, dots) <==> Matches(Cat(Star(Class(DIGIT)), UpTo(dots)), s)
    decreases |s|, 0
  {
    UpToBegins(dots, s);
    if s == "" {
      StarStops(DIGIT, UpTo(dots), s);
    } else {
      NumberClasses(s[0]);
      if Digit(s[0]) {
        StarThen(DIGIT, UpTo(dots), s);
        NumberTailIsMatched(s[1..], dots);
      } else {
        StarStops(DIGIT, UpTo(dots), s);
        if dots > 0 && s[0] == '.' {
          ComponentIsMatched(s[1..], dots - 1);
        }
      }
    }
  }

  lemma {:induction false} ComponentIsMatched(s: string, dots: nat)
    ensures Component(s, dots) <==> Matches(Cat(COMPONENT, UpTo(dots)), s)
    decreases |s|, 1
  {
    if s == "" {
      NoComponent(UpTo(dots));
    } else {
      ComponentSplits(UpTo(dots), s);
      ComponentJoins(UpTo(dots), s);
      NumberTailIsMatched(s[1..], dots);
      UpToBegins(dots, s[1..]);
      if |s| > 1 && dots > 0 {
        assert s[1..][1..] == s[2..];
        ComponentIsMatched(s[2..], dots - 1);
      }
    }
  }

  lemma NoComponent(b: Regex)
    ensures !Matches(Cat(COMPONENT, b), "")
  {
    if Matches(Cat(COMPONENT, b), "") {
      var u, v := Splits(COMPONENT, b, "");
      ClassThen(NONZERO, Star(Class(DIGIT)), u);
    }
  }

  /** A revision is what its pattern matches. */
  lemma RevisionIsMatched(s: string)
    ensures Revision(s) <==> Matches(REVISION, s)
  {
    var number := Cat(Star(Class(DIGIT)), UpTo(2));
    ZeroOnly(s);
    WordIsMatched(s);
    ClassThen(NONZERO, number, s);
    if s != "" {
      NumberClasses(s[0]);
      NumberTailIsMatched(s[1..], 2);
    }
  }
}
