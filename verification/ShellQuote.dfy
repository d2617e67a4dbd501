/** Quoting words for a POSIX shell (cmd/remotr/cli_replay.go), and the way the shell
    reads them back. */
module ShellQuote {
  import opened Common
  import opened Text

  // ------------------------------------------------------------ how it is read

  /** Characters that mean something else than themselves where they are not quoted:
      sections 2.2 and 2.3 of the POSIX.1-2017 Shell Command Language. A line in which
      one of them is bare is not read here, nor is one with a NUL. */
  predicate IsSpecial(c: char) {
    || c == '|' || c == '&' || c == ';' || c == '<' || c == '>' || c == '(' || c == ')' || c == '$' || c == '`'
    || c == '\"' || c == '\n' || c == '*' || c == '?' || c == '[' || c == '#' || c == '~' || c == '=' || c == '%'
  }

  function Chars(word: Option<string>): string {
    if word.Some? then word.value else ""
  }

  /** The words of the rest of a line, after the open word `word`. Backslash is section
      2.2.1, single quotes are 2.2.2, and blanks delimit words by 2.3. */
  function Scan(s: string, quoted: bool, word: Option<string>): Option<seq<string>>
    decreases |s|
  {
    if s == "" then
      if quoted then None else if word.Some? then Some([word.value]) else Some([])
    else if s[0] == NUL then None
    else if quoted then
      if s[0] == '\'' then Scan(s[1..], false, word)
      else Scan(s[1..], true, Some(Chars(word) + [s[0]]))
    else if s[0] == '\'' then Scan(s[1..], true, Some(Chars(word)))
    else if s[0] == '\\' then
      if |s| == 1 || s[1] == NUL then None
      else if s[1] == '\n' then Scan(s[2..], false, word)
      else Scan(s[2..], false, Some(Chars(word) + [s[1]]))
    else if s[0] == ' ' || s[0] == '\t' then
      var rest := Scan(s[1..], false, None);
      if rest.Some? && word.Some? then Some([word.value] + rest.value) else rest
    else if IsSpecial(s[0]) then None
    else Scan(s[1..], false, Some(Chars(word) + [s[0]]))
  }

  function Tokenize(line: string): Option<seq<string>> {
    Scan(line, false, None)
  }

  // ---------------------------------------------------------- how it is written

  predicate SafeChar(c: char) {
    'a' <= c <= 'z' || 'A' <= c <= 'Z' || '0' <= c <= '9'
    || c == '-' || c == '_' || c == '.' || c == '/' || c == ':' || c == '@'
  }

  predicate AllSafe(s: string) {
    forall i :: 0 <= i < |s| ==> SafeChar(s[i])
  }

  predicate ShellWordSafe(s: string) {
    s != "" && AllSafe(s)
  }

  /** Each single quote closes the quotes, stands escaped, and opens them again. */
  function Escape(s: string): string {
    if s == "" then "" else (if s[0] == '\'' then "'\\''" else [s[0]]) + Escape(s[1..])
  }

  function Quote(s: string): string {
    if s == "" then "''"
    else if ShellWordSafe(s) then s
    else "'" + Escape(s) + "'"
  }

  /** What stands on a line for one argument: printed as it is, or quoted. */
  datatype Part = Bare(text: string) | Value(text: string)

  function Printed(p: Part): string {
    if p.Bare? then p.text else Quote(p.text)
  }

  function PrintAll(parts: seq<Part>): (r: seq<string>)
    ensures |r| == |parts|
  {
    seq(|parts|, i requires 0 <= i < |parts| => Printed(parts[i]))
  }

  function Texts(parts: seq<Part>): (r: seq<string>)
    ensures |r| == |parts|
  {
    seq(|parts|, i requires 0 <= i < |parts| => parts[i].text)
  }

  function Values(words: seq<string>): (r: seq<Part>)
    ensures |r| == |words|
  {
    seq(|words|, i requires 0 <= i < |words| => Value(words[i]))
  }

  function Join(parts: seq<string>): string {
    if parts == [] then ""
    else if |parts| == 1 then parts[0]
    else parts[0] + " " + Join(parts[1..])
  }

  lemma {:induction false} EscapeOfPlain(a: string, b: string)
    requires '\'' !in a
    ensures Escape(a + b) == a + Escape(b)
  {
    if a == "" {
      assert a + b == b;
    } else {
      assert (a + b)[1..] == a[1..] + b;
      EscapeOfPlain(a[1..], b);
      assert [a[0]] + (a[1..] + Escape(b)) == a + Escape(b);
    }
  }

  /** Every single quote, and nothing else, is replaced. */
  lemma EscapeReplacesQuotes(a: string, b: string)
    requires '\'' !in a
    ensures Escape(a) == a && Escape(a + ("'" + b)) == a + ("'\\''" + Escape(b))
  {
    EscapeOfPlain(a, "'" + b);
    EscapeOfPlain(a, "");
    assert a + "" == a && ("'" + b)[1..] == b;
  }

  /** Letters, digits and `-_./:@`, here by their ASCII codes. */
  predicate SafeCode(code: int) {
    97 <= code <= 122 || 65 <= code <= 90 || 45 <= code <= 58 || code == 95 || code == 64
  }

  lemma SafeByCode(c: char)
    ensures SafeChar(c) <==> SafeCode(c as int)
  {
  }

  lemma AllSafeByCode(s: string)
    ensures AllSafe(s) <==> forall i :: 0 <= i < |s| ==> SafeCode(s[i] as int)
  {
    forall i | 0 <= i < |s| ensures SafeChar(s[i]) <==> SafeCode(s[i] as int) {
      SafeByCode(s[i]);
    }
  }

  /** A word is printed bare exactly when it is not empty and all its characters are safe;
      otherwise it is escaped within quotes. */
  lemma QuotedUnlessSafe(s: string)
    ensures
      var safe := s != "" && forall i :: 0 <= i < |s| ==> SafeCode(s[i] as int);
      Quote(s) == if safe then s else "'" + Escape(s) + "'"
  {
    AllSafeByCode(s);
    assert "'" + Escape("") + "'" == "''";
  }

  predicate NulFree(s: string) {
    NUL !in s
  }

  // ------------------------------------------------------------- the round trip

  /** A character that means itself where it is not quoted. */
  predicate LiteralChar(c: char) {
    c != NUL && c != '\'' && c != '\\' && c != ' ' && c != '\t' && !IsSpecial(c)
  }

  predicate Literal(s: string) {
    forall i :: 0 <= i < |s| ==> LiteralChar(s[i])
  }

  lemma ScanLiteralChar(s: string, word: Option<string>)
    requires s != "" && LiteralChar(s[0])
    ensures Scan(s, false, word) == Scan(s[1..], false, Some(Chars(word) + [s[0]]))
  {
  }

  lemma {:induction false} ScanLiteral(s: string, rest: string, word: Option<string>)
    requires Literal(s)
    ensures Scan(s + rest, false, word) == Scan(rest, false, if s == "" then word else Some(Chars(word) + s))
  {
    if s == "" {
      assert s + rest == rest;
    } else {
      var next := Some(Chars(word) + [s[0]]);
      ScanLiteralChar(s + rest, word);
      assert (s + rest)[1..] == s[1..] + rest;
      ScanLiteral(s[1..], rest, next);
      assert next.value + s[1..] == Chars(word) + s;
      assert s[1..] == "" ==> next.value == Chars(word) + s;
    }
  }

  function Total(words: seq<string>): nat {
    if words == [] then 0 else |words[0]| + Total(words[1..])
  }

  /** Reading gives back at most the characters read, and fewer when one of them is
      not literal. */
  lemma {:induction false} ScanLoses(s: string, quoted: bool, word: Option<string>)
    requires Scan(s, quoted, word).Some?
    ensures Total(Scan(s, quoted, word).value) <= |Chars(word)| + |s|
    ensures !quoted && !Literal(s) ==> Total(Scan(s, quoted, word).value) < |Chars(word)| + |s|
    decreases |s|
  {
    if s == "" {
      assert word.Some? ==> [word.value][1..] == [];
    } else if quoted {
      ScanLoses(s[1..], s[0] != '\'', if s[0] == '\'' then word else Some(Chars(word) + [s[0]]));
    } else if s[0] == '\'' {
      ScanLoses(s[1..], true, Some(Chars(word)));
    } else if s[0] == '\\' {
      ScanLoses(s[2..], false, if s[1] == '\n' then word else Some(Chars(word) + [s[1]]));
    } else if s[0] == ' ' || s[0] == '\t' {
      ScanLoses(s[1..], false, None);
      assert word.Some? ==> ([word.value] + Scan(s[1..], false, None).value)[1..] == Scan(s[1..], false, None).value;
    } else {
      ScanLoses(s[1..], false, Some(Chars(word) + [s[0]]));
      assert s == [s[0]] + s[1..];
    }
  }

  /** A bare word reads as itself exactly when all its characters are literal. */
  lemma BareWordReads(s: string)
    ensures Tokenize(s) == Some([s]) <==> s != "" && Literal(s)
  {
    if Literal(s) {
      assert s + "" == s;
      ScanLiteral(s, "", None);
      assert "" + s == s;
    }
    if Tokenize(s) == Some([s]) {
      ScanLoses(s, false, None);
      assert Total([s]) == |s|;
    }
  }

  lemma ScanEscapedQuote(tail: string, word: string)
    ensures Scan("'\\''" + tail, true, Some(word)) == Scan(tail, true, Some(word + "'"))
  {
    var line := "'\\''" + tail;
    assert line[1..] == "\\''" + tail;
    assert line[1..][2..] == "'" + tail;
    assert line[1..][2..][1..] == tail;
    assert Scan(line, true, Some(word)) == Scan(line[1..], false, Some(word));
    assert Scan(line[1..], false, Some(word)) == Scan(line[1..][2..], false, Some(word + "'"));
  }

  lemma {:induction false} ScanEscaped(s: string, rest: string, word: string)
    ensures Scan(Escape(s) + "'" + rest, true, Some(word)) ==
            if NulFree(s) then Scan(rest, false, Some(word + s)) else None
  {
    var line := Escape(s) + "'" + rest;
    if s == "" {
      assert line[1..] == rest && word + s == word;
    } else {
      var tail := Escape(s[1..]) + "'" + rest;
      ScanEscaped(s[1..], rest, word + [s[0]]);
      assert NulFree(s) <==> s[0] != NUL && NulFree(s[1..]);
      assert word + [s[0]] + s[1..] == word + s;
      if s[0] == '\'' {
        assert line == "'\\''" + tail;
        ScanEscapedQuote(tail, word);
        assert word + "'" == word + [s[0]];
      } else {
        assert line == [s[0]] + tail && line[1..] == tail;
      }
    }
  }

  lemma ScanSafeWord(s: string, rest: string)
    requires ShellWordSafe(s)
    ensures Scan(s + rest, false, None) == Scan(rest, false, Some(s)) && NulFree(s)
  {
    assert Literal(s);
    ScanLiteral(s, rest, None);
    assert "" + s == s;
  }

  lemma ScanQuotedWord(s: string, rest: string)
    ensures Scan("'" + Escape(s) + "'" + rest, false, None) == if NulFree(s) then Scan(rest, false, Some(s)) else None
  {
    var line := "'" + Escape(s) + "'" + rest;
    assert line[1..] == Escape(s) + "'" + rest;
    assert Scan(line, false, None) == Scan(line[1..], true, Some(""));
    ScanEscaped(s, rest, "");
    assert "" + s == s;
  }

  lemma ScanQuote(s: string, rest: string)
    ensures Scan(Quote(s) + rest, false, None) == if NulFree(s) then Scan(rest, false, Some(s)) else None
  {
    if ShellWordSafe(s) {
      ScanSafeWord(s, rest);
    } else {
      assert Quote(s) == "'" + Escape(s) + "'";
      ScanQuotedWord(s, rest);
    }
  }

  lemma ScanBlank(rest: string, word: string)
    ensures Scan(" " + rest, false, Some(word)) ==
            (var more := Scan(rest, false, None); if more.Some? then Some([word] + more.value) else None)
  {
    assert (" " + rest)[1..] == rest;
  }

  ghost predicate AllNulFree(words: seq<string>) {
    forall w <- words :: NulFree(w)
  }

  /** A bare part is a word that reads as itself. */
  ghost predicate BareReads(p: Part) {
    p.Bare? ==> Tokenize(p.text) == Some([p.text])
  }

  lemma ScanPart(p: Part, rest: string)
    requires BareReads(p)
    ensures Scan(Printed(p) + rest, false, None) == if NulFree(p.text) then Scan(rest, false, Some(p.text)) else None
  {
    if p.Bare? {
      BareWordReads(p.text);
      ScanLiteral(p.text, rest, None);
      assert "" + p.text == p.text;
      assert NUL !in p.text;
    } else {
      ScanQuote(p.text, rest);
    }
  }

  /** A shell reads a line of parts back as their texts exactly when none has a NUL, as
      long as the bare ones read as themselves. */
  lemma {:induction false} PartsRoundTrip(parts: seq<Part>)
    requires forall p <- parts :: BareReads(p)
    ensures Tokenize(Join(PrintAll(parts))) == if AllNulFree(Texts(parts)) then Some(Texts(parts)) else None
  {
    if parts != [] {
      var first, tail := parts[0], parts[1..];
      assert parts == [first] + tail;
      assert PrintAll(parts)[1..] == PrintAll(tail);
      assert Texts(parts) == [first.text] + Texts(tail);
      assert AllNulFree(Texts(parts)) <==> NulFree(first.text) && AllNulFree(Texts(tail));
      PartsRoundTrip(tail);
      if tail == [] {
        assert Texts(parts) == [first.text];
        assert Printed(first) + "" == Printed(first) == Join(PrintAll(parts));
        ScanPart(first, "");
      } else {
        var rest := Join(PrintAll(tail));
        assert Join(PrintAll(parts)) == Printed(first) + (" " + rest);
        ScanPart(first, " " + rest);
        ScanBlank(rest, first.text);
      }
    }
  }

  /** A shell reads quoted words back exactly when none has a NUL, which no argument of
      a process can have. */
  lemma QuotingRoundTrips(words: seq<string>)
    ensures Tokenize(Join(PrintAll(Values(words)))) == if AllNulFree(words) then Some(words) else None
  {
    PartsRoundTrip(Values(words));
    assert Texts(Values(words)) == words;
  }

  /** So two lists of arguments never give the same line. */
  lemma QuotingIsInjective(a: seq<string>, b: seq<string>)
    requires AllNulFree(a) && AllNulFree(b)
    ensures Join(PrintAll(Values(a))) == Join(PrintAll(Values(b))) <==> a == b
  {
    QuotingRoundTrips(a);
    QuotingRoundTrips(b);
  }
}
