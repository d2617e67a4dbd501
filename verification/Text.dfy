/** White space as Go's strings.TrimSpace knows it, and the character NUL. */
module Text {

  const NUL: char := '\0'

  /** The Unicode White_Space property. */
  predicate IsSpace(c: char) {
    || '\t' <= c <= '\r' || c == ' ' || c == 0x85 as char || c == 0xA0 as char
    || c == 0x1680 as char || 0x2000 as char <= c <= 0x200A as char || c == 0x2028 as char
    || c == 0x2029 as char || c == 0x202F as char || c == 0x205F as char || c == 0x3000 as char
  }

  function TrimLeft(s: string): string {
    if s != "" && IsSpace(s[0]) then TrimLeft(s[1..]) else s
  }

  function TrimRight(s: string): string {
    if s != "" && IsSpace(s[|s| - 1]) then TrimRight(s[..|s| - 1]) else s
  }

  function TrimSpace(s: string): string {
    TrimRight(TrimLeft(s))
  }

  predicate Blank(s: string) {
    forall i :: 0 <= i < |s| ==> IsSpace(s[i])
  }

  lemma {:induction false} LeftCut(s: string)
    ensures exists a :: Blank(a) && s == a + TrimLeft(s)
    ensures TrimLeft(s) == "" || !IsSpace(TrimLeft(s)[0])
  {
    if s != "" && IsSpace(s[0]) {
      LeftCut(s[1..]);
      var a :| Blank(a) && s[1..] == a + TrimLeft(s[1..]);
      assert Blank([s[0]] + a) && s == ([s[0]] + a) + TrimLeft(s);
    } else {
      assert Blank("") && s == "" + TrimLeft(s);
    }
  }

  lemma {:induction false} RightCut(s: string)
    ensures exists b :: Blank(b) && s == TrimRight(s) + b
    ensures TrimRight(s) == "" || !IsSpace(TrimRight(s)[|TrimRight(s)| - 1])
  {
    if s != "" && IsSpace(s[|s| - 1]) {
      var front, last := s[..|s| - 1], s[|s| - 1];
      RightCut(front);
      var b :| Blank(b) && front == TrimRight(front) + b;
      assert Blank(b + [last]) && s == TrimRight(s) + (b + [last]);
    } else {
      assert Blank("") && s == TrimRight(s) + "";
    }
  }

  /** Trimming cuts white space off both ends, and all of it. */
  lemma TrimSpaceCuts(s: string)
    ensures exists a, b :: Blank(a) && Blank(b) && s == a + TrimSpace(s) + b
    ensures TrimSpace(s) == "" || (!IsSpace(TrimSpace(s)[0]) && !IsSpace(TrimSpace(s)[|TrimSpace(s)| - 1]))
  {
    var t := TrimLeft(s);
    LeftCut(s);
    RightCut(t);
    var a :| Blank(a) && s == a + t;
    var b :| Blank(b) && t == TrimRight(t) + b;
    assert s == a + TrimSpace(s) + b;
    if TrimSpace(s) != "" {
      assert TrimSpace(s)[0] == t[0];
    }
  }

  /** Nothing is left exactly of white space. */
  lemma TrimSpaceOfBlank(s: string)
    ensures TrimSpace(s) == "" <==> Blank(s)
  {
    TrimSpaceCuts(s);
    var a, b :| Blank(a) && Blank(b) && s == a + TrimSpace(s) + b;
    assert TrimSpace(s) != "" ==> s[|a|] == TrimSpace(s)[0];
  }

  /** A text is left as it is exactly when neither end is white space. */
  lemma TrimSpaceKeeps(s: string)
    ensures TrimSpace(s) == s <==> s == "" || (!IsSpace(s[0]) && !IsSpace(s[|s| - 1]))
  {
    TrimSpaceCuts(s);
  }
}
