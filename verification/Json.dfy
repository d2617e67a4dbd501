/** A reader of JSON texts, from sections 2 to 7 of RFC 8259. It knows nothing of any
    particular document. */
module Json {
  import opened Common

  /** An object is the list of its members, in the order of the text. */
  datatype Value =
    | Null
    | Bool(truth: bool)
    | Number(digits: string)
    | Str(text: string)
    | Arr(items: seq<Value>)
    | Obj(members: seq<(string, Value)>)

  type Read<T> = Option<(T, string)>

  function Skip(s: string): (r: string)
    ensures |r| <= |s|
  {
    if s != "" && (s[0] == ' ' || s[0] == '\t' || s[0] == '\n' || s[0] == '\r') then Skip(s[1..]) else s
  }

  function HexValue(c: char): Option<nat> {
    if '0' <= c <= '9' then Some((c - '0') as nat)
    else if 'a' <= c <= 'f' then Some((c - 'a') as nat + 10)
    else if 'A' <= c <= 'F' then Some((c - 'A') as nat + 10)
    else None
  }

  function HexNumber(s: string): Option<nat> {
    if s == "" then Some(0)
    else
      var high, low := HexNumber(s[..|s| - 1]), HexValue(s[|s| - 1]);
      if high.None? || low.None? then None else Some(16 * high.value + low.value)
  }

  /** The character after a backslash; surrogates are not read. */
  function ReadEscape(s: string): (r: Read<char>)
    ensures r.Some? ==> |r.value.1| < |s|
  {
    if s == "" then None
    else if s[0] == '"' || s[0] == '\\' || s[0] == '/' then Some((s[0], s[1..]))
    else if s[0] == 'b' then Some((8 as char, s[1..]))
    else if s[0] == 'f' then Some((12 as char, s[1..]))
    else if s[0] == 'n' then Some(('\n', s[1..]))
    else if s[0] == 'r' then Some(('\r', s[1..]))
    else if s[0] == 't' then Some(('\t', s[1..]))
    else if s[0] == 'u' && |s| >= 5 then
      var code := HexNumber(s[1..5]);
      if code.Some? && (code.value < 0xD800 || 0xE000 <= code.value < 0x1_0000) then Some((code.value as char, s[5..])) else None
    else None
  }

  /** The rest of a string, after its first quotation mark. */
  function ReadText(s: string): (r: Read<string>)
    ensures r.Some? ==> |r.value.1| < |s|
    decreases |s|
  {
    if s == "" || s[0] < ' ' then None
    else if s[0] == '"' then Some(("", s[1..]))
    else if s[0] == '\\' then
      var c := ReadEscape(s[1..]);
      if c.None? then None else
      var more := ReadText(c.value.1);
      if more.None? then None else Some(([c.value.0] + more.value.0, more.value.1))
    else
      var more := ReadText(s[1..]);
      if more.None? then None else Some(([s[0]] + more.value.0, more.value.1))
  }

  function Digits(s: string): (n: nat)
    ensures n <= |s|
  {
    if s != "" && '0' <= s[0] <= '9' then 1 + Digits(s[1..]) else 0
  }

  /** The length of the integer part, and 0 where there is none. */
  function IntegerPart(s: string): (n: nat)
    ensures n <= |s|
  {
    var sign := if s != "" && s[0] == '-' then 1 else 0;
    var d := Digits(s[sign..]);
    if d == 0 || (d > 1 && s[sign] == '0') then 0 else sign + d
  }

  /** The length of a part that `first` begins and digits end, or None if it is broken. */
  function FractionPart(s: string): (n: Option<nat>)
    ensures n.Some? ==> n.value <= |s|
  {
    if s == "" || s[0] != '.' then Some(0)
    else if Digits(s[1..]) == 0 then None
    else Some(1 + Digits(s[1..]))
  }

  function ExponentPart(s: string): (n: Option<nat>)
    ensures n.Some? ==> n.value <= |s|
  {
    if s == "" || (s[0] != 'e' && s[0] != 'E') then Some(0)
    else
      var sign := if |s| > 1 && (s[1] == '+' || s[1] == '-') then 2 else 1;
      if Digits(s[sign..]) == 0 then None else Some(sign + Digits(s[sign..]))
  }

  function ReadNumber(s: string): (r: Read<Value>)
    ensures r.Some? ==> |r.value.1| < |s|
  {
    var i := IntegerPart(s);
    if i == 0 then None else
    var f := FractionPart(s[i..]);
    if f.None? then None else
    var e := ExponentPart(s[i + f.value..]);
    if e.None? then None else
    var n := i + f.value + e.value;
    Some((Number(s[..n]), s[n..]))
  }

  function ReadLiteral(word: string, v: Value, s: string): (r: Read<Value>)
    requires word != ""
    ensures r.Some? ==> |r.value.1| < |s|
  {
    if word <= s then Some((v, s[|word|..])) else None
  }

  function ReadValue(s: string): (r: Read<Value>)
    ensures r.Some? ==> |r.value.1| < |s|
    decreases |s|, 1
  {
    var t := Skip(s);
    if t == "" then None
    else if t[0] == '"' then
      var text := ReadText(t[1..]);
      if text.None? then None else Some((Str(text.value.0), text.value.1))
    else if t[0] == '[' then
      var u := Skip(t[1..]);
      if u != "" && u[0] == ']' then Some((Arr([]), u[1..])) else
      var items := ReadItems(t[1..]);
      if items.None? then None else Some((Arr(items.value.0), items.value.1))
    else if t[0] == '{' then
      var u := Skip(t[1..]);
      if u != "" && u[0] == '}' then Some((Obj([]), u[1..])) else
      var members := ReadMembers(t[1..]);
      if members.None? then None else Some((Obj(members.value.0), members.value.1))
    else if t[0] == 'n' then ReadLiteral("null", Null, t)
    else if t[0] == 't' then ReadLiteral("true", Bool(true), t)
    else if t[0] == 'f' then ReadLiteral("false", Bool(false), t)
    else ReadNumber(t)
  }

  /** The items of an array, to its end. */
  function ReadItems(s: string): (r: Read<seq<Value>>)
    ensures r.Some? ==> |r.value.1| < |s|
    decreases |s|, 2
  {
    var v := ReadValue(s);
    if v.None? then None else
    var t := Skip(v.value.1);
    if t == "" then None
    else if t[0] == ']' then Some(([v.value.0], t[1..]))
    else if t[0] == ',' then
      var more := ReadItems(t[1..]);
      if more.None? then None else Some(([v.value.0] + more.value.0, more.value.1))
    else None
  }

  /** The members of an object, to its end. */
  function ReadMembers(s: string): (r: Read<seq<(string, Value)>>)
    ensures r.Some? ==> |r.value.1| < |s|
    decreases |s|, 2
  {
    var t := Skip(s);
    if t == "" || t[0] != '"' then None else
    var name := ReadText(t[1..]);
    if name.None? then None else
    var u := Skip(name.value.1);
    if u == "" || u[0] != ':' then None else
    var v := ReadValue(u[1..]);
    if v.None? then None else
    var w := Skip(v.value.1);
    if w == "" then None
    else if w[0] == '}' then Some(([(name.value.0, v.value.0)], w[1..]))
    else if w[0] == ',' then
      var more := ReadMembers(w[1..]);
      if more.None? then None else Some(([(name.value.0, v.value.0)] + more.value.0, more.value.1))
    else None
  }

  /** A whole text: one value and nothing after it. */
  function ReadJson(s: string): Option<Value> {
    var v := ReadValue(s);
    if v.Some? && Skip(v.value.1) == "" then Some(v.value.0) else None
  }

  // ------------------------------------------------ reading a text that is at hand

  /** A character that stands for itself in a string. */
  predicate Bare(c: char) {
    ' ' <= c && c != '"' && c != '\\'
  }

  predicate AllBare(s: string) {
    forall i :: 0 <= i < |s| ==> Bare(s[i])
  }

  lemma {:induction false} TextIsRead(v: string, rest: string)
    requires AllBare(v)
    ensures ReadText(v + ("\"" + rest)) == Some((v, rest))
  {
    var s := v + ("\"" + rest);
    if v == "" {
      assert s[1..] == rest;
    } else {
      assert s[1..] == v[1..] + ("\"" + rest);
      TextIsRead(v[1..], rest);
      assert [v[0]] + v[1..] == v;
    }
  }

  function Quoted(v: string, rest: string): string {
    "\"" + (v + ("\"" + rest))
  }

  lemma StringIsRead(v: string, rest: string)
    requires AllBare(v)
    ensures ReadValue(Quoted(v, rest)) == Some((Str(v), rest))
  {
    assert Quoted(v, rest)[1..] == v + ("\"" + rest);
    TextIsRead(v, rest);
  }

  /** What follows a value inside an array or an object. */
  predicate Ends(s: string, close: char) {
    s != "" && (s[0] == ',' || s[0] == close)
  }

  lemma ItemIsRead(s: string, v: Value, tail: string)
    requires ReadValue(s) == Some((v, tail)) && Ends(tail, ']')
    ensures ReadItems(s) ==
            if tail[0] == ']' then Some(([v], tail[1..]))
            else
              var more := ReadItems(tail[1..]);
              if more.None? then None else Some(([v] + more.value.0, more.value.1))
  {
  }

  lemma ArrayIsRead(s: string, items: seq<Value>, rest: string)
    requires s != "" && s[0] != ']' && Skip(s) == s && ReadItems(s) == Some((items, rest))
    ensures ReadValue("[" + s) == Some((Arr(items), rest))
  {
    assert ("[" + s)[1..] == s;
  }

  function Member(name: string, text: string): string {
    Quoted(name, ":" + text)
  }

  function Key(name: string): string {
    "\"" + name + "\":"
  }

  lemma MemberShape(name: string, text: string)
    ensures Member(name, text) == Key(name) + text
  {
  }

  lemma MemberIsRead(name: string, text: string, v: Value, tail: string)
    requires AllBare(name) && ReadValue(text) == Some((v, tail)) && Ends(tail, '}')
    ensures ReadMembers(Member(name, text)) ==
            if tail[0] == '}' then Some(([(name, v)], tail[1..]))
            else
              var more := ReadMembers(tail[1..]);
              if more.None? then None else Some(([(name, v)] + more.value.0, more.value.1))
  {
    assert Member(name, text)[1..] == name + ("\"" + (":" + text));
    TextIsRead(name, ":" + text);
    assert (":" + text)[1..] == text;
  }

  lemma ObjectIsRead(s: string, members: seq<(string, Value)>, rest: string)
    requires s != "" && s[0] != '}' && Skip(s) == s && ReadMembers(s) == Some((members, rest))
    ensures ReadValue("{" + s) == Some((Obj(members), rest))
  {
    assert ("{" + s)[1..] == s;
  }

  lemma WholeIsRead(s: string, v: Value)
    requires ReadValue(s) == Some((v, ""))
    ensures ReadJson(s) == Some(v)
  {
  }
}
