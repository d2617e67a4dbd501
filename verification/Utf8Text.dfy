/** Bounding the text of an export (desktop/read_export_service.go) without cutting a
    character of UTF-8. */
module Utf8Text {
  import opened Common

  const TEXT_LIMIT: nat := 2048
  const LIST_LIMIT: nat := 500

  // ------------------------------------------------- section 4 of RFC 3629

  predicate Tail(b: byte) {
    0x80 <= b <= 0xBF
  }

  /** The bytes of a character that begins with `a`, as many as there should be. */
  function Width(a: byte): nat {
    if a <= 0x7F then 1
    else if 0xC2 <= a <= 0xDF then 2
    else if 0xE0 <= a <= 0xEF then 3
    else if 0xF0 <= a <= 0xF4 then 4
    else 0
  }

  /** What the grammar asks of the second byte. */
  predicate Second(a: byte, b: byte) {
    if a == 0xE0 then 0xA0 <= b <= 0xBF
    else if a == 0xED then 0x80 <= b <= 0x9F
    else if a == 0xF0 then 0x90 <= b <= 0xBF
    else if a == 0xF4 then 0x80 <= b <= 0x8F
    else Tail(b)
  }

  /** The length of the character `s` begins with, and 0 when it begins with none. */
  function CharLen(s: seq<byte>): (n: nat)
    ensures n <= |s| && n <= 4
    ensures s != [] && n > 0 ==> n == Width(s[0])
  {
    if s == [] then 0
    else
      var n := Width(s[0]);
      if n <= |s|
         && (n >= 2 ==> Second(s[0], s[1]))
         && (n >= 3 ==> Tail(s[2]))
         && (n >= 4 ==> Tail(s[3]))
      then n else 0
  }

  predicate Valid(s: seq<byte>) {
    s == [] || (CharLen(s) > 0 && Valid(s[CharLen(s)..]))
  }

  /** A character is known from its own bytes, and no proper beginning of it is one. */
  lemma CharLenOfPrefix(s: seq<byte>, k: nat)
    requires k <= |s| && CharLen(s) > 0
    ensures CharLen(s[..k]) == if CharLen(s) <= k then CharLen(s) else 0
  {
  }

  lemma ValidPrefix(s: seq<byte>, k: nat)
    requires 0 < k <= |s| && CharLen(s) > 0
    ensures Valid(s[..k]) <==> CharLen(s) <= k && Valid(s[CharLen(s)..][..k - CharLen(s)])
  {
    var n := CharLen(s);
    CharLenOfPrefix(s, k);
    if n <= k {
      assert s[..k][n..] == s[n..][..k - n];
    }
  }

  lemma CharLenOfConcat(a: seq<byte>, b: seq<byte>)
    requires CharLen(a) > 0
    ensures CharLen(a + b) == CharLen(a)
    ensures (a + b)[CharLen(a)..] == a[CharLen(a)..] + b && (a + b)[..CharLen(a)] == a[..CharLen(a)]
  {
    assert (a + b)[..|a|] == a;
  }

  lemma {:induction false} ValidConcat(a: seq<byte>, b: seq<byte>)
    requires Valid(a) && Valid(b)
    ensures Valid(a + b)
  {
    if a == [] {
      assert a + b == b;
    } else {
      CharLenOfConcat(a, b);
      ValidConcat(a[CharLen(a)..], b);
    }
  }

  // --------------------------------------- sections 3 and 4 agree: scalar values

  predicate IsScalar(c: int) {
    0 <= c < 0xD800 || 0xE000 <= c <= 0x10FFFF
  }

  /** The encoding of a scalar value, by the table of section 3 of RFC 3629. */
  function Encode(c: int): (r: seq<byte>)
    requires IsScalar(c)
    ensures 1 <= |r| <= 4
  {
    if c < 0x80 then [c as byte]
    else if c < 0x800 then [(0xC0 + c / 0x40) as byte, (0x80 + c % 0x40) as byte]
    else if c < 0x1_0000 then
      [(0xE0 + c / 0x1000) as byte, (0x80 + c / 0x40 % 0x40) as byte, (0x80 + c % 0x40) as byte]
    else
      [(0xF0 + c / 0x4_0000) as byte, (0x80 + c / 0x1000 % 0x40) as byte,
       (0x80 + c / 0x40 % 0x40) as byte, (0x80 + c % 0x40) as byte]
  }

  function EncodeAll(cs: seq<int>): seq<byte>
    requires forall i :: 0 <= i < |cs| ==> IsScalar(cs[i])
  {
    if cs == [] then [] else Encode(cs[0]) + EncodeAll(cs[1..])
  }

  /** The first byte, and what the second may be after it. */
  lemma ThreeByteSecond(c: int)
    requires IsScalar(c) && 0x800 <= c < 0x1_0000
    ensures Second((0xE0 + c / 0x1000) as byte, (0x80 + c / 0x40 % 0x40) as byte)
  {
    var a, b := c / 0x1000, c / 0x40 % 0x40;
    assert 0x1000 * a + 0x40 * b <= c < 0x1000 * a + 0x40 * b + 0x40;
  }

  lemma FourByteSecond(c: int)
    requires IsScalar(c) && 0x1_0000 <= c
    ensures c / 0x4_0000 <= 4 && Second((0xF0 + c / 0x4_0000) as byte, (0x80 + c / 0x1000 % 0x40) as byte)
  {
    var a, b := c / 0x4_0000, c / 0x1000 % 0x40;
    assert 0x4_0000 * a + 0x1000 * b <= c < 0x4_0000 * a + 0x1000 * b + 0x1000;
  }

  lemma EncodedIsChar(c: int)
    requires IsScalar(c)
    ensures CharLen(Encode(c)) == |Encode(c)|
  {
    if 0x800 <= c < 0x1_0000 {
      ThreeByteSecond(c);
    } else if 0x1_0000 <= c {
      FourByteSecond(c);
    }
  }

  /** The scalar value of the character `s` begins with. */
  function Scalar(s: seq<byte>): int
    requires CharLen(s) > 0
  {
    match CharLen(s)
    case 1 => s[0] as int
    case 2 => (s[0] as int - 0xC0) * 0x40 + (s[1] as int - 0x80)
    case 3 => (s[0] as int - 0xE0) * 0x1000 + (s[1] as int - 0x80) * 0x40 + (s[2] as int - 0x80)
    case _ => (s[0] as int - 0xF0) * 0x4_0000 + (s[1] as int - 0x80) * 0x1000 + (s[2] as int - 0x80) * 0x40 + (s[3] as int - 0x80)
  }

  lemma TwoPieces(a: int, b: int)
    requires 0 <= a && 0 <= b < 0x40
    ensures (a * 0x40 + b) / 0x40 == a && (a * 0x40 + b) % 0x40 == b
  {
  }

  lemma ThreePieces(a: int, b: int, d: int)
    requires 0 <= a && 0 <= b < 0x40 && 0 <= d < 0x40
    ensures var c := a * 0x1000 + b * 0x40 + d; c / 0x1000 == a && c / 0x40 % 0x40 == b && c % 0x40 == d
  {
    TwoPieces(a, b);
    TwoPieces(a * 0x40 + b, d);
    assert a * 0x1000 + b * 0x40 + d == (a * 0x40 + b) * 0x40 + d;
  }

  lemma FourPieces(a: int, b: int, d: int, e: int)
    requires 0 <= a && 0 <= b < 0x40 && 0 <= d < 0x40 && 0 <= e < 0x40
    ensures var c := a * 0x4_0000 + b * 0x1000 + d * 0x40 + e;
            c / 0x4_0000 == a && c / 0x1000 % 0x40 == b && c / 0x40 % 0x40 == d && c % 0x40 == e
  {
    ThreePieces(a * 0x40 + b, d, e);
    TwoPieces(a, b);
    assert a * 0x4_0000 + b * 0x1000 + d * 0x40 + e == (a * 0x40 + b) * 0x1000 + d * 0x40 + e;
  }

  lemma TwoBytesAreEncoded(s: seq<byte>)
    requires CharLen(s) == 2
    ensures IsScalar(Scalar(s)) && Encode(Scalar(s)) == s[..2]
  {
    TwoPieces(s[0] as int - 0xC0, s[1] as int - 0x80);
  }

  lemma ThreeBytesAreEncoded(s: seq<byte>)
    requires CharLen(s) == 3
    ensures IsScalar(Scalar(s)) && Encode(Scalar(s)) == s[..3]
  {
    ThreePieces(s[0] as int - 0xE0, s[1] as int - 0x80, s[2] as int - 0x80);
  }

  lemma FourBytesAreEncoded(s: seq<byte>)
    requires CharLen(s) == 4
    ensures IsScalar(Scalar(s)) && Encode(Scalar(s)) == s[..4]
  {
    FourPieces(s[0] as int - 0xF0, s[1] as int - 0x80, s[2] as int - 0x80, s[3] as int - 0x80);
  }

  lemma CharIsEncoded(s: seq<byte>)
    requires CharLen(s) > 0
    ensures IsScalar(Scalar(s)) && Encode(Scalar(s)) == s[..CharLen(s)]
  {
    match CharLen(s)
    case 1 =>
    case 2 => TwoBytesAreEncoded(s);
    case 3 => ThreeBytesAreEncoded(s);
    case _ => FourBytesAreEncoded(s);
  }

  /** A text is valid exactly when it encodes some list of scalar values. */
  lemma ValidIsEncoded(s: seq<byte>)
    ensures Valid(s) <==> exists cs :: EncodedBy(s, cs)
  {
    if Valid(s) {
      var cs := ScalarsOf(s);
    }
    if cs :| EncodedBy(s, cs) {
      EncodedIsValid(cs);
    }
  }

  ghost predicate EncodedBy(s: seq<byte>, cs: seq<int>) {
    (forall i :: 0 <= i < |cs| ==> IsScalar(cs[i])) && EncodeAll(cs) == s
  }

  lemma EncodeOneMore(s: seq<byte>, more: seq<int>)
    requires CharLen(s) > 0 && EncodedBy(s[CharLen(s)..], more)
    ensures IsScalar(Scalar(s)) && EncodedBy(s, [Scalar(s)] + more)
  {
    CharIsEncoded(s);
    assert ([Scalar(s)] + more)[1..] == more;
    assert s == s[..CharLen(s)] + s[CharLen(s)..];
  }

  lemma {:induction false} ScalarsOf(s: seq<byte>) returns (cs: seq<int>)
    requires Valid(s)
    ensures EncodedBy(s, cs)
  {
    if s == [] {
      cs := [];
    } else {
      var more := ScalarsOf(s[CharLen(s)..]);
      EncodeOneMore(s, more);
      cs := [Scalar(s)] + more;
    }
  }

  lemma {:induction false} EncodedIsValid(cs: seq<int>)
    requires forall i :: 0 <= i < |cs| ==> IsScalar(cs[i])
    ensures Valid(EncodeAll(cs))
  {
    if cs != [] {
      EncodedIsValid(cs[1..]);
      EncodedIsChar(cs[0]);
      OneCharIsValid(Encode(cs[0]));
      ValidConcat(Encode(cs[0]), EncodeAll(cs[1..]));
    }
  }

  lemma OneCharIsValid(s: seq<byte>)
    requires CharLen(s) == |s| > 0
    ensures Valid(s)
  {
    assert s[|s|..] == [];
  }

  // ------------------------------------------------------------- sanitising

  /** U+FFFD */
  const REPLACEMENT: seq<byte> := [0xEF, 0xBF, 0xBD]

  /** Go's strings.ToValidUTF8: bytes that begin no character are dropped, and the first
      of a run of them is replaced. */
  function Sanitize(s: seq<byte>, invalid: bool): seq<byte> {
    if s == [] then []
    else
      var n := CharLen(s);
      if n > 0 then s[..n] + Sanitize(s[n..], false)
      else (if invalid then [] else REPLACEMENT) + Sanitize(s[1..], true)
  }

  lemma ReplacementIsEncoded()
    ensures Encode(0xFFFD) == REPLACEMENT
  {
  }

  lemma CharIsValid(s: seq<byte>)
    requires CharLen(s) > 0
    ensures Valid(s[..CharLen(s)])
  {
    CharLenOfPrefix(s, CharLen(s));
  }

  lemma {:induction false} SanitizedIsValid(s: seq<byte>, invalid: bool)
    ensures Valid(Sanitize(s, invalid))
  {
    if s != [] {
      var n := CharLen(s);
      if n > 0 {
        CharIsValid(s);
        SanitizedIsValid(s[n..], false);
        ValidConcat(s[..n], Sanitize(s[n..], false));
      } else {
        SanitizedIsValid(s[1..], true);
        assert CharLen(REPLACEMENT) == 3;
        ValidConcat(REPLACEMENT, Sanitize(s[1..], true));
        assert [] + Sanitize(s[1..], true) == Sanitize(s[1..], true);
      }
    }
  }

  /** Exactly the valid texts are left as they are. */
  lemma {:induction false} SanitizeKeepsExactlyValid(s: seq<byte>)
    ensures Sanitize(s, false) == s <==> Valid(s)
  {
    SanitizedIsValid(s, false);
    if Valid(s) && s != [] {
      var n := CharLen(s);
      SanitizeKeepsExactlyValid(s[n..]);
      assert s[..n] + s[n..] == s;
    }
  }

  lemma Reassociate(a: seq<byte>, b: seq<byte>, c: seq<byte>)
    ensures a + (b + c) == (a + b) + c
  {
  }

  /** What is valid at the front stays in front. */
  lemma {:induction false} SanitizeKeepsPrefix(a: seq<byte>, b: seq<byte>)
    requires Valid(a)
    ensures Sanitize(a + b, false) == a + Sanitize(b, false)
  {
    if a == [] {
      assert a + b == b;
    } else {
      var first, more := a[..CharLen(a)], a[CharLen(a)..];
      CharLenOfConcat(a, b);
      SanitizeKeepsPrefix(more, b);
      Reassociate(first, more, Sanitize(b, false));
      assert first + more == a;
    }
  }

  /** The first `m` bytes of `s` begin no character. */
  ghost predicate InvalidRun(s: seq<byte>, m: nat)
    requires m <= |s|
  {
    forall i :: 0 <= i < m ==> CharLen(s[i..]) == 0
  }

  /** A whole run of invalid bytes becomes one replacement character. */
  lemma {:induction false} RunBecomesOne(s: seq<byte>, m: nat, invalid: bool)
    requires 0 < m <= |s| && InvalidRun(s, m) && (m == |s| || CharLen(s[m..]) > 0)
    ensures Sanitize(s, invalid) == (if invalid then [] else REPLACEMENT) + Sanitize(s[m..], false)
  {
    assert s[0..] == s;
    assert CharLen(s[0..]) == 0;
    if m > 1 {
      forall i | 0 <= i < m - 1 ensures CharLen(s[1..][i..]) == 0 {
        assert s[1..][i..] == s[i + 1..];
      }
      assert s[1..][m - 1..] == s[m..];
      RunBecomesOne(s[1..], m - 1, true);
      assert Sanitize(s[1..], true) == Sanitize(s[m..], false);
    }
  }

  // ------------------------------------------------------------- truncating

  /** The whole characters of `s`, from the first, that fit in `limit` bytes. */
  function Fit(s: seq<byte>, limit: nat): (r: seq<byte>)
    ensures |r| <= limit && |r| <= |s|
  {
    var n := CharLen(s);
    if n == 0 || n > limit then [] else s[..n] + Fit(s[n..], limit - n)
  }

  function Min(a: nat, b: nat): nat {
    if a <= b then a else b
  }

  ghost predicate NoneLonger(s: seq<byte>, limit: nat, least: nat) {
    forall k :: least < k <= Min(limit, |s|) ==> !Valid(s[..k])
  }

  lemma NoneLongerAfter(s: seq<byte>, limit: nat, least: nat)
    requires CharLen(s) > 0
    requires CharLen(s) <= limit ==> NoneLonger(s[CharLen(s)..], limit - CharLen(s), least)
    ensures NoneLonger(s, limit, if CharLen(s) <= limit then CharLen(s) + least else 0)
  {
    forall k | (if CharLen(s) <= limit then CharLen(s) + least else 0) < k <= Min(limit, |s|) ensures !Valid(s[..k]) {
      ValidPrefix(s, k);
    }
  }

  lemma {:induction false} FitIsPrefix(s: seq<byte>, limit: nat)
    requires Valid(s)
    ensures Fit(s, limit) <= s && Valid(Fit(s, limit))
  {
    var n := CharLen(s);
    if s != [] && n <= limit {
      FitIsPrefix(s[n..], limit - n);
      CharInFront(s, Fit(s[n..], limit - n));
    }
  }

  lemma CharInFront(s: seq<byte>, rest: seq<byte>)
    requires CharLen(s) > 0 && rest <= s[CharLen(s)..] && Valid(rest)
    ensures s[..CharLen(s)] + rest <= s && Valid(s[..CharLen(s)] + rest)
  {
    CharIsValid(s);
    ValidConcat(s[..CharLen(s)], rest);
    assert s == s[..CharLen(s)] + s[CharLen(s)..];
  }

  lemma {:induction false} FitIsNearest(s: seq<byte>, limit: nat)
    requires Valid(s)
    ensures Min(limit, |s|) <= |Fit(s, limit)| + 3 && NoneLonger(s, limit, |Fit(s, limit)|)
  {
    if s != [] {
      var n := CharLen(s);
      if n <= limit {
        FitIsNearest(s[n..], limit - n);
        NoneLongerAfter(s, limit, |Fit(s[n..], limit - n)|);
      } else {
        NoneLongerAfter(s, limit, 0);
      }
    }
  }

  /** `Fit` is the longest valid beginning within the limit, which it misses by at most 3 bytes. */
  lemma FitIsLongest(s: seq<byte>, limit: nat)
    requires Valid(s)
    ensures Fit(s, limit) <= s && Valid(Fit(s, limit))
    ensures Min(limit, |s|) <= |Fit(s, limit)| + 3
    ensures NoneLonger(s, limit, |Fit(s, limit)|)
  {
    FitIsPrefix(s, limit);
    FitIsNearest(s, limit);
  }

  function Bounded(value: seq<byte>, limit: nat): seq<byte> {
    Fit(Sanitize(value, false), limit)
  }

  /** A text that fits is only sanitised. */
  lemma FitKeepsWhatFits(s: seq<byte>, limit: nat)
    requires Valid(s)
    ensures Fit(s, limit) == s <==> |s| <= limit
  {
    FitIsLongest(s, limit);
    assert s[..|s|] == s;
    if |s| <= limit {
      assert |Fit(s, limit)| == |s|;
      assert Fit(s, limit) == s[..|Fit(s, limit)|];
    }
  }

  /** The result is valid, within the limit, the longest beginning of the sanitised text
      that is both, and cut by at most three bytes more than the limit asks. */
  lemma BoundedIsLongest(value: seq<byte>, limit: nat)
    ensures
      var whole, r := Sanitize(value, false), Bounded(value, limit);
      && Valid(r) && |r| <= limit && r <= whole
      && NoneLonger(whole, limit, |r|)
      && Min(limit, |whole|) - |r| <= 3
      && (r == value <==> Valid(value) && |value| <= limit)
  {
    SanitizedIsValid(value, false);
    SanitizeKeepsExactlyValid(value);
    FitIsLongest(Sanitize(value, false), limit);
    FitKeepsWhatFits(Sanitize(value, false), limit);
  }

  method BoundedReadExportText(value: seq<byte>, limit: nat) returns (r: seq<byte>)
    ensures r == Bounded(value, limit)
  {
    r := Sanitize(value, false);
    ghost var whole := r;
    SanitizedIsValid(value, false);
    FitIsLongest(whole, limit);
    FitKeepsWhatFits(whole, limit);
    if |r| <= limit {
      return;
    }
    r := r[..limit];
    while !Valid(r)
      invariant |Fit(whole, limit)| <= |r| <= limit && r == whole[..|r|]
      decreases |r|
    {
      assert whole[..|Fit(whole, limit)|] == Fit(whole, limit);
      r := r[..|r| - 1];
    }
    assert r == Fit(whole, limit);
  }

  /** The first `LIST_LIMIT` texts, each bounded, in an array of their own. */
  method BoundedStrings(values: array<seq<byte>>) returns (bounded: array<seq<byte>>)
    ensures fresh(bounded) && bounded.Length == Min(values.Length, 500)
    ensures forall i :: 0 <= i < bounded.Length ==> bounded[i] == Bounded(values[i], 2048)
  {
    var count := Min(values.Length, LIST_LIMIT);
    bounded := new seq<byte>[count](i requires 0 <= i < values.Length reads values => values[i]);
    for index := 0 to count
      invariant forall i :: 0 <= i < index ==> bounded[i] == Bounded(values[i], TEXT_LIMIT)
      invariant forall i :: index <= i < count ==> bounded[i] == values[i]
    {
      bounded[index] := BoundedReadExportText(bounded[index], TEXT_LIMIT);
    }
  }
}
