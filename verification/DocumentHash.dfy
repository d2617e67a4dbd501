/** The closed vocabulary of repeatable Sync documents and the hash summaries
    that requests and responses carry. */
module DocumentHash {

  const CURRENT_VERSION := 1
  const MAX_DOCUMENTS := 8

  /** A document name: one of the four known ones, or any other string. */
  datatype DocName =
    | Capability
    | SystemInformation
    | Delivery
    | Targeting
    | Other(name: string)

  predicate Known(n: DocName) {
    !n.Other?
  }

  predicate HexDigit(c: char) {
    '0' <= c <= '9' || 'a' <= c <= 'f'
  }

  /** The syntax `sha256:` followed by 64 lower-case hexadecimal digits. */
  predicate HashSyntax(h: string) {
    && |h| == 71
    && h[..7] == "sha256:"
    && forall i :: 7 <= i < 71 ==> HexDigit(h[i])
  }

  type HashMap = map<DocName, string>

  /** Reading a missing key of a Go map yields the zero value. */
  function Lookup(m: HashMap, n: DocName): string {
    if n in m then m[n] else ""
  }

  datatype Summary = Summary(version: int, documents: HashMap)

  ghost predicate ValidEntries(m: HashMap) {
    forall n :: n in m ==> Known(n) && HashSyntax(m[n])
  }

  ghost predicate ValidSummary(s: Summary) {
    && s.version == CURRENT_VERSION
    && 0 < |s.documents| <= MAX_DOCUMENTS
    && ValidEntries(s.documents)
  }

  /** Ranges over the documents in an arbitrary order. */
  method Validate(s: Summary) returns (ok: bool)
    ensures ok <==> ValidSummary(s)
  {
    if s.version != CURRENT_VERSION {
      return false;
    }
    if |s.documents| == 0 || |s.documents| > MAX_DOCUMENTS {
      return false;
    }
    var remaining := s.documents.Keys;
    while remaining != {}
      invariant remaining <= s.documents.Keys
      invariant forall n :: n in s.documents && n !in remaining ==> Known(n) && HashSyntax(s.documents[n])
      decreases |remaining|
    {
      var n :| n in remaining;
      if !Known(n) || !HashSyntax(s.documents[n]) {
        return false;
      }
      remaining := remaining - {n};
    }
    return true;
  }

  /** The four known names are the only ones, so a valid map never exceeds the
      document bound. */
  lemma ValidEntriesAreFew(m: HashMap)
    requires ValidEntries(m)
    ensures |m| <= 4
  {
    var names := {Capability, SystemInformation, Delivery, Targeting};
    assert m.Keys <= names;
    assert names == {Capability} + {SystemInformation} + {Delivery} + {Targeting};
    SubsetCardinality(m.Keys, names);
    assert |m.Keys| == |m|;
  }

  lemma {:induction false} SubsetCardinality<T>(a: set<T>, b: set<T>)
    requires a <= b
    ensures |a| <= |b|
  {
    if a != {} {
      var x :| x in a;
      SubsetCardinality(a - {x}, b - {x});
    }
  }
}
