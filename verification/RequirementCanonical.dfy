/** Canonical bodies, digests and decoders of requirement sets: the printer and
    the decoders undo each other, and the body forgets exactly the order. */
module RequirementCanonical {
  import opened Common
  import opened Ordering
  import opened RequirementSet
  import opened RequirementJson

  ghost function CanonicalBody(s: Set): Option<string> {
    if Valid(s) then Some(Print(Canonical(s))) else None
  }

  /** `hash` stands for the hexadecimal SHA-256 of a body. */
  function DigestOf(hash: string -> string, body: string): string {
    "sha256:" + hash(body)
  }

  ghost function CanonicalDigest(hash: string -> string, s: Set): Option<string> {
    var body := CanonicalBody(s);
    if body.None? then None else Some(DigestOf(hash, body.value))
  }

  lemma CanonicalIsValid(s: Set)
    requires Valid(s)
    ensures Valid(Canonical(s)) && Canonical(Canonical(s)) == Canonical(s)
  {
    CanonicalIsSameEvidence(s);
    ValidityIgnoresOrder(s, Canonical(s));
  }

  /** The canonical form lists the same evidence by increasing ID, and target values in order. */
  lemma CanonicalIsIncreasing(s: Set)
    requires Valid(s)
    ensures
      var c := Canonical(s);
      && SameEvidence(c, s)
      && IncreasingIds(c.resources) && IncreasingIds(c.providers)
      && (c.target.Some? ==> Increasing(c.target.value.distros) && Increasing(c.target.value.architectures))
  {
    var c := Canonical(s);
    CanonicalIsSameEvidence(s);
    CanonicalIsValid(s);
    StringOrder();
    RequirementOrder();
    SortSorts(s.resources, RequirementLess);
    SortSorts(s.providers, RequirementLess);
    DistinctAcross(c.resources, c.providers);
    SortedIdsIncrease(c.resources);
    SortedIdsIncrease(c.providers);
    if s.target.Some? {
      SortSorts(s.target.value.distros, StringLess);
      SortSorts(s.target.value.architectures, StringLess);
      SortedValuesIncrease(c.target.value.distros);
      SortedValuesIncrease(c.target.value.architectures);
    }
  }

  /** Two valid sets have equal canonical bodies exactly when they agree on the
      version, the schema and, up to order, on every list. */
  lemma EqualBodies(a: Set, b: Set)
    requires Valid(a) && Valid(b)
    ensures CanonicalBody(a) == CanonicalBody(b) <==> SameEvidence(a, b)
  {
    CanonicalIsValid(a);
    CanonicalIsValid(b);
    PrintThenParse(Canonical(a));
    PrintThenParse(Canonical(b));
    CanonicalForgetsOrder(a, b);
  }

  // ----------------------------------------------------------------- decoders

  datatype DecodeError = Malformed | Invalid | NotCanonical | DigestMismatch

  /** The decoder of persisted evidence. `parser` reads one JSON text to its end
      and rejects unknown fields; it may be more lenient than the printed shape. */
  ghost function Decode(parser: string -> Option<Set>, hash: string -> string, raw: string, digest: string,
                        requireCanonicalBytes: bool): Result<Set, DecodeError> {
    var parsed := parser(raw);
    if parsed.None? then Failure(Malformed) else
    var body := CanonicalBody(parsed.value);
    if body.None? then Failure(Invalid)
    else if requireCanonicalBytes && body.value != raw then Failure(NotCanonical)
    else if CanonicalDigest(hash, parsed.value) != Some(digest) then Failure(DigestMismatch)
    else Success(parsed.value)
  }

  ghost function DecodeCanonical(parser: string -> Option<Set>, hash: string -> string, raw: string, digest: string)
    : Result<Set, DecodeError> {
    Decode(parser, hash, raw, digest, true)
  }

  ghost function DecodePersisted(parser: string -> Option<Set>, hash: string -> string, raw: string, digest: string)
    : Result<Set, DecodeError> {
    Decode(parser, hash, raw, digest, false)
  }

  /** All that is asked of the parser: it reads canonical texts back. */
  ghost predicate Faithful(parser: string -> Option<Set>) {
    forall s :: Valid(s) && Canonical(s) == s ==> parser(Print(s)) == Some(s)
  }

  lemma StrictParserIsFaithful()
    ensures Faithful(Parse)
  {
    forall s | Valid(s) && Canonical(s) == s ensures Parse(Print(s)) == Some(s) {
      PrintThenParse(s);
    }
  }

  /** Whatever else the parser accepts, the canonical decoder accepts a text
      exactly when it is the printed form of the set it returns, the set is valid
      and already sorted, and the digest is that of the text. */
  lemma CanonicalDecoderAccepts(parser: string -> Option<Set>, hash: string -> string, raw: string, digest: string, s: Set)
    requires Faithful(parser)
    ensures DecodeCanonical(parser, hash, raw, digest) == Success(s) <==>
            Valid(s) && Canonical(s) == s && raw == Print(s) && digest == DigestOf(hash, raw)
  {
    if DecodeCanonical(parser, hash, raw, digest) == Success(s) {
      CanonicalIsValid(s);
      assert parser(Print(Canonical(s))) == Some(Canonical(s));
    }
  }

  /** Decoding the canonical body of a valid set under its digest succeeds and
      yields the sorted form of the set. */
  lemma EncodeThenDecode(parser: string -> Option<Set>, hash: string -> string, s: Set)
    requires Faithful(parser) && Valid(s)
    ensures DecodeCanonical(parser, hash, CanonicalBody(s).value, CanonicalDigest(hash, s).value)
            == Success(Canonical(s))
  {
    CanonicalIsValid(s);
    CanonicalDecoderAccepts(parser, hash, CanonicalBody(s).value, CanonicalDigest(hash, s).value, Canonical(s));
  }

  /** The digests of two bodies agree exactly when their hashes do. */
  lemma DigestsAgree(hash: string -> string, b: string, c: string)
    ensures DigestOf(hash, b) == DigestOf(hash, c) <==> hash(b) == hash(c)
  {
    assert DigestOf(hash, b)[7..] == hash(b) && DigestOf(hash, c)[7..] == hash(c);
  }

  /** The lenient decoder accepts a set exactly when its canonical body bears the digest. */
  lemma PersistedAcceptsDigest(parser: string -> Option<Set>, hash: string -> string, raw: string, digest: string, t: Set)
    requires parser(raw) == Some(t)
    ensures DecodePersisted(parser, hash, raw, digest) == Success(t) <==> CanonicalDigest(hash, t) == Some(digest)
  {
  }

  /** A store may rewrite the text: under the digest of a valid set, the lenient
      decoder accepts what parses to the same evidence and nothing else, unless
      the two bodies collide. */
  lemma PersistedDecoderAccepts(parser: string -> Option<Set>, hash: string -> string, raw: string, s: Set, t: Set)
    requires Valid(s) && parser(raw) == Some(t)
    requires CanonicalBody(t).Some? && hash(CanonicalBody(t).value) == hash(CanonicalBody(s).value) ==>
               CanonicalBody(t) == CanonicalBody(s)
    ensures DecodePersisted(parser, hash, raw, CanonicalDigest(hash, s).value) == Success(t) <==> SameEvidence(s, t)
  {
    PersistedAcceptsDigest(parser, hash, raw, CanonicalDigest(hash, s).value, t);
    DigestMeansEvidence(hash, s, t);
  }

  lemma DigestMeansEvidence(hash: string -> string, s: Set, t: Set)
    requires Valid(s)
    requires CanonicalBody(t).Some? && hash(CanonicalBody(t).value) == hash(CanonicalBody(s).value) ==>
               CanonicalBody(t) == CanonicalBody(s)
    ensures CanonicalDigest(hash, t) == CanonicalDigest(hash, s) <==> SameEvidence(s, t)
  {
    if SameEvidence(s, t) {
      ValidityIgnoresOrder(s, t);
      EqualBodies(s, t);
    } else if Valid(t) {
      EqualBodies(s, t);
      DigestsAgree(hash, CanonicalBody(s).value, CanonicalBody(t).value);
    }
  }

  // ------------------------------------------------------ sorting in the heap

  datatype TargetSlices = TargetSlices(distros: array<string>, architectures: array<string>)

  /** A set as the source holds it: its lists are slices of shared arrays. */
  datatype SetSlices = SetSlices(
    version: int,
    schemaVersion: int,
    target: Option<TargetSlices>,
    resources: array<Requirement>,
    providers: array<Requirement>)

  function Arrays(s: SetSlices): set<object> {
    {s.resources, s.providers} +
    if s.target.Some? then {s.target.value.distros, s.target.value.architectures} else {}
  }

  function View(s: SetSlices): Set
    reads Arrays(s)
  {
    Set(s.version, s.schemaVersion,
        if s.target.None? then None
        else Some(TargetPredicate(s.target.value.distros[..], s.target.value.architectures[..])),
        s.resources[..], s.providers[..])
  }

  method SortedCopy<T(!new)>(a: array<T>, less: (T, T) -> bool) returns (r: seq<T>)
    requires StrictTotal(less)
    ensures r == Sort(a[..], less)
  {
    var s := a[..];
    var copy := new T[a.Length](i requires 0 <= i < |s| => s[i]);
    assert copy[..] == s;
    SortSlice(copy, less);
    SortSorts(s, less);
    SortedUnique(copy[..], Sort(s, less), less);
    return copy[..];
  }

  method SortedRequirements(a: array<Requirement>) returns (r: seq<Requirement>)
    ensures r == Sort(a[..], RequirementLess)
  {
    RequirementOrder();
    r := SortedCopy(a, RequirementLess);
  }

  method SortedTarget(target: Option<TargetSlices>) returns (r: Option<TargetPredicate>)
    ensures r == CanonicalTarget(if target.None? then None
                                 else Some(TargetPredicate(target.value.distros[..], target.value.architectures[..])))
  {
    if target.None? {
      return None;
    }
    StringOrder();
    var distros := SortedCopy(target.value.distros, StringLess);
    var architectures := SortedCopy(target.value.architectures, StringLess);
    return Some(TargetPredicate(distros, architectures));
  }

  method CanonicalOf(s: SetSlices) returns (c: Set)
    ensures c == Canonical(View(s))
  {
    var resources := SortedRequirements(s.resources);
    var providers := SortedRequirements(s.providers);
    var target := SortedTarget(s.target);
    return Set(s.version, s.schemaVersion, target, resources, providers);
  }

  lemma BodyByValidity(s: Set, valid: bool, canonical: Set)
    ensures (valid <==> Valid(s)) && (valid ==> canonical == Canonical(s)) ==>
              CanonicalBody(s) == if valid then Some(Print(canonical)) else None
  {
  }

  /** Sorts copies with an unstable sort and prints them. The caller's slices are
      not modified, and the text does not depend on how the sort breaks ties. */
  method CanonicalBodyOf(s: SetSlices) returns (body: Option<string>)
    ensures body == CanonicalBody(View(s))
  {
    ghost var given := View(s);
    var err := Validate(View(s));
    if err.Some? {
      assert View(s) == given;
      BodyByValidity(given, false, given);
      return None;
    }
    var canonical := CanonicalOf(s);
    assert View(s) == given;
    BodyByValidity(given, true, canonical);
    return Some(Print(canonical));
  }
}
