/** Requirement sets: what a valid one is, and its canonical form
    (internal/artifactrequirements/set.go). */
module RequirementSet {
  import opened Common
  import opened Ordering

  const CURRENT_VERSION := 1
  const MAX_REQUIREMENTS := 256
  const MAX_TARGET_VALUES := 16

  datatype Requirement = Requirement(id: string, revision: string)

  datatype TargetPredicate = TargetPredicate(distros: seq<string>, architectures: seq<string>)

  datatype Set = Set(
    version: int,
    schemaVersion: int,
    target: Option<TargetPredicate>,
    resources: seq<Requirement>,
    providers: seq<Requirement>)

  // ----------------------------------------------------------------- patterns

  predicate Lower(c: char) { 'a' <= c <= 'z' }

  predicate Digit(c: char) { '0' <= c <= '9' }

  predicate Letter(c: char) { Lower(c) || 'A' <= c <= 'Z' }

  predicate IdSeparator(c: char) { c == '.' || c == '_' || c == ':' || c == '/' || c == '-' }

  predicate WordSeparator(c: char) { c == '.' || c == '_' || c == '-' }

  /** `[a-z0-9]*(?:[._:/-][a-z0-9]+)*`, where a separator may just have been read. */
  predicate IdTail(s: string, separated: bool) {
    if s == "" then !separated
    else if Lower(s[0]) || Digit(s[0]) then IdTail(s[1..], false)
    else IdSeparator(s[0]) && !separated && IdTail(s[1..], true)
  }

  predicate Identifier(s: string) {
    s != "" && Lower(s[0]) && IdTail(s[1..], false)
  }

  /** `[A-Za-z0-9]*(?:[._-][A-Za-z0-9]+)*`, where a separator may just have been read. */
  predicate WordTail(s: string, separated: bool) {
    if s == "" then !separated
    else if Letter(s[0]) || Digit(s[0]) then WordTail(s[1..], false)
    else WordSeparator(s[0]) && !separated && WordTail(s[1..], true)
  }

  /** The rest of a dotted number after a component with no leading zero;
      `dots` more components may follow. */
  predicate NumberTail(s: string, dots: nat) {
    || s == ""
    || (Digit(s[0]) && NumberTail(s[1..], dots))
    || (dots > 0 && s[0] == '.' && Component(s[1..], dots - 1))
  }

  /** A component `0|[1-9][0-9]*` and what follows it. */
  predicate Component(s: string, dots: nat) {
    && s != ""
    && (|| (s[0] == '0' && (s[1..] == "" || (dots > 0 && s[1] == '.' && Component(s[2..], dots - 1))))
        || ('1' <= s[0] <= '9' && NumberTail(s[1..], dots)))
  }

  predicate Revision(s: string) {
    || s == "0"
    || (s != "" && '1' <= s[0] <= '9' && NumberTail(s[1..], 2))
    || (s != "" && Letter(s[0]) && WordTail(s[1..], false))
  }

  // ----------------------------------------------------------------- validity

  predicate ValidContract(r: Requirement, prefix: string) {
    prefix <= r.id && Identifier(r.id) && Revision(r.revision)
  }

  ghost predicate ValidContracts(rs: seq<Requirement>, prefix: string) {
    forall i :: 0 <= i < |rs| ==> ValidContract(rs[i], prefix)
  }

  predicate DistinctIds(rs: seq<Requirement>) {
    forall i, j :: 0 <= i < j < |rs| ==> rs[i].id != rs[j].id
  }

  const DISTROS := {"ubuntu", "debian", "arch", "popos"}
  const ARCHITECTURES := {"x86", "arm"}

  ghost predicate ValidTargetValues(values: seq<string>, allowed: set<string>) {
    && (forall i :: 0 <= i < |values| ==> values[i] in allowed)
    && (forall i, j :: 0 <= i < j < |values| ==> values[i] != values[j])
  }

  ghost predicate ValidTarget(t: Option<TargetPredicate>) {
    t.Some? ==>
      && (t.value.distros != [] || t.value.architectures != [])
      && |t.value.distros| <= MAX_TARGET_VALUES && |t.value.architectures| <= MAX_TARGET_VALUES
      && ValidTargetValues(t.value.distros, DISTROS)
      && ValidTargetValues(t.value.architectures, ARCHITECTURES)
  }

  ghost predicate Valid(s: Set) {
    && s.version == CURRENT_VERSION
    && (s.schemaVersion == 0 || s.schemaVersion == 1)
    && |s.resources| + |s.providers| <= MAX_REQUIREMENTS
    && ValidTarget(s.target)
    && ValidContracts(s.resources, "resource:")
    && ValidContracts(s.providers, "provider:")
    && DistinctIds(s.resources + s.providers)
  }

  datatype SetError =
    | UnsupportedVersion
    | UnsupportedSchema
    | TooManyRequirements
    | EmptyTarget
    | TooManyTargetValues
    | InvalidTargetValue
    | DuplicateTargetValue
    | InvalidId
    | InvalidRevision
    | ConflictingRevisions
    | DuplicateRequirement

  /** What is wrong with one more requirement after those in `seen`. */
  function Fault(r: Requirement, prefix: string, seen: map<string, string>): Option<SetError> {
    if !(prefix <= r.id) || !Identifier(r.id) then Some(InvalidId)
    else if !Revision(r.revision) then Some(InvalidRevision)
    else if r.id in seen then
      if seen[r.id] != r.revision then Some(ConflictingRevisions) else Some(DuplicateRequirement)
    else None
  }

  /** The revisions of the requirements, by their IDs. */
  function Recorded(rs: seq<Requirement>, seen: map<string, string>): map<string, string> {
    if rs == [] then seen
    else Recorded(rs[..|rs| - 1], seen)[rs[|rs| - 1].id := rs[|rs| - 1].revision]
  }

  lemma {:induction false} RecordedIds(rs: seq<Requirement>, seen: map<string, string>, id: string)
    ensures id in Recorded(rs, seen) <==> id in seen || exists i :: 0 <= i < |rs| && rs[i].id == id
  {
    if rs != [] {
      var front := rs[..|rs| - 1];
      RecordedIds(front, seen, id);
      assert forall i :: 0 <= i < |front| ==> front[i] == rs[i];
    }
  }

  function FaultAt(rs: seq<Requirement>, i: nat, prefix: string, seen: map<string, string>): Option<SetError>
    requires i < |rs|
  {
    Fault(rs[i], prefix, Recorded(rs[..i], seen))
  }

  ghost predicate Faultless(rs: seq<Requirement>, n: nat, prefix: string, seen: map<string, string>)
    requires n <= |rs|
  {
    forall i :: 0 <= i < n ==> FaultAt(rs, i, prefix, seen).None?
  }

  /** Reports the first faulty requirement, and otherwise records all of them. */
  method ValidateRequirements(rs: seq<Requirement>, prefix: string, seen: map<string, string>)
    returns (err: Option<SetError>, seen': map<string, string>)
    ensures err.None? ==> Faultless(rs, |rs|, prefix, seen) && seen' == Recorded(rs, seen)
    ensures err.Some? ==> exists i :: 0 <= i < |rs| && Faultless(rs, i, prefix, seen) && FaultAt(rs, i, prefix, seen) == err
  {
    seen' := seen;
    for i := 0 to |rs|
      invariant seen' == Recorded(rs[..i], seen)
      invariant Faultless(rs, i, prefix, seen)
    {
      var r := rs[i];
      assert FaultAt(rs, i, prefix, seen) == Fault(r, prefix, seen');
      if !(prefix <= r.id) || !Identifier(r.id) {
        return Some(InvalidId), seen';
      }
      if !Revision(r.revision) {
        return Some(InvalidRevision), seen';
      }
      if r.id in seen' {
        if seen'[r.id] != r.revision {
          return Some(ConflictingRevisions), seen';
        }
        return Some(DuplicateRequirement), seen';
      }
      assert rs[..i + 1][..i] == rs[..i];
      seen' := seen'[r.id := r.revision];
    }
    assert rs[..|rs|] == rs;
    return None, seen';
  }

  /** No requirement is faulty exactly when both lists are well formed and no ID
      occurs twice, in one list or across the two. */
  lemma NoFaults(resources: seq<Requirement>, providers: seq<Requirement>)
    ensures Faultless(resources, |resources|, "resource:", map[]) &&
            Faultless(providers, |providers|, "provider:", Recorded(resources, map[]))
            <==>
            ValidContracts(resources, "resource:") && ValidContracts(providers, "provider:")
            && DistinctIds(resources + providers)
  {
    forall i | 0 <= i < |resources|
      ensures FaultAt(resources, i, "resource:", map[]).None? <==>
              ValidContract(resources[i], "resource:") && forall j :: 0 <= j < i ==> resources[j].id != resources[i].id
    {
      RecordedIds(resources[..i], map[], resources[i].id);
      assert forall j :: 0 <= j < i ==> resources[..i][j] == resources[j];
    }
    forall i | 0 <= i < |providers|
      ensures FaultAt(providers, i, "provider:", Recorded(resources, map[])).None? <==>
              && ValidContract(providers[i], "provider:")
              && (forall j :: 0 <= j < i ==> providers[j].id != providers[i].id)
              && (forall j :: 0 <= j < |resources| ==> resources[j].id != providers[i].id)
    {
      RecordedIds(providers[..i], Recorded(resources, map[]), providers[i].id);
      RecordedIds(resources, map[], providers[i].id);
      assert forall j :: 0 <= j < i ==> providers[..i][j] == providers[j];
    }
    DistinctAcross(resources, providers);
  }

  lemma DistinctAcross(a: seq<Requirement>, b: seq<Requirement>)
    ensures DistinctIds(a + b) <==>
            DistinctIds(a) && DistinctIds(b) && forall i, j :: 0 <= i < |a| && 0 <= j < |b| ==> a[i].id != b[j].id
  {
    var c := a + b;
    if DistinctIds(c) {
      forall i, j | 0 <= i < j < |a| ensures a[i].id != a[j].id {
        assert c[i] == a[i] && c[j] == a[j];
      }
      forall i, j | 0 <= i < j < |b| ensures b[i].id != b[j].id {
        assert c[|a| + i] == b[i] && c[|a| + j] == b[j];
      }
      forall i, j | 0 <= i < |a| && 0 <= j < |b| ensures a[i].id != b[j].id {
        assert c[i] == a[i] && c[|a| + j] == b[j];
      }
    }
  }

  /** The values before `i` are fine; the one there is not allowed, or was there before. */
  ghost predicate FirstBadValue(values: seq<string>, allowed: set<string>, i: int, err: SetError) {
    && 0 <= i < |values| && ValidTargetValues(values[..i], allowed)
    && (if values[i] !in allowed then err == InvalidTargetValue
        else values[i] in values[..i] && err == DuplicateTargetValue)
  }

  method ValidateTargetValues(values: seq<string>, allowed: set<string>) returns (err: Option<SetError>)
    ensures err.None? <==> ValidTargetValues(values, allowed)
    ensures err.Some? ==> exists i :: FirstBadValue(values, allowed, i, err.value)
  {
    var seen: set<string> := {};
    for i := 0 to |values|
      invariant seen == set j | 0 <= j < i :: values[j]
      invariant ValidTargetValues(values[..i], allowed)
    {
      if values[i] !in allowed {
        assert FirstBadValue(values, allowed, i, InvalidTargetValue);
        return Some(InvalidTargetValue);
      }
      if values[i] in seen {
        assert FirstBadValue(values, allowed, i, DuplicateTargetValue);
        return Some(DuplicateTargetValue);
      }
      seen := seen + {values[i]};
    }
    assert values[..|values|] == values;
    return None;
  }

  /** What is wrong with a target that is there: no values at all, too many, or the first
      bad one, distros first. */
  ghost predicate TargetFault(t: TargetPredicate, err: SetError) {
    if t.distros == [] && t.architectures == [] then err == EmptyTarget
    else if |t.distros| > 16 || |t.architectures| > 16 then err == TooManyTargetValues
    else if !ValidTargetValues(t.distros, DISTROS) then exists i :: FirstBadValue(t.distros, DISTROS, i, err)
    else exists i :: FirstBadValue(t.architectures, ARCHITECTURES, i, err)
  }

  method ValidateTarget(target: Option<TargetPredicate>) returns (err: Option<SetError>)
    ensures err.None? <==> ValidTarget(target)
    ensures err.Some? ==> target.Some? && TargetFault(target.value, err.value)
  {
    if target.None? {
      return None;
    }
    if |target.value.distros| == 0 && |target.value.architectures| == 0 {
      return Some(EmptyTarget);
    }
    if |target.value.distros| > MAX_TARGET_VALUES || |target.value.architectures| > MAX_TARGET_VALUES {
      return Some(TooManyTargetValues);
    }
    err := ValidateTargetValues(target.value.distros, DISTROS);
    if err.Some? {
      return;
    }
    err := ValidateTargetValues(target.value.architectures, ARCHITECTURES);
  }

  /** The first thing wrong with a set, in the order in which things are looked at. */
  ghost predicate FirstFault(s: Set, err: SetError) {
    if s.version != 1 then err == UnsupportedVersion
    else if s.schemaVersion != 0 && s.schemaVersion != 1 then err == UnsupportedSchema
    else if |s.resources| + |s.providers| > 256 then err == TooManyRequirements
    else if !ValidTarget(s.target) then TargetFault(s.target.value, err)
    else if !Faultless(s.resources, |s.resources|, "resource:", map[]) then
      exists i :: 0 <= i < |s.resources| && Faultless(s.resources, i, "resource:", map[])
                  && FaultAt(s.resources, i, "resource:", map[]) == Some(err)
    else
      var seen := Recorded(s.resources, map[]);
      exists i :: 0 <= i < |s.providers| && Faultless(s.providers, i, "provider:", seen)
                  && FaultAt(s.providers, i, "provider:", seen) == Some(err)
  }

  lemma {:induction false} RecordedTwice(a: seq<Requirement>, b: seq<Requirement>)
    ensures Recorded(b, Recorded(a, map[])) == Recorded(a + b, map[])
  {
    if b == [] {
      assert a + b == a;
    } else {
      assert (a + b)[..|a + b| - 1] == a + b[..|b| - 1];
      RecordedTwice(a, b[..|b| - 1]);
    }
  }

  lemma {:induction false} RecordedRevision(rs: seq<Requirement>, j: nat)
    requires DistinctIds(rs) && j < |rs|
    ensures rs[j].id in Recorded(rs, map[]) && Recorded(rs, map[])[rs[j].id] == rs[j].revision
  {
    if j < |rs| - 1 {
      RecordedRevision(rs[..|rs| - 1], j);
    }
  }

  /** What is wrong with the `i`-th requirement of a list, by those before it in this list and
      an earlier one: a malformed ID or revision, or an ID seen with another revision, or with
      the same. */
  lemma FaultMeans(earlier: seq<Requirement>, rs: seq<Requirement>, i: nat, prefix: string)
    requires i < |rs| && DistinctIds(earlier + rs[..i])
    ensures
      var before, r := earlier + rs[..i], rs[i];
      FaultAt(rs, i, prefix, Recorded(earlier, map[])) ==
        if !(prefix <= r.id) || !Identifier(r.id) then Some(InvalidId)
        else if !Revision(r.revision) then Some(InvalidRevision)
        else if exists j :: 0 <= j < |before| && before[j].id == r.id && before[j].revision != r.revision then Some(ConflictingRevisions)
        else if exists j :: 0 <= j < |before| && before[j].id == r.id then Some(DuplicateRequirement)
        else None
  {
    var before := earlier + rs[..i];
    RecordedTwice(earlier, rs[..i]);
    RecordedIds(before, map[], rs[i].id);
    forall j | 0 <= j < |before| ensures before[j].id in Recorded(before, map[]) && Recorded(before, map[])[before[j].id] == before[j].revision {
      RecordedRevision(before, j);
    }
  }

  method Validate(s: Set) returns (err: Option<SetError>)
    ensures err.None? <==> Valid(s)
    ensures err.Some? ==> FirstFault(s, err.value)
  {
    if s.version != CURRENT_VERSION {
      return Some(UnsupportedVersion);
    }
    if s.schemaVersion != 0 && s.schemaVersion != 1 {
      return Some(UnsupportedSchema);
    }
    if |s.resources| + |s.providers| > MAX_REQUIREMENTS {
      return Some(TooManyRequirements);
    }
    err := ValidateTarget(s.target);
    if err.Some? {
      return;
    }
    NoFaults(s.resources, s.providers);
    var seen;
    err, seen := ValidateRequirements(s.resources, "resource:", map[]);
    if err.Some? {
      return;
    }
    err, seen := ValidateRequirements(s.providers, "provider:", seen);
  }

  // ----------------------------------------------------------- canonical form

  /** By ID, then by revision. */
  predicate RequirementLess(a: Requirement, b: Requirement) {
    if a.id == b.id then StringLess(a.revision, b.revision) else StringLess(a.id, b.id)
  }

  /** The comparator tells any two different requirements apart. */
  lemma RequirementOrder()
    ensures StrictTotal(RequirementLess)
  {
    StringOrder();
    forall a, b ensures RequirementLess(a, b) || a == b || RequirementLess(b, a) {
      StringTotal(a.id, b.id);
      StringTotal(a.revision, b.revision);
    }
    forall a, b, c | RequirementLess(a, b) && RequirementLess(b, c) ensures RequirementLess(a, c) {
      if a.id == b.id == c.id {
        StringTransitive(a.revision, b.revision, c.revision);
      } else if a.id != b.id && b.id != c.id {
        StringTransitive(a.id, b.id, c.id);
        StringIrreflexive(a.id);
        if a.id == c.id {
          assert false;
        }
      }
    }
  }

  function CanonicalTarget(t: Option<TargetPredicate>): Option<TargetPredicate> {
    if t.None? then None
    else Some(TargetPredicate(Sort(t.value.distros, StringLess), Sort(t.value.architectures, StringLess)))
  }

  function Canonical(s: Set): Set {
    s.(target := CanonicalTarget(s.target),
       resources := Sort(s.resources, RequirementLess),
       providers := Sort(s.providers, RequirementLess))
  }

  /** The sets differ at most in the order in which they list things. */
  predicate SameEvidence(a: Set, b: Set) {
    && a.version == b.version && a.schemaVersion == b.schemaVersion
    && multiset(a.resources) == multiset(b.resources)
    && multiset(a.providers) == multiset(b.providers)
    && a.target.None? == b.target.None?
    && (a.target.Some? ==>
          && multiset(a.target.value.distros) == multiset(b.target.value.distros)
          && multiset(a.target.value.architectures) == multiset(b.target.value.architectures))
  }

  lemma CanonicalForgetsOrder(a: Set, b: Set)
    ensures Canonical(a) == Canonical(b) <==> SameEvidence(a, b)
  {
    StringOrder();
    RequirementOrder();
    SortsAgree(a.resources, b.resources, RequirementLess);
    SortsAgree(a.providers, b.providers, RequirementLess);
    if a.target.Some? && b.target.Some? {
      SortsAgree(a.target.value.distros, b.target.value.distros, StringLess);
      SortsAgree(a.target.value.architectures, b.target.value.architectures, StringLess);
    }
  }

  lemma CanonicalIsSameEvidence(s: Set)
    ensures SameEvidence(Canonical(s), s) && Canonical(Canonical(s)) == Canonical(s)
  {
    StringOrder();
    RequirementOrder();
    SortSorts(s.resources, RequirementLess);
    SortSorts(s.providers, RequirementLess);
    if s.target.Some? {
      SortSorts(s.target.value.distros, StringLess);
      SortSorts(s.target.value.architectures, StringLess);
    }
    CanonicalForgetsOrder(Canonical(s), s);
  }

  /** Increasing in ID, by the bytes of it. */
  ghost predicate IncreasingIds(rs: seq<Requirement>) {
    forall i, j :: 0 <= i < j < |rs| ==> StringLess(rs[i].id, rs[j].id)
  }

  ghost predicate Increasing(vs: seq<string>) {
    forall i, j :: 0 <= i < j < |vs| ==> StringLess(vs[i], vs[j])
  }

  lemma SortedIdsIncrease(rs: seq<Requirement>)
    requires Sorted(rs, RequirementLess) && DistinctIds(rs)
    ensures IncreasingIds(rs)
  {
    forall i, j | 0 <= i < j < |rs| ensures StringLess(rs[i].id, rs[j].id) {
      StringTotal(rs[i].id, rs[j].id);
    }
  }

  lemma SortedValuesIncrease(vs: seq<string>)
    requires Sorted(vs, StringLess) && Distinct(vs)
    ensures Increasing(vs)
  {
    forall i, j | 0 <= i < j < |vs| ensures StringLess(vs[i], vs[j]) {
      StringTotal(vs[i], vs[j]);
    }
  }

  // Validity depends on the evidence only, not on its order.

  lemma {:induction false} DistinctIsMultiplicity<T>(s: seq<T>)
    ensures (forall i, j :: 0 <= i < j < |s| ==> s[i] != s[j]) <==> (forall x :: multiset(s)[x] <= 1)
  {
    if s != [] {
      var front, last := s[..|s| - 1], s[|s| - 1];
      assert s == front + [last];
      DistinctIsMultiplicity(front);
      if forall i, j :: 0 <= i < j < |s| ==> s[i] != s[j] {
        assert last !in multiset(front);
        assert forall x :: multiset(s)[x] <= 1;
      }
      if forall x :: multiset(s)[x] <= 1 {
        assert forall x :: multiset(front)[x] <= multiset(s)[x];
        assert multiset(s)[last] == multiset(front)[last] + 1;
        assert last !in front;
        forall i, j | 0 <= i < j < |s| ensures s[i] != s[j] {
          assert s[i] in front;
        }
      }
    }
  }

  lemma DistinctIdsOfPermutation(a: seq<Requirement>, b: seq<Requirement>)
    requires multiset(a) == multiset(b) && DistinctIds(a)
    ensures DistinctIds(b)
  {
    DistinctIsMultiplicity(a);
    DistinctIsMultiplicity(b);
    forall i, j | 0 <= i < j < |b| ensures b[i].id != b[j].id {
      assert b[i] in multiset(a) && b[j] in multiset(a);
      var k :| 0 <= k < |a| && a[k] == b[i];
      var m :| 0 <= m < |a| && a[m] == b[j];
      assert b[i] != b[j];
    }
  }

  lemma ValidContractsOfPermutation(a: seq<Requirement>, b: seq<Requirement>, prefix: string)
    requires multiset(a) == multiset(b) && ValidContracts(a, prefix)
    ensures ValidContracts(b, prefix) && |b| == |a|
  {
    forall i | 0 <= i < |b| ensures ValidContract(b[i], prefix) {
      assert b[i] in multiset(a);
    }
    assert |multiset(a)| == |multiset(b)|;
  }

  lemma ValidTargetValuesOfPermutation(a: seq<string>, b: seq<string>, allowed: set<string>)
    requires multiset(a) == multiset(b) && ValidTargetValues(a, allowed)
    ensures ValidTargetValues(b, allowed) && |b| == |a|
  {
    forall i | 0 <= i < |b| ensures b[i] in allowed {
      assert b[i] in multiset(a);
    }
    DistinctIsMultiplicity(a);
    DistinctIsMultiplicity(b);
    assert |multiset(a)| == |multiset(b)|;
  }

  lemma ValidityIgnoresOrder(a: Set, b: Set)
    requires SameEvidence(a, b) && Valid(a)
    ensures Valid(b)
  {
    ValidContractsOfPermutation(a.resources, b.resources, "resource:");
    ValidContractsOfPermutation(a.providers, b.providers, "provider:");
    DistinctIdsOfPermutation(a.resources + a.providers, b.resources + b.providers);
    if a.target.Some? {
      ValidTargetValuesOfPermutation(a.target.value.distros, b.target.value.distros, DISTROS);
      ValidTargetValuesOfPermutation(a.target.value.architectures, b.target.value.architectures, ARCHITECTURES);
    }
  }
}
