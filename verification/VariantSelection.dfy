/** Choosing the artifact variant for an endpoint, or reporting what it lacks
    (internal/artifactvariant/compatibility.go). The one-pass filter, the stable
    sort and the scan are proved against their declarative meaning. */
module VariantSelection {
  import opened Common
  import opened Ordering
  import opened RequirementSet
  import opened RequirementJson
  import opened RequirementCanonical

  datatype Variant = Variant(
    artifact: string,
    digest: string,
    sourceDigest: string,
    schemaVersion: int,
    requirements: Set,
    requirementDigest: string)

  datatype Capability = Capability(id: string, revision: string)

  datatype Fact = Fact(key: string, value: string)

  /** `restValid` stands for the checks that selection does not depend on: bounds
      on sizes, features, fact vocabularies, agent version and digest. */
  datatype Document = Document(
    schemaVersions: seq<int>,
    capabilities: seq<Capability>,
    facts: seq<Fact>,
    restValid: bool)

  predicate ValidDocument(d: Document) {
    && d.restValid
    && (forall i :: 0 <= i < |d.schemaVersions| ==> d.schemaVersions[i] == 0 || d.schemaVersions[i] == 1)
    && (forall i :: 0 <= i < |d.capabilities| ==>
          Identifier(d.capabilities[i].id) && Revision(d.capabilities[i].revision))
    && (forall i, j :: 0 <= i < j < |d.capabilities| ==> d.capabilities[i].id != d.capabilities[j].id)
  }

  /** A missing requirement has the shape of a requirement. */
  type MissingRequirement = Requirement

  const NO_TARGET := [Requirement("target:artifact", "1")]

  // ------------------------------------------------------------------ filters

  function Filter<T>(s: seq<T>, p: T -> bool): seq<T> {
    if s == [] then []
    else Filter(s[..|s| - 1], p) + if p(s[|s| - 1]) then [s[|s| - 1]] else []
  }

  lemma {:induction false} FilterIn<T>(s: seq<T>, p: T -> bool, x: T)
    ensures x in Filter(s, p) <==> x in s && p(x)
  {
    if s != [] {
      FilterIn(s[..|s| - 1], p, x);
      assert s == s[..|s| - 1] + [s[|s| - 1]];
    }
  }

  lemma {:induction false} FilterAppend<T>(a: seq<T>, b: seq<T>, p: T -> bool)
    ensures Filter(a + b, p) == Filter(a, p) + Filter(b, p)
  {
    if b == [] {
      assert a + b == a;
    } else {
      FilterAppend(a, b[..|b| - 1], p);
      assert (a + b)[..|a + b| - 1] == a + b[..|b| - 1];
    }
  }

  /** `x` is the first element of `s` with property `q`, at index `j`. */
  ghost predicate FirstAt<T>(s: seq<T>, q: T -> bool, x: T, j: int) {
    0 <= j < |s| && s[j] == x && q(x) && forall i :: 0 <= i < j ==> !q(s[i])
  }

  ghost predicate IsFirst<T>(s: seq<T>, q: T -> bool, x: T) {
    exists j :: FirstAt(s, q, x, j)
  }

  function Both<T>(p: T -> bool, q: T -> bool): T -> bool {
    x => p(x) && q(x)
  }

  /** Filtering first, or asking for both at once, finds the same element. */
  lemma {:induction false} FirstOfFilter<T>(s: seq<T>, p: T -> bool, q: T -> bool, x: T)
    ensures IsFirst(Filter(s, p), q, x) <==> IsFirst(s, Both(p, q), x)
  {
    if s != [] {
      var front, last := s[..|s| - 1], s[|s| - 1];
      FirstOfFilter(front, p, q, x);
      FirstOfAppend(front, last, Both(p, q), x);
      assert s == front + [last];
      if p(last) {
        FirstOfAppend(Filter(front, p), last, q, x);
      } else {
        assert Filter(s, p) == Filter(front, p);
      }
      NoneOfFilter(front, p, q);
    }
  }

  lemma FirstOfAppend<T>(s: seq<T>, last: T, q: T -> bool, x: T)
    ensures IsFirst(s + [last], q, x) <==>
            IsFirst(s, q, x) || (x == last && q(last) && forall i :: 0 <= i < |s| ==> !q(s[i]))
  {
    var t := s + [last];
    if IsFirst(s, q, x) {
      var j :| FirstAt(s, q, x, j);
      assert FirstAt(t, q, x, j);
    } else if x == last && q(last) && forall i :: 0 <= i < |s| ==> !q(s[i]) {
      assert FirstAt(t, q, x, |s|);
    }
    if IsFirst(t, q, x) {
      var j :| FirstAt(t, q, x, j);
      assert forall i :: 0 <= i < |s| ==> t[i] == s[i];
      if j < |s| {
        assert FirstAt(s, q, x, j);
      }
    }
  }

  lemma NoneOfFilter<T>(s: seq<T>, p: T -> bool, q: T -> bool)
    ensures (forall i :: 0 <= i < |Filter(s, p)| ==> !q(Filter(s, p)[i])) <==>
            (forall i :: 0 <= i < |s| ==> !Both(p, q)(s[i]))
  {
    if forall i :: 0 <= i < |s| ==> !Both(p, q)(s[i]) {
      forall i | 0 <= i < |Filter(s, p)| ensures !q(Filter(s, p)[i]) {
        FilterIn(s, p, Filter(s, p)[i]);
      }
    } else {
      var i :| 0 <= i < |s| && Both(p, q)(s[i]);
      FilterIn(s, p, s[i]);
    }
  }

  // -------------------------------------------------------------- stable sort

  function HasSchema(n: int): Variant -> bool {
    (v: Variant) => v.schemaVersion == n
  }

  ghost predicate Descending(s: seq<Variant>) {
    forall i, j :: 0 <= i < j < |s| ==> s[i].schemaVersion >= s[j].schemaVersion
  }

  ghost predicate Stable(s: seq<Variant>, t: seq<Variant>) {
    forall n :: Filter(s, HasSchema(n)) == Filter(t, HasSchema(n))
  }

  /** What a stable library sort promises: sorted, and equal keys in input order. */
  method SortStable(s: seq<Variant>) returns (r: seq<Variant>)
    ensures Descending(r) && Stable(r, s)
  {
    r := [];
    for i := 0 to |s|
      invariant Descending(r) && Stable(r, s[..i])
    {
      assert s[..i + 1] == s[..i] + [s[i]];
      AppendIsStable(r, s[..i], s[i]);
      r := InsertStable(r, s[i]);
    }
    assert s[..|s|] == s;
  }

  method InsertStable(s: seq<Variant>, v: Variant) returns (r: seq<Variant>)
    requires Descending(s)
    ensures Descending(r) && Stable(r, s + [v])
  {
    var k := |s|;
    while k > 0 && v.schemaVersion > s[k - 1].schemaVersion
      invariant 0 <= k <= |s|
      invariant forall j :: k <= j < |s| ==> v.schemaVersion > s[j].schemaVersion
    {
      k := k - 1;
    }
    InsertDescends(s, k, v);
    InsertIsStable(s, k, v);
    return s[..k] + [v] + s[k..];
  }

  lemma AppendIsStable(r: seq<Variant>, s: seq<Variant>, v: Variant)
    requires Stable(r, s)
    ensures Stable(r + [v], s + [v])
  {
    forall n ensures Filter(r + [v], HasSchema(n)) == Filter(s + [v], HasSchema(n)) {
      FilterAppend(r, [v], HasSchema(n));
      FilterAppend(s, [v], HasSchema(n));
    }
  }

  lemma InsertIsStable(r: seq<Variant>, k: nat, v: Variant)
    requires k <= |r| && forall j :: k <= j < |r| ==> v.schemaVersion > r[j].schemaVersion
    ensures Stable(r[..k] + [v] + r[k..], r + [v])
  {
    forall n ensures Filter(r[..k] + [v] + r[k..], HasSchema(n)) == Filter(r + [v], HasSchema(n)) {
      InsertKeepsClass(r[..k], r[k..], v, n);
      assert r == r[..k] + r[k..];
    }
  }

  lemma InsertKeepsClass(a: seq<Variant>, b: seq<Variant>, v: Variant, n: int)
    requires forall j :: 0 <= j < |b| ==> v.schemaVersion > b[j].schemaVersion
    ensures Filter(a + [v] + b, HasSchema(n)) == Filter(a + b + [v], HasSchema(n))
  {
    FilterThree(a, [v], b, HasSchema(n));
    FilterThree(a, b, [v], HasSchema(n));
    OneClassOnly(b, v, n);
  }

  lemma FilterThree(a: seq<Variant>, b: seq<Variant>, c: seq<Variant>, p: Variant -> bool)
    ensures Filter(a + b + c, p) == Filter(a, p) + Filter(b, p) + Filter(c, p)
  {
    FilterAppend(a + b, c, p);
    FilterAppend(a, b, p);
  }

  lemma OneClassOnly(b: seq<Variant>, v: Variant, n: int)
    requires forall j :: 0 <= j < |b| ==> v.schemaVersion > b[j].schemaVersion
    ensures Filter(b, HasSchema(n)) == [] || Filter([v], HasSchema(n)) == []
  {
    if n == v.schemaVersion {
      NoneHasSchema(b, n);
    } else {
      NoneHasSchema([v], n);
    }
  }

  lemma InsertDescends(r: seq<Variant>, k: nat, v: Variant)
    requires Descending(r) && k <= |r| && (k == 0 || v.schemaVersion <= r[k - 1].schemaVersion)
    requires forall j :: k <= j < |r| ==> v.schemaVersion > r[j].schemaVersion
    ensures Descending(r[..k] + [v] + r[k..])
  {
  }

  lemma {:induction false} NoneHasSchema(s: seq<Variant>, n: int)
    requires forall j :: 0 <= j < |s| ==> n != s[j].schemaVersion
    ensures Filter(s, HasSchema(n)) == []
  {
    if s != [] {
      NoneHasSchema(s[..|s| - 1], n);
    }
  }

  lemma StableMembers(s: seq<Variant>, t: seq<Variant>, v: Variant)
    requires Stable(s, t)
    ensures v in s <==> v in t
  {
    FilterIn(s, HasSchema(v.schemaVersion), v);
    FilterIn(t, HasSchema(v.schemaVersion), v);
  }

  // ------------------------------------------------------------ the selection

  /** The fact map that the source builds: a later fact overrides. */
  function FactValue(facts: seq<Fact>, key: string): string {
    if facts == [] then ""
    else if facts[|facts| - 1].key == key then facts[|facts| - 1].value
    else FactValue(facts[..|facts| - 1], key)
  }

  predicate TargetValueMatches(allowed: seq<string>, actual: string) {
    allowed == [] || actual in allowed
  }

  predicate TargetMatches(t: Option<TargetPredicate>, facts: seq<Fact>) {
    t.None? ||
    (TargetValueMatches(t.value.distros, FactValue(facts, "distro")) &&
     TargetValueMatches(t.value.architectures, FactValue(facts, "architecture")))
  }

  function Specificity(t: Option<TargetPredicate>): int {
    if t.None? then 0
    else (if t.value.distros != [] then 1 else 0) + (if t.value.architectures != [] then 1 else 0)
  }

  ghost predicate Eligible(v: Variant, d: Document) {
    Valid(v.requirements) && TargetMatches(v.requirements.target, d.facts)
  }

  ghost function Top(d: Document, k: int): Variant -> bool {
    (v: Variant) => Eligible(v, d) && Specificity(v.requirements.target) == k
  }

  /** The greatest specificity of an eligible variant, or -1. */
  ghost function BestSpecificity(vs: seq<Variant>, d: Document): int {
    if vs == [] then -1
    else
      var v, best := vs[|vs| - 1], BestSpecificity(vs[..|vs| - 1], d);
      if Eligible(v, d) && Specificity(v.requirements.target) > best then Specificity(v.requirements.target) else best
  }

  lemma {:induction false} BestSpecificityIsMax(vs: seq<Variant>, d: Document)
    ensures var best := BestSpecificity(vs, d);
            && (forall i :: 0 <= i < |vs| && Eligible(vs[i], d) ==> Specificity(vs[i].requirements.target) <= best)
            && (best < 0 <==> forall i :: 0 <= i < |vs| ==> !Eligible(vs[i], d))
            && (best >= 0 ==> exists i :: 0 <= i < |vs| && Eligible(vs[i], d) && Specificity(vs[i].requirements.target) == best)
  {
    if vs != [] {
      var front := vs[..|vs| - 1];
      BestSpecificityIsMax(front, d);
      assert forall i :: 0 <= i < |front| ==> front[i] == vs[i];
    }
  }

  /** The variant's own evidence is consistent and bears its digest. */
  ghost predicate WellFormed(v: Variant, hash: string -> string) {
    && v.schemaVersion == v.requirements.schemaVersion
    && Valid(v.requirements)
    && CanonicalDigest(hash, v.requirements) == Some(v.requirementDigest)
  }

  // ----------------------------------------------------------- what is missing

  predicate Supports(d: Document, r: Requirement) {
    Capability(r.id, r.revision) in d.capabilities
  }

  function SchemaRequirement(n: int): Requirement {
    Requirement("schema:" + PrintNumber(n), "1")
  }

  function Lacks(d: Document): Requirement -> bool {
    (r: Requirement) => !Supports(d, r)
  }

  function MissingUnsorted(v: Variant, d: Document): seq<MissingRequirement> {
    (if v.schemaVersion in d.schemaVersions then [] else [SchemaRequirement(v.schemaVersion)])
    + Filter(v.requirements.resources, Lacks(d))
    + Filter(v.requirements.providers, Lacks(d))
  }

  function Missing(v: Variant, d: Document): seq<MissingRequirement> {
    Sort(MissingUnsorted(v, d), RequirementLess)
  }

  predicate IsMissing(v: Variant, d: Document, m: MissingRequirement) {
    || (m == SchemaRequirement(v.schemaVersion) && v.schemaVersion !in d.schemaVersions)
    || (m in v.requirements.resources + v.requirements.providers && !Supports(d, m))
  }

  /** The report lists precisely the schema and the exact contracts that the
      document lacks, sorted and without repetition. */
  lemma MissingIsExact(v: Variant, d: Document)
    requires Valid(v.requirements)
    ensures forall m :: m in Missing(v, d) <==> IsMissing(v, d, m)
    ensures Sorted(Missing(v, d), RequirementLess)
    ensures forall i, j :: 0 <= i < j < |Missing(v, d)| ==> Missing(v, d)[i].id != Missing(v, d)[j].id
  {
    RequirementOrder();
    var u := MissingUnsorted(v, d);
    SortSorts(u, RequirementLess);
    forall m ensures m in Missing(v, d) <==> IsMissing(v, d, m) {
      assert m in Missing(v, d) <==> m in multiset(u);
      FilterIn(v.requirements.resources, Lacks(d), m);
      FilterIn(v.requirements.providers, Lacks(d), m);
    }
    MissingIdsDistinct(v, d);
    DistinctIdsOfPermutation(u, Missing(v, d));
  }

  lemma {:induction false} FilterKeepsDistinct(rs: seq<Requirement>, p: Requirement -> bool)
    requires DistinctIds(rs)
    ensures DistinctIds(Filter(rs, p))
  {
    if rs != [] {
      var front := rs[..|rs| - 1];
      FilterKeepsDistinct(front, p);
      forall i | 0 <= i < |Filter(front, p)| ensures Filter(front, p)[i].id != rs[|rs| - 1].id {
        FilterIn(front, p, Filter(front, p)[i]);
      }
    }
  }

  lemma MissingIdsDistinct(v: Variant, d: Document)
    requires Valid(v.requirements)
    ensures DistinctIds(MissingUnsorted(v, d))
  {
    var rs, ps := v.requirements.resources, v.requirements.providers;
    var schema := if v.schemaVersion in d.schemaVersions then [] else [SchemaRequirement(v.schemaVersion)];
    var a, b := Filter(rs, Lacks(d)), Filter(ps, Lacks(d));
    DistinctAcross(rs, ps);
    FilterKeepsDistinct(rs, Lacks(d));
    FilterKeepsDistinct(ps, Lacks(d));
    forall i | 0 <= i < |a| ensures a[i] in rs && "resource:" <= a[i].id {
      FilterIn(rs, Lacks(d), a[i]);
    }
    forall i | 0 <= i < |b| ensures b[i] in ps && "provider:" <= b[i].id {
      FilterIn(ps, Lacks(d), b[i]);
    }
    DistinctAcross(a, b);
    DistinctAcross(schema, a + b);
    assert schema + a + b == schema + (a + b);
    assert schema != [] ==> schema[0].id[0] == 's';
  }

  /** The revisions by ID, as the source collects them. */
  function Contracts(capabilities: seq<Capability>): map<string, string> {
    if capabilities == [] then map[]
    else Contracts(capabilities[..|capabilities| - 1])
           [capabilities[|capabilities| - 1].id := capabilities[|capabilities| - 1].revision]
  }

  function ContractOf(contracts: map<string, string>, id: string): string {
    if id in contracts then contracts[id] else ""
  }

  /** IDs are distinct, so the map answers for the list; a revision is never
      empty, so a missing entry never matches. */
  lemma {:induction false} ContractsAnswer(capabilities: seq<Capability>, r: Requirement)
    requires forall i, j :: 0 <= i < j < |capabilities| ==> capabilities[i].id != capabilities[j].id
    requires r.revision != ""
    ensures ContractOf(Contracts(capabilities), r.id) == r.revision <==> Capability(r.id, r.revision) in capabilities
  {
    if capabilities != [] {
      var front, last := capabilities[..|capabilities| - 1], capabilities[|capabilities| - 1];
      ContractsAnswer(front, r);
      assert capabilities == front + [last];
      if last.id == r.id {
        forall i | 0 <= i < |front| ensures front[i].id != r.id {
          assert front[i] == capabilities[i];
        }
      }
    }
  }

  method AppendMissing(missing: seq<MissingRequirement>, rs: seq<Requirement>, contracts: map<string, string>,
                       ghost d: Document)
    returns (r: seq<MissingRequirement>)
    requires ValidDocument(d) && contracts == Contracts(d.capabilities)
    requires forall i :: 0 <= i < |rs| ==> rs[i].revision != ""
    ensures r == missing + Filter(rs, Lacks(d))
  {
    r := missing;
    for i := 0 to |rs|
      invariant r == missing + Filter(rs[..i], Lacks(d))
    {
      ContractsAnswer(d.capabilities, rs[i]);
      assert rs[..i + 1][..i] == rs[..i];
      if ContractOf(contracts, rs[i].id) != rs[i].revision {
        r := r + [rs[i]];
      }
    }
    assert rs[..|rs|] == rs;
  }

  /** What a variant lacks, or None when it is not well formed. */
  ghost function ReportOf(v: Variant, d: Document, hash: string -> string): Option<seq<MissingRequirement>> {
    if WellFormed(v, hash) then Some(Missing(v, d)) else None
  }

  method MissingRequirements(v: Variant, schemas: set<int>, contracts: map<string, string>, hash: string -> string,
                             ghost d: Document)
    returns (report: Option<seq<MissingRequirement>>)
    requires ValidDocument(d) && contracts == Contracts(d.capabilities)
    requires schemas == set n | n in d.schemaVersions
    ensures report == ReportOf(v, d, hash)
  {
    if v.schemaVersion != v.requirements.schemaVersion {
      return None;
    }
    var err := Validate(v.requirements);
    if err.Some? {
      return None;
    }
    if DigestOf(hash, Print(Canonical(v.requirements))) != v.requirementDigest {
      return None;
    }
    var missing := CollectMissing(v, schemas, contracts, d);
    missing := SortMissing(missing);
    return Some(missing);
  }

  method CollectMissing(v: Variant, schemas: set<int>, contracts: map<string, string>, ghost d: Document)
    returns (missing: seq<MissingRequirement>)
    requires ValidDocument(d) && contracts == Contracts(d.capabilities)
    requires schemas == set n | n in d.schemaVersions
    requires Valid(v.requirements)
    ensures missing == MissingUnsorted(v, d)
  {
    missing := [];
    if v.schemaVersion !in schemas {
      missing := missing + [SchemaRequirement(v.schemaVersion)];
    }
    missing := AppendMissing(missing, v.requirements.resources, contracts, d);
    missing := AppendMissing(missing, v.requirements.providers, contracts, d);
  }

  method SortMissing(missing: seq<MissingRequirement>) returns (r: seq<MissingRequirement>)
    ensures r == Sort(missing, RequirementLess)
  {
    var a := new MissingRequirement[|missing|](i requires 0 <= i < |missing| => missing[i]);
    assert a[..] == missing;
    RequirementOrder();
    SortSlice(a, RequirementLess);
    SortSorts(missing, RequirementLess);
    SortedUnique(a[..], Sort(missing, RequirementLess), RequirementLess);
    return a[..];
  }

  // ------------------------------------------------------ declarative outcome

  /** Well formed, of the greatest specificity, and lacking exactly `n` things. */
  ghost function Lacking(d: Document, hash: string -> string, n: nat): Variant -> bool {
    (v: Variant) => WellFormed(v, hash) && |Missing(v, d)| == n
  }

  ghost function IsWellFormed(hash: string -> string): Variant -> bool {
    (v: Variant) => WellFormed(v, hash)
  }

  /** Among the variants of the greatest specificity with property `q`, the one at
      `j` has the greatest schema version, and is the first in input order of
      those. */
  ghost predicate Best(vs: seq<Variant>, d: Document, q: Variant -> bool, j: int) {
    var top := Top(d, BestSpecificity(vs, d));
    && 0 <= j < |vs| && top(vs[j]) && q(vs[j])
    && forall i :: 0 <= i < |vs| && top(vs[i]) && q(vs[i]) ==>
         vs[i].schemaVersion < vs[j].schemaVersion || (vs[i].schemaVersion == vs[j].schemaVersion && j <= i)
  }

  ghost predicate NoneHas(vs: seq<Variant>, d: Document, q: Variant -> bool) {
    forall i :: 0 <= i < |vs| && Top(d, BestSpecificity(vs, d))(vs[i]) ==> !q(vs[i])
  }

  /** The report of the best of the well-formed variants that lack the fewest
      things; empty when no variant is well formed. */
  ghost predicate BlockedReport(vs: seq<Variant>, d: Document, hash: string -> string, missing: seq<MissingRequirement>) {
    if missing == [] then NoneHas(vs, d, IsWellFormed(hash))
    else
      && (exists j :: Best(vs, d, Lacking(d, hash, |missing|), j) && missing == Missing(vs[j], d))
      && (forall n :: 0 <= n < |missing| ==> NoneHas(vs, d, Lacking(d, hash, n)))
  }

  /** The meaning of a selection. */
  ghost predicate Outcome(vs: seq<Variant>, d: Document, hash: string -> string, selected: Option<Variant>,
                          missing: seq<MissingRequirement>) {
    if !ValidDocument(d) then selected == None && missing == []
    else if forall i :: 0 <= i < |vs| ==> !Eligible(vs[i], d) then selected == None && missing == NO_TARGET
    else if selected.Some? then
      missing == [] && exists j :: Best(vs, d, Lacking(d, hash, 0), j) && selected.value == vs[j]
    else
      NoneHas(vs, d, Lacking(d, hash, 0)) && BlockedReport(vs, d, hash, missing)
  }

  /** Scanning the sorted candidates finds the best of the input. */
  lemma FirstSortedIsBest(vs: seq<Variant>, d: Document, sorted: seq<Variant>, q: Variant -> bool, x: Variant)
    requires Descending(sorted) && Stable(sorted, Filter(vs, Top(d, BestSpecificity(vs, d))))
    requires IsFirst(sorted, q, x)
    ensures exists j :: Best(vs, d, q, j) && vs[j] == x
  {
    var top := Top(d, BestSpecificity(vs, d));
    var candidates := Filter(vs, top);
    var p := HasSchema(x.schemaVersion);
    var m :| FirstAt(sorted, q, x, m);
    assert FirstAt(sorted, Both(p, q), x, m);
    FirstOfFilter(sorted, p, q, x);
    FirstOfFilter(candidates, p, q, x);
    FirstOfFilter(vs, top, Both(p, q), x);
    var j :| FirstAt(vs, Both(top, Both(p, q)), x, j);
    forall i | 0 <= i < |vs| && top(vs[i]) && q(vs[i])
      ensures vs[i].schemaVersion < x.schemaVersion || (vs[i].schemaVersion == x.schemaVersion && j <= i)
    {
      FilterIn(vs, top, vs[i]);
      StableMembers(sorted, candidates, vs[i]);
      var k :| 0 <= k < |sorted| && sorted[k] == vs[i];
      assert m <= k;
    }
    assert Best(vs, d, q, j);
  }

  lemma NoneSortedNoneHas(vs: seq<Variant>, d: Document, sorted: seq<Variant>, q: Variant -> bool)
    requires Stable(sorted, Filter(vs, Top(d, BestSpecificity(vs, d))))
    requires forall k :: 0 <= k < |sorted| ==> !q(sorted[k])
    ensures NoneHas(vs, d, q)
  {
    var top := Top(d, BestSpecificity(vs, d));
    forall i | 0 <= i < |vs| && top(vs[i]) ensures !q(vs[i]) {
      FilterIn(vs, top, vs[i]);
      StableMembers(sorted, Filter(vs, top), vs[i]);
    }
  }

  /** One pass keeps the eligible variants of the greatest specificity so far. */
  method TopCandidates(vs: seq<Variant>, d: Document) returns (candidates: seq<Variant>, best: int)
    ensures best == BestSpecificity(vs, d)
    ensures candidates == Filter(vs, Top(d, best))
  {
    candidates := [];
    best := -1;
    for i := 0 to |vs|
      invariant best == BestSpecificity(vs[..i], d)
      invariant candidates == Filter(vs[..i], Top(d, best))
    {
      var v := vs[i];
      assert vs[..i + 1][..i] == vs[..i];
      var err := Validate(v.requirements);
      if err.Some? || !TargetMatches(v.requirements.target, d.facts) {
        continue;
      }
      var specificity := Specificity(v.requirements.target);
      if specificity > best {
        NothingAbove(vs[..i], d, specificity);
        best := specificity;
        candidates := [];
      }
      if specificity == best {
        candidates := candidates + [v];
      }
    }
    assert vs[..|vs|] == vs;
  }

  lemma NothingAbove(vs: seq<Variant>, d: Document, k: int)
    requires k > BestSpecificity(vs, d)
    ensures Filter(vs, Top(d, k)) == []
  {
    BestSpecificityIsMax(vs, d);
    if Filter(vs, Top(d, k)) != [] {
      FilterIn(vs, Top(d, k), Filter(vs, Top(d, k))[0]);
    }
  }

  method SelectHighestCompatible(vs: seq<Variant>, d: Document, hash: string -> string)
    returns (selected: Option<Variant>, missing: seq<MissingRequirement>)
    ensures Outcome(vs, d, hash, selected, missing)
  {
    if !ValidDocument(d) {
      return None, [];
    }
    var candidates, best := TopCandidates(vs, d);
    BestSpecificityIsMax(vs, d);
    if best < 0 {
      return None, NO_TARGET;
    }
    candidates := SortStable(candidates);
    selected, missing := Scan(vs, d, hash, candidates);
  }

  /** Walks the sorted candidates: the first that lacks nothing, or else the first
      of the shortest reports. */
  method Scan(ghost vs: seq<Variant>, d: Document, hash: string -> string, candidates: seq<Variant>)
    returns (selected: Option<Variant>, missing: seq<MissingRequirement>)
    requires ValidDocument(d) && BestSpecificity(vs, d) >= 0
    requires Descending(candidates) && Stable(candidates, Filter(vs, Top(d, BestSpecificity(vs, d))))
    ensures Outcome(vs, d, hash, selected, missing)
  {
    var found;
    ghost var at;
    found, missing, at := ScanReports(d, hash, candidates);
    if found < |candidates| {
      FoundBest(vs, d, hash, candidates, found, missing, at);
      return Some(candidates[found]), [];
    }
    assert candidates[..found] == candidates;
    Conclude(vs, d, hash, candidates, missing, at);
    return None, missing;
  }

  method ScanReports(d: Document, hash: string -> string, candidates: seq<Variant>)
    returns (found: nat, missing: seq<MissingRequirement>, ghost at: int)
    requires ValidDocument(d)
    ensures found <= |candidates|
    ensures found < |candidates| ==> ReportOf(candidates[found], d, hash) == Some([])
    ensures ShortestSoFar(Reports(candidates[..found], d, hash), found, missing, at)
  {
    var schemas := set n | n in d.schemaVersions;
    var contracts := CollectContracts(d.capabilities);
    missing, at := [], -1;
    ghost var reports := [];
    for i := 0 to |candidates|
      invariant reports == Reports(candidates[..i], d, hash)
      invariant ShortestSoFar(reports, i, missing, at)
    {
      var report := MissingRequirements(candidates[i], schemas, contracts, hash, d);
      ReportsGrow(candidates, i, d, hash);
      if report == Some([]) {
        return i, missing, at;
      }
      ghost var before := reports;
      reports := reports + [report];
      ShortestStep(before, report, missing, at);
      if report.Some? && (missing == [] || |report.value| < |missing|) {
        missing := report.value;
        at := i;
      }
    }
    assert candidates[..|candidates|] == candidates;
    return |candidates|, missing, at;
  }

  lemma ReportsGrow(s: seq<Variant>, i: nat, d: Document, hash: string -> string)
    requires i < |s|
    ensures Reports(s[..i + 1], d, hash) == Reports(s[..i], d, hash) + [ReportOf(s[i], d, hash)]
  {
    assert s[..i + 1][..i] == s[..i];
  }

  lemma ShortestStep(reports: seq<Option<seq<MissingRequirement>>>, report: Option<seq<MissingRequirement>>,
                     missing: seq<MissingRequirement>, at: int)
    requires ShortestSoFar(reports, |reports|, missing, at) && report != Some([])
    ensures var longer := reports + [report];
            if report.Some? && (missing == [] || |report.value| < |missing|)
            then ShortestSoFar(longer, |longer|, report.value, |reports|)
            else ShortestSoFar(longer, |longer|, missing, at)
  {
  }

  /** What each candidate lacks, when it is well formed. */
  ghost function Reports(s: seq<Variant>, d: Document, hash: string -> string): (r: seq<Option<seq<MissingRequirement>>>)
    ensures |r| == |s|
  {
    if s == [] then [] else Reports(s[..|s| - 1], d, hash) + [ReportOf(s[|s| - 1], d, hash)]
  }

  lemma {:induction false} ReportAt(s: seq<Variant>, d: Document, hash: string -> string, k: nat)
    requires k < |s|
    ensures Reports(s, d, hash)[k] == ReportOf(s[k], d, hash)
  {
    if k < |s| - 1 {
      ReportAt(s[..|s| - 1], d, hash, k);
    }
  }

  lemma ReportsAt(s: seq<Variant>, d: Document, hash: string -> string)
    ensures forall k :: 0 <= k < |s| ==> Reports(s, d, hash)[k] == ReportOf(s[k], d, hash)
  {
    forall k | 0 <= k < |s| ensures Reports(s, d, hash)[k] == ReportOf(s[k], d, hash) {
      ReportAt(s, d, hash, k);
    }
  }

  lemma FoundBest(vs: seq<Variant>, d: Document, hash: string -> string, sorted: seq<Variant>, i: int,
                  missing: seq<MissingRequirement>, at: int)
    requires ValidDocument(d) && BestSpecificity(vs, d) >= 0
    requires Descending(sorted) && Stable(sorted, Filter(vs, Top(d, BestSpecificity(vs, d))))
    requires 0 <= i < |sorted| && ReportOf(sorted[i], d, hash) == Some([])
    requires ShortestSoFar(Reports(sorted[..i], d, hash), i, missing, at)
    ensures Outcome(vs, d, hash, Some(sorted[i]), [])
  {
    BestSpecificityIsMax(vs, d);
    ReportsAt(sorted[..i], d, hash);
    assert forall k :: 0 <= k < i ==> Reports(sorted[..i], d, hash)[k] != Some([]) && sorted[..i][k] == sorted[k];
    assert FirstAt(sorted, Lacking(d, hash, 0), sorted[i], i);
    FirstSortedIsBest(vs, d, sorted, Lacking(d, hash, 0), sorted[i]);
  }

  method CollectContracts(capabilities: seq<Capability>) returns (contracts: map<string, string>)
    ensures contracts == Contracts(capabilities)
  {
    contracts := map[];
    for i := 0 to |capabilities|
      invariant contracts == Contracts(capabilities[..i])
    {
      assert capabilities[..i + 1][..i] == capabilities[..i];
      contracts := contracts[capabilities[i].id := capabilities[i].revision];
    }
    assert capabilities[..|capabilities|] == capabilities;
  }

  /** None of the reports before index `i` is empty, and `missing` is the first of
      the shortest; it is empty when there is none. */
  ghost predicate ShortestSoFar(reports: seq<Option<seq<MissingRequirement>>>, i: int,
                                missing: seq<MissingRequirement>, at: int) {
    && 0 <= i <= |reports|
    && (forall k :: 0 <= k < i && reports[k].Some? ==> 0 < |missing| <= |reports[k].value|)
    && (missing != [] ==>
          && 0 <= at < i && reports[at] == Some(missing)
          && forall k :: 0 <= k < at && reports[k].Some? ==> |missing| < |reports[k].value|)
  }

  lemma Conclude(vs: seq<Variant>, d: Document, hash: string -> string, sorted: seq<Variant>,
                 missing: seq<MissingRequirement>, at: int)
    requires ValidDocument(d) && BestSpecificity(vs, d) >= 0
    requires Descending(sorted) && Stable(sorted, Filter(vs, Top(d, BestSpecificity(vs, d))))
    requires ShortestSoFar(Reports(sorted, d, hash), |sorted|, missing, at)
    ensures Outcome(vs, d, hash, None, missing)
  {
    BestSpecificityIsMax(vs, d);
    ReportsAt(sorted, d, hash);
    ConcludeNone(vs, d, hash, sorted, missing, at, 0);
    if missing == [] {
      assert forall k :: 0 <= k < |sorted| ==> Reports(sorted, d, hash)[k].None?;
      NoneSortedNoneHas(vs, d, sorted, IsWellFormed(hash));
    } else {
      assert forall k :: 0 <= k < at ==> Reports(sorted, d, hash)[k].None? || |Reports(sorted, d, hash)[k].value| != |missing|;
      assert FirstAt(sorted, Lacking(d, hash, |missing|), sorted[at], at);
      FirstSortedIsBest(vs, d, sorted, Lacking(d, hash, |missing|), sorted[at]);
      forall n | 0 <= n < |missing| ensures NoneHas(vs, d, Lacking(d, hash, n)) {
        ConcludeNone(vs, d, hash, sorted, missing, at, n);
      }
    }
  }

  lemma ConcludeNone(vs: seq<Variant>, d: Document, hash: string -> string, sorted: seq<Variant>,
                     missing: seq<MissingRequirement>, at: int, n: nat)
    requires Stable(sorted, Filter(vs, Top(d, BestSpecificity(vs, d))))
    requires ShortestSoFar(Reports(sorted, d, hash), |sorted|, missing, at)
    requires n == 0 || n < |missing|
    ensures NoneHas(vs, d, Lacking(d, hash, n))
  {
    ReportsAt(sorted, d, hash);
    assert forall k :: 0 <= k < |sorted| ==>
      Reports(sorted, d, hash)[k].None? || |Reports(sorted, d, hash)[k].value| != n;
    NoneSortedNoneHas(vs, d, sorted, Lacking(d, hash, n));
  }

  lemma BestIsUnique(vs: seq<Variant>, d: Document, q: Variant -> bool, i: int, j: int)
    requires Best(vs, d, q, i) && Best(vs, d, q, j)
    ensures i == j
  {
  }

  /** The meaning leaves no choice. */
  lemma OutcomeIsUnique(vs: seq<Variant>, d: Document, hash: string -> string,
                        s1: Option<Variant>, m1: seq<MissingRequirement>,
                        s2: Option<Variant>, m2: seq<MissingRequirement>)
    requires Outcome(vs, d, hash, s1, m1) && Outcome(vs, d, hash, s2, m2)
    ensures s1 == s2 && m1 == m2
  {
    if ValidDocument(d) && exists i :: 0 <= i < |vs| && Eligible(vs[i], d) {
      var satisfied := Lacking(d, hash, 0);
      if s1.Some? {
        var j1 :| Best(vs, d, satisfied, j1) && s1.value == vs[j1];
        if s2.Some? {
          var j2 :| Best(vs, d, satisfied, j2) && s2.value == vs[j2];
          BestIsUnique(vs, d, satisfied, j1, j2);
        }
      } else if s2.None? {
        BlockedReportIsUnique(vs, d, hash, m1, m2);
      }
    }
  }

  /** No candidate lacks fewer things than a blocked report lists. */
  lemma ReportIsShortest(vs: seq<Variant>, d: Document, hash: string -> string, m: seq<MissingRequirement>, j: int, n: nat)
    requires BlockedReport(vs, d, hash, m) && Best(vs, d, Lacking(d, hash, n), j)
    ensures 0 < |m| <= n
  {
    assert IsWellFormed(hash)(vs[j]);
  }

  lemma ReportLengthsAgree(vs: seq<Variant>, d: Document, hash: string -> string,
                           m1: seq<MissingRequirement>, m2: seq<MissingRequirement>)
    requires BlockedReport(vs, d, hash, m1) && BlockedReport(vs, d, hash, m2)
    ensures |m1| <= |m2|
  {
    if m1 != [] {
      var j1 :| Best(vs, d, Lacking(d, hash, |m1|), j1) && m1 == Missing(vs[j1], d);
      assert IsWellFormed(hash)(vs[j1]);
      if m2 != [] {
        var j2 :| Best(vs, d, Lacking(d, hash, |m2|), j2) && m2 == Missing(vs[j2], d);
        ReportIsShortest(vs, d, hash, m1, j2, |m2|);
      }
    }
  }

  lemma ReportsOfOneLengthAgree(vs: seq<Variant>, d: Document, hash: string -> string,
                                m1: seq<MissingRequirement>, m2: seq<MissingRequirement>)
    requires BlockedReport(vs, d, hash, m1) && BlockedReport(vs, d, hash, m2) && |m1| == |m2|
    ensures m1 == m2
  {
    if m1 != [] {
      var j1 :| Best(vs, d, Lacking(d, hash, |m1|), j1) && m1 == Missing(vs[j1], d);
      var j2 :| Best(vs, d, Lacking(d, hash, |m1|), j2) && m2 == Missing(vs[j2], d);
      BestIsUnique(vs, d, Lacking(d, hash, |m1|), j1, j2);
    }
  }

  lemma BlockedReportIsUnique(vs: seq<Variant>, d: Document, hash: string -> string,
                              m1: seq<MissingRequirement>, m2: seq<MissingRequirement>)
    requires BlockedReport(vs, d, hash, m1) && BlockedReport(vs, d, hash, m2)
    ensures m1 == m2
  {
    ReportLengthsAgree(vs, d, hash, m1, m2);
    ReportLengthsAgree(vs, d, hash, m2, m1);
    ReportsOfOneLengthAgree(vs, d, hash, m1, m2);
  }

  /** Something is selected exactly when a well-formed variant of the greatest
      specificity lacks nothing; a less specific one is never fallen back to. */
  lemma SelectedExactlyWhenSatisfied(vs: seq<Variant>, d: Document, hash: string -> string,
                                     selected: Option<Variant>, missing: seq<MissingRequirement>)
    requires ValidDocument(d) && Outcome(vs, d, hash, selected, missing)
    ensures selected.Some? <==>
            exists j :: 0 <= j < |vs| && Eligible(vs[j], d) && WellFormed(vs[j], hash) && Missing(vs[j], d) == []
                        && forall i :: 0 <= i < |vs| && Eligible(vs[i], d) ==>
                             Specificity(vs[i].requirements.target) <= Specificity(vs[j].requirements.target)
  {
    BestSpecificityIsMax(vs, d);
    if selected.Some? {
      var j :| Best(vs, d, Lacking(d, hash, 0), j) && selected.value == vs[j];
      assert Eligible(vs[j], d);
    }
  }

  // ------------------------------------------------------------- monotonicity

  /** The same facts, with further schema versions or capabilities. */
  ghost predicate Extends(d: Document, e: Document) {
    && e.facts == d.facts
    && (forall n :: n in d.schemaVersions ==> n in e.schemaVersions)
    && (forall c :: c in d.capabilities ==> c in e.capabilities)
  }

  lemma {:induction false} FilterShrinks<T>(s: seq<T>, p: T -> bool, q: T -> bool)
    requires forall x :: x in s && q(x) ==> p(x)
    ensures |Filter(s, q)| <= |Filter(s, p)|
  {
    if s != [] {
      assert s == s[..|s| - 1] + [s[|s| - 1]];
      FilterShrinks(s[..|s| - 1], p, q);
    }
  }

  lemma MissingShrinks(v: Variant, d: Document, e: Document)
    requires Extends(d, e)
    ensures |Missing(v, e)| <= |Missing(v, d)|
  {
    RequirementOrder();
    FilterShrinks(v.requirements.resources, Lacks(d), Lacks(e));
    FilterShrinks(v.requirements.providers, Lacks(d), Lacks(e));
    SortSorts(MissingUnsorted(v, d), RequirementLess);
    SortSorts(MissingUnsorted(v, e), RequirementLess);
    assert |multiset(Missing(v, d))| == |multiset(MissingUnsorted(v, d))|;
    assert |multiset(Missing(v, e))| == |multiset(MissingUnsorted(v, e))|;
  }

  lemma {:induction false} BestSpecificityDependsOnFacts(vs: seq<Variant>, d: Document, e: Document)
    requires d.facts == e.facts
    ensures BestSpecificity(vs, d) == BestSpecificity(vs, e)
  {
    if vs != [] {
      BestSpecificityDependsOnFacts(vs[..|vs| - 1], d, e);
    }
  }

  /** With the facts fixed, a variant that is well formed and on top stays so, and
      lacks no more than before. */
  lemma StaysOnTop(vs: seq<Variant>, hash: string -> string, d: Document, e: Document, j: int)
    requires Extends(d, e) && 0 <= j < |vs|
    ensures Top(d, BestSpecificity(vs, d))(vs[j]) == Top(e, BestSpecificity(vs, e))(vs[j])
    ensures |Missing(vs[j], e)| <= |Missing(vs[j], d)|
  {
    BestSpecificityDependsOnFacts(vs, d, e);
    MissingShrinks(vs[j], d, e);
  }

  lemma SelectionSurvives(vs: seq<Variant>, hash: string -> string, d: Document, e: Document,
                          v: Variant, s: Option<Variant>, m: seq<MissingRequirement>)
    requires ValidDocument(d) && ValidDocument(e) && Extends(d, e)
    requires Outcome(vs, d, hash, Some(v), []) && Outcome(vs, e, hash, s, m)
    ensures s.Some? && s.value.schemaVersion >= v.schemaVersion && m == []
  {
    var j :| Best(vs, d, Lacking(d, hash, 0), j) && v == vs[j];
    StaysOnTop(vs, hash, d, e, j);
    assert Lacking(e, hash, 0)(vs[j]);
    assert Eligible(vs[j], e);
  }

  lemma ReportShrinks(vs: seq<Variant>, hash: string -> string, d: Document, e: Document,
                      m: seq<MissingRequirement>, m': seq<MissingRequirement>)
    requires Extends(d, e) && BlockedReport(vs, d, hash, m) && BlockedReport(vs, e, hash, m')
    ensures |m'| <= |m|
  {
    if m != [] {
      NonEmptyReportShrinks(vs, hash, d, e, m, m');
    } else if m' != [] {
      var j :| Best(vs, e, Lacking(e, hash, |m'|), j) && m' == Missing(vs[j], e);
      StaysOnTop(vs, hash, d, e, j);
    }
  }

  lemma NonEmptyReportShrinks(vs: seq<Variant>, hash: string -> string, d: Document, e: Document,
                              m: seq<MissingRequirement>, m': seq<MissingRequirement>)
    requires Extends(d, e) && BlockedReport(vs, d, hash, m) && BlockedReport(vs, e, hash, m') && m != []
    ensures |m'| <= |m|
  {
    var j :| Best(vs, d, Lacking(d, hash, |m|), j) && m == Missing(vs[j], d);
    StaysOnTop(vs, hash, d, e, j);
    NotLongerThan(vs, hash, e, m', j);
  }

  /** A blocked report is no longer than what any well-formed variant on top lacks. */
  lemma NotLongerThan(vs: seq<Variant>, hash: string -> string, e: Document, m: seq<MissingRequirement>, j: int)
    requires BlockedReport(vs, e, hash, m) && 0 <= j < |vs|
    requires Top(e, BestSpecificity(vs, e))(vs[j]) && IsWellFormed(hash)(vs[j])
    ensures |m| <= |Missing(vs[j], e)|
  {
    assert Lacking(e, hash, |Missing(vs[j], e)|)(vs[j]);
  }

  /** Extending a document never turns a selection into a block, never lowers the
      selected schema version, and never lengthens a blocked report. */
  lemma SelectionIsMonotone(vs: seq<Variant>, hash: string -> string, d: Document, e: Document,
                            s: Option<Variant>, m: seq<MissingRequirement>,
                            s': Option<Variant>, m': seq<MissingRequirement>)
    requires ValidDocument(d) && ValidDocument(e) && Extends(d, e)
    requires Outcome(vs, d, hash, s, m) && Outcome(vs, e, hash, s', m')
    ensures s.Some? ==> s'.Some? && s'.value.schemaVersion >= s.value.schemaVersion
    ensures |m'| <= |m|
  {
    if s.Some? {
      SelectionSurvives(vs, hash, d, e, s.value, s', m');
    } else if (exists i :: 0 <= i < |vs| && Eligible(vs[i], d)) && s'.None? {
      var i :| 0 <= i < |vs| && Eligible(vs[i], d);
      assert Eligible(vs[i], e);
      ReportShrinks(vs, hash, d, e, m, m');
    }
  }
}
