/** What a selection means, told from the variants, the facts and the lists of the document
    alone (internal/artifactvariant/compatibility.go). */
module SelectionMeaning {
  import opened Common
  import opened Ordering
  import opened RequirementSet
  import opened RequirementJson
  import opened RequirementCanonical
  import opened VariantSelection

  // ------------------------------------------------------------------- targets

  /** The document reports this value for the key, and no later fact overrides it. */
  ghost predicate Says(facts: seq<Fact>, key: string, value: string) {
    exists i :: 0 <= i < |facts| && facts[i] == Fact(key, value) && forall j :: i < j < |facts| ==> facts[j].key != key
  }

  ghost predicate SaysOneOf(facts: seq<Fact>, key: string, values: seq<string>) {
    exists value :: value in values && Says(facts, key, value)
  }

  /** Valid requirements, and for each dimension its target names a distro or an
      architecture that the document reports. */
  ghost predicate Fits(v: Variant, d: Document) {
    && Valid(v.requirements)
    && (v.requirements.target.Some? ==>
          && (v.requirements.target.value.distros != [] ==>
                SaysOneOf(d.facts, "distro", v.requirements.target.value.distros))
          && (v.requirements.target.value.architectures != [] ==>
                SaysOneOf(d.facts, "architecture", v.requirements.target.value.architectures)))
  }

  datatype Dimension = Distro | Architecture

  /** The dimensions that a target limits. */
  function Limits(t: Option<TargetPredicate>): set<Dimension> {
    (if t.Some? && t.value.distros != [] then {Distro} else {})
    + (if t.Some? && t.value.architectures != [] then {Architecture} else {})
  }

  /** The last fact decides, if it is one for the key. */
  lemma LastFactDecides(front: seq<Fact>, last: Fact, key: string, value: string)
    ensures Says(front + [last], key, value) <==> if last.key == key then last.value == value else Says(front, key, value)
  {
    var facts := front + [last];
    if last.key == key {
      assert facts[|front|] == last;
    } else {
      if Says(front, key, value) {
        var i :| 0 <= i < |front| && front[i] == Fact(key, value) && forall j :: i < j < |front| ==> front[j].key != key;
        assert facts[i] == Fact(key, value);
      }
      if Says(facts, key, value) {
        var i :| 0 <= i < |facts| && facts[i] == Fact(key, value) && forall j :: i < j < |facts| ==> facts[j].key != key;
        assert front[i] == Fact(key, value);
        assert forall j :: i < j < |front| ==> front[j] == facts[j];
      }
    }
  }

  lemma {:induction false} FactValueIsSaid(facts: seq<Fact>, key: string, value: string)
    requires value != ""
    ensures FactValue(facts, key) == value <==> Says(facts, key, value)
  {
    if facts != [] {
      var front, last := facts[..|facts| - 1], facts[|facts| - 1];
      assert facts == front + [last];
      FactValueIsSaid(front, key, value);
      LastFactDecides(front, last, key, value);
    }
  }

  /** Where each key has one fact, saying is listing. */
  lemma SaysIsListed(facts: seq<Fact>, key: string, value: string)
    requires forall i, j :: 0 <= i < j < |facts| ==> facts[i].key != facts[j].key
    ensures Says(facts, key, value) <==> Fact(key, value) in facts
  {
    if Fact(key, value) in facts {
      var i :| 0 <= i < |facts| && facts[i] == Fact(key, value);
      assert forall j :: i < j < |facts| ==> facts[j].key != key;
    }
  }

  lemma ValueMatchesWhenSaid(facts: seq<Fact>, key: string, values: seq<string>)
    requires "" !in values
    ensures TargetValueMatches(values, FactValue(facts, key)) <==> values == [] || SaysOneOf(facts, key, values)
  {
    if FactValue(facts, key) in values {
      FactValueIsSaid(facts, key, FactValue(facts, key));
    }
    if SaysOneOf(facts, key, values) {
      var value :| value in values && Says(facts, key, value);
      FactValueIsSaid(facts, key, value);
    }
  }

  /** The variants that take part in a selection are exactly those that fit. */
  lemma EligibleExactlyWhenFits(v: Variant, d: Document)
    ensures Eligible(v, d) <==> Fits(v, d)
  {
    if Valid(v.requirements) && v.requirements.target.Some? {
      var t := v.requirements.target.value;
      assert "" !in DISTROS && "" !in ARCHITECTURES;
      ValueMatchesWhenSaid(d.facts, "distro", t.distros);
      ValueMatchesWhenSaid(d.facts, "architecture", t.architectures);
    }
  }

  /** Specificity counts the dimensions that a target limits. */
  lemma SpecificityCountsLimits(t: Option<TargetPredicate>)
    ensures Specificity(t) == |Limits(t)|
  {
  }

  // ------------------------------------------------------------------ selection

  /** Fits, and no variant that fits limits more dimensions. */
  ghost predicate Leads(vs: seq<Variant>, d: Document, j: int) {
    && 0 <= j < |vs| && Fits(vs[j], d)
    && forall i :: 0 <= i < |vs| && Fits(vs[i], d) ==>
         |Limits(vs[i].requirements.target)| <= |Limits(vs[j].requirements.target)|
  }

  /** The variant's schema and digest are those of its own requirements. */
  ghost predicate Consistent(v: Variant, hash: string -> string) {
    && v.schemaVersion == v.requirements.schemaVersion
    && CanonicalBody(v.requirements).Some?
    && v.requirementDigest == "sha256:" + hash(CanonicalBody(v.requirements).value)
  }

  /** The schema and the exact contracts that the document does not list. */
  ghost function Lacked(v: Variant, d: Document): set<Requirement> {
    (if v.schemaVersion in d.schemaVersions then {}
     else {Requirement(if v.schemaVersion == 0 then "schema:0" else "schema:1", "1")})
    + (set r | r in v.requirements.resources && Capability(r.id, r.revision) !in d.capabilities)
    + (set r | r in v.requirements.providers && Capability(r.id, r.revision) !in d.capabilities)
  }

  /** A leading, consistent variant that lacks `n` things; of those, none has a greater
      schema version, and none of the same stands earlier. */
  ghost predicate FirstLacking(vs: seq<Variant>, d: Document, hash: string -> string, n: nat, j: int) {
    && Leads(vs, d, j) && Consistent(vs[j], hash) && |Lacked(vs[j], d)| == n
    && forall i :: Leads(vs, d, i) && Consistent(vs[i], hash) && |Lacked(vs[i], d)| == n ==>
         vs[i].schemaVersion < vs[j].schemaVersion || (vs[i].schemaVersion == vs[j].schemaVersion && j <= i)
  }

  ghost predicate LackFewer(vs: seq<Variant>, d: Document, hash: string -> string, n: nat) {
    exists j :: Leads(vs, d, j) && Consistent(vs[j], hash) && |Lacked(vs[j], d)| < n
  }

  /** The list holds exactly these, by increasing ID. */
  ghost predicate Lists(report: seq<Requirement>, lacked: set<Requirement>) {
    (forall m :: m in report <==> m in lacked) && IncreasingIds(report)
  }

  ghost predicate Meaning(vs: seq<Variant>, d: Document, hash: string -> string,
                          selected: Option<Variant>, missing: seq<Requirement>) {
    if !ValidDocument(d) then selected == None && missing == []
    else if forall j :: 0 <= j < |vs| ==> !Fits(vs[j], d) then
      selected == None && missing == [Requirement("target:artifact", "1")]
    else if selected.Some? then
      missing == [] && exists j :: FirstLacking(vs, d, hash, 0, j) && selected.value == vs[j]
    else if missing == [] then
      forall j :: Leads(vs, d, j) ==> !Consistent(vs[j], hash)
    else
      && !LackFewer(vs, d, hash, |missing|)
      && exists j :: FirstLacking(vs, d, hash, |missing|, j) && Lists(missing, Lacked(vs[j], d))
  }

  lemma WellFormedIsConsistent(v: Variant, hash: string -> string)
    ensures WellFormed(v, hash) <==> Consistent(v, hash)
  {
  }

  lemma SchemaName(n: int)
    requires n == 0 || n == 1
    ensures SchemaRequirement(n) == Requirement(if n == 0 then "schema:0" else "schema:1", "1")
  {
  }

  lemma LackedIsMissing(v: Variant, d: Document, m: Requirement)
    requires v.schemaVersion == 0 || v.schemaVersion == 1
    ensures m in Lacked(v, d) <==> IsMissing(v, d, m)
  {
    SchemaName(v.schemaVersion);
  }

  lemma MissingIsLacked(v: Variant, d: Document)
    requires Valid(v.requirements) && v.schemaVersion == v.requirements.schemaVersion
    ensures Lists(Missing(v, d), Lacked(v, d)) && |Missing(v, d)| == |Lacked(v, d)|
  {
    MissingIsExact(v, d);
    forall m ensures m in Missing(v, d) <==> m in Lacked(v, d) {
      LackedIsMissing(v, d, m);
    }
    DistinctListCounts(Missing(v, d), Lacked(v, d));
    SortedIdsIncrease(Missing(v, d));
  }

  lemma DistinctListCounts(report: seq<Requirement>, lacked: set<Requirement>)
    requires DistinctIds(report) && forall m :: m in report <==> m in lacked
    ensures |report| == |lacked|
  {
    assert Distinct(report);
    DistinctCardinality(report);
    assert (set m | m in report) == lacked;
  }

  lemma TopLeads(vs: seq<Variant>, d: Document, j: int)
    ensures 0 <= j < |vs| && Top(d, BestSpecificity(vs, d))(vs[j]) <==> Leads(vs, d, j)
  {
    BestSpecificityIsMax(vs, d);
    forall i | 0 <= i < |vs|
      ensures (Eligible(vs[i], d) <==> Fits(vs[i], d)) && Specificity(vs[i].requirements.target) == |Limits(vs[i].requirements.target)|
    {
      EligibleExactlyWhenFits(vs[i], d);
      SpecificityCountsLimits(vs[i].requirements.target);
    }
  }

  lemma LackingMeans(vs: seq<Variant>, d: Document, hash: string -> string, n: nat, j: int)
    requires Leads(vs, d, j)
    ensures Lacking(d, hash, n)(vs[j]) <==> Consistent(vs[j], hash) && |Lacked(vs[j], d)| == n
    ensures Consistent(vs[j], hash) ==> Lists(Missing(vs[j], d), Lacked(vs[j], d)) && |Missing(vs[j], d)| == |Lacked(vs[j], d)|
  {
    WellFormedIsConsistent(vs[j], hash);
    if Consistent(vs[j], hash) {
      MissingIsLacked(vs[j], d);
    }
  }

  lemma BestIsFirst(vs: seq<Variant>, d: Document, hash: string -> string, n: nat, j: int)
    requires Best(vs, d, Lacking(d, hash, n), j)
    ensures FirstLacking(vs, d, hash, n, j)
  {
    TopLeads(vs, d, j);
    LackingMeans(vs, d, hash, n, j);
    forall i | Leads(vs, d, i) && Consistent(vs[i], hash) && |Lacked(vs[i], d)| == n
      ensures vs[i].schemaVersion < vs[j].schemaVersion || (vs[i].schemaVersion == vs[j].schemaVersion && j <= i)
    {
      TopLeads(vs, d, i);
      LackingMeans(vs, d, hash, n, i);
    }
  }

  lemma NoneLacks(vs: seq<Variant>, d: Document, hash: string -> string, n: nat, j: int)
    requires NoneHas(vs, d, Lacking(d, hash, n)) && Leads(vs, d, j) && Consistent(vs[j], hash)
    ensures |Lacked(vs[j], d)| != n
  {
    TopLeads(vs, d, j);
    LackingMeans(vs, d, hash, n, j);
  }

  lemma BlockedReportMeans(vs: seq<Variant>, d: Document, hash: string -> string, missing: seq<Requirement>)
    requires BlockedReport(vs, d, hash, missing)
    ensures missing == [] ==> forall j :: Leads(vs, d, j) ==> !Consistent(vs[j], hash)
    ensures missing != [] ==>
              && !LackFewer(vs, d, hash, |missing|)
              && exists j :: FirstLacking(vs, d, hash, |missing|, j) && Lists(missing, Lacked(vs[j], d))
  {
    if missing == [] {
      forall j | Leads(vs, d, j) ensures !Consistent(vs[j], hash) {
        TopLeads(vs, d, j);
        WellFormedIsConsistent(vs[j], hash);
        assert !IsWellFormed(hash)(vs[j]);
      }
    } else {
      var j :| Best(vs, d, Lacking(d, hash, |missing|), j) && missing == Missing(vs[j], d);
      BestIsFirst(vs, d, hash, |missing|, j);
      LackingMeans(vs, d, hash, |missing|, j);
      if i :| Leads(vs, d, i) && Consistent(vs[i], hash) && |Lacked(vs[i], d)| < |missing| {
        NoneLacks(vs, d, hash, |Lacked(vs[i], d)|, i);
      }
    }
  }

  /** So what the selection computes is the meaning. */
  lemma OutcomeMeans(vs: seq<Variant>, d: Document, hash: string -> string, selected: Option<Variant>, missing: seq<Requirement>)
    requires Outcome(vs, d, hash, selected, missing)
    ensures Meaning(vs, d, hash, selected, missing)
  {
    forall i | 0 <= i < |vs| ensures Eligible(vs[i], d) <==> Fits(vs[i], d) {
      EligibleExactlyWhenFits(vs[i], d);
    }
    if ValidDocument(d) && exists i :: 0 <= i < |vs| && Fits(vs[i], d) {
      if selected.Some? {
        var j :| Best(vs, d, Lacking(d, hash, 0), j) && selected.value == vs[j];
        BestIsFirst(vs, d, hash, 0, j);
      } else {
        BlockedReportMeans(vs, d, hash, missing);
      }
    }
  }

  /** A variant is selected if and only if a leading consistent one lacks nothing. */
  lemma SelectedWhenNothingLacks(vs: seq<Variant>, d: Document, hash: string -> string, selected: Option<Variant>, missing: seq<Requirement>)
    requires ValidDocument(d) && Outcome(vs, d, hash, selected, missing)
    ensures selected.Some? <==> exists j :: Leads(vs, d, j) && Consistent(vs[j], hash) && Lacked(vs[j], d) == {}
  {
    OutcomeMeans(vs, d, hash, selected, missing);
    if selected.None? {
      forall j | Leads(vs, d, j) && Consistent(vs[j], hash) ensures |Lacked(vs[j], d)| != 0 {
        EligibleExactlyWhenFits(vs[j], d);
        NoneLacks(vs, d, hash, 0, j);
      }
    } else {
      var j :| FirstLacking(vs, d, hash, 0, j) && selected.value == vs[j];
      assert Lacked(vs[j], d) == {};
    }
  }
}
