/** What the agent puts into a request and what a processed reply leaves behind, told from
    its memory and inputs alone. */
module SyncRequest {
  import opened Common
  import opened DocumentHash
  import opened SyncRun

  /** The report on system information waiting to be sent: a new one replaces the old. */
  function Pending(s: AgentState, i: Inputs): Option<SystemInfo> {
    if i.prepared.Some? then Some(i.prepared.value.1) else s.pendingInfo
  }

  /** The labels given, or else the two facts of the machine. */
  function Labels(i: Inputs): map<string, string>
    requires i.labels != map[] || i.facts.Some?
  {
    if i.labels != map[] then i.labels else map["distro" := i.facts.value.0, "arch" := i.facts.value.1]
  }

  /** Every document that the exchange needs can be prepared. */
  ghost predicate Preparable(codec: Codec, s: AgentState, i: Inputs) {
    && i.capability.Some? && codec.capability(i.capability.value).Some?
    && codec.delivery(s.lastReleaseRef, s.lastDigest).Some?
    && (i.labels != map[] || i.facts.Some?) && codec.targeting(Labels(i), i.usernames).Some?
    && (Pending(s, i).Some? ==> codec.systemInfo(Pending(s, i).value.report).Some?)
  }

  /** A request is sent exactly when every document can be prepared. */
  lemma SentExactlyWhenPreparable(codec: Codec, s: AgentState, i: Inputs)
    ensures Exchange(codec, s, i).1.Exchanged?
    ensures Exchange(codec, s, i).1.sent.Some? <==> Preparable(codec, s, i)
  {
  }

  /** The document stands for its hash in the summary. */
  ghost predicate NamedBy(codec: Codec, sent: Request, n: DocName, body: Option<string>) {
    && sent.documentHashes.Some? && n in sent.documentHashes.value.documents
    && body.Some? && sent.documentHashes.value.documents[n] == codec.digest(n, body.value)
  }

  ghost predicate RecordedAs(s: AgentState, sent: Request, n: DocName) {
    && sent.documentHashes.Some? && n in sent.documentHashes.value.documents
    && Lookup(s.accepted, n) == sent.documentHashes.value.documents[n]
  }

  /** Each document is named by its own hash, and nothing else but system information is. */
  ghost predicate NamesDocuments(codec: Codec, s: AgentState, i: Inputs, sent: Request)
    requires Preparable(codec, s, i)
  {
    && NamedBy(codec, sent, Capability, codec.capability(i.capability.value))
    && NamedBy(codec, sent, Delivery, codec.delivery(s.lastReleaseRef, s.lastDigest))
    && NamedBy(codec, sent, Targeting, codec.targeting(Labels(i), i.usernames))
    && sent.documentHashes.value.version == 1
    && forall n :: n in sent.documentHashes.value.documents ==>
         n == Capability || n == Delivery || n == Targeting || n == SystemInformation
  }

  /** Each body is there unless its hash is on record, and is the document itself. */
  ghost predicate CarriesDocuments(s: AgentState, i: Inputs, sent: Request)
    requires i.labels != map[] || i.facts.Some?
  {
    && sent.lastDigest == s.lastDigest && sent.lastReleaseRef == s.lastReleaseRef
    && sent.capabilityDocument == (if RecordedAs(s, sent, Capability) then None else i.capability)
    && sent.systemInfo == (if RecordedAs(s, sent, SystemInformation) then None else Pending(s, i))
    && sent.labels == (if RecordedAs(s, sent, Targeting) then map[] else Labels(i))
    && sent.usernames == (if RecordedAs(s, sent, Targeting) then [] else i.usernames)
  }

  lemma SentIsAttached(codec: Codec, s: AgentState, i: Inputs)
    requires i.capability.Some?
    ensures Exchange(codec, s, i).1.Exchanged?
    ensures Exchange(codec, s, i).1.sent ==
            Attach(codec, s.accepted, Request(s.lastDigest, s.lastReleaseRef, i.labels, i.usernames, Pending(s, i), None, None),
                   i.capability.value, i.facts)
  {
  }

  lemma AttachedNames(codec: Codec, s: AgentState, i: Inputs, base: Request, sent: Request)
    requires base == Request(s.lastDigest, s.lastReleaseRef, i.labels, i.usernames, Pending(s, i), None, None)
    requires Preparable(codec, s, i) && Attach(codec, s.accepted, base, i.capability.value, i.facts) == Some(sent)
    ensures NamesDocuments(codec, s, i, sent)
  {
  }

  lemma AttachedCarries(codec: Codec, s: AgentState, i: Inputs, base: Request, sent: Request)
    requires base == Request(s.lastDigest, s.lastReleaseRef, i.labels, i.usernames, Pending(s, i), None, None)
    requires Preparable(codec, s, i) && Attach(codec, s.accepted, base, i.capability.value, i.facts) == Some(sent)
    ensures CarriesDocuments(s, i, sent)
  {
  }

  /** The request an exchange sends is determined, field by field, by memory and inputs. */
  lemma SentRequestIsExact(codec: Codec, s: AgentState, i: Inputs)
    requires Preparable(codec, s, i)
    ensures Exchange(codec, s, i).1.Exchanged? && Exchange(codec, s, i).1.sent.Some?
    ensures NamesDocuments(codec, s, i, Exchange(codec, s, i).1.sent.value)
    ensures CarriesDocuments(s, i, Exchange(codec, s, i).1.sent.value)
  {
    var base := Request(s.lastDigest, s.lastReleaseRef, i.labels, i.usernames, Pending(s, i), None, None);
    SentExactlyWhenPreparable(codec, s, i);
    SentIsAttached(codec, s, i);
    AttachedNames(codec, s, i, base, Exchange(codec, s, i).1.sent.value);
    AttachedCarries(codec, s, i, base, Exchange(codec, s, i).1.sent.value);
  }

  ghost predicate NamesInventory(codec: Codec, s: AgentState, i: Inputs, sent: Request) {
    && sent.documentHashes.Some?
    && var hashes := sent.documentHashes.value.documents;
       && (SystemInformation in hashes <==>
             Pending(s, i).Some? || (SystemInformation in s.accepted && s.accepted[SystemInformation] != ""))
       && (SystemInformation in hashes && Pending(s, i).None? ==>
             hashes[SystemInformation] == s.accepted[SystemInformation])
       && (Pending(s, i).Some? ==>
             NamedBy(codec, sent, SystemInformation, codec.systemInfo(Pending(s, i).value.report)))
  }

  lemma AttachedInventory(codec: Codec, s: AgentState, i: Inputs, base: Request, sent: Request)
    requires base == Request(s.lastDigest, s.lastReleaseRef, i.labels, i.usernames, Pending(s, i), None, None)
    requires Preparable(codec, s, i) && Attach(codec, s.accepted, base, i.capability.value, i.facts) == Some(sent)
    ensures NamesInventory(codec, s, i, sent)
  {
  }

  /** A request names system information if and only if a report is pending or a hash of one is
      on record: by the hash of the report, or else by the recorded hash, so that a quiet
      exchange still names what the server has accepted. */
  lemma InventoryIsNamed(codec: Codec, s: AgentState, i: Inputs)
    requires Exchange(codec, s, i).1.Exchanged? && Exchange(codec, s, i).1.sent.Some?
    ensures NamesInventory(codec, s, i, Exchange(codec, s, i).1.sent.value)
  {
    SentExactlyWhenPreparable(codec, s, i);
    SentIsAttached(codec, s, i);
    var base := Request(s.lastDigest, s.lastReleaseRef, i.labels, i.usernames, Pending(s, i), None, None);
    AttachedInventory(codec, s, i, base, Exchange(codec, s, i).1.sent.value);
  }

  // ------------------------------------------------------------ after the reply

  /** The digest that a sent report is recorded under: that of the change which made it
      due, if one is known, or else its own. */
  function ChangeDigest(s: AgentState, i: Inputs, report: SystemInfo): string {
    var due := if i.prepared.Some? then i.prepared.value.0 else s.pendingInventory;
    if due == "" then report.digest else due
  }

  /** The exchange sent a report, and the map it leaves records the hash of it. */
  ghost predicate ReportAcknowledged(t: AgentState, r: Record) {
    r.Exchanged? && r.processed.Some? && r.sent.Some? && r.sent.value.systemInfo.Some?
    && RecordedAs(t, r.sent.value, SystemInformation)
  }

  function SentDigest(disk: Option<State>): string {
    if disk.Some? then disk.value.sentDigest else ""
  }

  ghost predicate Recorded(s: AgentState, i: Inputs, t: AgentState, report: SystemInfo) {
    && t.pendingInfo == None && t.pendingInventory == "" && t.throttle == ChangeDigest(s, i, report)
    && SentDigest(t.disk) ==
         if s.disk.Some? && i.sentIO == (true, true) && s.disk.value.endpointID != "" then t.throttle else SentDigest(s.disk)
  }

  ghost predicate StillPending(s: AgentState, i: Inputs, t: AgentState) {
    && t.pendingInfo == Pending(s, i) && t.throttle == s.throttle && SentDigest(t.disk) == SentDigest(s.disk)
    && t.pendingInventory == if i.prepared.Some? then i.prepared.value.0 else s.pendingInventory
  }

  /** Everything about reports, and the file but for the accepted map. */
  ghost predicate SameReports(a: AgentState, b: AgentState) {
    && a.pendingInfo == b.pendingInfo && a.pendingInventory == b.pendingInventory && a.throttle == b.throttle
    && SentDigest(a.disk) == SentDigest(b.disk) && a.disk.Some? == b.disk.Some?
    && (a.disk.Some? ==> a.disk.value.endpointID == b.disk.value.endpointID)
  }

  lemma AcceptKeepsReports(s: AgentState, req: Request, resp: Response, io: (bool, bool))
    ensures SameReports(s, Accept(s, req, resp, io))
  {
  }

  lemma ApplyKeepsReports(s: AgentState, resp: Response, ok: bool)
    ensures SameReports(s, ApplyResponse(s, resp, ok)) && ApplyResponse(s, resp, ok).accepted == s.accepted
  {
  }

  lemma SettleMeans(s: AgentState, req: Request, io: (bool, bool))
    ensures
      var t := SettleInfo(s, req, io);
      var change := if req.systemInfo.Some? && s.pendingInventory == "" then req.systemInfo.value.digest else s.pendingInventory;
      && t.accepted == s.accepted
      && (req.systemInfo.Some? && Acknowledged(s.accepted, req, SystemInformation) ==>
            && t.pendingInfo == None && t.pendingInventory == "" && t.throttle == change
            && SentDigest(t.disk) ==
                 if s.disk.Some? && io == (true, true) && s.disk.value.endpointID != "" then change else SentDigest(s.disk))
      && (!(req.systemInfo.Some? && Acknowledged(s.accepted, req, SystemInformation)) ==> t == s)
  {
  }

  /** A report that was sent and acknowledged leaves the queue and is recorded, in memory
      and, if the file can be read and written, there; any other stays as it was. */
  lemma ReportSettles(codec: Codec, s: AgentState, i: Inputs)
    ensures var (t, r) := Exchange(codec, s, i);
            && (ReportAcknowledged(t, r) ==> Recorded(s, i, t, r.sent.value.systemInfo.value))
            && (!ReportAcknowledged(t, r) ==> StillPending(s, i, t))
  {
    var (t, r) := Exchange(codec, s, i);
    if r.processed.Some? {
      var s1 := Prepare(s, i.prepared);
      var req, resp := r.sent.value, r.processed.value;
      var a := Accept(s1, req, resp, i.acceptIO);
      AcceptKeepsReports(s1, req, resp, i.acceptIO);
      SettleMeans(a, req, i.sentIO);
      ApplyKeepsReports(SettleInfo(a, req, i.sentIO), resp, i.pipelineOk);
      SentReportIsNamed(codec, s, i);
    }
  }

  /** A request that carries a report names it. */
  lemma SentReportIsNamed(codec: Codec, s: AgentState, i: Inputs)
    requires Exchange(codec, s, i).1.Exchanged? && Exchange(codec, s, i).1.sent.Some?
    ensures
      var sent := Exchange(codec, s, i).1.sent.value;
      && sent.documentHashes.Some?
      && (sent.systemInfo.Some? ==> SystemInformation in sent.documentHashes.value.documents)
  {
    SentExactlyWhenPreparable(codec, s, i);
    SentIsAttached(codec, s, i);
    InventoryIsNamed(codec, s, i);
    SentRequestIsExact(codec, s, i);
  }

  /** A restart that reads the file takes the recorded digest over. */
  lemma RestartKeepsDigest(disk: Option<State>)
    ensures Restart(disk, true).throttle == SentDigest(disk) && Restart(disk, true).pendingInfo == None
  {
  }
}
