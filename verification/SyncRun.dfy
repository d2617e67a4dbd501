/** The agent's repeatable-document protocol: what one Sync exchange sends, what
    it accepts, and what it applies (cmd/remotr-agent/sync_run.go).

    The class follows the source; the functions above it say what each of its
    methods computes, over the value of the agent's memory and state file. */
module SyncRun {
  import opened Common
  import opened DocumentHash

  datatype CapabilityDocument = CapabilityDocument(content: string)

  datatype SystemInfo = SystemInfo(digest: string, report: string)

  datatype Request = Request(
    lastDigest: string,
    lastReleaseRef: string,
    labels: map<string, string>,
    usernames: seq<string>,
    systemInfo: Option<SystemInfo>,
    capabilityDocument: Option<CapabilityDocument>,
    documentHashes: Option<Summary>)

  datatype Response = Response(
    saysUnchanged: bool,
    releaseRef: string,
    digest: string,
    artifact: string,
    executionLeases: nat,
    acceptedHashes: Option<Summary>,
    requestedDocuments: seq<DocName>)

  /** Canonical bodies and the digest over them. Each canonicaliser may fail. */
  datatype Codec = Codec(
    capability: CapabilityDocument -> Option<string>,
    delivery: (string, string) -> Option<string>,
    targeting: (map<string, string>, seq<string>) -> Option<string>,
    systemInfo: string -> Option<string>,
    digest: (DocName, string) -> string)

  /** The one fact about the digest that the protocol needs. */
  ghost predicate Sound(codec: Codec) {
    forall n, body :: HashSyntax(codec.digest(n, body))
  }

  /** The metadata the agent keeps under its state directory. */
  datatype State = State(endpointID: string, sentDigest: string, accepted: HashMap)

  /** Agent memory together with its state file; `disk` is None when the agent
      runs without a state directory. */
  datatype AgentState = AgentState(
    lastArtifact: string,
    lastDigest: string,
    lastReleaseRef: string,
    accepted: HashMap,
    pendingInfo: Option<SystemInfo>,
    pendingInventory: string,
    throttle: string,
    disk: Option<State>)

  /** Everything one exchange takes from outside the agent. */
  datatype Inputs = Inputs(
    prepared: Option<(string, SystemInfo)>,       // change digest and report, when a report is due
    labels: map<string, string>,
    usernames: seq<string>,
    facts: Option<(string, string)>,              // distro and architecture, when readable
    capability: Option<CapabilityDocument>,
    reply: Option<Response>,                      // None when the call to the server fails
    acceptIO: (bool, bool),                       // load and save succeed in acceptDocumentHashes
    sentIO: (bool, bool),                         // load and save succeed in persistSystemInfoSent
    pipelineOk: bool)

  datatype AcceptError =
    InvalidSummary | Unsubmitted | TooMany | InvalidRequested | LoadFailed | SaveFailed

  // ---------------------------------------------------------------- requests

  function EffectiveLabels(labels: map<string, string>, facts: Option<(string, string)>): Option<map<string, string>> {
    if labels != map[] then Some(labels)
    else if facts.Some? then Some(map["distro" := facts.value.0, "arch" := facts.value.1])
    else None
  }

  function HashOf(codec: Codec, n: DocName, body: Option<string>): Option<string> {
    if body.None? then None else Some(codec.digest(n, body.value))
  }

  /** The hash that a report on system information, if any, is advertised under. */
  function AdvertisedInfo(codec: Codec, accepted: HashMap, info: Option<SystemInfo>): Option<HashMap> {
    if info.Some? then
      var h := HashOf(codec, SystemInformation, codec.systemInfo(info.value.report));
      if h.None? then None else Some(map[SystemInformation := h.value])
    else if Lookup(accepted, SystemInformation) != "" then
      Some(map[SystemInformation := accepted[SystemInformation]])
    else
      Some(map[])
  }

  /** The request of one exchange, or None when a document cannot be prepared. */
  function Attach(codec: Codec, accepted: HashMap, r: Request, capability: CapabilityDocument,
                  facts: Option<(string, string)>): Option<Request> {
    var labels := EffectiveLabels(r.labels, facts);
    var c := HashOf(codec, Capability, codec.capability(capability));
    var d := HashOf(codec, Delivery, codec.delivery(r.lastReleaseRef, r.lastDigest));
    if labels.None? || c.None? || d.None? then None else
    var t := HashOf(codec, Targeting, codec.targeting(labels.value, r.usernames));
    var info := AdvertisedInfo(codec, accepted, r.systemInfo);
    if t.None? || info.None? then None else
    var hashes := map[Capability := c.value, Delivery := d.value, Targeting := t.value] + info.value;
    var knowsTargeting := Lookup(accepted, Targeting) == t.value;
    var knowsInfo := SystemInformation in hashes && Lookup(accepted, SystemInformation) == hashes[SystemInformation];
    Some(r.(labels := if knowsTargeting then map[] else labels.value,
            usernames := if knowsTargeting then [] else r.usernames,
            systemInfo := if knowsInfo then None else r.systemInfo,
            capabilityDocument := if Lookup(accepted, Capability) == c.value then r.capabilityDocument else Some(capability),
            documentHashes := Some(Summary(CURRENT_VERSION, hashes))))
  }

  /** The request carries the body of document `n`, and that body has hash `h`. */
  ghost predicate Carries(codec: Codec, r: Request, n: DocName, h: string) {
    match n
    case Capability =>
      r.capabilityDocument.Some? && HashOf(codec, n, codec.capability(r.capabilityDocument.value)) == Some(h)
    case SystemInformation =>
      r.systemInfo.Some? && HashOf(codec, n, codec.systemInfo(r.systemInfo.value.report)) == Some(h)
    case Delivery =>
      HashOf(codec, n, codec.delivery(r.lastReleaseRef, r.lastDigest)) == Some(h)
    case Targeting =>
      r.labels != map[] && HashOf(codec, n, codec.targeting(r.labels, r.usernames)) == Some(h)
    case Other(_) => false
  }

  /** The request names document `n` by hash `h` and leaves its body out. */
  ghost predicate Withholds(codec: Codec, r: Request, n: DocName, h: string) {
    r.documentHashes.Some? && n in r.documentHashes.value.documents &&
    r.documentHashes.value.documents[n] == h && !Carries(codec, r, n, h)
  }

  /** The hashes a prepared request names: those of its documents, which are well formed,
      and perhaps one taken over from the accepted map. */
  lemma AttachedHashes(codec: Codec, accepted: HashMap, r: Request, capability: CapabilityDocument,
                       facts: Option<(string, string)>)
    requires Sound(codec) && Attach(codec, accepted, r, capability, facts).Some?
    ensures var hashes := Attach(codec, accepted, r, capability, facts).value.documentHashes.value.documents;
            && Capability in hashes && Targeting in hashes
            && HashOf(codec, Capability, codec.capability(capability)) == Some(hashes[Capability])
            && HashOf(codec, Targeting, codec.targeting(EffectiveLabels(r.labels, facts).value, r.usernames))
               == Some(hashes[Targeting])
            && (forall n :: n in hashes ==> Known(n) && hashes[n] != "")
            && (ValidEntries(accepted) ==> ValidEntries(hashes))
  {
    var hashes := Attach(codec, accepted, r, capability, facts).value.documentHashes.value.documents;
    forall n | n in hashes
      ensures Known(n) && (HashSyntax(hashes[n]) || (n in accepted && accepted[n] == hashes[n] != ""))
    {
      if n == SystemInformation && r.systemInfo.Some? {
        assert HashSyntax(codec.digest(n, codec.systemInfo(r.systemInfo.value.report).value));
      }
    }
  }

  /** A prepared request withholds exactly the bodies whose hash the agent has
      recorded as acknowledged; every other body it names is in the request. The
      delivery document is always there: it is the release reference and digest. */
  lemma WithheldExactlyWhenAcknowledged(codec: Codec, accepted: HashMap, r: Request, capability: CapabilityDocument,
                                        facts: Option<(string, string)>, n: DocName)
    requires Sound(codec)
    requires r.capabilityDocument.None?
    requires var q := Attach(codec, accepted, r, capability, facts);
             q.Some? && n in q.value.documentHashes.value.documents
    ensures var q := Attach(codec, accepted, r, capability, facts).value;
            var h := q.documentHashes.value.documents[n];
            Withholds(codec, q, n, h) <==> n != Delivery && Lookup(accepted, n) == h
  {
    var q := Attach(codec, accepted, r, capability, facts).value;
    var h := q.documentHashes.value.documents[n];
    if n == Targeting {
      var labels := EffectiveLabels(r.labels, facts).value;
      assert r.labels == map[] ==> "distro" in labels;
      assert HashSyntax(codec.digest(n, codec.targeting(labels, r.usernames).value));
    } else if n == SystemInformation {
      assert r.systemInfo.Some? ==> HashSyntax(codec.digest(n, codec.systemInfo(r.systemInfo.value.report).value));
    } else if n == Capability {
      assert HashSyntax(codec.digest(n, codec.capability(capability).value));
    }
  }

  // -------------------------------------------------------- acknowledgements

  function Acks(resp: Response): HashMap {
    if resp.acceptedHashes.Some? then resp.acceptedHashes.value.documents else map[]
  }

  predicate Names(req: Request, n: DocName, h: string) {
    req.documentHashes.Some? && Lookup(req.documentHashes.value.documents, n) == h
  }

  ghost predicate AcksSubmitted(req: Request, acks: HashMap) {
    forall n :: n in acks ==> Names(req, n, acks[n])
  }

  ghost predicate ValidRequested(names: seq<DocName>) {
    Distinct(names) && forall n :: n in names ==> Known(n)
  }

  /** The old map overridden by the acknowledgements, without what was asked for. */
  function NextAccepted(accepted: HashMap, resp: Response): HashMap {
    (accepted + Acks(resp)) - (set n | n in resp.requestedDocuments)
  }

  /** The acknowledgements alter the map, or something asked for is in it. */
  ghost predicate Changed(accepted: HashMap, resp: Response) {
    var overridden := accepted + Acks(resp);
    overridden != accepted || exists n :: n in resp.requestedDocuments && n in overridden
  }

  /** What is wrong with a response that answers this request. */
  ghost function Refusal(req: Request, resp: Response): Option<AcceptError> {
    if resp.acceptedHashes.Some? && !ValidSummary(resp.acceptedHashes.value) then Some(InvalidSummary)
    else if !AcksSubmitted(req, Acks(resp)) then Some(Unsubmitted)
    else if |resp.requestedDocuments| > MAX_DOCUMENTS then Some(TooMany)
    else if !ValidRequested(resp.requestedDocuments) then Some(InvalidRequested)
    else None
  }

  ghost function AcceptOutcome(s: AgentState, req: Request, resp: Response, io: (bool, bool)): Option<AcceptError> {
    if Refusal(req, resp).Some? then Refusal(req, resp)
    else if !Changed(s.accepted, resp) then None
    else StoreOutcome(s.disk, io)
  }

  function StoreOutcome(disk: Option<State>, io: (bool, bool)): Option<AcceptError> {
    if disk.None? then None
    else if !io.0 then Some(LoadFailed)
    else if !io.1 || disk.value.endpointID == "" then Some(SaveFailed)
    else None
  }

  function StoredIn(s: AgentState, next: HashMap, io: (bool, bool)): AgentState {
    if StoreOutcome(s.disk, io).Some? then s
    else s.(accepted := next, disk := if s.disk.None? then None else Some(s.disk.value.(accepted := next)))
  }

  ghost function Accept(s: AgentState, req: Request, resp: Response, io: (bool, bool)): AgentState {
    if Refusal(req, resp).Some? || !Changed(s.accepted, resp) then s
    else StoredIn(s, NextAccepted(s.accepted, resp), io)
  }

  lemma AcceptBySteps(s: AgentState, req: Request, resp: Response, io: (bool, bool), changed: bool, next: HashMap)
    ensures Refusal(req, resp).Some? ==> AcceptOutcome(s, req, resp, io) == Refusal(req, resp) && Accept(s, req, resp, io) == s
    ensures Refusal(req, resp).None? && (changed <==> Changed(s.accepted, resp)) && next == NextAccepted(s.accepted, resp) ==>
              && AcceptOutcome(s, req, resp, io) == (if changed then StoreOutcome(s.disk, io) else None)
              && Accept(s, req, resp, io) == if changed then StoredIn(s, next, io) else s
  {
  }

  /** When nothing was written or deleted the next map is the old one, so not
      storing it loses nothing from memory. */
  lemma UnchangedNext(accepted: HashMap, resp: Response)
    requires !Changed(accepted, resp)
    ensures NextAccepted(accepted, resp) == accepted
  {
    assert accepted - (set n | n in resp.requestedDocuments) == accepted;
  }

  /** Processing is atomic: success is the next map whatever the order in which
      the acknowledgements are visited, an error leaves everything as it was. */
  lemma AcceptIsAtomic(s: AgentState, req: Request, resp: Response, io: (bool, bool))
    ensures AcceptOutcome(s, req, resp, io).Some? ==> Accept(s, req, resp, io) == s
    ensures AcceptOutcome(s, req, resp, io).None? ==>
              Accept(s, req, resp, io).accepted == NextAccepted(s.accepted, resp)
  {
    if AcceptOutcome(s, req, resp, io).None? && !Changed(s.accepted, resp) {
      UnchangedNext(s.accepted, resp);
    }
  }

  /** `next` is the accepted map overridden by the acknowledgements visited so far. */
  ghost predicate PartlyOverridden(accepted: HashMap, acks: HashMap, remaining: set<DocName>, next: HashMap) {
    && next.Keys == accepted.Keys + (acks.Keys - remaining)
    && forall n :: n in next ==> next[n] == if n in acks && n !in remaining then acks[n] else accepted[n]
  }

  lemma OverrideStep(accepted: HashMap, acks: HashMap, remaining: set<DocName>, n: DocName, next: HashMap)
    requires n in remaining && remaining <= acks.Keys && acks[n] != ""
    requires PartlyOverridden(accepted, acks, remaining, next)
    ensures PartlyOverridden(accepted, acks, remaining - {n}, next[n := acks[n]])
    ensures Lookup(next, n) == acks[n] ==> next == next[n := acks[n]]
    ensures Lookup(next, n) != acks[n] ==> next[n := acks[n]] != accepted
  {
    assert Lookup(next, n) == Lookup(accepted, n);
    if Lookup(next, n) != acks[n] {
      assert Lookup(next[n := acks[n]], n) != Lookup(accepted, n);
    }
  }

  function Acknowledged(accepted: HashMap, req: Request, n: DocName): bool {
    req.documentHashes.Some? && Lookup(accepted, n) == Lookup(req.documentHashes.value.documents, n)
  }

  // ------------------------------------------------------------ applied state

  /** The server may skip the artifact: see internal/agent/sync/unchanged.go. */
  predicate Unchanged(lastDigest: string, digest: string, lastRef: string, ref: string) {
    lastDigest == digest && (ref == "" || (lastRef != "" && lastRef == ref))
  }

  function Apply(s: AgentState, artifact: string, digest: string, ref: string, pipelineOk: bool): AgentState {
    if artifact == "" || !pipelineOk then s
    else s.(lastArtifact := artifact,
            lastDigest := if digest != "" then digest else s.lastDigest,
            lastReleaseRef := if ref != "" then ref else s.lastReleaseRef)
  }

  predicate RetriesLease(s: AgentState, resp: Response) {
    && resp.artifact == "" && resp.executionLeases > 0 && s.lastArtifact != "" && resp.saysUnchanged
    && Unchanged(s.lastDigest, resp.digest, s.lastReleaseRef, resp.releaseRef)
  }

  function ApplyResponse(s: AgentState, resp: Response, pipelineOk: bool): AgentState {
    if resp.artifact != "" then Apply(s, resp.artifact, resp.digest, resp.releaseRef, pipelineOk)
    else if RetriesLease(s, resp) then Apply(s, s.lastArtifact, resp.digest, resp.releaseRef, pipelineOk)
    else s
  }

  /** The artifact that a response makes the pipeline run on. */
  function PipelineInput(s: AgentState, resp: Response): Option<string> {
    if resp.artifact != "" then Some(resp.artifact)
    else if RetriesLease(s, resp) then Some(s.lastArtifact)
    else None
  }

  // ------------------------------------------------------------ one exchange

  function Prepare(s: AgentState, prepared: Option<(string, SystemInfo)>): AgentState {
    if prepared.None? then s
    else s.(pendingInfo := Some(prepared.value.1), pendingInventory := prepared.value.0)
  }

  function BaseRequest(s: AgentState, i: Inputs): Request {
    Request(s.lastDigest, s.lastReleaseRef, i.labels, i.usernames, s.pendingInfo, None, None)
  }

  function PersistSent(s: AgentState, sent: Request, io: (bool, bool)): AgentState {
    if sent.systemInfo.None? then s else
    var change := if s.pendingInventory == "" then sent.systemInfo.value.digest else s.pendingInventory;
    var disk := if s.disk.Some? && io.0 && io.1 && s.disk.value.endpointID != ""
                then Some(s.disk.value.(sentDigest := change)) else s.disk;
    s.(throttle := change, pendingInventory := "", disk := disk)
  }

  /** After a processed response: record a sent report, clear it from what is
      pending once the server has acknowledged it. */
  function SettleInfo(s: AgentState, req: Request, io: (bool, bool)): AgentState {
    if req.systemInfo.Some? && Acknowledged(s.accepted, req, SystemInformation)
    then PersistSent(s, req, io).(pendingInfo := None)
    else s
  }

  /** What an exchange did, for the record of a run. */
  datatype Record =
    | Exchanged(sent: Option<Request>, processed: Option<Response>, pipelineOk: bool)
    | Restarted

  ghost function Exchange(codec: Codec, s: AgentState, i: Inputs): (AgentState, Record) {
    var s1 := Prepare(s, i.prepared);
    if i.capability.None? then (s1, Exchanged(None, None, false)) else
    var req := Attach(codec, s1.accepted, BaseRequest(s1, i), i.capability.value, i.facts);
    if req.None? then (s1, Exchanged(None, None, false)) else
    if i.reply.None? || AcceptOutcome(s1, req.value, i.reply.value, i.acceptIO).Some?
    then (s1, Exchanged(req, None, false)) else
    var s2 := Accept(s1, req.value, i.reply.value, i.acceptIO);
    var s3 := SettleInfo(s2, req.value, i.sentIO);
    (ApplyResponse(s3, i.reply.value, i.pipelineOk), Exchanged(req, i.reply, i.pipelineOk))
  }

  /** The entries a restart takes over from the state file. */
  ghost function Loadable(disk: Option<State>): HashMap {
    if disk.Some? && disk.value.accepted != map[] && ValidSummary(Summary(CURRENT_VERSION, disk.value.accepted))
    then disk.value.accepted else map[]
  }

  /** Memory starts afresh; the accepted map comes from the state file when the
      file can be read and validates. */
  ghost function Restart(disk: Option<State>, loadOk: bool): AgentState {
    AgentState("", "", "",
      if loadOk then Loadable(disk) else map[],
      None, "", if loadOk && disk.Some? then disk.value.sentDigest else "", disk)
  }

  // --------------------------------------------------------------- the agent

  class StateFile {
    var state: State

    constructor (state: State)
      ensures this.state == state
    {
      this.state := state;
    }

    method LoadState(ioOk: bool) returns (r: Option<State>)
      ensures r == if ioOk then Some(state) else None
    {
      if !ioOk {
        return None;
      }
      return Some(state);
    }

    /** All or nothing. */
    method SaveState(st: State, ioOk: bool) returns (ok: bool)
      modifies this
      ensures ok == (ioOk && st.endpointID != "")
      ensures state == if ok then st else old(state)
    {
      if st.endpointID == "" || !ioOk {
        return false;
      }
      state := st;
      return true;
    }
  }

  class SyncRunState {
    const codec: Codec
    const file: StateFile?
    var lastDigest: string
    var lastReleaseRef: string
    var lastArtifact: string
    var acceptedDocumentHashes: HashMap
    var pendingSystemInfo: Option<SystemInfo>
    var pendingInventoryDigest: string
    var throttleDigest: string

    ghost function Value(): AgentState
      reads this, file
    {
      AgentState(lastArtifact, lastDigest, lastReleaseRef, acceptedDocumentHashes, pendingSystemInfo,
                 pendingInventoryDigest, throttleDigest, if file == null then None else Some(file.state))
    }

    constructor (codec: Codec, file: StateFile?, loadOk: bool)
      ensures this.codec == codec && this.file == file
      ensures Value() == Restart(if file == null then None else Some(file.state), loadOk)
    {
      this.codec := codec;
      this.file := file;
      lastDigest, lastReleaseRef, lastArtifact := "", "", "";
      pendingSystemInfo, pendingInventoryDigest := None, "";
      throttleDigest := "";
      acceptedDocumentHashes := map[];
      new;
      if file != null {
        var st := file.LoadState(loadOk);
        if st.Some? {
          throttleDigest := st.value.sentDigest;
          var ok := Validate(Summary(CURRENT_VERSION, st.value.accepted));
          if |st.value.accepted| > 0 && ok {
            acceptedDocumentHashes := st.value.accepted;
          }
        }
      }
    }

    method AttachRepeatableDocuments(request: Request, capability: CapabilityDocument, facts: Option<(string, string)>)
      returns (r: Option<Request>)
      requires Sound(codec)
      ensures r == Attach(codec, acceptedDocumentHashes, request, capability, facts)
    {
      var request := request;
      var canonicalCapability := codec.capability(capability);
      if canonicalCapability.None? {
        return None;
      }
      var capabilityHash := codec.digest(Capability, canonicalCapability.value);
      var deliveryDocument := codec.delivery(request.lastReleaseRef, request.lastDigest);
      if deliveryDocument.None? {
        return None;
      }
      var deliveryHash := codec.digest(Delivery, deliveryDocument.value);
      if request.labels == map[] {
        if facts.None? {
          return None;
        }
        request := request.(labels := map["distro" := facts.value.0, "arch" := facts.value.1]);
      }
      var targetingDocument := codec.targeting(request.labels, request.usernames);
      if targetingDocument.None? {
        return None;
      }
      var targetingHash := codec.digest(Targeting, targetingDocument.value);
      var hashes := map[Capability := capabilityHash, Delivery := deliveryHash, Targeting := targetingHash];
      ghost var three := hashes;
      if Lookup(acceptedDocumentHashes, Capability) != capabilityHash {
        request := request.(capabilityDocument := Some(capability));
      }
      if request.systemInfo.Some? {
        var canonicalSystemInfo := codec.systemInfo(request.systemInfo.value.report);
        if canonicalSystemInfo.None? {
          return None;
        }
        var systemInfoHash := codec.digest(SystemInformation, canonicalSystemInfo.value);
        hashes := hashes[SystemInformation := systemInfoHash];
        assert hashes == three + map[SystemInformation := systemInfoHash];
        if Lookup(acceptedDocumentHashes, SystemInformation) == systemInfoHash {
          request := request.(systemInfo := None);
        }
      } else if Lookup(acceptedDocumentHashes, SystemInformation) != "" {
        hashes := hashes[SystemInformation := acceptedDocumentHashes[SystemInformation]];
        assert hashes == three + map[SystemInformation := acceptedDocumentHashes[SystemInformation]];
      } else {
        assert hashes == three + map[];
      }
      if Lookup(acceptedDocumentHashes, Targeting) == targetingHash {
        request := request.(labels := map[], usernames := []);
      }
      request := request.(documentHashes := Some(Summary(CURRENT_VERSION, hashes)));
      return Some(request);
    }

    /** Overrides entries with the acknowledgements, visited in an arbitrary order. */
    static method Override(request: Request, accepted: HashMap, acks: HashMap)
      returns (next: HashMap, changed: bool, ok: bool)
      requires forall n :: n in acks ==> acks[n] != ""
      ensures ok <==> AcksSubmitted(request, acks)
      ensures ok ==> next == accepted + acks
      ensures ok ==> (changed <==> next != accepted)
    {
      next, changed := accepted, false;
      var remaining := acks.Keys;
      while remaining != {}
        invariant remaining <= acks.Keys
        invariant forall n :: n in acks && n !in remaining ==> Names(request, n, acks[n])
        invariant PartlyOverridden(accepted, acks, remaining, next)
        invariant changed <==> next != accepted
        decreases |remaining|
      {
        var n :| n in remaining;
        if !Names(request, n, acks[n]) {
          return next, changed, false;
        }
        OverrideStep(accepted, acks, remaining, n, next);
        if Lookup(next, n) != acks[n] {
          next := next[n := acks[n]];
          changed := true;
        }
        remaining := remaining - {n};
      }
      return next, changed, true;
    }

    /** Deletes what was asked for; fails on an unknown or repeated name. */
    static method DropRequested(start: HashMap, names: seq<DocName>) returns (next: HashMap, dropped: bool, ok: bool)
      ensures ok <==> ValidRequested(names)
      ensures ok ==> next == start - (set n | n in names)
      ensures ok ==> (dropped <==> exists n :: n in names && n in start)
    {
      next, dropped := start, false;
      var requested: set<DocName> := {};
      for k := 0 to |names|
        invariant requested == set n | n in names[..k]
        invariant ValidRequested(names[..k])
        invariant next == start - requested
        invariant dropped <==> exists n :: n in requested && n in start
      {
        var name := names[k];
        assert names[..k + 1] == names[..k] + [name];
        if !Known(name) || name in requested {
          assert !ValidRequested(names) by {
            assert name in names;
            if name in requested {
              var j :| 0 <= j < k && names[..k][j] == name;
              assert names[j] == names[k];
            }
          }
          return next, dropped, false;
        }
        requested := requested + {name};
        if name in next {
          next := next - {name};
          dropped := true;
        }
      }
      assert names[..|names|] == names;
      return next, dropped, true;
    }

    static method AcknowledgementsValid(response: Response) returns (ok: bool)
      ensures ok <==> (response.acceptedHashes.Some? ==> ValidSummary(response.acceptedHashes.value))
      ensures ok ==> forall n :: n in Acks(response) ==> Acks(response)[n] != ""
    {
      if response.acceptedHashes.None? {
        return true;
      }
      ok := Validate(response.acceptedHashes.value);
      assert ok ==> forall n :: n in Acks(response) ==> HashSyntax(Acks(response)[n]);
    }

    /** The result does not depend on the order in which the maps are visited. */
    method AcceptDocumentHashes(request: Request, response: Response, io: (bool, bool)) returns (err: Option<AcceptError>)
      modifies this`acceptedDocumentHashes, file
      ensures err == AcceptOutcome(old(Value()), request, response, io)
      ensures Value() == Accept(old(Value()), request, response, io)
    {
      ghost var s := Value();
      var next, changed;
      next, changed, err := NextMap(acceptedDocumentHashes, request, response);
      AcceptBySteps(s, request, response, io, changed, next);
      if err.Some? || !changed {
        assert Value() == s;
        return;
      }
      err := Store(next, io);
      assert Value() == StoredIn(s, next, io);
    }

    static method NextMap(accepted: HashMap, request: Request, response: Response)
      returns (next: HashMap, changed: bool, err: Option<AcceptError>)
      ensures err == Refusal(request, response)
      ensures err.None? ==> next == NextAccepted(accepted, response)
      ensures err.None? ==> (changed <==> Changed(accepted, response))
    {
      next, changed := accepted, false;
      var wellFormed := AcknowledgementsValid(response);
      if !wellFormed {
        return next, changed, Some(InvalidSummary);
      }
      var submitted;
      next, changed, submitted := Override(request, accepted, Acks(response));
      if !submitted {
        return next, changed, Some(Unsubmitted);
      }
      if |response.requestedDocuments| > MAX_DOCUMENTS {
        return next, changed, Some(TooMany);
      }
      var dropped, valid;
      next, dropped, valid := DropRequested(next, response.requestedDocuments);
      if !valid {
        return next, changed, Some(InvalidRequested);
      }
      changed := changed || dropped;
      return next, changed, None;
    }

    /** Writes the next map to the state file, when there is one, and only then
        to memory. */
    method Store(next: HashMap, io: (bool, bool)) returns (err: Option<AcceptError>)
      modifies this`acceptedDocumentHashes, file
      ensures err == StoreOutcome(old(Value()).disk, io)
      ensures Value() == StoredIn(old(Value()), next, io)
    {
      if file != null {
        var state := file.LoadState(io.0);
        if state.None? {
          return Some(LoadFailed);
        }
        var saved := file.SaveState(state.value.(accepted := next), io.1);
        if !saved {
          return Some(SaveFailed);
        }
      }
      acceptedDocumentHashes := next;
      return None;
    }

    method PersistSystemInfoSent(sent: Request, io: (bool, bool))
      modifies this, file
      ensures Value() == PersistSent(old(Value()), sent, io)
    {
      if sent.systemInfo.None? {
        return;
      }
      var changeDigest := pendingInventoryDigest;
      if changeDigest == "" {
        changeDigest := sent.systemInfo.value.digest;
      }
      throttleDigest := changeDigest;
      pendingInventoryDigest := "";
      if file == null {
        return;
      }
      var st := file.LoadState(io.0);
      if st.None? {
        return;
      }
      var _ := file.SaveState(st.value.(sentDigest := changeDigest), io.1);
    }

    method ApplyConfig(artifact: string, digest: string, releaseRef: string, pipelineOk: bool)
      modifies this`lastArtifact, this`lastDigest, this`lastReleaseRef
      ensures Value() == Apply(old(Value()), artifact, digest, releaseRef, pipelineOk)
    {
      if artifact == "" {
        return;
      }
      if !pipelineOk {
        return;
      }
      lastArtifact := artifact;
      if digest != "" {
        lastDigest := digest;
      }
      if releaseRef != "" {
        lastReleaseRef := releaseRef;
      }
    }

    method Settle(req: Request, io: (bool, bool))
      modifies this, file
      ensures Value() == SettleInfo(old(Value()), req, io)
    {
      var acknowledged := Acknowledged(acceptedDocumentHashes, req, SystemInformation);
      if req.systemInfo.Some? && acknowledged {
        PersistSystemInfoSent(req, io);
      }
      var clearable := req;
      if !acknowledged {
        clearable := clearable.(systemInfo := None);
      }
      if clearable.systemInfo.Some? {
        pendingSystemInfo := None;
      }
    }

    method ApplyOrRetry(resp: Response, pipelineOk: bool) returns (ran: Option<string>)
      modifies this`lastArtifact, this`lastDigest, this`lastReleaseRef
      ensures Value() == ApplyResponse(old(Value()), resp, pipelineOk)
      ensures ran == PipelineInput(old(Value()), resp)
    {
      ran := None;
      if resp.artifact != "" {
        ran := Some(resp.artifact);
        ApplyConfig(resp.artifact, resp.digest, resp.releaseRef, pipelineOk);
      } else if resp.executionLeases > 0 && lastArtifact != "" && resp.saysUnchanged
                && Unchanged(lastDigest, resp.digest, lastReleaseRef, resp.releaseRef) {
        ran := Some(lastArtifact);
        ApplyConfig(lastArtifact, resp.digest, resp.releaseRef, pipelineOk);
      }
    }

    method RunOnce(i: Inputs) returns (ghost record: Record, ok: bool)
      requires Sound(codec)
      modifies this, file
      ensures (Value(), record) == Exchange(codec, old(Value()), i)
      ensures ok == record.processed.Some?
    {
      if i.prepared.Some? {
        pendingSystemInfo := Some(i.prepared.value.1);
        pendingInventoryDigest := i.prepared.value.0;
      }
      var base := Request(lastDigest, lastReleaseRef, i.labels, i.usernames, pendingSystemInfo, None, None);
      if i.capability.None? {
        return Exchanged(None, None, false), false;
      }
      var attached := AttachRepeatableDocuments(base, i.capability.value, i.facts);
      if attached.None? {
        return Exchanged(None, None, false), false;
      }
      var req := attached.value;
      if i.reply.None? {
        return Exchanged(attached, None, false), false;
      }
      var resp := i.reply.value;
      var err := AcceptDocumentHashes(req, resp, i.acceptIO);
      if err.Some? {
        return Exchanged(attached, None, false), false;
      }
      Settle(req, i.sentIO);
      var _ := ApplyOrRetry(resp, i.pipelineOk);
      return Exchanged(attached, i.reply, i.pipelineOk), true;
    }
  }
}
