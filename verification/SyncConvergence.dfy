/** Convergence of the repeatable-document protocol against an honest server: one
    that stores the bodies it receives, acknowledges a submitted hash exactly when
    it holds it, and otherwise asks for the document. */
module SyncConvergence {
  import opened Common
  import opened DocumentHash
  import opened SyncRun
  import opened SyncHistory
  import opened SyncRequest

  /** The bodies the server holds, by their hashes. */
  type Store = HashMap

  function Submitted(req: Request): HashMap {
    if req.documentHashes.Some? then req.documentHashes.value.documents else map[]
  }

  /** The store after the server kept every body the request carried. */
  ghost function Stored(codec: Codec, store: Store, req: Request): Store {
    store + map n | n in Submitted(req) && Carries(codec, req, n, Submitted(req)[n]) :: Submitted(req)[n]
  }

  ghost predicate Holds(store: Store, n: DocName, h: string) {
    n in store && store[n] == h
  }

  ghost predicate HonestReply(store: Store, req: Request, resp: Response) {
    && (forall n :: n in Acks(resp) <==> n in Submitted(req) && Holds(store, n, Submitted(req)[n]))
    && (forall n :: n in Acks(resp) ==> Acks(resp)[n] == Submitted(req)[n])
    && (forall n :: n in resp.requestedDocuments <==>
          n in Submitted(req) && !Holds(store, n, Submitted(req)[n]))
    && Distinct(resp.requestedDocuments)
    && (resp.acceptedHashes.Some? <==> Acks(resp) != map[])
    && (resp.acceptedHashes.Some? ==> resp.acceptedHashes.value.version == CURRENT_VERSION)
  }

  const NAMES := [Capability, SystemInformation, Delivery, Targeting]

  /** The submitted documents among `names` that the store does not hold. */
  ghost function Wanted(store: Store, req: Request, names: seq<DocName>): (w: seq<DocName>)
    requires Distinct(names)
    ensures Distinct(w)
    ensures forall n :: n in w <==> n in names && n in Submitted(req) && !Holds(store, n, Submitted(req)[n])
  {
    if names == [] then []
    else
      var n, front := names[|names| - 1], names[..|names| - 1];
      assert forall k :: k in names <==> k in front || k == n;
      Wanted(store, req, front) +
      if n in Submitted(req) && !Holds(store, n, Submitted(req)[n]) then [n] else []
  }

  /** An honest reply always exists: acknowledge what is held, ask for the rest. */
  lemma HonestReplyExists(store: Store, req: Request)
    requires ValidEntries(Submitted(req))
    ensures exists resp :: HonestReply(store, req, resp)
  {
    var acks := map n | n in Submitted(req) && Holds(store, n, Submitted(req)[n]) :: Submitted(req)[n];
    var summary := if acks == map[] then None else Some(Summary(CURRENT_VERSION, acks));
    var resp := Response(true, "", "", "", 0, summary, Wanted(store, req, NAMES));
    assert Acks(resp) == acks;
    forall n | n in Submitted(req) ensures n in NAMES {
      assert Known(n);
      assert NAMES[0] == Capability && NAMES[1] == SystemInformation && NAMES[2] == Delivery && NAMES[3] == Targeting;
    }
    assert HonestReply(store, req, resp);
  }

  /** The documents that stay the same over the run, by their hashes. */
  datatype Current = Current(capability: string, targeting: string)

  function HashIn(current: Current, n: DocName): string {
    if n == Capability then current.capability else current.targeting
  }

  /** The inputs present the current documents, and nothing fails. System
      information, delivery and the applied artifact may change freely. */
  ghost predicate Presents(codec: Codec, current: Current, s: AgentState, i: Inputs) {
    var labels := EffectiveLabels(i.labels, i.facts);
    && i.capability.Some? && HashOf(codec, Capability, codec.capability(i.capability.value)) == Some(current.capability)
    && labels.Some? && HashOf(codec, Targeting, codec.targeting(labels.value, i.usernames)) == Some(current.targeting)
    && Sending(codec, s, i).Some?
    && i.acceptIO == (true, true) && (s.disk.Some? ==> s.disk.value.endpointID != "")
  }

  datatype System = System(agent: AgentState, store: Store)

  /** The request that the agent sends on these inputs. */
  function Sending(codec: Codec, s: AgentState, i: Inputs): Option<Request> {
    if i.capability.None? then None
    else
      var s1 := Prepare(s, i.prepared);
      Attach(codec, s1.accepted, BaseRequest(s1, i), i.capability.value, i.facts)
  }

  lemma ExchangeSends(codec: Codec, s: AgentState, i: Inputs)
    ensures Exchange(codec, s, i).1.sent == Sending(codec, s, i)
  {
  }

  /** One exchange between the agent and the honest server. */
  ghost predicate HonestStep(codec: Codec, current: Current, a: System, i: Inputs, b: System) {
    && Presents(codec, current, a.agent, i)
    && b.store == Stored(codec, a.store, Sending(codec, a.agent, i).value)
    && i.reply.Some? && HonestReply(b.store, Sending(codec, a.agent, i).value, i.reply.value)
    && b.agent == Exchange(codec, a.agent, i).0
  }

  // ------------------------------------------------------------ one exchange

  lemma DistinctNamesAreFew(names: seq<DocName>)
    requires ValidRequested(names)
    ensures |names| <= 4
  {
    var all := set n | n in names;
    DistinctCardinality(names);
    var known := {Capability} + {SystemInformation} + {Delivery} + {Targeting};
    assert all <= known;
    SubsetCardinality(all, known);
  }

  /** The agent never rejects an honest reply. */
  lemma HonestReplyIsProcessed(s: AgentState, req: Request, resp: Response, store: Store, io: (bool, bool))
    requires ValidEntries(Submitted(req)) && HonestReply(store, req, resp)
    requires io == (true, true) && (s.disk.Some? ==> s.disk.value.endpointID != "")
    ensures AcceptOutcome(s, req, resp, io).None?
  {
    forall n | n in Acks(resp)
      ensures Names(req, n, Acks(resp)[n]) && Known(n) && HashSyntax(Acks(resp)[n])
    {
      var h := Acks(resp)[n];
      assert n in Submitted(req) && Submitted(req)[n] == h;
    }
    ValidEntriesAreFew(Acks(resp));
    assert resp.acceptedHashes.Some? ==> ValidSummary(resp.acceptedHashes.value);
    assert ValidRequested(resp.requestedDocuments);
    DistinctNamesAreFew(resp.requestedDocuments);
  }

  /** Settled: the agent has recorded the current hash and the server holds it. */
  ghost predicate Settled(current: Current, a: System, n: DocName) {
    var h := HashIn(current, n);
    Lookup(a.agent.accepted, n) == h && Holds(a.store, n, h)
  }

  ghost predicate Stable(n: DocName) {
    n == Capability || n == Targeting
  }

  /** The request names both current hashes, and carries a body exactly when the
      agent has not recorded its hash. */
  lemma RequestPresentsCurrent(codec: Codec, current: Current, s: AgentState, i: Inputs, n: DocName)
    requires Sound(codec) && Presents(codec, current, s, i) && Stable(n)
    ensures var req := Sending(codec, s, i).value;
            var h := HashIn(current, n);
            && h != "" && n in Submitted(req) && Submitted(req)[n] == h
            && (Carries(codec, req, n, h) <==> Lookup(s.accepted, n) != h)
  {
    var s1 := Prepare(s, i.prepared);
    AttachedHashes(codec, s1.accepted, BaseRequest(s1, i), i.capability.value, i.facts);
    WithheldExactlyWhenAcknowledged(codec, s1.accepted, BaseRequest(s1, i), i.capability.value, i.facts, n);
  }

  lemma ExchangeProcesses(codec: Codec, s: AgentState, i: Inputs, req: Request)
    requires Sending(codec, s, i) == Some(req) && i.reply.Some?
    requires AcceptOutcome(Prepare(s, i.prepared), req, i.reply.value, i.acceptIO).None?
    ensures Exchange(codec, s, i).1 == Exchanged(Some(req), i.reply, i.pipelineOk)
  {
  }

  lemma SubmittedIsValid(codec: Codec, s: AgentState, i: Inputs)
    requires Sound(codec) && ValidEntries(s.accepted) && Sending(codec, s, i).Some?
    ensures ValidEntries(Submitted(Sending(codec, s, i).value))
  {
    var s1 := Prepare(s, i.prepared);
    AttachedHashes(codec, s1.accepted, BaseRequest(s1, i), i.capability.value, i.facts);
  }

  lemma HonestExchangeAccepts(codec: Codec, current: Current, a: System, i: Inputs, b: System)
    requires Sound(codec) && ValidEntries(a.agent.accepted) && HonestStep(codec, current, a, i, b)
    ensures b.agent.accepted == NextAccepted(a.agent.accepted, i.reply.value)
    ensures ValidEntries(b.agent.accepted)
  {
    var s1 := Prepare(a.agent, i.prepared);
    var req := Sending(codec, a.agent, i).value;
    SubmittedIsValid(codec, a.agent, i);
    HonestReplyIsProcessed(s1, req, i.reply.value, b.store, i.acceptIO);
    ExchangeProcesses(codec, a.agent, i, req);
    ExchangeAccepts(codec, a.agent, i);
    ProcessedAcksAreValid(codec, a.agent, i);
  }

  /** An exchange settles a document, or leaves the agent without an entry for it;
      from there, and from a settled start, it settles. */
  lemma ExchangeSettles(codec: Codec, current: Current, a: System, i: Inputs, b: System, n: DocName)
    requires Sound(codec) && ValidEntries(a.agent.accepted) && HonestStep(codec, current, a, i, b) && Stable(n)
    ensures ValidEntries(b.agent.accepted)
    ensures Settled(current, b, n) || n !in b.agent.accepted
    ensures n !in a.agent.accepted || Settled(current, a, n) ==> Settled(current, b, n)
  {
    RequestPresentsCurrent(codec, current, a.agent, i, n);
    HonestExchangeAccepts(codec, current, a, i, b);
    ReplySettles(codec, current, a, Sending(codec, a.agent, i).value, i.reply.value, b, n);
  }

  lemma ReplySettles(codec: Codec, current: Current, a: System, req: Request, resp: Response, b: System, n: DocName)
    requires var h := HashIn(current, n);
             && h != "" && n in Submitted(req) && Submitted(req)[n] == h
             && (Carries(codec, req, n, h) <==> Lookup(a.agent.accepted, n) != h)
    requires b.store == Stored(codec, a.store, req) && HonestReply(b.store, req, resp)
    requires b.agent.accepted == NextAccepted(a.agent.accepted, resp)
    ensures Settled(current, b, n) || n !in b.agent.accepted
    ensures n !in a.agent.accepted || Settled(current, a, n) ==> Settled(current, b, n)
  {
    var h := HashIn(current, n);
    if Holds(b.store, n, h) {
      assert n in Acks(resp) && Acks(resp)[n] == h;
      assert n !in resp.requestedDocuments;
    } else {
      assert n in resp.requestedDocuments;
    }
  }

  // --------------------------------------------------------------- whole runs

  /** `states` is a run of exchanges with the honest server on `inputs`. */
  ghost predicate HonestRun(codec: Codec, current: Current, states: seq<System>, inputs: seq<Inputs>) {
    && |states| == |inputs| + 1
    && forall k :: 0 <= k < |inputs| ==> HonestStep(codec, current, states[k], inputs[k], states[k + 1])
  }

  lemma SettlesInRun(codec: Codec, current: Current, states: seq<System>, inputs: seq<Inputs>, k: nat, n: DocName)
    requires Sound(codec) && HonestRun(codec, current, states, inputs) && k < |inputs| && Stable(n)
    ensures ValidEntries(states[k].agent.accepted) ==>
              && ValidEntries(states[k + 1].agent.accepted)
              && (Settled(current, states[k + 1], n) || n !in states[k + 1].agent.accepted)
              && (n !in states[k].agent.accepted || Settled(current, states[k], n) ==> Settled(current, states[k + 1], n))
  {
    if ValidEntries(states[k].agent.accepted) {
      assert HonestStep(codec, current, states[k], inputs[k], states[k + 1]);
      ExchangeSettles(codec, current, states[k], inputs[k], states[k + 1], n);
    }
  }

  lemma {:induction false} SettledAfterTwo(codec: Codec, current: Current, states: seq<System>, inputs: seq<Inputs>,
                                           k: nat, n: DocName)
    requires Sound(codec) && HonestRun(codec, current, states, inputs) && Stable(n)
    requires ValidEntries(states[0].agent.accepted) && k <= |inputs|
    ensures ValidEntries(states[k].agent.accepted)
    ensures k >= 1 ==> Settled(current, states[k], n) || n !in states[k].agent.accepted
    ensures k >= 2 ==> Settled(current, states[k], n)
  {
    if k > 0 {
      SettledAfterTwo(codec, current, states, inputs, k - 1, n);
      SettlesInRun(codec, current, states, inputs, k - 1, n);
    }
  }

  /** What the k-th exchange of a run sent. */
  ghost function SentIn(codec: Codec, states: seq<System>, inputs: seq<Inputs>, k: nat): Option<Request>
    requires k < |inputs| && k < |states|
  {
    Exchange(codec, states[k].agent, inputs[k]).1.sent
  }

  /** From any valid map of the agent and any server store, every exchange after the
      second leaves out both bodies, while the server holds exactly the current ones. */
  lemma BodiesOmittedAfterTwo(codec: Codec, current: Current, states: seq<System>, inputs: seq<Inputs>, k: nat)
    requires Sound(codec) && HonestRun(codec, current, states, inputs)
    requires ValidEntries(states[0].agent.accepted)
    requires 2 <= k < |inputs|
    ensures SentIn(codec, states, inputs, k).Some?
    ensures var sent := SentIn(codec, states, inputs, k).value;
            && sent.capabilityDocument.None? && sent.labels == map[] && sent.usernames == []
            && Holds(states[k].store, Capability, current.capability)
            && Holds(states[k].store, Targeting, current.targeting)
  {
    SettledAfterTwo(codec, current, states, inputs, k, Capability);
    SettledAfterTwo(codec, current, states, inputs, k, Targeting);
    assert HonestStep(codec, current, states[k], inputs[k], states[k + 1]);
    ExchangeSends(codec, states[k].agent, inputs[k]);
  }

  /** Two exchanges can be needed: an agent that trusts a hash the server has lost
      is told so by the first, and sends the body again in the second. */
  lemma LostBodyIsSentAgain(codec: Codec, current: Current, states: seq<System>, inputs: seq<Inputs>, n: DocName)
    requires Sound(codec) && HonestRun(codec, current, states, inputs) && Stable(n)
    requires ValidEntries(states[0].agent.accepted) && |inputs| >= 2
    requires Lookup(states[0].agent.accepted, n) == HashIn(current, n)
    requires !Holds(states[0].store, n, HashIn(current, n))
    ensures SentIn(codec, states, inputs, 0).Some? && SentIn(codec, states, inputs, 1).Some?
    ensures !Carries(codec, SentIn(codec, states, inputs, 0).value, n, HashIn(current, n))
    ensures Carries(codec, SentIn(codec, states, inputs, 1).value, n, HashIn(current, n))
  {
    var h := HashIn(current, n);
    assert HonestStep(codec, current, states[0], inputs[0], states[1]);
    assert HonestStep(codec, current, states[1], inputs[1], states[2]);
    RequestPresentsCurrent(codec, current, states[0].agent, inputs[0], n);
    RequestPresentsCurrent(codec, current, states[1].agent, inputs[1], n);
    ExchangeSettles(codec, current, states[0], inputs[0], states[1], n);
    assert !Holds(states[1].store, n, h);
    ExchangeSends(codec, states[0].agent, inputs[0]);
    ExchangeSends(codec, states[1].agent, inputs[1]);
  }

  // ------------------------------------------------------- system information

  /** In an exchange with no report pending, the agent keeps its entry for system
      information exactly when the honest server still holds that report. */
  lemma QuietExchangeChecksInventory(codec: Codec, current: Current, a: System, i: Inputs, b: System)
    requires Sound(codec) && ValidEntries(a.agent.accepted) && HonestStep(codec, current, a, i, b)
    requires Pending(a.agent, i).None? && SystemInformation in a.agent.accepted
    ensures SystemInformation in b.agent.accepted <==>
            Holds(a.store, SystemInformation, a.agent.accepted[SystemInformation])
    ensures SystemInformation in b.agent.accepted ==>
              b.agent.accepted[SystemInformation] == a.agent.accepted[SystemInformation]
  {
    var req, h := Sending(codec, a.agent, i).value, a.agent.accepted[SystemInformation];
    assert HashSyntax(h);
    ExchangeSends(codec, a.agent, i);
    InventoryIsNamed(codec, a.agent, i);
    HonestExchangeAccepts(codec, current, a, i, b);
    assert Submitted(req)[SystemInformation] == h;
    NoReportIsStored(codec, a, i, req, h);
    HonestlyKept(a.agent.accepted, b.store, req, i.reply.value, SystemInformation, h);
  }

  lemma NoReportIsStored(codec: Codec, a: System, i: Inputs, req: Request, h: string)
    requires Pending(a.agent, i).None? && Sending(codec, a.agent, i) == Some(req)
    ensures Holds(Stored(codec, a.store, req), SystemInformation, h) <==> Holds(a.store, SystemInformation, h)
  {
  }

  lemma HonestlyKept(accepted: HashMap, store: Store, req: Request, resp: Response, n: DocName, h: string)
    requires HonestReply(store, req, resp) && n in Submitted(req) && Submitted(req)[n] == h
    ensures n in NextAccepted(accepted, resp) <==> Holds(store, n, h)
    ensures n in NextAccepted(accepted, resp) ==> NextAccepted(accepted, resp)[n] == h
  {
  }

  /** So an inventory that the server has lost comes back: a quiet exchange drops the entry,
      and the next report is sent in full. */
  lemma LostInventoryIsSentAgain(codec: Codec, current: Current, states: seq<System>, inputs: seq<Inputs>)
    requires Sound(codec) && HonestRun(codec, current, states, inputs) && |inputs| >= 2
    requires ValidEntries(states[0].agent.accepted) && SystemInformation in states[0].agent.accepted
    requires !Holds(states[0].store, SystemInformation, states[0].agent.accepted[SystemInformation])
    requires Pending(states[0].agent, inputs[0]).None? && inputs[1].prepared.Some?
    ensures SentIn(codec, states, inputs, 1).Some?
    ensures SentIn(codec, states, inputs, 1).value.systemInfo == Some(inputs[1].prepared.value.1)
  {
    assert HonestStep(codec, current, states[0], inputs[0], states[1]);
    assert HonestStep(codec, current, states[1], inputs[1], states[2]);
    QuietExchangeChecksInventory(codec, current, states[0], inputs[0], states[1]);
    HonestExchangeAccepts(codec, current, states[0], inputs[0], states[1]);
    ReportIsSent(codec, states[1].agent, inputs[1]);
  }

  lemma ReportIsSent(codec: Codec, s: AgentState, i: Inputs)
    requires Sound(codec) && Sending(codec, s, i).Some? && SystemInformation !in s.accepted && i.prepared.Some?
    ensures Exchange(codec, s, i).1.sent.Some?
    ensures Exchange(codec, s, i).1.sent.value.systemInfo == Some(i.prepared.value.1)
  {
    ExchangeSends(codec, s, i);
    SentExactlyWhenPreparable(codec, s, i);
    SentRequestIsExact(codec, s, i);
    InventoryIsNamed(codec, s, i);
    assert HashSyntax(codec.digest(SystemInformation, codec.systemInfo(i.prepared.value.1.report).value));
  }
}
