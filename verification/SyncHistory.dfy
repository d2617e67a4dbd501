/** Whole runs of the agent: exchanges with an arbitrary server and restarts, in
    any order. What a request withholds is justified by the record of the run. */
module SyncHistory {
  import opened Common
  import opened DocumentHash
  import opened SyncRun

  datatype Event =
    | Sync(inputs: Inputs)
    | Reboot(loadOk: bool)

  type Log = seq<Record>

  ghost function Step(codec: Codec, s: AgentState, e: Event): (AgentState, Record) {
    match e
    case Sync(i) => Exchange(codec, s, i)
    case Reboot(ok) => (Restart(s.disk, ok), Restarted)
  }

  /** The state after a run, and the record of what it did. */
  ghost function Run(codec: Codec, s: AgentState, events: seq<Event>): (AgentState, Log) {
    if events == [] then (s, [])
    else
      var (before, log) := Run(codec, s, events[..|events| - 1]);
      var (after, record) := Step(codec, before, events[|events| - 1]);
      (after, log + [record])
  }

  // ------------------------------------------------------- justified entries

  ghost predicate SentAt(codec: Codec, r: Record, n: DocName, h: string) {
    r.Exchanged? && r.sent.Some? && Carries(codec, r.sent.value, n, h)
  }

  ghost predicate AckedAt(r: Record, n: DocName, h: string) {
    r.Exchanged? && r.processed.Some? && n in Acks(r.processed.value) && Acks(r.processed.value)[n] == h
  }

  predicate RequestedAt(r: Record, n: DocName) {
    r.Exchanged? && r.processed.Some? && n in r.processed.value.requestedDocuments
  }

  ghost predicate NotRequestedSince(log: Log, j: nat, n: DocName) {
    forall k :: j <= k < |log| ==> !RequestedAt(log[k], n)
  }

  /** A body with this hash was sent and, in the same exchange or later, the hash
      was acknowledged; or the entry was in the map the run started from. */
  ghost predicate Delivered(codec: Codec, log: Log, base: HashMap, n: DocName, h: string) {
    || (n in base && base[n] == h)
    || exists i, j :: 0 <= i <= j < |log| && SentAt(codec, log[i], n, h) && AckedAt(log[j], n, h)
  }

  /** Delivered, and no processed response has asked for the document since. */
  ghost predicate Justified(codec: Codec, log: Log, base: HashMap, n: DocName, h: string) {
    || (n in base && base[n] == h && NotRequestedSince(log, 0, n))
    || exists i, j :: 0 <= i <= j < |log| && SentAt(codec, log[i], n, h) && AckedAt(log[j], n, h)
                      && NotRequestedSince(log, j, n)
  }

  /** Memory and what a restart would load are the same map. */
  ghost predicate Agree(s: AgentState) {
    && ValidEntries(s.accepted)
    && (s.disk.Some? ==> Loadable(s.disk) == s.accepted)
  }

  /** The entry for `n`, where there is one, is justified in memory and in the file. */
  ghost predicate EntryJustified(codec: Codec, log: Log, base: HashMap, s: AgentState, n: DocName) {
    && (n in s.accepted ==> Justified(codec, log, base, n, s.accepted[n]))
    && (n in Loadable(s.disk) ==> Justified(codec, log, base, n, Loadable(s.disk)[n]))
  }

  /** The processed response asks for a document that the file records while it changes
      nothing in memory, so that the early return leaves the file as it is. */
  ghost predicate AsksInVain(codec: Codec, s: AgentState, e: Event, n: DocName) {
    && e.Sync? && n in Loadable(s.disk)
    && var r := Exchange(codec, s, e.inputs).1;
       RequestedAt(r, n) && !Changed(s.accepted, r.processed.value)
  }

  /** No event of the run asks for the document in vain. */
  ghost predicate NeverInVain(codec: Codec, s: AgentState, events: seq<Event>, n: DocName) {
    events == [] ||
    var front, last := events[..|events| - 1], events[|events| - 1];
    NeverInVain(codec, s, front, n) && !AsksInVain(codec, Run(codec, s, front).0, last, n)
  }

  /** The entry for the document is justified after the run and after every beginning of it. */
  ghost predicate AlwaysJustified(codec: Codec, s: AgentState, events: seq<Event>, n: DocName) {
    && EntryJustified(codec, Run(codec, s, events).1, s.accepted, Run(codec, s, events).0, n)
    && (events == [] || AlwaysJustified(codec, s, events[..|events| - 1], n))
  }

  /** A restart that cannot read the state file finds nothing to miss there. */
  ghost predicate LoadsMissNothing(codec: Codec, s: AgentState, events: seq<Event>) {
    events == [] ||
    var front, last := events[..|events| - 1], events[|events| - 1];
    LoadsMissNothing(codec, s, front) && (last == Reboot(false) ==> Loadable(Run(codec, s, front).0.disk) == map[])
  }

  // -------------------------------------------------------------- agreement

  lemma LoadableOfValid(endpointID: string, sent: string, m: HashMap)
    requires ValidEntries(m)
    ensures Loadable(Some(State(endpointID, sent, m))) == m
  {
    ValidEntriesAreFew(m);
  }

  lemma ProcessedAcksAreValid(codec: Codec, s: AgentState, i: Inputs)
    ensures var (_, r) := Exchange(codec, s, i);
            r.Exchanged? && (r.processed.Some? ==> ValidEntries(Acks(r.processed.value)))
  {
  }

  function StoredMap(disk: Option<State>): HashMap {
    if disk.Some? then disk.value.accepted else map[]
  }

  /** Recording a sent report and applying an artifact leave both maps alone. */
  lemma TailKeepsMaps(s: AgentState, req: Request, io: (bool, bool), resp: Response, ok: bool)
    ensures var t := ApplyResponse(SettleInfo(s, req, io), resp, ok);
            t.accepted == s.accepted && t.disk.Some? == s.disk.Some? && StoredMap(t.disk) == StoredMap(s.disk)
  {
  }

  lemma ProcessedAccepts(s: AgentState, req: Request, i: Inputs, resp: Response)
    requires AcceptOutcome(s, req, resp, i.acceptIO).None?
    ensures var t := ApplyResponse(SettleInfo(Accept(s, req, resp, i.acceptIO), req, i.sentIO), resp, i.pipelineOk);
            && AcksSubmitted(req, Acks(resp)) && t.disk.Some? == s.disk.Some?
            && t.accepted == NextAccepted(s.accepted, resp)
            && (s.disk.Some? ==>
                  StoredMap(t.disk) == if Changed(s.accepted, resp) then t.accepted else StoredMap(s.disk))
  {
    AcceptIsAtomic(s, req, resp, i.acceptIO);
    TailKeepsMaps(Accept(s, req, resp, i.acceptIO), req, i.sentIO, resp, i.pipelineOk);
  }

  /** What an exchange does to the accepted map and to the one in the file. */
  lemma ExchangeAccepts(codec: Codec, s: AgentState, i: Inputs)
    ensures var (t, r) := Exchange(codec, s, i);
            && r.Exchanged? && t.disk.Some? == s.disk.Some?
            && (r.processed.None? ==> t.accepted == s.accepted && t.disk == s.disk)
            && (r.processed.Some? ==>
                  && r.sent.Some?
                  && AcksSubmitted(r.sent.value, Acks(r.processed.value))
                  && t.accepted == NextAccepted(s.accepted, r.processed.value)
                  && (s.disk.Some? ==>
                        StoredMap(t.disk) ==
                        if Changed(s.accepted, r.processed.value) then t.accepted else StoredMap(s.disk)))
  {
    var s1 := Prepare(s, i.prepared);
    if i.capability.Some? {
      var req := Attach(codec, s1.accepted, BaseRequest(s1, i), i.capability.value, i.facts);
      if req.Some? && i.reply.Some? && AcceptOutcome(s1, req.value, i.reply.value, i.acceptIO).None? {
        ProcessedAccepts(s1, req.value, i, i.reply.value);
      }
    }
  }

  /** From a start where memory and disk agree they agree after every exchange,
      failed or not, so a restart resumes with the same map. */
  lemma ExchangeKeepsAgreement(codec: Codec, s: AgentState, i: Inputs)
    requires Agree(s)
    ensures var (t, _) := Exchange(codec, s, i); Agree(t) && (t.disk.Some? ==> Restart(t.disk, true).accepted == t.accepted)
  {
    var (t, r) := Exchange(codec, s, i);
    ExchangeAccepts(codec, s, i);
    ProcessedAcksAreValid(codec, s, i);
    if r.processed.Some? {
      if s.disk.Some? && Changed(s.accepted, r.processed.value) {
        LoadableOfValid(t.disk.value.endpointID, t.disk.value.sentDigest, t.accepted);
      } else if !Changed(s.accepted, r.processed.value) {
        UnchangedNext(s.accepted, r.processed.value);
      }
    }
  }

  /** One successful exchange makes memory and disk agree exactly when something
      was written, or they agreed before: the early return is the only gap. */
  lemma AgreementAfterSuccess(codec: Codec, s: AgentState, i: Inputs)
    requires s.disk.Some? && ValidEntries(s.accepted)
    requires Exchange(codec, s, i).1.processed.Some?
    ensures var (t, r) := Exchange(codec, s, i);
            Loadable(t.disk) == t.accepted <==>
            (Changed(s.accepted, r.processed.value) || Loadable(s.disk) == s.accepted)
  {
    var (t, r) := Exchange(codec, s, i);
    ExchangeAccepts(codec, s, i);
    ProcessedAcksAreValid(codec, s, i);
    if Changed(s.accepted, r.processed.value) {
      LoadableOfValid(t.disk.value.endpointID, t.disk.value.sentDigest, t.accepted);
    } else {
      UnchangedNext(s.accepted, r.processed.value);
    }
  }

  /** Whatever the server sends and whatever fails, the map only ever holds well-formed
      hashes of known documents. */
  lemma {:induction false} MapIsAlwaysValid(codec: Codec, s: AgentState, events: seq<Event>)
    requires ValidEntries(s.accepted)
    ensures ValidEntries(Run(codec, s, events).0.accepted)
  {
    if events != [] {
      var front, last := events[..|events| - 1], events[|events| - 1];
      MapIsAlwaysValid(codec, s, front);
      if last.Sync? {
        var before := Run(codec, s, front).0;
        ExchangeAccepts(codec, before, last.inputs);
        ProcessedAcksAreValid(codec, before, last.inputs);
      }
    }
  }

  // -------------------------------------------------- nothing withheld unsent

  lemma JustifiedExtends(codec: Codec, log: Log, base: HashMap, n: DocName, h: string, r: Record)
    requires Justified(codec, log, base, n, h) && !RequestedAt(r, n)
    ensures Justified(codec, log + [r], base, n, h)
  {
    var log' := log + [r];
    if n in base && base[n] == h && NotRequestedSince(log, 0, n) {
      assert NotRequestedSince(log', 0, n);
    } else {
      var i, j :| 0 <= i <= j < |log| && SentAt(codec, log[i], n, h) && AckedAt(log[j], n, h)
                  && NotRequestedSince(log, j, n);
      assert log'[i] == log[i] && log'[j] == log[j] && NotRequestedSince(log', j, n);
    }
  }

  lemma DeliveredExtends(codec: Codec, log: Log, base: HashMap, n: DocName, h: string, r: Record)
    requires Delivered(codec, log, base, n, h)
    ensures Delivered(codec, log + [r], base, n, h)
  {
    if !(n in base && base[n] == h) {
      var i, j :| 0 <= i <= j < |log| && SentAt(codec, log[i], n, h) && AckedAt(log[j], n, h);
      var log' := log + [r];
      assert log'[i] == log[i] && log'[j] == log[j];
    }
  }

  lemma NamedIsSentOrKnown(codec: Codec, accepted: HashMap, r: Request, capability: CapabilityDocument,
                           facts: Option<(string, string)>, n: DocName, h: string)
    requires Sound(codec) && r.capabilityDocument.None? && h != ""
    requires var q := Attach(codec, accepted, r, capability, facts); q.Some? && Names(q.value, n, h)
    ensures Carries(codec, Attach(codec, accepted, r, capability, facts).value, n, h) || (n in accepted && accepted[n] == h)
  {
    WithheldExactlyWhenAcknowledged(codec, accepted, r, capability, facts, n);
  }

  lemma ProcessedNames(codec: Codec, s: AgentState, i: Inputs, n: DocName)
    requires var (_, r) := Exchange(codec, s, i); r.processed.Some? && n in Acks(r.processed.value)
    ensures var (_, r) := Exchange(codec, s, i);
            var h := Acks(r.processed.value)[n];
            r.sent.Some? && i.capability.Some? && h != "" && Names(r.sent.value, n, h)
  {
    ProcessedAcksAreValid(codec, s, i);
    assert HashSyntax(Acks(Exchange(codec, s, i).1.processed.value)[n]);
    ExchangeAccepts(codec, s, i);
  }

  /** An acknowledgement that was processed is for a body in the same request, or
      for a hash the map already held. */
  lemma AckedIsSentOrKnown(codec: Codec, s: AgentState, i: Inputs, n: DocName)
    requires Sound(codec)
    requires var (_, r) := Exchange(codec, s, i); r.processed.Some? && n in Acks(r.processed.value)
    ensures var (_, r) := Exchange(codec, s, i);
            var h := Acks(r.processed.value)[n];
            SentAt(codec, r, n, h) || (n in s.accepted && s.accepted[n] == h)
  {
    var s1 := Prepare(s, i.prepared);
    ProcessedNames(codec, s, i, n);
    NamedIsSentOrKnown(codec, s1.accepted, BaseRequest(s1, i), i.capability.value, i.facts, n,
                       Acks(Exchange(codec, s, i).1.processed.value)[n]);
  }

  /** What was asked for and not acknowledged since is not justified. */
  lemma RequestedIsUnjustified(codec: Codec, log: Log, base: HashMap, k: nat, n: DocName, h: string)
    requires k < |log| && RequestedAt(log[k], n) && forall j :: k < j < |log| ==> !AckedAt(log[j], n, h)
    ensures !Justified(codec, log, base, n, h)
  {
  }

  lemma NextEntryJustified(codec: Codec, accepted: HashMap, log: Log, base: HashMap, r: Record, n: DocName)
    requires r.Exchanged? && r.processed.Some? && n in NextAccepted(accepted, r.processed.value)
    requires n in accepted ==> Justified(codec, log, base, n, accepted[n])
    requires var acks := Acks(r.processed.value);
             n in acks ==> SentAt(codec, r, n, acks[n]) || (n in accepted && accepted[n] == acks[n])
    ensures !RequestedAt(r, n)
    ensures Justified(codec, log + [r], base, n, NextAccepted(accepted, r.processed.value)[n])
  {
    var h := NextAccepted(accepted, r.processed.value)[n];
    if n in accepted && accepted[n] == h {
      JustifiedExtends(codec, log, base, n, h, r);
    } else {
      assert (log + [r])[|log|] == r && NotRequestedSince(log + [r], |log|, n);
    }
  }

  /** Whatever is in memory after an exchange is justified, if it was before. */
  lemma ExchangeJustifies(codec: Codec, s: AgentState, i: Inputs, log: Log, base: HashMap, n: DocName)
    requires Sound(codec) && (n in s.accepted ==> Justified(codec, log, base, n, s.accepted[n]))
    ensures var (t, r) := Exchange(codec, s, i);
            n in t.accepted ==> !RequestedAt(r, n) && Justified(codec, log + [r], base, n, t.accepted[n])
  {
    var (t, r) := Exchange(codec, s, i);
    ExchangeAccepts(codec, s, i);
    if n in t.accepted {
      if r.processed.None? {
        JustifiedExtends(codec, log, base, n, t.accepted[n], r);
      } else {
        if n in Acks(r.processed.value) {
          AckedIsSentOrKnown(codec, s, i, n);
        }
        NextEntryJustified(codec, s.accepted, log, base, r, n);
      }
    }
  }

  /** The file either takes over memory or stays; it stays wrongly exactly when the
      response asks in vain. */
  lemma FileJustified(codec: Codec, base: HashMap, log: Log, r: Record, n: DocName,
                      accepted: HashMap, before: Option<State>, after: Option<State>, written: bool)
    requires n in Loadable(before) ==> Justified(codec, log, base, n, Loadable(before)[n])
    requires n in accepted ==> Justified(codec, log + [r], base, n, accepted[n])
    requires Loadable(after) == if written then accepted else Loadable(before)
    ensures (n in Loadable(after) ==> Justified(codec, log + [r], base, n, Loadable(after)[n])) <==>
            !(n in Loadable(before) && RequestedAt(r, n) && !written)
  {
    if !written && n in Loadable(before) {
      if RequestedAt(r, n) {
        assert (log + [r])[|log|] == r;
        RequestedIsUnjustified(codec, log + [r], base, |log|, n, Loadable(before)[n]);
      } else {
        JustifiedExtends(codec, log, base, n, Loadable(before)[n], r);
      }
    }
  }

  /** What a restart would load after an exchange. */
  lemma LoadableAfter(codec: Codec, s: AgentState, i: Inputs)
    requires ValidEntries(s.accepted)
    ensures var (t, r) := Exchange(codec, s, i);
            && r.Exchanged?
            && Loadable(t.disk) == if s.disk.Some? && r.processed.Some? && Changed(s.accepted, r.processed.value)
                                   then t.accepted else Loadable(s.disk)
  {
    var (t, r) := Exchange(codec, s, i);
    ExchangeAccepts(codec, s, i);
    ProcessedAcksAreValid(codec, s, i);
    if s.disk.Some? && r.processed.Some? && Changed(s.accepted, r.processed.value) {
      LoadableOfValid(t.disk.value.endpointID, t.disk.value.sentDigest, t.accepted);
    }
  }

  lemma ExchangeStaysJustified(codec: Codec, s: AgentState, i: Inputs, log: Log, base: HashMap, n: DocName)
    requires Sound(codec) && ValidEntries(s.accepted) && EntryJustified(codec, log, base, s, n)
    ensures var (t, r) := Exchange(codec, s, i);
            EntryJustified(codec, log + [r], base, t, n) <==> !AsksInVain(codec, s, Sync(i), n)
  {
    var (t, r) := Exchange(codec, s, i);
    ExchangeJustifies(codec, s, i, log, base, n);
    LoadableAfter(codec, s, i);
    FileJustified(codec, base, log, r, n, t.accepted, s.disk, t.disk,
                  s.disk.Some? && r.processed.Some? && Changed(s.accepted, r.processed.value));
  }

  /** One event of a run keeps the entry for a document justified exactly when it does
      not ask for the document in vain. */
  lemma StepStaysJustified(codec: Codec, s: AgentState, e: Event, log: Log, base: HashMap, n: DocName)
    requires Sound(codec) && ValidEntries(s.accepted) && EntryJustified(codec, log, base, s, n)
    ensures var (t, r) := Step(codec, s, e);
            EntryJustified(codec, log + [r], base, t, n) <==> !AsksInVain(codec, s, e, n)
  {
    match e
    case Sync(i) =>
      ExchangeStaysJustified(codec, s, i, log, base, n);
    case Reboot(_) =>
      if n in Loadable(s.disk) {
        JustifiedExtends(codec, log, base, n, Loadable(s.disk)[n], Restarted);
      }
  }

  /** The exact condition, over whole runs: at every moment the entry for a document is
      justified, in memory and in the file, if and only if no response has ever asked
      for the document in vain. */
  lemma {:induction false} JustifiedExactlyWhenNeverInVain(codec: Codec, s: AgentState, events: seq<Event>, n: DocName)
    requires Sound(codec) && Agree(s)
    ensures AlwaysJustified(codec, s, events, n) <==> NeverInVain(codec, s, events, n)
  {
    if events == [] {
      assert EntryJustified(codec, [], s.accepted, s, n);
    } else {
      var front := events[..|events| - 1];
      JustifiedExactlyWhenNeverInVain(codec, s, front, n);
      if NeverInVain(codec, s, front, n) {
        MapIsAlwaysValid(codec, s, front);
        StepStaysJustified(codec, Run(codec, s, front).0, events[|events| - 1], Run(codec, s, front).1, s.accepted, n);
      }
    }
  }

  /** Nothing is withheld that was never sent. In every run in which no response asks
      for the document in vain, a request that leaves out its body comes after a request
      that carried a body with that hash and a response that acknowledged it, and no
      processed response has asked for it since; the only other case is an entry of the
      map the run started from, never asked for. */
  lemma NothingWithheldUnsent(codec: Codec, s: AgentState, events: seq<Event>, i: Inputs, n: DocName, h: string)
    requires Sound(codec) && Agree(s) && NeverInVain(codec, s, events, n)
    requires var (t, _) := Run(codec, s, events);
             var sent := Exchange(codec, t, i).1.sent;
             sent.Some? && Withholds(codec, sent.value, n, h)
    ensures Justified(codec, Run(codec, s, events).1, s.accepted, n, h)
  {
    JustifiedExactlyWhenNeverInVain(codec, s, events, n);
    WithheldIsRecorded(codec, Run(codec, s, events).0, i, n, h);
  }

  lemma RecordedIsWithheld(codec: Codec, t: AgentState, i: Inputs, n: DocName, h: string)
    requires Sound(codec) && n != Delivery && n in t.accepted && t.accepted[n] == h
    requires Submits(Exchange(codec, t, i).1, n, h)
    ensures Withholds(codec, Exchange(codec, t, i).1.sent.value, n, h)
  {
    var t1 := Prepare(t, i.prepared);
    WithheldExactlyWhenAcknowledged(codec, t1.accepted, BaseRequest(t1, i), i.capability.value, i.facts, n);
  }

  ghost predicate Submits(r: Record, n: DocName, h: string) {
    && r.Exchanged? && r.sent.Some? && r.sent.value.documentHashes.Some?
    && n in r.sent.value.documentHashes.value.documents && r.sent.value.documentHashes.value.documents[n] == h
  }

  /** Asked for in vain, the file keeps the entry, which the restart brings back. */
  lemma VainRequestIsRevived(codec: Codec, s: AgentState, i: Inputs, log: Log, base: HashMap, n: DocName)
    requires ValidEntries(s.accepted) && AsksInVain(codec, s, Sync(i), n)
    ensures var (t, r) := Exchange(codec, s, i);
            var h := Loadable(s.disk)[n];
            && n in Restart(t.disk, true).accepted && Restart(t.disk, true).accepted[n] == h
            && !Justified(codec, log + [r] + [Restarted], base, n, h)
  {
    var (t, r) := Exchange(codec, s, i);
    LoadableAfter(codec, s, i);
    var log' := log + [r] + [Restarted];
    assert log'[|log|] == r;
    RequestedIsUnjustified(codec, log', base, |log|, n, Loadable(s.disk)[n]);
  }

  /** After the run, the request withholds a body that nothing in the run justifies. */
  ghost predicate WithholdsUnjustified(codec: Codec, s: AgentState, events: seq<Event>, i: Inputs, n: DocName, h: string) {
    var (t, log) := Run(codec, s, events);
    var sent := Exchange(codec, t, i).1.sent;
    sent.Some? && Withholds(codec, sent.value, n, h) && !Justified(codec, log, s.accepted, n, h)
  }

  /** Conversely, once a response has asked in vain and a restart has read the file, every
      request that names the recorded hash leaves the body out without justification. */
  lemma VainRequestIsWithheld(codec: Codec, s: AgentState, events: seq<Event>, i: Inputs, j: Inputs, n: DocName)
    requires Sound(codec) && ValidEntries(s.accepted) && n != Delivery
    requires AsksInVain(codec, Run(codec, s, events).0, Sync(i), n)
    requires var t := Run(codec, s, events + [Sync(i), Reboot(true)]).0;
             Submits(Exchange(codec, t, j).1, n, Loadable(Run(codec, s, events).0.disk)[n])
    ensures WithholdsUnjustified(codec, s, events + [Sync(i), Reboot(true)], j, n, Loadable(Run(codec, s, events).0.disk)[n])
  {
    var (before, log) := Run(codec, s, events);
    MapIsAlwaysValid(codec, s, events);
    RunOfTwoMore(codec, s, events, Sync(i), Reboot(true));
    VainRequestIsRevived(codec, before, i, log, s.accepted, n);
    RecordedIsWithheld(codec, Run(codec, s, events + [Sync(i), Reboot(true)]).0, j, n, Loadable(before.disk)[n]);
  }

  lemma RunOfTwoMore(codec: Codec, s: AgentState, events: seq<Event>, a: Event, b: Event)
    ensures var (s0, log) := Run(codec, s, events);
            var (s1, r1) := Step(codec, s0, a);
            var (s2, r2) := Step(codec, s1, b);
            Run(codec, s, events + [a, b]) == (s2, log + [r1] + [r2])
  {
    assert (events + [a])[..|events|] == events;
    assert (events + [a, b])[..|events| + 1] == events + [a];
  }

  lemma AgreeingStateIsNotAskedInVain(codec: Codec, s: AgentState, e: Event, n: DocName)
    requires Agree(s)
    ensures !AsksInVain(codec, s, e, n)
  {
  }

  /** In particular nothing is asked in vain while every restart can read the file or
      finds nothing in it, because memory and file then always agree. */
  lemma {:induction false} CleanRestartsSuffice(codec: Codec, s: AgentState, events: seq<Event>, n: DocName)
    requires Agree(s) && LoadsMissNothing(codec, s, events)
    ensures NeverInVain(codec, s, events, n) && Agree(Run(codec, s, events).0)
  {
    if events != [] {
      var front, last := events[..|events| - 1], events[|events| - 1];
      CleanRestartsSuffice(codec, s, front, n);
      AgreeingStateIsNotAskedInVain(codec, Run(codec, s, front).0, last, n);
      if last.Sync? {
        ExchangeKeepsAgreement(codec, Run(codec, s, front).0, last.inputs);
      }
    }
  }

  /** A withheld body is one the accepted map records under that very hash. */
  lemma WithheldIsRecorded(codec: Codec, t: AgentState, i: Inputs, n: DocName, h: string)
    requires Sound(codec)
    requires var sent := Exchange(codec, t, i).1.sent; sent.Some? && Withholds(codec, sent.value, n, h)
    ensures n in t.accepted && t.accepted[n] == h
  {
    var t1 := Prepare(t, i.prepared);
    WithheldExactlyWhenAcknowledged(codec, t1.accepted, BaseRequest(t1, i), i.capability.value, i.facts, n);
    AttachedHashes(codec, t1.accepted, BaseRequest(t1, i), i.capability.value, i.facts);
  }

  // ------------------------------------------- restarts that cannot read disk

  ghost predicate EntryDelivered(codec: Codec, log: Log, base: HashMap, s: AgentState, n: DocName) {
    && (n in s.accepted ==> Delivered(codec, log, base, n, s.accepted[n]))
    && (n in Loadable(s.disk) ==> Delivered(codec, log, base, n, Loadable(s.disk)[n]))
  }

  lemma MemoryDelivers(codec: Codec, s: AgentState, i: Inputs, log: Log, base: HashMap, n: DocName)
    requires Sound(codec) && EntryDelivered(codec, log, base, s, n)
    ensures var (t, r) := Exchange(codec, s, i);
            n in t.accepted ==> Delivered(codec, log + [r], base, n, t.accepted[n])
  {
    var (t, r) := Exchange(codec, s, i);
    ExchangeAccepts(codec, s, i);
    if n in t.accepted {
      if n in s.accepted && s.accepted[n] == t.accepted[n] {
        DeliveredExtends(codec, log, base, n, t.accepted[n], r);
      } else {
        AckedIsSentOrKnown(codec, s, i, n);
        assert (log + [r])[|log|] == r;
      }
    }
  }

  lemma ExchangeDelivers(codec: Codec, s: AgentState, i: Inputs, log: Log, base: HashMap, n: DocName)
    requires Sound(codec) && ValidEntries(s.accepted) && EntryDelivered(codec, log, base, s, n)
    ensures var (t, r) := Exchange(codec, s, i); EntryDelivered(codec, log + [r], base, t, n)
  {
    var r := Exchange(codec, s, i).1;
    MemoryDelivers(codec, s, i, log, base, n);
    LoadableAfter(codec, s, i);
    if n in Loadable(s.disk) {
      DeliveredExtends(codec, log, base, n, Loadable(s.disk)[n], r);
    }
  }

  lemma {:induction false} RunDelivers(codec: Codec, s: AgentState, events: seq<Event>, n: DocName)
    requires Sound(codec) && Agree(s)
    ensures var (t, log) := Run(codec, s, events); EntryDelivered(codec, log, s.accepted, t, n)
  {
    if events != [] {
      var front, last := events[..|events| - 1], events[|events| - 1];
      RunDelivers(codec, s, front, n);
      MapIsAlwaysValid(codec, s, front);
      var (before, log) := Run(codec, s, front);
      match last
      case Sync(i) =>
        ExchangeDelivers(codec, before, i, log, s.accepted, n);
      case Reboot(_) =>
        if n in Loadable(before.disk) {
          DeliveredExtends(codec, log, s.accepted, n, Loadable(before.disk)[n], Restarted);
        }
    }
  }

  /** Without any assumption on restarts, a withheld body was at least sent and
      acknowledged earlier. */
  lemma WithheldWasDelivered(codec: Codec, s: AgentState, events: seq<Event>, i: Inputs, n: DocName, h: string)
    requires Sound(codec) && Agree(s)
    requires var (t, _) := Run(codec, s, events);
             var sent := Exchange(codec, t, i).1.sent;
             sent.Some? && Withholds(codec, sent.value, n, h)
    ensures Delivered(codec, Run(codec, s, events).1, s.accepted, n, h)
  {
    RunDelivers(codec, s, events, n);
    var (t, log) := Run(codec, s, events);
    WithheldIsRecorded(codec, t, i, n, h);
  }

  lemma ForgottenOnDisk(base: HashMap, resp: Response, before: Option<State>, after: Option<State>, n: DocName)
    requires ValidEntries(NextAccepted(base, resp)) && n in resp.requestedDocuments
    requires before.Some? == after.Some?
    requires before.Some? ==> StoredMap(after) == if Changed(base, resp) then NextAccepted(base, resp) else StoredMap(before)
    ensures n !in Loadable(after) <==> n !in Loadable(before) || Changed(base, resp)
  {
    if before.Some? && Changed(base, resp) {
      LoadableOfValid(after.value.endpointID, after.value.sentDigest, NextAccepted(base, resp));
    }
  }

  /** After a processed response asks for a document, a restart forgets it too
      exactly when the file did not hold it or something was written. */
  lemma RequestedIsForgotten(codec: Codec, s: AgentState, i: Inputs, n: DocName)
    requires ValidEntries(s.accepted)
    requires var (_, r) := Exchange(codec, s, i); RequestedAt(r, n)
    ensures var (t, r) := Exchange(codec, s, i);
            && n !in t.accepted
            && (n !in Restart(t.disk, true).accepted <==>
                (n !in Loadable(s.disk) || Changed(s.accepted, r.processed.value)))
  {
    var (t, r) := Exchange(codec, s, i);
    ExchangeAccepts(codec, s, i);
    ProcessedAcksAreValid(codec, s, i);
    ForgottenOnDisk(s.accepted, r.processed.value, s.disk, t.disk, n);
  }

  ghost function SampleHash(): (h: string)
    ensures HashSyntax(h)
  {
    assert HashSyntax("sha256:" + seq(64, _ => 'a'));
    var h :| HashSyntax(h);
    h
  }

  ghost function SampleCodec(): Codec {
    var h := SampleHash();
    Codec(_ => Some(""), (_, _) => Some(""), (_, _) => Some(""), _ => Some(""), (_, _) => h)
  }

  function SampleInputs(): Inputs {
    Inputs(None, map[], [], Some(("arch", "x86")), Some(CapabilityDocument("")),
           Some(Response(false, "", "", "", 0, None, [Capability])), (true, true), (true, true), true)
  }

  ghost function SampleState(accepted: HashMap): AgentState {
    AgentState("", "", "", accepted, None, "", "", Some(State("endpoint", "", map[Capability := SampleHash()])))
  }

  /** With an empty memory the reply asking for the document changes nothing. */
  lemma SampleRequestIsNotStored()
    ensures Sound(SampleCodec())
    ensures var (t, r) := Exchange(SampleCodec(), SampleState(map[]), SampleInputs());
            t == SampleState(map[]) && r.Exchanged? && r.processed == SampleInputs().reply
  {
    var s, i := SampleState(map[]), SampleInputs();
    var req := Attach(SampleCodec(), map[], BaseRequest(s, i), i.capability.value, i.facts);
    assert Acks(i.reply.value) == map[];
    assert !Changed(map[], i.reply.value);
    assert Distinct(i.reply.value.requestedDocuments);
  }

  lemma SampleSubmits()
    ensures Submits(Exchange(SampleCodec(), SampleStart(), SampleInputs()).1, Capability, SampleHash())
  {
    var s, i := SampleStart(), SampleInputs();
    var req := Attach(SampleCodec(), s.accepted, BaseRequest(s, i), i.capability.value, i.facts);
    assert req.value.documentHashes.value.documents[Capability] == SampleHash();
  }

  ghost function SampleStart(): AgentState {
    SampleState(map[Capability := SampleHash()])
  }

  lemma SampleFileIsLoaded()
    ensures Agree(SampleStart()) && Loadable(SampleState(map[]).disk) == map[Capability := SampleHash()]
    ensures Restart(SampleStart().disk, false) == SampleState(map[]) && Restart(SampleStart().disk, true) == SampleStart()
  {
    LoadableOfValid("endpoint", "", SampleStart().accepted);
  }

  lemma SampleAsksInVain()
    ensures AsksInVain(SampleCodec(), SampleState(map[]), Sync(SampleInputs()), Capability)
  {
    SampleFileIsLoaded();
    SampleRequestIsNotStored();
  }

  lemma FailedLoad(codec: Codec, s: AgentState)
    ensures Run(codec, s, [Reboot(false)]) == (Restart(s.disk, false), [Restarted])
  {
    assert [Reboot(false)][..0] == [];
    assert [] + [Restarted] == [Restarted];
  }

  lemma SampleRun()
    ensures Run(SampleCodec(), SampleStart(), [Reboot(false)] + [Sync(SampleInputs()), Reboot(true)]).0 == SampleStart()
  {
    SampleFileIsLoaded();
    SampleRequestIsNotStored();
    FailedLoad(SampleCodec(), SampleStart());
    RunOfTwoMore(SampleCodec(), SampleStart(), [Reboot(false)], Sync(SampleInputs()), Reboot(true));
  }

  lemma VainAfterFailedLoad(codec: Codec, s: AgentState, i: Inputs, j: Inputs, n: DocName, u: AgentState)
    requires Sound(codec) && ValidEntries(s.accepted) && n != Delivery
    requires AsksInVain(codec, Restart(s.disk, false), Sync(i), n)
    requires Run(codec, s, [Reboot(false)] + [Sync(i), Reboot(true)]).0 == u
    requires Submits(Exchange(codec, u, j).1, n, Loadable(s.disk)[n])
    ensures WithholdsUnjustified(codec, s, [Reboot(false)] + [Sync(i), Reboot(true)], j, n, Loadable(s.disk)[n])
  {
    FailedLoad(codec, s);
    VainRequestIsWithheld(codec, s, [Reboot(false)], i, j, n);
  }

  /** A run in which a response asks in vain: a restart that cannot read the file
      empties memory but leaves the file; the server then asks for the capability
      document, nothing in memory changes, so nothing is written; the next restart
      loads the old entry and withholds the document again. */
  lemma FailedLoadBreaksJustification()
    ensures Sound(SampleCodec()) && Agree(SampleStart())
    ensures WithholdsUnjustified(SampleCodec(), SampleStart(), [Reboot(false)] + [Sync(SampleInputs()), Reboot(true)],
                                 SampleInputs(), Capability, SampleHash())
  {
    SampleFileIsLoaded();
    SampleRequestIsNotStored();
    SampleAsksInVain();
    SampleSubmits();
    SampleRun();
    VainAfterFailedLoad(SampleCodec(), SampleStart(), SampleInputs(), SampleInputs(), Capability, SampleStart());
  }

  // ------------------------------------------------------- the applied triple

  datatype Triple = Triple(artifact: string, digest: string, releaseRef: string)

  function TripleOf(s: AgentState): Triple {
    Triple(s.lastArtifact, s.lastDigest, s.lastReleaseRef)
  }

  /** The exchange processed a response that carried an artifact, and the
      pipeline succeeded on it. */
  predicate AppliesArtifact(r: Record) {
    r.Exchanged? && r.processed.Some? && r.processed.value.artifact != "" && r.pipelineOk
  }

  /** The triple of the most recent response whose artifact was applied since the
      agent started; empty when there is none. */
  function LastApplied(start: Triple, log: Log): Triple {
    if log == [] then start
    else
      var r := log[|log| - 1];
      if r.Restarted? then Triple("", "", "")
      else if AppliesArtifact(r) then
        Triple(r.processed.value.artifact, r.processed.value.digest, r.processed.value.releaseRef)
      else LastApplied(start, log[..|log| - 1])
  }

  predicate Complete(r: Record) {
    AppliesArtifact(r) ==> r.processed.value.digest != "" && r.processed.value.releaseRef != ""
  }

  /** A lease retry never moves the triple: it only runs when the response names
      the artifact that is already there. */
  lemma RetryKeepsTriple(s: AgentState, resp: Response, pipelineOk: bool)
    requires resp.artifact == ""
    ensures ApplyResponse(s, resp, pipelineOk) == s
  {
  }

  /** The triple becomes the response's own exactly when each of digest and
      reference is given, or was empty before. */
  lemma AppliedTripleIsTheResponses(s: AgentState, resp: Response)
    requires resp.artifact != ""
    ensures TripleOf(ApplyResponse(s, resp, true)) == Triple(resp.artifact, resp.digest, resp.releaseRef) <==>
            (resp.digest != "" || s.lastDigest == "") && (resp.releaseRef != "" || s.lastReleaseRef == "")
  {
  }

  lemma StepMovesTriple(codec: Codec, s: AgentState, e: Event)
    requires Complete(Step(codec, s, e).1)
    ensures var (t, r) := Step(codec, s, e);
            TripleOf(t) ==
            if r.Restarted? then Triple("", "", "")
            else if AppliesArtifact(r) then
              Triple(r.processed.value.artifact, r.processed.value.digest, r.processed.value.releaseRef)
            else TripleOf(s)
  {
    if e.Sync? && Step(codec, s, e).1.processed.Some? {
      var i := e.inputs;
      var s1 := Prepare(s, i.prepared);
      var req := Attach(codec, s1.accepted, BaseRequest(s1, i), i.capability.value, i.facts);
      var s2 := Accept(s1, req.value, i.reply.value, i.acceptIO);
      var s3 := SettleInfo(s2, req.value, i.sentIO);
      assert TripleOf(s3) == TripleOf(s);
      if i.reply.value.artifact == "" {
        RetryKeepsTriple(s3, i.reply.value, i.pipelineOk);
      }
    }
  }

  /** Through failures and lease retries, whatever the server sends: while every
      applied artifact came with a digest and a reference, the triple is the one
      of the response applied last. */
  lemma {:induction false} AppliedTripleIsCoherent(codec: Codec, s: AgentState, events: seq<Event>)
    requires forall k :: 0 <= k < |Run(codec, s, events).1| ==> Complete(Run(codec, s, events).1[k])
    ensures TripleOf(Run(codec, s, events).0) == LastApplied(TripleOf(s), Run(codec, s, events).1)
  {
    if events != [] {
      var front, last := events[..|events| - 1], events[|events| - 1];
      var (before, log) := Run(codec, s, front);
      var (after, r) := Step(codec, before, last);
      var log' := log + [r];
      assert Run(codec, s, events) == (after, log');
      assert log'[..|log|] == log;
      assert forall k :: 0 <= k < |log| ==> log[k] == log'[k];
      AppliedTripleIsCoherent(codec, s, front);
      assert Complete(log'[|log|]);
      StepMovesTriple(codec, before, last);
    }
  }

  /** Every request, and the delivery hash in it, names the artifact applied last
      and no other. */
  lemma RequestNamesAppliedArtifact(codec: Codec, s: AgentState, events: seq<Event>, i: Inputs)
    requires forall k :: 0 <= k < |Run(codec, s, events).1| ==> Complete(Run(codec, s, events).1[k])
    requires Exchange(codec, Run(codec, s, events).0, i).1.sent.Some?
    ensures var applied := LastApplied(TripleOf(s), Run(codec, s, events).1);
            var sent := Exchange(codec, Run(codec, s, events).0, i).1.sent.value;
            && sent.lastDigest == applied.digest && sent.lastReleaseRef == applied.releaseRef
            && sent.documentHashes.Some? && Delivery in sent.documentHashes.value.documents
            && HashOf(codec, Delivery, codec.delivery(applied.releaseRef, applied.digest))
               == Some(sent.documentHashes.value.documents[Delivery])
  {
    AppliedTripleIsCoherent(codec, s, events);
  }

  /** The pipeline runs on the artifact of a response or, without one, again on the
      artifact applied last: when there are leases and the response says unchanged and
      names that artifact's digest, and its release reference if it names one. */
  lemma PipelineRunsOnAppliedArtifact(codec: Codec, s: AgentState, events: seq<Event>, resp: Response)
    requires forall k :: 0 <= k < |Run(codec, s, events).1| ==> Complete(Run(codec, s, events).1[k])
    ensures
      var applied := LastApplied(TripleOf(s), Run(codec, s, events).1);
      PipelineInput(Run(codec, s, events).0, resp) ==
        if resp.artifact != "" then Some(resp.artifact)
        else if resp.executionLeases > 0 && resp.saysUnchanged && applied.artifact != ""
                && resp.digest == applied.digest && resp.releaseRef in ["", applied.releaseRef]
        then Some(applied.artifact)
        else None
  {
    AppliedTripleIsCoherent(codec, s, events);
  }

  /** What comes before the pipeline in an exchange does not change what it runs on. */
  lemma PipelineInputIsSettledEarly(s: AgentState, i: Inputs, req: Request, resp: Response)
    ensures
      var a := Accept(Prepare(s, i.prepared), req, resp, i.acceptIO);
      PipelineInput(SettleInfo(a, req, i.sentIO), resp) == PipelineInput(s, resp)
  {
  }

  // ---------------------------------------------------- pending system report

  /** A pending report leaves the queue only in an exchange that sent it and whose
      response acknowledged its hash; otherwise it stays, or a newer one replaces
      it. */
  lemma PendingReportIsNotLost(codec: Codec, s: AgentState, i: Inputs)
    requires Sound(codec)
    ensures var (t, r) := Exchange(codec, s, i);
            var pending := Prepare(s, i.prepared).pendingInfo;
            t.pendingInfo == pending ||
            (&& pending.Some? && t.pendingInfo.None? && r.processed.Some?
             && exists h :: SentAt(codec, r, SystemInformation, h) && Lookup(t.accepted, SystemInformation) == h)
  {
    var (t, r) := Exchange(codec, s, i);
    var s1 := Prepare(s, i.prepared);
    if t.pendingInfo != s1.pendingInfo {
      var h := r.sent.value.documentHashes.value.documents[SystemInformation];
      assert SentAt(codec, r, SystemInformation, h);
    }
  }
}
