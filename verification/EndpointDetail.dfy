/** Loading one endpoint's detail (desktop/endpoint_detail_service.go). A newer selection
    supersedes every older one, whatever the order in which their replies arrive. */
module EndpointDetail {
  import opened Common
  import opened Contexts
  import opened Text

  // -------------------------------------------------------- what a load found

  datatype Endpoint = Endpoint(id: string, fleet: string)

  datatype Report = Report(endpointID: string, status: string, body: string)

  /** The variables the four tasks of a load fill; a task that did not run leaves its
      zero value and no error. `malformed` is a firewall body that is not JSON. */
  datatype Replies = Replies(
    endpoint: Endpoint, endpointErr: Option<string>,
    state: Report, stateErr: Option<string>,
    schedules: Report, scheduleErr: Option<string>,
    firewall: Report, firewallErr: Option<string>, malformed: bool)

  datatype Section = Shown(report: Report) | SectionFailed(message: string)

  datatype Header = Header(endpointID: string, fleet: string, compliance: Option<string>)

  datatype View = View(header: Header, state: Section, schedules: Section, firewall: Section)

  datatype LoadError =
    | Obsolete
    | Cancelled(cause: Cause)
    | InvalidSelection
    | Refused(message: string)
    | WrongEndpoint

  function SectionOf(report: Report, err: Option<string>, endpointID: string): Section {
    if err.Some? then SectionFailed(err.value)
    else if report.endpointID != endpointID then SectionFailed("did not match the selected Endpoint")
    else Shown(report)
  }

  /** The compliance of a header row comes from the report filed under its own endpoint. */
  function MapHeader(endpoint: Endpoint, state: Section): Header {
    Header(endpoint.id, endpoint.fleet,
           if state.Shown? && state.report.endpointID == endpoint.id then Some(state.report.status) else None)
  }

  function LoadSelected(r: Replies, endpointID: string, cause: Option<Cause>): Result<View, LoadError> {
    if cause.Some? then Failure(Cancelled(cause.value))
    else if r.endpointErr.Some? then Failure(Refused(r.endpointErr.value))
    else if r.endpoint.id != endpointID then Failure(WrongEndpoint)
    else
      var state := SectionOf(r.state, r.stateErr, endpointID);
      var firewall := SectionOf(r.firewall, r.firewallErr, endpointID);
      Success(View(MapHeader(r.endpoint, state),
                   state,
                   SectionOf(r.schedules, r.scheduleErr, endpointID),
                   if firewall.Shown? && r.malformed then SectionFailed("not in the expected format") else firewall))
  }

  /** Nothing in the view is about another endpoint. */
  ghost predicate Belongs(v: View, endpointID: string) {
    && v.header.endpointID == endpointID
    && (v.state.Shown? ==> v.state.report.endpointID == endpointID)
    && (v.schedules.Shown? ==> v.schedules.report.endpointID == endpointID)
    && (v.firewall.Shown? ==> v.firewall.report.endpointID == endpointID)
    && v.header.compliance == (if v.state.Shown? then Some(v.state.report.status) else None)
  }

  /** The view shows each reply that came without error for this endpoint, in its own
      section, and no other. */
  ghost predicate ShowsOwn(v: View, r: Replies, endpointID: string) {
    && Belongs(v, endpointID) && v.header.fleet == r.endpoint.fleet
    && (forall p :: v.state == Shown(p) <==> r.stateErr.None? && p == r.state && p.endpointID == endpointID)
    && (forall p :: v.schedules == Shown(p) <==> r.scheduleErr.None? && p == r.schedules && p.endpointID == endpointID)
    && (forall p :: v.firewall == Shown(p) <==>
          r.firewallErr.None? && !r.malformed && p == r.firewall && p.endpointID == endpointID)
  }

  lemma ViewShowsItsOwnReplies(r: Replies, endpointID: string, cause: Option<Cause>)
    ensures
      var result := LoadSelected(r, endpointID, cause);
      && (result.Success? <==> cause.None? && r.endpointErr.None? && r.endpoint.id == endpointID)
      && (result.Success? ==> ShowsOwn(result.value, r, endpointID))
  {
  }

  predicate ValidID(id: string) {
    id != "" && id == TrimSpace(id)
  }

  // ------------------------------------------------------------- the service

  datatype Selection = Selection(generation: nat, cancel: Option<nat>, ctxs: seq<Option<Cause>>)

  function Begin(s: Selection, inherited: Option<Cause>): Selection {
    var ctxs := if s.cancel.Some? then CancelCtx(s.ctxs, s.cancel.value, Superseded) else s.ctxs;
    Selection(s.generation + 1, Some(|s.ctxs|), ctxs + [inherited])
  }

  function CompleteLocked(s: Selection, mine: nat): Selection {
    if mine == s.generation then s.(cancel := None) else s
  }

  /** What follows the locked section: the answer, and the context's own end. */
  function Finish(s: Selection, ctx: nat, current: bool, loaded: Result<View, LoadError>): (Selection, Result<View, LoadError>)
    requires ctx < |s.ctxs|
  {
    if !current then (s.(ctxs := CancelCtx(s.ctxs, ctx, Superseded)), Failure(Obsolete))
    else if s.ctxs[ctx].Some? then (s, Failure(Cancelled(s.ctxs[ctx].value)))
    else (s.(ctxs := CancelCtx(s.ctxs, ctx, Canceled)), loaded)
  }

  class EndpointDetailService {
    var generation: nat
    var cancel: Context?
    ghost var contexts: seq<Context>

    ghost predicate Valid()
      reads this, contexts
    {
      Numbered(contexts) && IsOneOf(cancel, contexts)
    }

    ghost function Value(): Selection
      reads this, contexts
    {
      Selection(generation, if cancel == null then None else Some(cancel.number), Causes(contexts))
    }

    constructor ()
      ensures Valid() && Value() == Selection(0, None, [])
    {
      generation := 0;
      cancel := null;
      contexts := [];
    }

    method BeginSelection(inherited: Option<Cause>) returns (ctx: Context, mine: nat)
      requires Valid()
      modifies this, contexts
      ensures Valid() && Value() == Begin(old(Value()), inherited)
      ensures mine == generation && fresh(ctx) && contexts == old(contexts) + [ctx]
    {
      ctx := new Context(|contexts|, inherited);
      if cancel != null {
        cancel.Cancel(Superseded);
      }
      generation := generation + 1;
      mine := generation;
      cancel := ctx;
      contexts := contexts + [ctx];
      assert Value().ctxs == Begin(old(Value()), inherited).ctxs;
    }

    /** The locked section of completeSelection. */
    method CompleteSection(mine: nat) returns (current: bool)
      requires Valid()
      modifies this`cancel
      ensures Valid() && Value() == CompleteLocked(old(Value()), mine)
      ensures current <==> mine == generation
    {
      current := mine == generation;
      if current {
        cancel := null;
      }
    }

    /** The rest of completeSelection. */
    method FinishSelection(ctx: Context, current: bool, loaded: Result<View, LoadError>)
        returns (result: Result<View, LoadError>)
      requires Valid() && ctx in contexts
      modifies contexts
      ensures Valid() && (Value(), result) == Finish(old(Value()), ctx.number, current, loaded)
    {
      if !current {
        ctx.Cancel(Superseded);
        assert Causes(contexts) == CancelCtx(old(Causes(contexts)), ctx.number, Superseded);
        return Failure(Obsolete);
      }
      if ctx.cause.Some? {
        var cause := ctx.cause.value;
        ctx.Cancel(cause);
        assert Causes(contexts) == old(Causes(contexts));
        return Failure(Cancelled(cause));
      }
      ctx.Cancel(Canceled);
      assert Causes(contexts) == CancelCtx(old(Causes(contexts)), ctx.number, Canceled);
      return loaded;
    }
  }

  // ------------------------------------------------------------ interleavings

  datatype Phase =
    | Loading
    | Loaded(loaded: Result<View, LoadError>)
    | Completed(current: bool, loaded: Result<View, LoadError>)
    | Returned(current: bool, loaded: Result<View, LoadError>, result: Result<View, LoadError>)

  /** `gaveUp` is the first reason the caller gave for giving up. */
  datatype Load = Load(endpointID: string, gaveUp: Option<string>, phase: Phase)

  /** Load `k` took generation `k + 1` and context `k`. */
  datatype System = System(s: Selection, loads: seq<Load>)

  const START := System(Selection(0, None, []), [])

  datatype Event =
    | BeginLoad(endpointID: string, gaveUp: Option<string>)
    | ReplyTo(k: nat, refused: Option<string>, replies: Replies)
    | CompleteLoad(k: nat)
    | ReturnFrom(k: nat)
    | CallerGivesUp(k: nat, reason: string)

  predicate Enabled(sys: System, e: Event) {
    match e
    case BeginLoad(_, _) => true
    case ReplyTo(k, _, _) => k < |sys.loads| == |sys.s.ctxs| && sys.loads[k].phase.Loading?
    case CompleteLoad(k) => k < |sys.loads| == |sys.s.ctxs| && sys.loads[k].phase.Loaded?
    case ReturnFrom(k) => k < |sys.loads| == |sys.s.ctxs| && sys.loads[k].phase.Completed?
    case CallerGivesUp(_, _) => true
  }

  /** What a load makes of its connection and its replies. */
  function LoadedFrom(id: string, refused: Option<string>, replies: Replies, cause: Option<Cause>): Result<View, LoadError> {
    if !ValidID(id) then Failure(InvalidSelection)
    else if refused.Some? then Failure(Refused(refused.value))
    else LoadSelected(replies, id, cause)
  }

  function Next(sys: System, e: Event): System
    requires Enabled(sys, e)
  {
    match e
    case BeginLoad(id, gaveUp) =>
      System(Begin(sys.s, FromText(gaveUp)), sys.loads + [Load(id, gaveUp, Loading)])
    case ReplyTo(k, refused, replies) =>
      var l := sys.loads[k];
      sys.(loads := sys.loads[k := l.(phase := Loaded(LoadedFrom(l.endpointID, refused, replies, sys.s.ctxs[k])))])
    case CompleteLoad(k) =>
      var l := sys.loads[k];
      System(CompleteLocked(sys.s, k + 1),
             sys.loads[k := l.(phase := Completed(k + 1 == sys.s.generation, l.phase.loaded))])
    case ReturnFrom(k) =>
      var l := sys.loads[k];
      var (s, result) := Finish(sys.s, k, l.phase.current, l.phase.loaded);
      System(s, sys.loads[k := l.(phase := Returned(l.phase.current, l.phase.loaded, result))])
    case CallerGivesUp(k, reason) =>
      System(sys.s.(ctxs := CancelCtx(sys.s.ctxs, k, FromCaller(reason))),
             if k < |sys.loads| && sys.loads[k].gaveUp.None?
             then sys.loads[k := sys.loads[k].(gaveUp := Some(reason))] else sys.loads)
  }

  ghost predicate Run(states: seq<System>, events: seq<Event>) {
    && |states| == |events| + 1 && states[0] == START
    && forall k :: 0 <= k < |events| ==> Enabled(states[k], events[k]) && states[k + 1] == Next(states[k], events[k])
  }

  predicate CurrentWhenCompleted(l: Load) {
    (l.phase.Completed? || l.phase.Returned?) && l.phase.current
  }

  /** Not returned yet, and superseded by no other load. */
  predicate Live(sys: System, k: nat)
    requires k < |sys.loads|
  {
    !sys.loads[k].phase.Returned? && (CurrentWhenCompleted(sys.loads[k]) || k + 1 == sys.s.generation)
  }

  ghost predicate LoadInv(sys: System, k: nat)
    requires k < |sys.loads| == |sys.s.ctxs|
  {
    var l := sys.loads[k];
    && (!l.phase.Loading? && l.phase.loaded.Success? ==> Belongs(l.phase.loaded.value, l.endpointID) && ValidID(l.endpointID))
    && (!l.phase.Loading? && l.phase.loaded.Failure? ==> l.phase.loaded.error != Obsolete)
    && (Live(sys, k) ==> sys.s.ctxs[k] == FromText(l.gaveUp))
    && (k + 1 == sys.s.generation && (l.phase.Completed? || l.phase.Returned?) ==> l.phase.current)
    && (k + 1 < sys.s.generation && (l.phase.Loading? || l.phase.Loaded?) ==> sys.s.ctxs[k].Some?)
    && (l.phase.Returned? ==>
          (l.phase.result == Failure(Obsolete) <==> !l.phase.current)
          && (l.phase.result.Success? ==> l.phase.result == l.phase.loaded && l.phase.current))
  }

  ghost predicate Inv(sys: System) {
    && sys.s.generation == |sys.loads| == |sys.s.ctxs|
    && (sys.s.cancel.Some? ==> sys.s.cancel.value == |sys.loads| - 1 && !CurrentWhenCompleted(sys.loads[|sys.loads| - 1]))
    && (sys.s.cancel.None? && sys.loads != [] ==> CurrentWhenCompleted(sys.loads[|sys.loads| - 1]))
    && (forall k :: 0 <= k < |sys.loads| ==> LoadInv(sys, k))
  }

  lemma NextKeepsInv(sys: System, e: Event)
    requires Inv(sys) && Enabled(sys, e)
    ensures Inv(Next(sys, e))
  {
    var after := Next(sys, e);
    if e.ReplyTo? {
      ViewShowsItsOwnReplies(e.replies, sys.loads[e.k].endpointID, sys.s.ctxs[e.k]);
    }
    assert forall k :: 0 <= k < |sys.loads| ==> LoadInv(sys, k);
    forall k | 0 <= k < |after.loads| ensures LoadInv(after, k) {
      if k < |sys.loads| {
        assert LoadInv(sys, k);
      }
    }
  }

  lemma {:induction false} InvHolds(states: seq<System>, events: seq<Event>, n: nat)
    requires Run(states, events) && n < |states|
    ensures Inv(states[n])
  {
    if n > 0 {
      InvHolds(states, events, n - 1);
      NextKeepsInv(states[n - 1], events[n - 1]);
    }
  }

  ghost predicate Overtaken(events: seq<Event>, b: nat, c: nat)
    requires b <= c <= |events|
  {
    exists i :: b < i < c && events[i].BeginLoad?
  }

  /** From its beginning at `b`, a load has the newest generation as long as nothing overtakes it. */
  lemma {:induction false} NewestUntilOvertaken(states: seq<System>, events: seq<Event>, b: nat, c: nat)
    requires Run(states, events) && b < c < |states| && events[b].BeginLoad?
    ensures |states[b].loads| < |states[c].loads|
    ensures |states[c].loads| == |states[b].loads| + 1 <==> !Overtaken(events, b, c)
    ensures states[c].loads[|states[b].loads|].endpointID == events[b].endpointID
  {
    InvHolds(states, events, c - 1);
    assert Enabled(states[c - 1], events[c - 1]) && states[c] == Next(states[c - 1], events[c - 1]);
    if c > b + 1 {
      NewestUntilOvertaken(states, events, b, c - 1);
      assert Overtaken(events, b, c) <==> Overtaken(events, b, c - 1) || events[c - 1].BeginLoad?;
    }
  }

  /** How far a load has come. */
  function Rank(p: Phase): nat {
    match p
    case Loading => 0
    case Loaded(_) => 1
    case Completed(_, _) => 2
    case Returned(_, _, _) => 3
  }

  /** A load only moves on: what it found and what its completion decided stay, and so
      does the first reason of its caller. */
  ghost predicate MovedOn(before: Load, after: Load) {
    && after.endpointID == before.endpointID && Rank(before.phase) <= Rank(after.phase)
    && (before.gaveUp.Some? ==> after.gaveUp == before.gaveUp)
    && (!before.phase.Loading? ==> after.phase.loaded == before.phase.loaded)
    && (before.phase.Completed? || before.phase.Returned? ==> after.phase.current == before.phase.current)
  }

  lemma NextMovesOn(sys: System, e: Event, k: nat)
    requires Enabled(sys, e) && k < |sys.loads|
    ensures k < |Next(sys, e).loads| && MovedOn(sys.loads[k], Next(sys, e).loads[k])
  {
  }

  lemma {:induction false} LoadMovesOn(states: seq<System>, events: seq<Event>, k: nat, m: nat, n: nat)
    requires Run(states, events) && m <= n < |states| && k < |states[m].loads|
    ensures k < |states[n].loads| && MovedOn(states[m].loads[k], states[n].loads[k])
  {
    if m < n {
      LoadMovesOn(states, events, k, m, n - 1);
      NextMovesOn(states[n - 1], events[n - 1], k);
    }
  }

  /** Load `k` began at `b`, had its replies at `p`, completed at `c` and returned at `r`. */
  ghost predicate Course(states: seq<System>, events: seq<Event>, k: nat, b: nat, p: nat, c: nat, r: nat)
    requires |states| == |events| + 1
  {
    && b < p < c < r < |events| && k == |states[b].loads| && events[b].BeginLoad?
    && events[p].ReplyTo? && events[p].k == k && events[c] == CompleteLoad(k) && events[r] == ReturnFrom(k)
  }

  lemma CourseIsTaken(states: seq<System>, events: seq<Event>, k: nat, b: nat, p: nat, c: nat, r: nat)
    requires Run(states, events) && Course(states, events, k, b, p, c, r)
    ensures k < |states[p].s.ctxs| && k < |states[c].s.ctxs| && k < |states[r].loads| && k < |states[r].s.ctxs| && k < |states[r + 1].loads|
    ensures states[r].loads[k].endpointID == events[b].endpointID
    ensures states[r].loads[k].phase ==
            Completed(!Overtaken(events, b, c), LoadedFrom(events[b].endpointID, events[p].refused, events[p].replies, states[p].s.ctxs[k]))
    ensures states[r + 1].loads[k].phase.Returned?
    ensures states[r + 1].loads[k].phase.result ==
            Finish(states[r].s, k, states[r].loads[k].phase.current, states[r].loads[k].phase.loaded).1
  {
    assert Enabled(states[p], events[p]) && states[p + 1] == Next(states[p], events[p]);
    assert Enabled(states[c], events[c]) && states[c + 1] == Next(states[c], events[c]);
    assert Enabled(states[r], events[r]) && states[r + 1] == Next(states[r], events[r]);
    InvHolds(states, events, c);
    NewestUntilOvertaken(states, events, b, p);
    NewestUntilOvertaken(states, events, b, c);
    LoadMovesOn(states, events, k, p, p + 1);
    LoadMovesOn(states, events, k, p + 1, r);
    LoadMovesOn(states, events, k, c + 1, r);
  }

  /** A load not overtaken before its completion keeps the context it was given. */
  lemma ContextIsTheCallers(states: seq<System>, events: seq<Event>, k: nat, b: nat, p: nat, c: nat, r: nat)
    requires Run(states, events) && Course(states, events, k, b, p, c, r) && !Overtaken(events, b, c)
    ensures k < |states[p].loads| && k < |states[p].s.ctxs| && states[p].s.ctxs[k] == FromText(states[p].loads[k].gaveUp)
    ensures k < |states[r].loads| && k < |states[r].s.ctxs| && states[r].s.ctxs[k] == FromText(states[r].loads[k].gaveUp)
    ensures states[p].loads[k].gaveUp.Some? ==> states[r].loads[k].gaveUp == states[p].loads[k].gaveUp
  {
    CourseIsTaken(states, events, k, b, p, c, r);
    assert Enabled(states[p], events[p]);
    NewestUntilOvertaken(states, events, b, p);
    assert forall i :: b < i < p && events[i].BeginLoad? ==> Overtaken(events, b, c);
    assert !Overtaken(events, b, p);
    InvHolds(states, events, p);
    InvHolds(states, events, r);
    assert LoadInv(states[p], k) && LoadInv(states[r], k);
    LoadMovesOn(states, events, k, p, r);
  }

  /** What a load gives that was not given up: nothing for a malformed ID, a refusal, or a
      record of another endpoint, and otherwise a view of its own replies. */
  ghost predicate GivesWhatItFound(result: Result<View, LoadError>, id: string, refused: Option<string>, r: Replies) {
    if id == "" || IsSpace(id[0]) || IsSpace(id[|id| - 1]) then result == Failure(InvalidSelection)
    else if refused.Some? then result == Failure(Refused(refused.value))
    else if r.endpointErr.Some? then result == Failure(Refused(r.endpointErr.value))
    else if r.endpoint.id != id then result == Failure(WrongEndpoint)
    else result.Success? && ShowsOwn(result.value, r, id)
  }

  lemma FoundIsGiven(id: string, refused: Option<string>, r: Replies)
    ensures GivesWhatItFound(LoadedFrom(id, refused, r, None), id, refused, r)
  {
    TrimSpaceKeeps(id);
    ViewShowsItsOwnReplies(r, id, None);
  }

  /** A load is told it is obsolete exactly when another began before it completed. If none
      did, it fails with the first reason of its caller, if there was one by its return, and
      otherwise gives what it found. */
  lemma ObsoleteExactlyWhenOvertaken(states: seq<System>, events: seq<Event>, k: nat, b: nat, p: nat, c: nat, r: nat)
    requires Run(states, events) && Course(states, events, k, b, p, c, r)
    ensures k < |states[r].loads| && k < |states[r + 1].loads| && states[r + 1].loads[k].phase.Returned?
    ensures
      var result, gaveUp := states[r + 1].loads[k].phase.result, states[r].loads[k].gaveUp;
      && (result == Failure(Obsolete) <==> Overtaken(events, b, c))
      && (!Overtaken(events, b, c) && gaveUp.Some? ==> result == Failure(Cancelled(FromCaller(gaveUp.value))))
      && (!Overtaken(events, b, c) && gaveUp.None? ==>
            GivesWhatItFound(result, events[b].endpointID, events[p].refused, events[p].replies))
  {
    CourseIsTaken(states, events, k, b, p, c, r);
    if !Overtaken(events, b, c) {
      ContextIsTheCallers(states, events, k, b, p, c, r);
      FoundIsGiven(events[b].endpointID, events[p].refused, events[p].replies);
    }
  }

  /** Whatever happens, a view that is given is of the endpoint asked for. */
  lemma ViewIsOfTheEndpoint(states: seq<System>, events: seq<Event>, n: nat, k: nat)
    requires Run(states, events) && n < |states| && k < |states[n].loads| && states[n].loads[k].phase.Returned?
    requires states[n].loads[k].phase.result.Success?
    ensures Belongs(states[n].loads[k].phase.result.value, states[n].loads[k].endpointID)
  {
    InvHolds(states, events, n);
    assert LoadInv(states[n], k);
  }

  /** A load that has not completed when another begins is cancelled by then. */
  lemma OvertakenIsCancelled(states: seq<System>, events: seq<Event>, n: nat, k: nat)
    requires Run(states, events) && n < |states| && k + 1 < |states[n].loads|
    ensures k < |states[n].s.ctxs|
    ensures Rank(states[n].loads[k].phase) < 2 ==> states[n].s.ctxs[k].Some?
  {
    InvHolds(states, events, n);
    assert LoadInv(states[n], k);
  }

  /** A load that returns a view completed before any later one began. */
  lemma LoadsAreShownInOrder(states: seq<System>, events: seq<Event>, k: nat, b: nat, p: nat, c: nat, r: nat, later: nat)
    requires Run(states, events) && Course(states, events, k, b, p, c, r)
    requires b < later < |events| && events[later].BeginLoad?
    requires k < |states[r + 1].loads| && states[r + 1].loads[k].phase.Returned? && states[r + 1].loads[k].phase.result.Success?
    ensures c < later
  {
    assert b < later < c ==> Overtaken(events, b, c);
    ObsoleteExactlyWhenOvertaken(states, events, k, b, p, c, r);
  }
}
