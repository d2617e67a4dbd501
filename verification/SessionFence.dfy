/** Switching connection profiles (desktop/session_manager.go). Each section under
    the lock is one method and one atomic step; the lemmas quantify over every
    interleaving of any number of switches, cancellations and actions. */
module SessionFence {
  import opened Common
  import opened Contexts

  datatype Status = Disconnected | Connecting | Connected | ConnectionFailed

  datatype Identity = Identity(operatorID: string, roles: seq<string>)

  datatype LocalState = LocalState(selectedEndpoint: string, overlay: string, transientResult: string)

  const NO_LOCAL := LocalState("", "", "")

  datatype SessionState = SessionState(
    profile: string,
    status: Status,
    identity: Option<Identity>,
    workspace: seq<string>,
    local: LocalState,
    connectionError: string)

  datatype Session = Session(identity: Identity, workspace: seq<string>, client: Option<nat>)

  /** The value of a manager. Contexts are numbered in the order of creation, and
      `ctxs` holds the cause of each that has been cancelled. */
  datatype Manager = Manager(
    generation: nat,
    cancel: Option<nat>,
    client: Option<nat>,
    sessionCtx: Option<nat>,
    state: SessionState,
    ctxs: seq<Option<Cause>>)

  const INITIAL := Manager(0, None, None, None, SessionState("", Disconnected, None, [], NO_LOCAL, ""), [])

  function CauseText(c: Cause): string {
    match c
    case Superseded => "obsolete profile switch"
    case Canceled => "context canceled"
    case FromCaller(reason) => reason
  }

  function Begin(m: Manager, profile: string, inherited: Option<Cause>): Manager {
    var ctxs := if m.cancel.Some? then CancelCtx(m.ctxs, m.cancel.value, Superseded) else m.ctxs;
    Manager(m.generation + 1, Some(|m.ctxs|), None, None,
            SessionState(profile, Connecting, None, [], NO_LOCAL, ""), ctxs + [inherited])
  }

  datatype SwitchError = Obsolete | Failed(message: string)

  function Fail(m: Manager, ctx: nat, message: string): Manager {
    m.(cancel := None, ctxs := CancelCtx(m.ctxs, ctx, Canceled),
       state := m.state.(status := ConnectionFailed, connectionError := message))
  }

  function Complete(m: Manager, generation: nat, ctx: nat, reply: Result<Session, string>): (Manager, Option<SwitchError>)
    requires ctx < |m.ctxs|
  {
    if generation != m.generation then
      (m.(ctxs := CancelCtx(m.ctxs, ctx, Superseded)), Some(Obsolete))
    else if reply.Failure? then
      (Fail(m, ctx, reply.error), Some(Failed(reply.error)))
    else if m.ctxs[ctx].Some? then
      (Fail(m, ctx, CauseText(m.ctxs[ctx].value)), Some(Failed(CauseText(m.ctxs[ctx].value))))
    else
      (m.(client := reply.value.client, sessionCtx := Some(ctx),
          state := m.state.(status := Connected, identity := Some(reply.value.identity), workspace := reply.value.workspace)),
       None)
  }

  function UpdateLocal(m: Manager, local: LocalState): Manager {
    if m.state.status != Connected then m else m.(state := m.state.(local := local))
  }

  // ------------------------------------------------------------- the manager

  class SessionManager {
    var generation: nat
    var cancel: Context?
    var client: Option<nat>
    var sessionCtx: Context?
    var state: SessionState
    ghost var contexts: seq<Context>

    ghost predicate Valid()
      reads this, contexts
    {
      Numbered(contexts) && IsOneOf(cancel, contexts) && IsOneOf(sessionCtx, contexts)
    }

    ghost function Value(): Manager
      reads this, contexts
    {
      Manager(generation,
              if cancel == null then None else Some(cancel.number),
              client,
              if sessionCtx == null then None else Some(sessionCtx.number),
              state,
              Causes(contexts))
    }

    constructor ()
      ensures Valid() && Value() == INITIAL
    {
      generation := 0;
      cancel, sessionCtx := null, null;
      client := None;
      state := SessionState("", Disconnected, None, [], NO_LOCAL, "");
      contexts := [];
    }

    /** The first locked section of SwitchProfile. */
    method BeginSwitch(profile: string, inherited: Option<Cause>) returns (mine: nat, ctx: Context)
      requires Valid()
      modifies this, contexts
      ensures Valid() && Value() == Begin(old(Value()), profile, inherited)
      ensures mine == generation && contexts == old(contexts) + [ctx] && fresh(ctx)
    {
      ctx := new Context(|contexts|, inherited);
      if cancel != null {
        cancel.Cancel(Superseded);
      }
      generation := generation + 1;
      mine := generation;
      cancel := ctx;
      client := None;
      sessionCtx := null;
      state := SessionState(profile, Connecting, None, [], NO_LOCAL, "");
      contexts := contexts + [ctx];
      assert Value().ctxs == Begin(old(Value()), profile, inherited).ctxs;
    }

    /** The second locked section of SwitchProfile, after the connector returned. */
    method CompleteSwitch(mine: nat, ctx: Context, reply: Result<Session, string>) returns (err: Option<SwitchError>)
      requires Valid() && ctx in contexts
      modifies this, contexts
      ensures Valid() && contexts == old(contexts)
      ensures (Value(), err) == Complete(old(Value()), mine, ctx.number, reply)
    {
      if mine != generation {
        ctx.Cancel(Superseded);
        assert Causes(contexts) == CancelCtx(old(Causes(contexts)), ctx.number, Superseded);
        return Some(Obsolete);
      }
      var cause := ctx.cause;
      if reply.Failure? {
        FailSwitch(ctx, reply.error);
        return Some(Failed(reply.error));
      }
      if cause.Some? {
        FailSwitch(ctx, CauseText(cause.value));
        return Some(Failed(CauseText(cause.value)));
      }
      state := state.(status := Connected, identity := Some(reply.value.identity), workspace := reply.value.workspace);
      client := reply.value.client;
      sessionCtx := ctx;
      assert Causes(contexts) == old(Causes(contexts));
      return None;
    }

    method FailSwitch(ctx: Context, message: string)
      requires Valid() && ctx in contexts
      modifies this, contexts
      ensures Valid() && contexts == old(contexts)
      ensures Value() == Fail(old(Value()), ctx.number, message)
    {
      cancel := null;
      ctx.Cancel(Canceled);
      state := state.(status := ConnectionFailed, connectionError := message);
      assert Causes(contexts) == CancelCtx(old(Causes(contexts)), ctx.number, Canceled);
    }

    /** The first read section of ExecuteAuthenticatedAction. */
    method CaptureSession() returns (usedClient: Option<nat>, ctx: Context?, mine: nat)
      requires Valid()
      ensures ctx != null <==> Capture(Value()).Some?
      ensures ctx != null ==>
        ctx in contexts && usedClient.Some? && Capture(Value()) == Some(Ticket(usedClient.value, ctx.number, mine))
    {
      if state.status != Connected || client.None? || sessionCtx == null {
        return None, null, 0;
      }
      return client, sessionCtx, generation;
    }

    /** Its last read section, and the error it then returns. */
    method FinishAction(usedClient: nat, ctx: Context, mine: nat,
                        before: Option<Cause>, after: Option<Cause>, failure: Option<string>)
        returns (err: Option<ActionError>)
      ensures err == ActionResult(before, after, StillCurrent(Value(), Ticket(usedClient, ctx.number, mine)), failure)
    {
      if before.Some? {
        return Some(Cancelled(before.value));
      }
      if after.Some? {
        return Some(Cancelled(after.value));
      }
      var stillCurrent := mine == generation && state.status == Connected && client == Some(usedClient);
      if !stillCurrent {
        return Some(ObsoleteAction);
      }
      return if failure.Some? then Some(ActionFailed(failure.value)) else None;
    }

    method UpdateLocalState(local: LocalState) returns (ok: bool)
      requires Valid()
      modifies this`state
      ensures Valid() && Value() == UpdateLocal(old(Value()), local)
      ensures ok <==> old(state).status == Connected
    {
      if state.status != Connected {
        return false;
      }
      state := state.(local := local);
      return true;
    }
  }

  // ------------------------------------------------------------ interleavings

  /** How a call of SwitchProfile ended: what its connector replied, and the first reason
      its caller had given by then for giving up. */
  datatype Outcome = Outcome(reply: Result<Session, string>, gaveUp: Option<string>)

  /** Call `k` took generation `k + 1` and context `k`. */
  datatype Call = Call(profile: string, gaveUp: Option<string>, outcome: Option<Outcome>)

  /** `local` is the local state last written while the newest call was connected. */
  datatype System = System(m: Manager, calls: seq<Call>, local: LocalState)

  const START := System(INITIAL, [], NO_LOCAL)

  datatype Event =
    | BeginCall(profile: string, gaveUp: Option<string>)
    | CompleteCall(k: nat, reply: Result<Session, string>)
    | CallerGivesUp(k: nat, reason: string)
    | WriteLocal(local: LocalState)

  predicate Enabled(s: System, e: Event) {
    e.CompleteCall? ==> e.k < |s.calls| && s.calls[e.k].outcome.None? && |s.calls| == |s.m.ctxs|
  }

  /** The first reason counts. */
  function GiveUp(c: Call, reason: string): Call {
    if c.gaveUp.None? then c.(gaveUp := Some(reason)) else c
  }

  predicate SessionUp(calls: seq<Call>) {
    && calls != []
    && var last := calls[|calls| - 1];
       last.outcome.Some? && last.outcome.value.reply.Success? && last.outcome.value.gaveUp.None?
  }

  function Next(s: System, e: Event): System
    requires Enabled(s, e)
  {
    match e
    case BeginCall(profile, gaveUp) =>
      System(Begin(s.m, profile, FromText(gaveUp)), s.calls + [Call(profile, gaveUp, None)], NO_LOCAL)
    case CompleteCall(k, reply) =>
      var call := s.calls[k];
      System(Complete(s.m, k + 1, k, reply).0,
             s.calls[k := call.(outcome := Some(Outcome(reply, call.gaveUp)))], s.local)
    case CallerGivesUp(k, reason) =>
      System(s.m.(ctxs := CancelCtx(s.m.ctxs, k, FromCaller(reason))),
             if k < |s.calls| then s.calls[k := GiveUp(s.calls[k], reason)] else s.calls, s.local)
    case WriteLocal(local) =>
      System(UpdateLocal(s.m, local), s.calls, if SessionUp(s.calls) then local else s.local)
  }

  ghost predicate Run(states: seq<System>, events: seq<Event>) {
    && |states| == |events| + 1 && states[0] == START
    && forall k :: 0 <= k < |events| ==> Enabled(states[k], events[k]) && states[k + 1] == Next(states[k], events[k])
  }

  /** What the newest call makes of the state: nothing older has a part in it. */
  function Shown(calls: seq<Call>, local: LocalState): SessionState {
    if calls == [] then SessionState("", Disconnected, None, [], NO_LOCAL, "")
    else
      var call := calls[|calls| - 1];
      if call.outcome.None? then SessionState(call.profile, Connecting, None, [], NO_LOCAL, "")
      else
        match call.outcome.value
        case Outcome(Failure(message), _) => SessionState(call.profile, ConnectionFailed, None, [], NO_LOCAL, message)
        case Outcome(Success(_), Some(reason)) => SessionState(call.profile, ConnectionFailed, None, [], NO_LOCAL, reason)
        case Outcome(Success(session), None) =>
          SessionState(call.profile, Connected, Some(session.identity), session.workspace, local, "")
  }

  function SessionOf(calls: seq<Call>): Session
    requires SessionUp(calls)
  {
    calls[|calls| - 1].outcome.value.reply.value
  }

  ghost predicate ShowsNewest(s: System) {
    && s.m.state == Shown(s.calls, s.local)
    && s.m.client == (if SessionUp(s.calls) then SessionOf(s.calls).client else None)
    && s.m.sessionCtx == (if SessionUp(s.calls) then Some(|s.calls| - 1) else None)
    && (!SessionUp(s.calls) ==> s.local == NO_LOCAL)
  }

  /** Every older context is cancelled; the newest one is cancelled by its caller only,
      until its call fails. */
  ghost predicate Fenced(s: System) {
    && s.m.generation == |s.calls| == |s.m.ctxs|
    && (forall k :: 0 <= k < |s.calls| - 1 ==> s.m.ctxs[k].Some?)
    && (s.calls != [] ==>
          var last := |s.calls| - 1;
          if s.calls[last].outcome.None? || SessionUp(s.calls)
          then s.m.cancel == Some(last) && s.m.ctxs[last] == FromText(s.calls[last].gaveUp)
          else s.m.cancel == None && s.m.ctxs[last].Some?)
    && (s.calls == [] ==> s.m.cancel == None)
  }

  lemma NextKeepsFence(s: System, e: Event)
    requires Fenced(s) && ShowsNewest(s) && Enabled(s, e)
    ensures Fenced(Next(s, e))
  {
  }

  lemma NextKeepsShown(s: System, e: Event)
    requires Fenced(s) && ShowsNewest(s) && Enabled(s, e)
    ensures ShowsNewest(Next(s, e))
  {
  }

  /** A call connects, and is told so, if and only if it is the newest, its connector gave a
      session and its caller had not given up. Only a newest call fails, with the connector's
      message or else its caller's reason; an older one is told it is obsolete, and changes
      nothing at all. */
  lemma CompletionIsToldTruly(states: seq<System>, events: seq<Event>, n: nat, k: nat, reply: Result<Session, string>)
    requires Run(states, events) && n < |states| && Enabled(states[n], CompleteCall(k, reply))
    ensures
      var s := states[n];
      var err := Complete(s.m, k + 1, k, reply).1;
      var after := Next(s, CompleteCall(k, reply));
      && (err == None <==> k == |s.calls| - 1 && reply.Success? && s.calls[k].gaveUp.None?)
      && (err == None <==> k == |s.calls| - 1 && after.m.state.status == Connected)
      && (err == Some(Obsolete) <==> k != |s.calls| - 1)
      && (err == Some(Obsolete) ==> after.m == s.m)
      && (err.Some? && err.value.Failed? ==>
            err.value.message == (if reply.Failure? then reply.error else s.calls[k].gaveUp.value)
            && after.m.state.status == ConnectionFailed && after.m.state.connectionError == err.value.message)
  {
    LatestProfileWins(states, events, n);
  }

  /** In every run the state is what the newest call makes of it, and every older context
      is cancelled. So connected means, and is reached exactly when, the newest call got a
      session before its caller gave up. */
  lemma {:induction false} LatestProfileWins(states: seq<System>, events: seq<Event>, k: nat)
    requires Run(states, events) && k < |states|
    ensures Fenced(states[k]) && ShowsNewest(states[k])
  {
    if k > 0 {
      LatestProfileWins(states, events, k - 1);
      NextKeepsFence(states[k - 1], events[k - 1]);
      NextKeepsShown(states[k - 1], events[k - 1]);
    }
  }

  // ------------------------------------------------------- authenticated actions

  /** What an action takes with it from the first read section. */
  datatype Ticket = Ticket(client: nat, sessionCtx: nat, generation: nat)

  datatype ActionError = NotConnected | Cancelled(cause: Cause) | ObsoleteAction | ActionFailed(message: string)

  function Capture(m: Manager): Option<Ticket> {
    if m.state.status != Connected || m.client.None? || m.sessionCtx.None? then None
    else Some(Ticket(m.client.value, m.sessionCtx.value, m.generation))
  }

  predicate StillCurrent(m: Manager, t: Ticket) {
    t.generation == m.generation && m.state.status == Connected && m.client == Some(t.client)
  }

  /** `before` is the caller's cause when the action would start and `after` the cause of
      the action's own context when it returned. */
  function ActionResult(before: Option<Cause>, after: Option<Cause>, current: bool, failure: Option<string>): Option<ActionError> {
    if before.Some? then Some(Cancelled(before.value))
    else if after.Some? then Some(Cancelled(after.value))
    else if !current then Some(ObsoleteAction)
    else if failure.Some? then Some(ActionFailed(failure.value))
    else None
  }

  ghost predicate NoSwitch(events: seq<Event>, i: nat, j: nat)
    requires i <= j <= |events|
  {
    forall k :: i <= k < j ==> !events[k].BeginCall?
  }

  lemma NextGeneration(s: System, e: Event)
    requires Enabled(s, e)
    ensures Next(s, e).m.generation == s.m.generation + if e.BeginCall? then 1 else 0
  {
  }

  lemma {:induction false} GenerationCountsSwitches(states: seq<System>, events: seq<Event>, i: nat, j: nat)
    requires Run(states, events) && i <= j < |states|
    ensures states[i].m.generation <= states[j].m.generation
    ensures states[i].m.generation == states[j].m.generation <==> NoSwitch(events, i, j)
  {
    if i < j {
      GenerationCountsSwitches(states, events, i, j - 1);
      NextGeneration(states[j - 1], events[j - 1]);
      assert NoSwitch(events, i, j) <==> NoSwitch(events, i, j - 1) && !events[j - 1].BeginCall?;
    }
  }

  /** While no switch starts, a connected session stays exactly as it was. */
  lemma {:induction false} ConnectedSessionStays(states: seq<System>, events: seq<Event>, i: nat, j: nat)
    requires Run(states, events) && i <= j < |states|
    requires states[i].m.state.status == Connected && NoSwitch(events, i, j)
    ensures states[j].m.client == states[i].m.client && states[j].m.sessionCtx == states[i].m.sessionCtx
    ensures states[j].m.state == states[i].m.state.(local := states[j].m.state.local)
  {
    if i < j {
      ConnectedSessionStays(states, events, i, j - 1);
      LatestProfileWins(states, events, j - 1);
      assert Enabled(states[j - 1], events[j - 1]) && states[j] == Next(states[j - 1], events[j - 1]);
    }
  }

  /** An action starts exactly while the newest call is connected and has a client, and
      takes that client with it. */
  lemma CapturedIsTheSession(states: seq<System>, events: seq<Event>, i: nat)
    requires Run(states, events) && i < |states|
    ensures
      var calls := states[i].calls;
      Capture(states[i].m) ==
        if SessionUp(calls) && SessionOf(calls).client.Some?
        then Some(Ticket(SessionOf(calls).client.value, |calls| - 1, |calls|)) else None
  {
    LatestProfileWins(states, events, i);
  }

  /** An action captured at `i`, returning at `c` and checked at `j` gives its own result
      exactly when it was not cancelled and no switch of profile started from `i` to `j`;
      then the session it used is still the session shown. Otherwise it gives the cause, or
      says that it is obsolete. The one thing assumed of the action's context is that it is
      cancelled with the session's context. */
  lemma StaleResultsAreNeverDelivered(states: seq<System>, events: seq<Event>, i: nat, c: nat, j: nat,
                                      before: Option<Cause>, after: Option<Cause>, failure: Option<string>)
    requires Run(states, events) && i <= c <= j < |states|
    requires Capture(states[i].m).Some?
    requires
      var ctx := Capture(states[i].m).value.sessionCtx;
      ctx < |states[c].m.ctxs| ==> states[c].m.ctxs[ctx].Some? ==> after.Some?
    ensures
      var t := Capture(states[i].m).value;
      && (!NoSwitch(events, i, c) ==> after.Some?)
      && (NoSwitch(events, i, j) ==>
          && states[j].m.state == states[i].m.state.(local := states[j].m.state.local)
          && Capture(states[j].m) == Some(t))
      && ActionResult(before, after, StillCurrent(states[j].m, t), failure) ==
           if before.Some? then Some(Cancelled(before.value))
           else if after.Some? then Some(Cancelled(after.value))
           else if !NoSwitch(events, i, j) then Some(ObsoleteAction)
           else if failure.Some? then Some(ActionFailed(failure.value))
           else None
  {
    GenerationCountsSwitches(states, events, i, j);
    GenerationCountsSwitches(states, events, i, c);
    LatestProfileWins(states, events, i);
    LatestProfileWins(states, events, c);
    if NoSwitch(events, i, j) {
      ConnectedSessionStays(states, events, i, j);
    }
  }
}
