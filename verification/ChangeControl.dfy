/** Change control (desktop/change_control_service.go): at most one request of a kind for
    a target at a time, and a reviewed baseline adoption plan that is used once. */
module ChangeControl {
  import opened Common
  import opened Text

  datatype Action = Authorize | Pause | Resume | Revoke | PromoteBaseline | AdoptBaseline

  function Name(a: Action): string {
    match a
    case Authorize => "authorize"
    case Pause => "pause"
    case Resume => "resume"
    case Revoke => "revoke"
    case PromoteBaseline => "baseline-promote"
    case AdoptBaseline => "baseline-adopt"
  }

  function Key(a: Action, target: string): string {
    Name(a) + [NUL] + target
  }

  lemma SeparatorIsUnambiguous(a: string, s: string, b: string, t: string)
    requires NUL !in a && NUL !in b && a + [NUL] + s == b + [NUL] + t
    ensures a == b && s == t
  {
    var whole := a + [NUL] + s;
    assert whole[|a|] == NUL && whole[|b|] == NUL;
    assert forall i :: 0 <= i < |a| ==> whole[i] == a[i];
    assert forall i :: 0 <= i < |b| ==> whole[i] == b[i];
    assert |a| == |b|;
    assert a == whole[..|a|] && s == whole[|a| + 1..];
  }

  /** A key stands for one action on one target, whatever the target contains. */
  lemma KeyIsInjective(a: Action, s: string, b: Action, t: string)
    ensures Key(a, s) == Key(b, t) <==> a == b && s == t
  {
    if Key(a, s) == Key(b, t) {
      SeparatorIsUnambiguous(Name(a), s, Name(b), t);
      assert |Name(a)| == |Name(b)| && Name(a)[|Name(a)| - 2] == Name(b)[|Name(b)| - 2];
    }
  }

  // ------------------------------------------------------------- the service

  datatype Plan = Plan(id: string, fleet: string)

  datatype Control = Control(inflight: set<string>, pending: Option<Plan>)

  function Enter(c: Control, a: Action, target: string): (Control, bool) {
    if Key(a, target) in c.inflight then (c, false)
    else (c.(inflight := c.inflight + {Key(a, target)}), true)
  }

  function Leave(c: Control, a: Action, target: string): Control {
    c.(inflight := c.inflight - {Key(a, target)})
  }

  /** What creating the plan leaves: the plan is spent, unless another took its place. */
  function Spend(c: Control, planID: string): Control {
    if c.pending.Some? && c.pending.value.id == planID then c.(pending := None) else c
  }

  datatype Reply = Refused | Created(id: string, fleet: string)

  predicate Accepted(r: Reply, fleet: string) {
    r.Created? && r.id != "" && r.fleet == fleet
  }

  class ChangeControlService {
    var inflight: set<string>
    var pendingAdoption: Option<Plan>

    ghost function Value(): Control
      reads this
    {
      Control(inflight, pendingAdoption)
    }

    constructor ()
      ensures Value() == Control({}, None)
    {
      inflight, pendingAdoption := {}, None;
    }

    method Clear()
      modifies this`pendingAdoption
      ensures Value() == old(Value()).(pending := None)
    {
      pendingAdoption := None;
    }

    method ChooseBaselineAdoptionPlan(fleet: string, planID: string) returns (preview: Plan)
      modifies this`pendingAdoption
      ensures preview == Plan(planID, fleet)
      ensures Value() == old(Value()).(pending := Some(preview))
    {
      preview := Plan(planID, fleet);
      pendingAdoption := Some(preview);
    }

    method BeginAction(a: Action, target: string) returns (ok: bool)
      modifies this`inflight
      ensures (Value(), ok) == Enter(old(Value()), a, target)
    {
      var key := Key(a, target);
      if key in inflight {
        return false;
      }
      inflight := inflight + {key};
      return true;
    }

    method Release(a: Action, target: string)
      modifies this`inflight
      ensures Value() == Leave(old(Value()), a, target)
    {
      inflight := inflight - {Key(a, target)};
    }

    method PlanMatches(planID: string, fleet: string) returns (ok: bool)
      ensures ok <==> pendingAdoption == Some(Plan(planID, fleet))
    {
      var pending := pendingAdoption;
      if pending.None? || pending.value.id != planID || pending.value.fleet != fleet {
        return false;
      }
      return true;
    }

    method SpendPlan(planID: string)
      modifies this`pendingAdoption
      ensures Value() == Spend(old(Value()), planID)
    {
      if pendingAdoption.Some? && pendingAdoption.value.id == planID {
        pendingAdoption := None;
      }
    }
  }

  // ------------------------------------------------------------ interleavings

  /** Where a request is between its steps. Only adoptions pass Checked and Made. */
  datatype Phase = Rejected | Begun | Checked | Made | Ended(ok: bool) | Released(ok: bool)

  datatype Request = Request(action: Action, target: string, planID: string, phase: Phase)

  datatype System = System(c: Control, requests: seq<Request>, issued: map<string, string>)

  const START := System(Control({}, None), [], map[])

  datatype Event =
    | Choose(planID: string, fleet: string)
    | ClearPlan
    | Start(action: Action, target: string, planID: string)
    | Check(k: nat)
    | Answer(k: nat, reply: Reply)
    | Finish(k: nat, ok: bool)
    | Leaves(k: nat)

  predicate InPhase(s: System, k: nat, p: Phase) {
    k < |s.requests| && s.requests[k].phase == p
  }

  /** A plan ID is 128 random bits: it is taken to be one never issued before. `Finish`
      is the last locked section of an adoption, and the whole work of any other action. */
  predicate Enabled(s: System, e: Event) {
    match e
    case Choose(planID, _) => planID !in s.issued
    case ClearPlan => true
    case Start(_, _, _) => true
    case Check(k) => InPhase(s, k, Begun) && s.requests[k].action == AdoptBaseline
    case Answer(k, _) => InPhase(s, k, Checked)
    case Finish(k, ok) =>
      || (InPhase(s, k, Made) && ok)
      || (InPhase(s, k, Begun) && s.requests[k].action != AdoptBaseline)
    case Leaves(k) => k < |s.requests| && s.requests[k].phase.Ended?
  }

  function Move(s: System, k: nat, p: Phase): System
    requires k < |s.requests|
  {
    s.(requests := s.requests[k := s.requests[k].(phase := p)])
  }

  function Next(s: System, e: Event): System
    requires Enabled(s, e)
  {
    match e
    case Choose(planID, fleet) =>
      s.(c := s.c.(pending := Some(Plan(planID, fleet))), issued := s.issued[planID := fleet])
    case ClearPlan => s.(c := s.c.(pending := None))
    case Start(a, target, planID) =>
      var (c, ok) := Enter(s.c, a, target);
      s.(c := c, requests := s.requests + [Request(a, target, planID, if ok then Begun else Rejected)])
    case Check(k) =>
      var r := s.requests[k];
      Move(s, k, if s.c.pending == Some(Plan(r.planID, r.target)) then Checked else Ended(false))
    case Answer(k, reply) =>
      Move(s, k, if Accepted(reply, s.requests[k].target) then Made else Ended(false))
    case Finish(k, ok) =>
      var r := s.requests[k];
      var s' := Move(s, k, Ended(ok));
      if r.action == AdoptBaseline then s'.(c := Spend(s.c, r.planID)) else s'
    case Leaves(k) =>
      var r := s.requests[k];
      Move(s, k, Released(r.phase.ok)).(c := Leave(s.c, r.action, r.target))
  }

  ghost predicate Run(states: seq<System>, events: seq<Event>) {
    && |states| == |events| + 1 && states[0] == START
    && forall k :: 0 <= k < |events| ==> Enabled(states[k], events[k]) && states[k + 1] == Next(states[k], events[k])
  }

  predicate InFlight(r: Request) {
    !r.phase.Rejected? && !r.phase.Released?
  }

  predicate Adopted(r: Request) {
    r.action == AdoptBaseline && (r.phase == Ended(true) || r.phase == Released(true))
  }

  /** Past its check and not failed. */
  predicate HoldsPlan(r: Request) {
    Adopted(r) || r.phase.Checked? || r.phase.Made?
  }

  function KeyOf(r: Request): string {
    Key(r.action, r.target)
  }

  ghost predicate KeysDiffer(requests: seq<Request>) {
    forall j, k :: 0 <= j < k < |requests| && InFlight(requests[j]) && InFlight(requests[k]) ==>
      KeyOf(requests[j]) != KeyOf(requests[k])
  }

  /** Requests in flight have different keys, and the set holds exactly those. */
  ghost predicate Exclusive(s: System) {
    && KeysDiffer(s.requests)
    && (forall k :: 0 <= k < |s.requests| && InFlight(s.requests[k]) ==> KeyOf(s.requests[k]) in s.c.inflight)
    && (forall key <- s.c.inflight ::
          exists k :: 0 <= k < |s.requests| && InFlight(s.requests[k]) && key == KeyOf(s.requests[k]))
  }

  ghost predicate PlansDiffer(requests: seq<Request>) {
    forall j, k :: 0 <= j < k < |requests| && HoldsPlan(requests[j]) && HoldsPlan(requests[k]) ==>
      requests[j].planID != requests[k].planID
  }

  /** No plan has two holders, and the pending plan was not adopted. */
  ghost predicate SingleUse(s: System) {
    && (s.c.pending.Some? ==> s.c.pending.value.id in s.issued && s.issued[s.c.pending.value.id] == s.c.pending.value.fleet)
    && (forall k :: 0 <= k < |s.requests| && HoldsPlan(s.requests[k]) ==>
          && s.requests[k].action == AdoptBaseline
          && s.requests[k].planID in s.issued && s.issued[s.requests[k].planID] == s.requests[k].target)
    && PlansDiffer(s.requests)
    && (forall k :: 0 <= k < |s.requests| && Adopted(s.requests[k]) && s.c.pending.Some? ==>
          s.c.pending.value.id != s.requests[k].planID)
  }

  lemma StartKeepsExclusive(s: System, e: Event)
    requires Exclusive(s) && e.Start?
    ensures Exclusive(Next(s, e))
  {
    var s' := Next(s, e);
    var n := |s.requests|;
    assert s'.requests[..n] == s.requests;
    assert KeyOf(s'.requests[n]) == Key(e.action, e.target);
    forall key <- s'.c.inflight
      ensures exists k :: 0 <= k < |s'.requests| && InFlight(s'.requests[k]) && key == KeyOf(s'.requests[k])
    {
      if key in s.c.inflight {
        var k :| 0 <= k < n && InFlight(s.requests[k]) && key == KeyOf(s.requests[k]);
        assert s'.requests[k] == s.requests[k];
      } else {
        assert InFlight(s'.requests[n]);
      }
    }
  }

  /** A step that moves request `k` on, and takes its key away just when it leaves. */
  lemma MoveKeepsExclusive(s: System, s': System, k: nat)
    requires Exclusive(s) && k < |s.requests| == |s'.requests| && InFlight(s.requests[k])
    requires s'.requests == s.requests[k := s.requests[k].(phase := s'.requests[k].phase)]
    requires InFlight(s'.requests[k]) ==> s'.c.inflight == s.c.inflight
    requires !InFlight(s'.requests[k]) ==> s'.c.inflight == s.c.inflight - {KeyOf(s.requests[k])}
    ensures Exclusive(s')
  {
    forall key <- s'.c.inflight
      ensures exists j :: 0 <= j < |s'.requests| && InFlight(s'.requests[j]) && key == KeyOf(s'.requests[j])
    {
      var j :| 0 <= j < |s.requests| && InFlight(s.requests[j]) && key == KeyOf(s.requests[j]);
      assert InFlight(s'.requests[j]) && KeyOf(s'.requests[j]) == KeyOf(s.requests[j]);
    }
  }

  lemma NextKeepsExclusive(s: System, e: Event)
    requires Exclusive(s) && Enabled(s, e)
    ensures Exclusive(Next(s, e))
  {
    match e
    case Choose(_, _) =>
    case ClearPlan =>
    case Start(_, _, _) => StartKeepsExclusive(s, e);
    case Check(k) => MoveKeepsExclusive(s, Next(s, e), k);
    case Answer(k, _) => MoveKeepsExclusive(s, Next(s, e), k);
    case Finish(k, _) => MoveKeepsExclusive(s, Next(s, e), k);
    case Leaves(k) => MoveKeepsExclusive(s, Next(s, e), k);
  }

  /** Two requests in flight for the same adoption would have the same key. */
  lemma OneInFlight(s: System, j: nat, k: nat)
    requires Exclusive(s) && j < |s.requests| && k < |s.requests| && j != k
    ensures InFlight(s.requests[j]) && InFlight(s.requests[k]) ==>
              s.requests[j].action != s.requests[k].action || s.requests[j].target != s.requests[k].target
  {
    assert InFlight(s.requests[j]) && InFlight(s.requests[k]) ==> KeyOf(s.requests[j]) != KeyOf(s.requests[k]);
  }

  lemma CheckKeepsSingleUse(s: System, e: Event)
    requires Exclusive(s) && SingleUse(s) && Enabled(s, e) && e.Check?
    ensures SingleUse(Next(s, e))
  {
    forall j | 0 <= j < |s.requests| && j != e.k && HoldsPlan(s.requests[j])
      ensures Next(s, e).requests[e.k].phase.Checked? ==> s.requests[j].planID != s.requests[e.k].planID
    {
      OneInFlight(s, j, e.k);
    }
  }

  /** A step that moves request `k` on without giving it a plan. */
  lemma MoveKeepsSingleUse(s: System, s': System, k: nat)
    requires SingleUse(s) && k < |s.requests| == |s'.requests| && s'.issued == s.issued
    requires s'.requests == s.requests[k := s.requests[k].(phase := s'.requests[k].phase)]
    requires s'.c.pending == s.c.pending || s'.c.pending == None
    requires HoldsPlan(s'.requests[k]) ==> HoldsPlan(s.requests[k])
    requires Adopted(s'.requests[k]) && !Adopted(s.requests[k]) && s'.c.pending.Some? ==>
               s'.c.pending.value.id != s.requests[k].planID
    ensures SingleUse(s')
  {
    assert PlansDiffer(s'.requests);
  }

  /** A step that leaves the plan alone and adds at most a request that holds none. */
  lemma AppendKeepsSingleUse(s: System, s': System)
    requires SingleUse(s) && s'.issued == s.issued && s'.c.pending == s.c.pending
    requires |s'.requests| == |s.requests| + 1 && s'.requests[..|s.requests|] == s.requests
    requires !HoldsPlan(s'.requests[|s.requests|])
    ensures SingleUse(s')
  {
    assert forall k :: 0 <= k < |s.requests| ==> s'.requests[k] == s'.requests[..|s.requests|][k];
  }

  lemma ChooseKeepsSingleUse(s: System, e: Event)
    requires SingleUse(s) && Enabled(s, e) && e.Choose?
    ensures SingleUse(Next(s, e))
  {
    assert PlansDiffer(s.requests);
  }

  lemma NextKeepsSingleUse(s: System, e: Event)
    requires Exclusive(s) && SingleUse(s) && Enabled(s, e)
    ensures SingleUse(Next(s, e))
  {
    match e
    case Choose(_, _) => ChooseKeepsSingleUse(s, e);
    case ClearPlan =>
    case Start(_, _, _) => AppendKeepsSingleUse(s, Next(s, e));
    case Check(_) => CheckKeepsSingleUse(s, e);
    case Answer(k, _) => MoveKeepsSingleUse(s, Next(s, e), k);
    case Finish(k, _) => MoveKeepsSingleUse(s, Next(s, e), k);
    case Leaves(k) => MoveKeepsSingleUse(s, Next(s, e), k);
  }

  lemma {:induction false} EveryInterleaving(states: seq<System>, events: seq<Event>, n: nat)
    requires Run(states, events) && n < |states|
    ensures Exclusive(states[n]) && SingleUse(states[n])
  {
    if n > 0 {
      EveryInterleaving(states, events, n - 1);
      NextKeepsExclusive(states[n - 1], events[n - 1]);
      NextKeepsSingleUse(states[n - 1], events[n - 1]);
    }
  }

  /** A request is refused as already pending exactly when one with the same action and
      target is in flight: keys neither collide nor leak. */
  lemma RefusedExactlyWhenInFlight(states: seq<System>, events: seq<Event>, n: nat)
    requires Run(states, events) && n < |events| && events[n].Start?
    ensures
      var s := states[n];
      |states[n + 1].requests| == |s.requests| + 1
      && (states[n + 1].requests[|s.requests|].phase.Rejected? <==>
            exists k :: 0 <= k < |s.requests| && InFlight(s.requests[k])
                        && s.requests[k].action == events[n].action && s.requests[k].target == events[n].target)
  {
    var s := states[n];
    EveryInterleaving(states, events, n);
    assert Enabled(s, events[n]) && states[n + 1] == Next(s, events[n]);
    if Key(events[n].action, events[n].target) in s.c.inflight {
      var k :| 0 <= k < |s.requests| && InFlight(s.requests[k])
               && Key(events[n].action, events[n].target) == Key(s.requests[k].action, s.requests[k].target);
      KeyIsInjective(events[n].action, events[n].target, s.requests[k].action, s.requests[k].target);
    }
  }

  /** A request in flight can always take a step, so its key is never stuck. */
  lemma InFlightCanStep(states: seq<System>, events: seq<Event>, n: nat, k: nat) returns (e: Event)
    requires Run(states, events) && n < |states| && k < |states[n].requests| && InFlight(states[n].requests[k])
    ensures Enabled(states[n], e) && |Next(states[n], e).requests| == |states[n].requests|
    ensures Rank(Next(states[n], e).requests[k]) < Rank(states[n].requests[k])
  {
    var r := states[n].requests[k];
    e := match r.phase
         case Begun => if r.action == AdoptBaseline then Check(k) else Finish(k, false)
         case Checked => Answer(k, Refused)
         case Made => Finish(k, true)
         case _ => Leaves(k);
  }

  function Rank(r: Request): nat {
    match r.phase
    case Begun => 4
    case Checked => 3
    case Made => 2
    case Ended(_) => 1
    case _ => 0
  }

  /** What a request asks for never changes, and it only moves on. */
  ghost predicate MovedOn(before: Request, after: Request) {
    && after == before.(phase := after.phase) && Rank(after) <= Rank(before)
    && (after.phase.Rejected? <==> before.phase.Rejected?)
  }

  lemma NextMovesOn(s: System, e: Event, k: nat)
    requires Enabled(s, e) && k < |s.requests|
    ensures k < |Next(s, e).requests| && MovedOn(s.requests[k], Next(s, e).requests[k])
  {
  }

  lemma {:induction false} RequestStays(states: seq<System>, events: seq<Event>, m: nat, n: nat, k: nat)
    requires Run(states, events) && m <= n < |states| && k < |states[m].requests|
    ensures k < |states[n].requests| && MovedOn(states[m].requests[k], states[n].requests[k])
  {
    if m < n {
      RequestStays(states, events, m, n - 1, k);
      NextMovesOn(states[n - 1], events[n - 1], k);
    }
  }

  /** The event by which request `k` passed its check, when the plan was pending for its fleet. */
  ghost predicate CheckedAt(states: seq<System>, events: seq<Event>, c: nat, k: nat)
    requires |states| == |events| + 1
  {
    && c < |events| && events[c] == Check(k) && k < |states[c].requests|
    && states[c].c.pending == Some(Plan(states[c].requests[k].planID, states[c].requests[k].target))
  }

  lemma {:induction false} HolderWasChecked(states: seq<System>, events: seq<Event>, n: nat, k: nat) returns (c: nat)
    requires Run(states, events) && n < |states| && k < |states[n].requests| && HoldsPlan(states[n].requests[k])
    ensures c < n && CheckedAt(states, events, c, k)
  {
    var e := events[n - 1];
    assert Enabled(states[n - 1], e) && states[n] == Next(states[n - 1], e);
    if e == Check(k) {
      c := n - 1;
    } else {
      c := HolderWasChecked(states, events, n - 1, k);
    }
  }

  /** A plan is adopted at most once, by a request that found it pending for its own fleet. */
  lemma PlanIsSingleUse(states: seq<System>, events: seq<Event>, n: nat, j: nat)
    requires Run(states, events) && n < |states| && j < |states[n].requests| && Adopted(states[n].requests[j])
    ensures exists c :: 0 <= c < n && CheckedAt(states, events, c, j)
                        && states[c].c.pending == Some(Plan(states[n].requests[j].planID, states[n].requests[j].target))
    ensures forall k :: 0 <= k < |states[n].requests| && Adopted(states[n].requests[k]) && k != j ==>
              states[n].requests[k].planID != states[n].requests[j].planID
    ensures states[n].c.pending.Some? ==> states[n].c.pending.value.id != states[n].requests[j].planID
  {
    EveryInterleaving(states, events, n);
    var c := HolderWasChecked(states, events, n, j);
    RequestStays(states, events, c, n, j);
  }

  /** A sent request is made by a reply that names an adoption of its own fleet, and ends
      without success by any other. */
  lemma AnswerDecides(states: seq<System>, events: seq<Event>, a: nat, k: nat, reply: Reply)
    requires Run(states, events) && a < |events| && events[a] == Answer(k, reply)
    ensures k < |states[a].requests| && k < |states[a + 1].requests|
    ensures states[a].requests[k].phase == Checked
    ensures states[a + 1].requests[k].phase ==
            if reply.Created? && reply.id != "" && reply.fleet == states[a].requests[k].target then Made else Ended(false)
  {
    assert Enabled(states[a], events[a]) && states[a + 1] == Next(states[a], events[a]);
  }

  ghost predicate AnsweredAt(states: seq<System>, events: seq<Event>, a: nat, k: nat)
    requires |states| == |events| + 1
  {
    && a < |events| && events[a].Answer? && events[a].k == k && k < |states[a].requests|
    && events[a].reply.Created? && events[a].reply.id != "" && events[a].reply.fleet == states[a].requests[k].target
  }

  /** An adoption succeeds only by such a reply, which came after its check. */
  lemma {:induction false} AdoptedWasAnswered(states: seq<System>, events: seq<Event>, n: nat, k: nat) returns (a: nat)
    requires Run(states, events) && n < |states| && k < |states[n].requests|
    requires Adopted(states[n].requests[k]) || states[n].requests[k].phase.Made?
    ensures a < n && AnsweredAt(states, events, a, k)
  {
    var e := events[n - 1];
    assert Enabled(states[n - 1], e) && states[n] == Next(states[n - 1], e);
    if e.Answer? && e.k == k {
      a := n - 1;
    } else {
      a := AdoptedWasAnswered(states, events, n - 1, k);
    }
  }

  /** And after such a reply its only end is success. */
  lemma {:induction false} AnsweredIsAdopted(states: seq<System>, events: seq<Event>, a: nat, n: nat, k: nat)
    requires Run(states, events) && a < n < |states| && AnsweredAt(states, events, a, k)
    ensures k < |states[n].requests|
    ensures states[n].requests[k].phase.Made? || states[n].requests[k].phase == Ended(true)
            || states[n].requests[k].phase == Released(true)
  {
    if n == a + 1 {
      AnswerDecides(states, events, a, k, events[a].reply);
    } else {
      AnsweredIsAdopted(states, events, a, n - 1, k);
      assert Enabled(states[n - 1], events[n - 1]) && states[n] == Next(states[n - 1], events[n - 1]);
    }
  }

  /** A plan is sent to the server again only after the request that sent it failed. */
  lemma SentAgainOnlyAfterFailure(states: seq<System>, events: seq<Event>, c: nat, k: nat, c': nat, k': nat)
    requires Run(states, events) && c < c'
    requires CheckedAt(states, events, c, k) && CheckedAt(states, events, c', k')
    requires states[c].requests[k].planID == states[c'].requests[k'].planID
    ensures k < |states[c'].requests|
    ensures states[c'].requests[k].phase == Ended(false) || states[c'].requests[k].phase == Released(false)
  {
    assert Enabled(states[c], events[c]) && states[c + 1] == Next(states[c], events[c]);
    assert Enabled(states[c'], events[c']);
    RequestStays(states, events, c + 1, c', k);
    EveryInterleaving(states, events, c');
    OneInFlight(states[c'], k, k');
  }

  /** Nobody chose another plan, or cleared it, from `a` up to `b`. */
  ghost predicate LeftAlone(events: seq<Event>, a: nat, b: nat)
    requires a <= b <= |events|
  {
    forall i :: a <= i < b ==> !events[i].Choose? && !events[i].ClearPlan?
  }

  /** The plan was pending at `n` and is left alone until `c`, or was chosen in between
      and is left alone from then on. */
  ghost predicate PendingSince(states: seq<System>, events: seq<Event>, n: nat, c: nat, plan: Plan)
    requires |states| == |events| + 1 && n <= c <= |events|
  {
    || (states[n].c.pending == Some(plan) && LeftAlone(events, n, c))
    || exists m :: n <= m < c && events[m] == Choose(plan.id, plan.fleet) && LeftAlone(events, m + 1, c)
  }

  lemma PendingSinceStep(states: seq<System>, events: seq<Event>, n: nat, c: nat, plan: Plan)
    requires |states| == |events| + 1 && n <= c < |events|
    ensures PendingSince(states, events, n, c + 1, plan) <==>
            || events[c] == Choose(plan.id, plan.fleet)
            || (PendingSince(states, events, n, c, plan) && !events[c].Choose? && !events[c].ClearPlan?)
  {
    assert events[c] == Choose(plan.id, plan.fleet) ==> LeftAlone(events, c + 1, c + 1);
    forall m | n <= m < c && events[m] == Choose(plan.id, plan.fleet)
      ensures LeftAlone(events, m + 1, c + 1) <==> LeftAlone(events, m + 1, c) && !events[c].Choose? && !events[c].ClearPlan?
    {
    }
  }

  /** While an adoption for a fleet is in flight, no other request spends a plan of that fleet. */
  lemma NobodySpends(s: System, e: Event, k: nat, plan: Plan)
    requires Exclusive(s) && SingleUse(s) && Enabled(s, e) && InPhase(s, k, Begun)
    requires s.requests[k].action == AdoptBaseline && s.requests[k].target == plan.fleet
    requires s.c.pending == Some(plan) && e.Finish?
    ensures Next(s, e).c.pending == Some(plan)
  {
    if e.k != k {
      OneInFlight(s, e.k, k);
    }
  }

  lemma PendingStep(s: System, e: Event, k: nat, plan: Plan)
    requires Exclusive(s) && SingleUse(s) && Enabled(s, e) && InPhase(s, k, Begun)
    requires s.requests[k].action == AdoptBaseline && s.requests[k].target == plan.fleet
    ensures Next(s, e).c.pending == Some(plan) <==>
            || e == Choose(plan.id, plan.fleet)
            || (s.c.pending == Some(plan) && !e.Choose? && !e.ClearPlan?)
  {
    if e.Finish? && s.c.pending == Some(plan) {
      NobodySpends(s, e, k, plan);
    }
  }

  lemma BegunUntil(states: seq<System>, events: seq<Event>, n: nat, i: nat, c: nat, k: nat)
    requires Run(states, events) && n <= i <= c < |states| && k < |states[n].requests| && InPhase(states[c], k, Begun)
    ensures InPhase(states[i], k, Begun)
  {
    RequestStays(states, events, n, i, k);
    RequestStays(states, events, i, c, k);
  }

  lemma PendingStepInRun(states: seq<System>, events: seq<Event>, n: nat, i: nat, c: nat, k: nat, plan: Plan)
    requires Run(states, events) && n <= i < c < |states|
    requires k < |states[n].requests| && InPhase(states[c], k, Begun)
    requires states[n].requests[k].action == AdoptBaseline && states[n].requests[k].target == plan.fleet
    ensures states[i + 1].c.pending == Some(plan) <==>
            || events[i] == Choose(plan.id, plan.fleet)
            || (states[i].c.pending == Some(plan) && !events[i].Choose? && !events[i].ClearPlan?)
  {
    BegunUntil(states, events, n, i, c, k);
    RequestStays(states, events, n, i, k);
    EveryInterleaving(states, events, i);
    PendingStep(states[i], events[i], k, plan);
  }

  ghost predicate PendingAsSince(states: seq<System>, events: seq<Event>, n: nat, i: nat, plan: Plan)
    requires |states| == |events| + 1 && n <= i < |states|
  {
    states[i].c.pending == Some(plan) <==> PendingSince(states, events, n, i, plan)
  }

  /** The request is an adoption for the fleet, begun by `n` and unchecked at `c`. */
  ghost predicate Awaits(states: seq<System>, n: nat, c: nat, k: nat, fleet: string)
    requires n <= c < |states|
  {
    && k < |states[n].requests| && InPhase(states[c], k, Begun)
    && states[n].requests[k].action == AdoptBaseline && states[n].requests[k].target == fleet
  }

  lemma PendingOneMore(states: seq<System>, events: seq<Event>, n: nat, i: nat, c: nat, k: nat, plan: Plan)
    requires |states| == |events| + 1 && n <= i < c < |states|
    ensures Run(states, events) && Awaits(states, n, c, k, plan.fleet) && PendingAsSince(states, events, n, i, plan) ==>
              PendingAsSince(states, events, n, i + 1, plan)
  {
    if Run(states, events) && Awaits(states, n, c, k, plan.fleet) {
      PendingSinceStep(states, events, n, i, plan);
      PendingStepInRun(states, events, n, i, c, k, plan);
    }
  }

  lemma {:induction false} PendingWhileBegun(states: seq<System>, events: seq<Event>, n: nat, i: nat, c: nat, k: nat, plan: Plan)
    requires |states| == |events| + 1 && n <= i <= c < |states|
    ensures Run(states, events) && Awaits(states, n, c, k, plan.fleet) ==> PendingAsSince(states, events, n, i, plan)
  {
    if n < i {
      PendingWhileBegun(states, events, n, i - 1, c, k, plan);
      PendingOneMore(states, events, n, i - 1, c, k, plan);
    } else {
      PendingAtFirst(states, events, n, plan);
    }
  }

  lemma PendingAtFirst(states: seq<System>, events: seq<Event>, n: nat, plan: Plan)
    requires |states| == |events| + 1 && n < |states|
    ensures PendingAsSince(states, events, n, n, plan)
  {
  }

  /** An adoption that began at `n` and was checked at `c`, whatever came in between, is
      sent exactly when its plan was pending when it began and nobody cleared or replaced
      it since, or the plan was chosen after that and nobody cleared or replaced it since.
      A failed request leaves its plan pending, so another may be sent. */
  lemma SentExactlyWhenPending(states: seq<System>, events: seq<Event>, n: nat, c: nat, planID: string, fleet: string)
    requires Run(states, events) && n < c < |events|
    requires events[n] == Start(AdoptBaseline, fleet, planID) && events[c] == Check(|states[n].requests|)
    ensures |states[n].requests| < |states[c + 1].requests|
    ensures states[c + 1].requests[|states[n].requests|].phase.Checked? <==>
            PendingSince(states, events, n, c, Plan(planID, fleet))
  {
    var k, plan := |states[n].requests|, Plan(planID, fleet);
    assert Enabled(states[n], events[n]) && states[n + 1] == Next(states[n], events[n]);
    assert Enabled(states[c], events[c]) && states[c + 1] == Next(states[c], events[c]);
    RequestStays(states, events, n + 1, c, k);
    PendingWhileBegun(states, events, n + 1, c, c, k, plan);
    PendingFromStart(states, events, n, c, plan);
  }

  /** Starting a request leaves the plan alone. */
  lemma PendingFromStart(states: seq<System>, events: seq<Event>, n: nat, c: nat, plan: Plan)
    requires Run(states, events) && n < c <= |events| && events[n].Start?
    ensures PendingSince(states, events, n + 1, c, plan) <==> PendingSince(states, events, n, c, plan)
  {
    assert Enabled(states[n], events[n]) && states[n + 1] == Next(states[n], events[n]);
    assert LeftAlone(events, n, c) <==> LeftAlone(events, n + 1, c);
  }
}
