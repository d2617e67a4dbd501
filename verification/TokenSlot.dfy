/** The one-time token a service holds until it is copied, saved or cleared
    (desktop/deployment_token_service.go, desktop/enrollment_token_service.go). */
module TokenSlot {
  import opened Common
  import opened Text

  ghost predicate IsZero(s: seq<byte>) {
    forall i :: 0 <= i < |s| ==> s[i] == 0
  }

  ghost predicate AllZero(buffers: set<array<byte>>)
    reads buffers
  {
    forall b <- buffers :: IsZero(b[..])
  }

  method ZeroBytes(value: array<byte>)
    modifies value
    ensures IsZero(value[..])
  {
    for index := 0 to value.Length
      invariant IsZero(value[..index])
    {
      value[index] := 0;
    }
    assert value[..] == value[..value.Length];
  }

  method BytesOf(s: seq<byte>) returns (a: array<byte>)
    ensures fresh(a) && a[..] == s
  {
    a := new byte[|s|](i requires 0 <= i < |s| => s[i]);
  }

  predicate LabelChar(c: char) {
    'a' <= c <= 'z' || 'A' <= c <= 'Z' || '0' <= c <= '9' || c == '-' || c == '_'
  }

  predicate ValidLabel(name: string) {
    name != "" && forall i :: 0 <= i < |name| ==> LabelChar(name[i])
  }

  /** The whole seconds that a 64-bit count of nanoseconds can hold. */
  const MAX_TTL_SECONDS: int := 0x7FFF_FFFF_FFFF_FFFF / 1_000_000_000

  /** What is asked of a creation before anything is looked at. */
  predicate ValidRequest(name: string, fleet: string, ttl: int) {
    ValidLabel(name) && fleet != "" && TrimSpace(fleet) == fleet && 0 < ttl <= MAX_TTL_SECONDS
  }

  // ------------------------------------------------------------- the services

  datatype Slot = Slot(token: seq<byte>, name: string, creating: bool)

  const EMPTY := Slot([], "", false)

  datatype Reply = Reply(token: seq<byte>, name: string, fleet: string, expires: bool)

  predicate Complete(r: Reply, name: string, fleet: string) {
    r.token != [] && r.name == name && r.fleet == fleet && r.expires
  }

  predicate Busy(s: Slot) {
    s.creating || |s.token| > 0
  }

  function Begun(s: Slot): Slot {
    s.(creating := true)
  }

  function WithReply(s: Slot, r: Reply): Slot {
    Slot(r.token, r.name, s.creating)
  }

  function Finished(s: Slot): Slot {
    s.(creating := false)
  }

  function Emptied(s: Slot): Slot {
    Slot([], "", s.creating)
  }

  datatype SlotError = Cleared | WriterFailed | InvalidLabel | NotShown | NoDestination | NotAFile

  /** `destination` is what the dialog answers: an error, "" for cancelled, or a path. */
  datatype Saved = Canceled | Written(data: seq<byte>)

  function SaveResult(s: Slot, name: string, destination: Option<string>, isFile: bool, writes: bool): Result<Saved, SlotError> {
    if !ValidLabel(name) then Failure(InvalidLabel)
    else if s.token == [] then Failure(Cleared)
    else if name != s.name then Failure(NotShown)
    else if destination.None? then Failure(NoDestination)
    else if destination.value == "" then Success(Canceled)
    else if !isFile then Failure(NotAFile)
    else if !writes then Failure(WriterFailed)
    else Success(Written(s.token + [10]))
  }

  class DeploymentTokenService {
    var token: array<byte>
    var name: string
    var creating: bool
    /** Every buffer that has left the slot. */
    ghost var retired: set<array<byte>>

    ghost predicate Valid()
      reads this, retired
    {
      token !in retired && AllZero(retired)
    }

    ghost function Value(): Slot
      reads this, token
    {
      Slot(token[..], name, creating)
    }

    constructor ()
      ensures Valid() && Value() == EMPTY && retired == {} && fresh(token)
    {
      token := new byte[0];
      name := "";
      creating := false;
      retired := {};
    }

    /** The first locked section of CreateConnected, with the checks before it. */
    method BeginCreate(wanted: string, fleet: string, ttl: int) returns (ok: bool)
      requires Valid()
      modifies this`creating
      ensures Valid() && token == old(token)
      ensures ok <==> ValidRequest(wanted, fleet, ttl) && !Busy(old(Value()))
      ensures Value() == if ok then Begun(old(Value())) else old(Value())
    {
      if !ValidLabel(wanted) {
        return false;
      }
      if fleet == "" || TrimSpace(fleet) != fleet {
        return false;
      }
      if ttl <= 0 || ttl > MAX_TTL_SECONDS {
        return false;
      }
      if creating || token.Length > 0 {
        return false;
      }
      creating := true;
      return true;
    }

    /** The second: an accepted reply goes into the slot. */
    method Store(reply: Reply)
      requires Valid()
      modifies this, token
      ensures Valid() && Value() == WithReply(old(Value()), reply)
      ensures fresh(token) && retired == old(retired) + {old(token)}
    {
      Retire();
      token := BytesOf(reply.token);
      name := reply.name;
    }

    /** The third, which a creation defers to its end. */
    method EndCreate()
      requires Valid()
      modifies this`creating
      ensures Valid() && token == old(token) && Value() == Finished(old(Value()))
    {
      creating := false;
    }

    method Clear()
      requires Valid()
      modifies this, token
      ensures Valid() && Value() == Emptied(old(Value()))
      ensures fresh(token) && retired == old(retired) + {old(token)}
    {
      Retire();
      token := new byte[0];
      name := "";
    }

    /** Wipes the buffer in the slot and takes it out. */
    method Retire()
      requires Valid()
      modifies this`token, this`retired, token
      ensures Valid() && fresh(token) && token.Length == 0 && retired == old(retired) + {old(token)}
    {
      ZeroBytes(token);
      retired := retired + {token};
      token := new byte[0];
    }

    /** `writes` says whether the clipboard takes what it is given. */
    method Copy(writes: bool) returns (result: Result<seq<byte>, SlotError>)
      requires Valid()
      ensures result == if token[..] == [] then Failure(Cleared)
                        else if writes then Success(token[..]) else Failure(WriterFailed)
    {
      if token.Length == 0 {
        return Failure(Cleared);
      }
      if !writes {
        return Failure(WriterFailed);
      }
      return Success(token[..]);
    }

    /** The temporary copy made for the file is wiped too. */
    method Save(wanted: string, destination: Option<string>, isFile: bool, writes: bool)
        returns (result: Result<Saved, SlotError>)
      requires Valid()
      ensures Valid()
      ensures result == SaveResult(Value(), wanted, destination, isFile, writes)
    {
      if !ValidLabel(wanted) {
        return Failure(InvalidLabel);
      }
      if token.Length == 0 {
        return Failure(Cleared);
      }
      if wanted != name {
        return Failure(NotShown);
      }
      if destination.None? {
        return Failure(NoDestination);
      }
      if destination.value == "" {
        return Success(Canceled);
      }
      if !isFile {
        return Failure(NotAFile);
      }
      var data := BytesOf(token[..] + [10]);
      result := if writes then Success(Written(data[..])) else Failure(WriterFailed);
      ZeroBytes(data);
    }
  }

  class EnrollmentTokenService {
    var token: array<byte>
    ghost var retired: set<array<byte>>

    ghost predicate Valid()
      reads this, retired
    {
      token !in retired && AllZero(retired)
    }

    constructor ()
      ensures Valid() && token[..] == [] && retired == {}
    {
      token := new byte[0];
      retired := {};
    }

    method Replace(value: seq<byte>)
      requires Valid()
      modifies this, token
      ensures Valid() && token[..] == value && fresh(token) && retired == old(retired) + {old(token)}
    {
      ZeroBytes(token);
      retired := retired + {token};
      token := BytesOf(value);
    }

    method Clear()
      requires Valid()
      modifies this, token
      ensures Valid() && token[..] == [] && fresh(token) && retired == old(retired) + {old(token)}
    {
      ZeroBytes(token);
      retired := retired + {token};
      token := new byte[0];
    }
  }

  // ------------------------------------------------------------ interleavings

  datatype Phase = Rejected | Creating | Failed | Stored | Ended(stored: bool)

  datatype Creation = Creation(name: string, fleet: string, phase: Phase)

  datatype System = System(slot: Slot, creations: seq<Creation>)

  const START := System(EMPTY, [])

  datatype Event =
    | Begin(name: string, fleet: string, ttl: int)
    | Fail(k: nat)
    | Answer(k: nat, reply: Reply)
    | End(k: nat)
    | ClearSlot
    | CopySlot(writes: bool)
    | SaveSlot(name: string, destination: Option<string>, isFile: bool, writes: bool)

  /** `Fail` is any failure before the reply is looked at, and a cancelled caller after. */
  predicate Enabled(s: System, e: Event) {
    match e
    case Fail(k) => k < |s.creations| && s.creations[k].phase.Creating?
    case Answer(k, _) => k < |s.creations| && s.creations[k].phase.Creating?
    case End(k) => k < |s.creations| && (s.creations[k].phase.Failed? || s.creations[k].phase.Stored?)
    case _ => true
  }

  predicate Stores(s: System, e: Event)
    requires Enabled(s, e)
  {
    e.Answer? && Complete(e.reply, s.creations[e.k].name, s.creations[e.k].fleet)
  }

  function Next(s: System, e: Event): System
    requires Enabled(s, e)
  {
    match e
    case Begin(name, fleet, ttl) =>
      if !ValidRequest(name, fleet, ttl) || Busy(s.slot) then s.(creations := s.creations + [Creation(name, fleet, Rejected)])
      else System(Begun(s.slot), s.creations + [Creation(name, fleet, Creating)])
    case Fail(k) => s.(creations := s.creations[k := s.creations[k].(phase := Failed)])
    case Answer(k, reply) =>
      if Stores(s, e) then
        System(WithReply(s.slot, reply), s.creations[k := s.creations[k].(phase := Stored)])
      else s.(creations := s.creations[k := s.creations[k].(phase := Failed)])
    case End(k) =>
      System(Finished(s.slot), s.creations[k := s.creations[k].(phase := Ended(s.creations[k].phase.Stored?))])
    case ClearSlot => s.(slot := Emptied(s.slot))
    case CopySlot(_) => s
    case SaveSlot(_, _, _, _) => s
  }

  ghost predicate Run(states: seq<System>, events: seq<Event>) {
    && |states| == |events| + 1 && states[0] == START
    && forall k :: 0 <= k < |events| ==> Enabled(states[k], events[k]) && states[k + 1] == Next(states[k], events[k])
  }

  predicate Active(c: Creation) {
    c.phase.Creating? || c.phase.Failed? || c.phase.Stored?
  }

  /** At most one creation is active, `creating` says whether one is, and until it has
      stored its token the slot is empty. */
  ghost predicate OneCreator(s: System) {
    && (forall j, k :: 0 <= j < k < |s.creations| ==> !(Active(s.creations[j]) && Active(s.creations[k])))
    && (s.slot.creating <==> exists k :: 0 <= k < |s.creations| && Active(s.creations[k]))
    && (forall k :: 0 <= k < |s.creations| && (s.creations[k].phase.Creating? || s.creations[k].phase.Failed?) ==>
          s.slot.token == [] && ValidLabel(s.creations[k].name))
    && (s.slot.token == [] <==> s.slot.name == "")
  }

  lemma NextKeepsOneCreator(s: System, e: Event)
    requires OneCreator(s) && Enabled(s, e)
    ensures OneCreator(Next(s, e))
  {
    var s' := Next(s, e);
    if s.slot.creating && !e.End? {
      var k :| 0 <= k < |s.creations| && Active(s.creations[k]);
      assert Active(s'.creations[k]);
    }
    if e.Begin? && s'.slot.creating && !s.slot.creating {
      assert Active(s'.creations[|s.creations|]);
    }
  }

  lemma {:induction false} EveryInterleaving(states: seq<System>, events: seq<Event>, n: nat)
    requires Run(states, events) && n < |states|
    ensures OneCreator(states[n])
  {
    if n > 0 {
      EveryInterleaving(states, events, n - 1);
      NextKeepsOneCreator(states[n - 1], events[n - 1]);
    }
  }

  /** No token is ever overwritten: a creation stores only into an empty slot. */
  lemma StoreFindsEmptySlot(states: seq<System>, events: seq<Event>, n: nat)
    requires Run(states, events) && n < |events|
    requires Enabled(states[n], events[n]) && Stores(states[n], events[n])
    ensures states[n].slot.token == [] && states[n].slot.name == "" && states[n].slot.creating
  {
    EveryInterleaving(states, events, n);
  }

  /** The reply stored last, unless the slot was cleared since. */
  ghost function Held(states: seq<System>, events: seq<Event>, n: nat): Option<Reply>
    requires Run(states, events) && n < |states|
  {
    if n == 0 then None
    else
      var before := states[n - 1];
      var e := events[n - 1];
      if e.ClearSlot? then None
      else if Enabled(before, e) && Stores(before, e) then Some(e.reply)
      else Held(states, events, n - 1)
  }

  /** Token and label are those of one reply, the last stored and not cleared, or both empty. */
  lemma {:induction false} SlotIsOneReply(states: seq<System>, events: seq<Event>, n: nat)
    requires Run(states, events) && n < |states|
    ensures
      match Held(states, events, n)
      case None => states[n].slot.token == [] && states[n].slot.name == ""
      case Some(reply) => states[n].slot.token == reply.token != [] && states[n].slot.name == reply.name && ValidLabel(reply.name)
  {
    if n > 0 {
      SlotIsOneReply(states, events, n - 1);
      EveryInterleaving(states, events, n - 1);
      assert Enabled(states[n - 1], events[n - 1]) && states[n] == Next(states[n - 1], events[n - 1]);
    }
  }

  /** Creation `k` began with this label and fleet. */
  ghost predicate BegunAs(states: seq<System>, events: seq<Event>, b: nat, k: nat, name: string, fleet: string)
    requires |states| == |events| + 1
  {
    b < |events| && events[b].Begin? && events[b].name == name && events[b].fleet == fleet && |states[b].creations| == k
  }

  /** What a creation asks for is what it began with. */
  lemma {:induction false} CreationStays(states: seq<System>, events: seq<Event>, n: nat, k: nat) returns (b: nat)
    requires Run(states, events) && n < |states| && k < |states[n].creations|
    ensures b < n && BegunAs(states, events, b, k, states[n].creations[k].name, states[n].creations[k].fleet)
  {
    assert Enabled(states[n - 1], events[n - 1]) && states[n] == Next(states[n - 1], events[n - 1]);
    if k < |states[n - 1].creations| {
      b := CreationStays(states, events, n - 1, k);
    } else {
      b := n - 1;
    }
  }

  lemma {:induction false} BeginningStays(states: seq<System>, events: seq<Event>, b: nat, n: nat)
    requires Run(states, events) && b < n < |states| && events[b].Begin?
    ensures |states[b].creations| < |states[n].creations|
    ensures states[n].creations[|states[b].creations|].name == events[b].name
    ensures states[n].creations[|states[b].creations|].fleet == events[b].fleet
  {
    assert Enabled(states[n - 1], events[n - 1]) && states[n] == Next(states[n - 1], events[n - 1]);
    if b < n - 1 {
      BeginningStays(states, events, b, n - 1);
    }
  }

  /** The server's answer is complete: a token that expires, for the label and the fleet
      that its creation began with. */
  ghost predicate CompleteAt(states: seq<System>, events: seq<Event>, a: nat)
    requires |states| == |events| + 1
  {
    && a < |events| && events[a].Answer? && events[a].reply.token != [] && events[a].reply.expires
    && exists b :: 0 <= b < a && BegunAs(states, events, b, events[a].k, events[a].reply.name, events[a].reply.fleet)
  }

  lemma StoresExactlyComplete(states: seq<System>, events: seq<Event>, a: nat)
    requires Run(states, events) && a < |events|
    ensures Enabled(states[a], events[a])
    ensures Stores(states[a], events[a]) <==> CompleteAt(states, events, a)
  {
    assert Enabled(states[a], events[a]);
    if events[a].Answer? {
      var b := CreationStays(states, events, a, events[a].k);
      forall c | 0 <= c < a && BegunAs(states, events, c, events[a].k, events[a].reply.name, events[a].reply.fleet)
        ensures states[a].creations[events[a].k].name == events[a].reply.name
        ensures states[a].creations[events[a].k].fleet == events[a].reply.fleet
      {
        BeginningStays(states, events, c, a);
      }
    }
  }

  ghost predicate NotCleared(events: seq<Event>, a: nat, n: nat)
    requires a <= n <= |events|
  {
    forall i :: a <= i < n ==> !events[i].ClearSlot?
  }

  /** The slot holds a reply exactly when it was complete and nobody has cleared the slot
      since: every complete reply is stored, and nothing else ends it. */
  lemma {:induction false} HeldIsLastComplete(states: seq<System>, events: seq<Event>, n: nat, reply: Reply)
    requires Run(states, events) && n < |states|
    ensures Held(states, events, n) == Some(reply) <==>
            exists a :: 0 <= a < n && CompleteAt(states, events, a) && events[a].reply == reply && NotCleared(events, a, n)
  {
    if n > 0 {
      var last := n - 1;
      HeldIsLastComplete(states, events, last, reply);
      StoresExactlyComplete(states, events, last);
      forall a | 0 <= a < last ensures NotCleared(events, a, n) <==> NotCleared(events, a, last) && !events[last].ClearSlot? {
      }
      if CompleteAt(states, events, last) {
        StoreFindsEmptySlot(states, events, last);
        SlotIsOneReply(states, events, last);
        forall a | 0 <= a < last && CompleteAt(states, events, a) ensures !NotCleared(events, a, last) {
          HeldIsLastComplete(states, events, last, events[a].reply);
        }
      }
    }
  }

  /** Not empty, and of these ASCII codes only: lower and upper case letters, digits, the
      hyphen and the underscore. */
  ghost predicate IsLabel(name: string) {
    name != "" && forall i :: 0 <= i < |name| ==>
      var code := name[i] as int;
      97 <= code <= 122 || 65 <= code <= 90 || 48 <= code <= 57 || code == 45 || code == 95
  }

  /** What saving under a label gives, by what is held: the token of the held reply and a
      line feed where the label is the reply's own, or the first thing in the way. */
  lemma SavedIsTheRepliedToken(states: seq<System>, events: seq<Event>, n: nat,
                               name: string, destination: Option<string>, isFile: bool, writes: bool)
    requires Run(states, events) && n < |states|
    ensures
      var held := Held(states, events, n);
      SaveResult(states[n].slot, name, destination, isFile, writes) ==
        if !IsLabel(name) then Failure(InvalidLabel)
        else if held.None? then Failure(Cleared)
        else if name != held.value.name then Failure(NotShown)
        else if destination.None? then Failure(NoDestination)
        else if destination.value == "" then Success(Canceled)
        else if !isFile then Failure(NotAFile)
        else if !writes then Failure(WriterFailed)
        else Success(Written(held.value.token + [10]))
  {
    SlotIsOneReply(states, events, n);
  }

  /** A creation is refused at once exactly when its label, fleet or lifetime is malformed,
      a token is still held, or another creation is active. */
  lemma RefusedExactlyWhenBusy(states: seq<System>, events: seq<Event>, n: nat)
    requires Run(states, events) && n < |events| && events[n].Begin?
    ensures
      var s := states[n];
      |states[n + 1].creations| == |s.creations| + 1
      && (states[n + 1].creations[|s.creations|].phase.Rejected? <==>
            || !IsLabel(events[n].name)
            || events[n].fleet == "" || IsSpace(events[n].fleet[0]) || IsSpace(events[n].fleet[|events[n].fleet| - 1])
            || events[n].ttl <= 0 || events[n].ttl > 9_223_372_036
            || Held(states, events, n).Some?
            || exists k :: 0 <= k < |s.creations| && Active(s.creations[k]))
  {
    assert Enabled(states[n], events[n]) && states[n + 1] == Next(states[n], events[n]);
    EveryInterleaving(states, events, n);
    SlotIsOneReply(states, events, n);
    TrimSpaceKeeps(events[n].fleet);
  }
}
