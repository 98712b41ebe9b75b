/**
  One client and the server's slot for its user, as a system of single steps: the
  server's Get, compare and Set are separate, and anything may happen in between.
 */
module RefreshProtocol {
  import opened Options
  import opened RefreshClient
  import RefreshServer

  /** Where the refresh call stands. */
  datatype Call =
    | Idle
    | Presented(sent: Option<string>)
    | Fetched(token: string, stored: Option<string>)
    | Accepted(token: string)
    | Renewed(newToken: string)
    | Refused

  /**
    `retired` are the tokens that have been overwritten in the slot, `issued` all tokens
    ever generated, `started` and `succeeded` count refreshes.
   */
  datatype System = System(
    client: State,
    slot: Option<string>,
    call: Call,
    issued: set<string>,
    retired: set<string>,
    started: nat,
    succeeded: nat)

  datatype Event =
    | Send
    | Receive401(request: nat)
    | ReceiveOther(request: nat)
    | Fetch(headerNamesUser: bool)
    | Compare(userExists: bool)
    | Renew(newToken: string)
    | Fail
    | DeliverSuccess(access: string)
    | DeliverFailure
    | LoseResponse
    | SlotExpires
    | Logout
    | Forget
    | Login(newToken: string, access: string)

  predicate IsFresh(s: System, token: string) {
    token != "" && token !in s.issued
  }

  /** A new token goes into the slot and the one it replaces is retired. */
  function Store(s: System, newToken: string): System {
    s.(slot := Some(newToken),
       issued := s.issued + {newToken},
       retired := s.retired + if s.slot.Some? then {s.slot.value} else {})
  }

  /** A step; an event that cannot happen in a state leaves it as it is. */
  function Step(s: System, e: Event): System {
    match e
    case Send => s.(client := NewRequest(s.client))
    case Receive401(i) =>
      if i < |s.client.requests| && s.client.requests[i].phase == InFlight then
        var s' := s.(client := Unauthorized(s.client, i));
        if !s.client.requests[i].retry && !s.client.isRefreshing then
          s'.(call := Presented(s.client.refreshToken), started := s.started + 1)
        else s'
      else s
    case ReceiveOther(i) =>
      if i < |s.client.requests| && s.client.requests[i].phase == InFlight then
        s.(client := Answered(s.client, i))
      else s
    case Fetch(headerNamesUser) =>
      if s.call.Presented? then
        if s.call.sent.Some? && s.call.sent.value != "" && headerNamesUser then
          s.(call := Fetched(s.call.sent.value, s.slot))
        else s.(call := Refused)
      else s
    case Compare(userExists) =>
      if s.call.Fetched? then
        s.(call := if s.call.stored == Some(s.call.token) && userExists then Accepted(s.call.token) else Refused)
      else s
    case Renew(newToken) =>
      if s.call.Accepted? && IsFresh(s, newToken) then Store(s, newToken).(call := Renewed(newToken)) else s
    case Fail =>
      if s.call.Presented? || s.call.Fetched? || s.call.Accepted? then s.(call := Refused) else s
    case DeliverSuccess(access) =>
      if s.call.Renewed? then
        s.(client := RefreshSucceeded(s.client, access, s.call.newToken), call := Idle, succeeded := s.succeeded + 1)
      else s
    case DeliverFailure => if s.call.Refused? then s.(client := RefreshFailed(s.client), call := Idle) else s
    case LoseResponse =>
      if s.call.Renewed? || s.call.Refused? then s.(client := RefreshFailed(s.client), call := Idle) else s
    case SlotExpires => s.(slot := None)
    case Logout => s.(slot := None)
    case Forget => s.(client := s.client.(accessToken := None, refreshToken := None))
    case Login(newToken, access) =>
      if s.call.Idle? && IsFresh(s, newToken) then
        Store(s, newToken).(client := s.client.(accessToken := Some(access), refreshToken := Some(newToken)))
      else s
  }

  const START: System := System(State(None, None, false, None, [], []), None, Idle, {}, {}, 0, 0)

  function Run(events: seq<Event>): System {
    if events == [] then START else Step(Run(events[..|events| - 1]), events[|events| - 1])
  }

  // ----- Tokens -----

  /** A token that is in use: generated, never overwritten, and the slot's unless the slot is empty. */
  ghost predicate Current(s: System, token: string) {
    token in s.issued && token !in s.retired && (s.slot.Some? ==> s.slot.value == token)
  }

  /** Whatever the client holds or has presented is current; after a renewal the new token is. */
  ghost predicate TokensAgree(s: System) {
    && s.retired <= s.issued
    && (s.slot.Some? ==> s.slot.value in s.issued && s.slot.value !in s.retired)
    && (!s.call.Renewed? && s.client.refreshToken.Some? ==> Current(s, s.client.refreshToken.value))
    && match s.call
       case Presented(sent) => sent.Some? ==> Current(s, sent.value)
       case Fetched(token, stored) =>
         Current(s, token) && (stored.Some? ==> Current(s, stored.value) && stored.value == token)
       case Accepted(token) => Current(s, token)
       case Renewed(newToken) => Current(s, newToken)
       case _ => true
  }

  lemma TokensAgreeStep(s: System, e: Event)
    requires TokensAgree(s) && Calm(s)
    ensures TokensAgree(Step(s, e))
  {
  }

  /** The client refreshes exactly while a call is under way. */
  ghost predicate Calm(s: System) {
    s.client.isRefreshing <==> !s.call.Idle?
  }

  lemma CalmStep(s: System, e: Event)
    requires Calm(s)
    ensures Calm(Step(s, e))
  {
  }

  lemma {:induction false} TokensAlwaysAgree(events: seq<Event>)
    ensures TokensAgree(Run(events)) && Calm(Run(events))
  {
    if events != [] {
      var before := events[..|events| - 1];
      TokensAlwaysAgree(before);
      CalmStep(Run(before), events[|events| - 1]);
      TokensAgreeStep(Run(before), events[|events| - 1]);
    }
  }

  /**
    A refresh is started only while none is under way, and in every reachable state the
    token that the client presents when it starts a refresh equals the slot, unless the
    slot has expired or been revoked, and has never been rotated out.
   */
  lemma PresentedTokenIsCurrent(events: seq<Event>, i: nat)
    requires Step(Run(events), Receive401(i)).call != Run(events).call
    ensures var s' := Step(Run(events), Receive401(i));
            && Run(events).call.Idle? && s'.call == Presented(Run(events).client.refreshToken)
            && (s'.call.sent.Some? ==>
                  s'.call.sent.value !in s'.retired && (s'.slot.Some? ==> s'.slot == s'.call.sent))
  {
    TokensAlwaysAgree(events);
    TokensAlwaysAgree(events + [Receive401(i)]);
    assert (events + [Receive401(i)])[..|events|] == events;
  }

  /** So the server never finds a different token in the slot: it refuses a token only for an empty slot. */
  lemma MismatchNeverSeen(events: seq<Event>)
    requires Run(events).call.Fetched?
    ensures var call := Run(events).call; call.stored.Some? ==> call.stored.value == call.token
  {
    TokensAlwaysAgree(events);
  }

  // ----- The server -----

  /** What the slots of the server hold for a user. */
  function SlotOf(slots: RefreshServer.Slots, userId: int, now: int): Option<string> {
    var token := RefreshServer.Lookup(slots, userId, now);
    if token == "" then None else Some(token)
  }

  function CallAfter(reply: RefreshServer.RefreshReply): Call {
    if reply.Rotated? then Renewed(reply.refreshToken) else Refused
  }

  /** Undisturbed, the three steps do to the slot, and answer, what the refresh handler of the server does. */
  lemma UndisturbedRefresh(s: System, slots: RefreshServer.Slots, userId: int, now: int, headerNamesUser: bool,
                           userExists: bool, newToken: string, configuredTtl: int)
    requires s.call.Presented? && userId != 0 && s.slot == SlotOf(slots, userId, now) && IsFresh(s, newToken)
    ensures var s' := Step(Step(Step(s, Fetch(headerNamesUser)), Compare(userExists)), Renew(newToken));
            var presented := if s.call.sent.Some? then s.call.sent.value else "";
            var (slots', reply) := RefreshServer.Refreshed(slots, if headerNamesUser then userId else 0, presented,
                                     userExists, newToken, RefreshServer.Lifetime(configuredTtl), now);
            s'.slot == SlotOf(slots', userId, now) && s'.call == CallAfter(reply)
  {
  }

  // ----- Another session -----

  /** A login from somewhere else, which the system above does not have. */
  function LoginElsewhere(s: System, newToken: string): System {
    Store(s, newToken)
  }

  /** The client holds a token, or a refresh call carries one. */
  predicate TokenInUse(s: System) {
    || s.client.refreshToken.Some?
    || (s.call.Presented? && s.call.sent.Some?)
    || s.call.Fetched? || s.call.Accepted? || s.call.Renewed?
  }

  /** At any moment, it breaks the agreement exactly when a token is in use: that token is no longer the slot's. */
  lemma LoginElsewhereBreaksAgreement(events: seq<Event>, newToken: string)
    requires IsFresh(Run(events), newToken)
    ensures TokensAgree(LoginElsewhere(Run(events), newToken)) <==> !TokenInUse(Run(events))
  {
    TokensAlwaysAgree(events);
  }

  // ----- The queue and the number of sends -----

  function Retries(requests: seq<Req>): nat {
    if requests == [] then 0
    else Retries(requests[..|requests| - 1]) + if requests[|requests| - 1].retry then 1 else 0
  }

  function Attempts(requests: seq<Req>): nat {
    if requests == [] then 0 else Attempts(requests[..|requests| - 1]) + requests[|requests| - 1].attempts
  }

  /** Who waits is in the queue once, who leads is the leader, and somebody waits only while a refresh is under way. */
  ghost predicate QueueSound(c: State) {
    && NoRepeats(c.queue)
    && (forall k :: 0 <= k < |c.queue| ==> c.queue[k] < |c.requests| && c.requests[c.queue[k]].phase == Queued)
    && (forall i :: 0 <= i < |c.requests| && c.requests[i].phase == Queued ==> i in c.queue)
    && (c.leader.Some? <==> c.isRefreshing)
    && (c.leader.Some? ==> c.leader.value < |c.requests| && c.requests[c.leader.value].phase == Leading)
    && (forall i :: 0 <= i < |c.requests| && c.requests[i].phase == Leading ==> c.leader == Some(i))
    && (c.queue != [] ==> c.isRefreshing)
  }

  /** Every refresh was led by a request that is marked for it; every further send of a request was due to a success. */
  ghost predicate Counted(s: System) {
    && s.started == Retries(s.client.requests)
    && s.succeeded + (if s.call.Idle? then 0 else 1) <= s.started
    && forall i :: 0 <= i < |s.client.requests| ==> s.client.requests[i].attempts <= 1 + s.succeeded
  }

  lemma {:induction false} RetriesPointwise(a: seq<Req>, b: seq<Req>)
    requires |a| == |b| && forall i :: 0 <= i < |a| ==> a[i].retry == b[i].retry
    ensures Retries(a) == Retries(b)
  {
    if a != [] {
      RetriesPointwise(a[..|a| - 1], b[..|b| - 1]);
    }
  }

  lemma {:induction false} RetriesUpdate(requests: seq<Req>, i: nat, r: Req)
    requires i < |requests|
    ensures Retries(requests[i := r])
         == Retries(requests) + (if r.retry then 1 else 0) - if requests[i].retry then 1 else 0
  {
    var n := |requests|;
    assert requests[i := r][..n - 1] == if i == n - 1 then requests[..n - 1] else requests[..n - 1][i := r];
    if i < n - 1 {
      RetriesUpdate(requests[..n - 1], i, r);
    }
  }

  lemma {:induction false} RetriesAtMostAll(requests: seq<Req>)
    ensures Retries(requests) <= |requests|
  {
    if requests != [] {
      RetriesAtMostAll(requests[..|requests| - 1]);
    }
  }

  lemma {:induction false} AttemptsAtMost(requests: seq<Req>, each: nat)
    requires forall i :: 0 <= i < |requests| ==> requests[i].attempts <= each
    ensures Attempts(requests) <= |requests| * each
  {
    if requests != [] {
      AttemptsAtMost(requests[..|requests| - 1], each);
      assert |requests| * each == (|requests| - 1) * each + each;
    }
  }

  /** The requests after a refresh has ended, one by one. */
  lemma RefreshEnds(c: State, v: Verdict, f: Req -> Req)
    requires QueueSound(c) && c.leader.Some?
    ensures var c' := WithLeader(AfterQueue(c, v), f);
            && |c'.requests| == |c.requests| && c'.queue == []
            && forall i :: 0 <= i < |c.requests| ==>
                 c'.requests[i] == if i == c.leader.value then f(c.requests[i])
                                   else if i in c.queue then Settle(c.requests[i], v)
                                   else c.requests[i]
  {
    SettleAllAt(c.requests, c.queue, v);
    assert c.leader.value !in c.queue;
  }

  lemma SuccessStep(s: System, access: string)
    requires QueueSound(s.client) && Counted(s) && Calm(s) && s.call.Renewed?
    ensures QueueSound(Step(s, DeliverSuccess(access)).client) && Counted(Step(s, DeliverSuccess(access)))
  {
    hide AfterQueue, SettleAll, Retries;
    var stored := s.client.(accessToken := Some(access), refreshToken := Some(s.call.newToken));
    RefreshEnds(stored, Token(access), (r: Req) => Sent(r, access));
    RetriesPointwise(s.client.requests, Step(s, DeliverSuccess(access)).client.requests);
  }

  lemma FailureStep(s: System)
    requires QueueSound(s.client) && Counted(s) && Calm(s) && !s.call.Idle?
    ensures var s' := s.(client := RefreshFailed(s.client), call := Idle);
            QueueSound(s'.client) && Counted(s')
  {
    RefreshEnds(s.client, Error, (r: Req) => r.(phase := Finished));
    RetriesPointwise(s.client.requests, RefreshFailed(s.client).requests);
  }

  lemma Receive401Step(s: System, i: nat)
    requires QueueSound(s.client) && Counted(s) && Calm(s)
    requires i < |s.client.requests| && s.client.requests[i].phase == InFlight
    ensures QueueSound(Step(s, Receive401(i)).client) && Counted(Step(s, Receive401(i)))
  {
    var r := s.client.requests[i];
    var s' := Step(s, Receive401(i));
    RetriesUpdate(s.client.requests, i, s'.client.requests[i]);
    assert i !in s.client.queue;
  }

  lemma SendStep(s: System)
    requires QueueSound(s.client) && Counted(s)
    ensures QueueSound(Step(s, Send).client) && Counted(Step(s, Send))
  {
    var r := Req(InFlight, false, Bearer(s.client.accessToken), 1, 0);
    assert (s.client.requests + [r])[..|s.client.requests|] == s.client.requests;
  }

  lemma ReceiveOtherStep(s: System, i: nat)
    requires QueueSound(s.client) && Counted(s)
    requires i < |s.client.requests| && s.client.requests[i].phase == InFlight
    ensures QueueSound(Step(s, ReceiveOther(i)).client) && Counted(Step(s, ReceiveOther(i)))
  {
    RetriesUpdate(s.client.requests, i, s.client.requests[i].(phase := Finished));
  }

  lemma CountedStep(s: System, e: Event)
    requires QueueSound(s.client) && Counted(s) && Calm(s)
    ensures QueueSound(Step(s, e).client) && Counted(Step(s, e))
  {
    match e
    case Send => SendStep(s);
    case Receive401(i) =>
      if i < |s.client.requests| && s.client.requests[i].phase == InFlight {
        Receive401Step(s, i);
      }
    case ReceiveOther(i) =>
      if i < |s.client.requests| && s.client.requests[i].phase == InFlight {
        ReceiveOtherStep(s, i);
      }
    case DeliverSuccess(access) =>
      if s.call.Renewed? {
        SuccessStep(s, access);
      }
    case DeliverFailure =>
      if s.call.Refused? {
        FailureStep(s);
      }
    case LoseResponse =>
      if s.call.Renewed? || s.call.Refused? {
        FailureStep(s);
      }
    case _ =>
  }

  lemma {:induction false} AlwaysCounted(events: seq<Event>)
    ensures QueueSound(Run(events).client) && Counted(Run(events)) && Calm(Run(events))
  {
    if events != [] {
      var before := events[..|events| - 1];
      AlwaysCounted(before);
      CalmStep(Run(before), events[|events| - 1]);
      CountedStep(Run(before), events[|events| - 1]);
    }
  }

  /** With N requests there are at most N refreshes and at most N * (N + 1) sends, and nobody waits for nothing. */
  lemma RefreshesAndSendsBounded(events: seq<Event>)
    ensures var s := Run(events);
            var n := |s.client.requests|;
            && s.started <= n && Attempts(s.client.requests) <= n * (n + 1)
            && (s.client.queue != [] ==> !s.call.Idle?)
  {
    AlwaysCounted(events);
    hide *;
    BoundsFromCounts(Run(events));
  }

  lemma BoundsFromCounts(s: System)
    requires QueueSound(s.client) && Counted(s) && Calm(s)
    ensures var n := |s.client.requests|;
            && s.started <= n && Attempts(s.client.requests) <= n * (n + 1)
            && (s.client.queue != [] ==> !s.call.Idle?)
  {
    var n := |s.client.requests|;
    RetriesAtMostAll(s.client.requests);
    assert forall i :: 0 <= i < n ==> s.client.requests[i].attempts <= n + 1;
    hide *;
    AttemptsAtMost(s.client.requests, n + 1);
  }

  /** When a refresh ends with a non-empty token or an error, every waiting request is settled exactly once. */
  lemma WaitersSettledOnce(events: seq<Event>, e: Event)
    requires Run(events).call != Idle && Step(Run(events), e).call == Idle
    requires e.DeliverSuccess? ==> e.access != ""
    ensures var c, c' := Run(events).client, Step(Run(events), e).client;
            && c'.queue == [] && |c'.requests| == |c.requests|
            && forall i :: 0 <= i < |c.requests| ==>
                 c'.requests[i].settlements
                   == c.requests[i].settlements + if c.requests[i].phase == Queued then 1 else 0
  {
    AlwaysCounted(events);
    var s := Run(events);
    if e.DeliverSuccess? {
      var stored := s.client.(accessToken := Some(e.access), refreshToken := Some(s.call.newToken));
      RefreshEnds(stored, Token(e.access), (r: Req) => Sent(r, e.access));
    } else {
      RefreshEnds(s.client, Error, (r: Req) => r.(phase := Finished));
    }
  }
}
