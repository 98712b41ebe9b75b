/**
  The single-flight token refresh of the web client: the queue, the leader flag and the
  `_retry` marks, as the interceptor updates them.
 */
module RefreshClient {
  import opened Options

  /** `Queued` waits for somebody else's refresh, `Leading` for its own; `Stranded` is a promise nobody settles. */
  datatype Phase = InFlight | Queued | Leading | Stranded | Finished

  /**
    `bearer` is the access token of the last send, "" for none; `attempts` counts the sends,
    `settlements` how often a queued promise was resolved or rejected.
   */
  datatype Req = Req(phase: Phase, retry: bool, bearer: string, attempts: nat, settlements: nat)

  datatype State = State(
    accessToken: Option<string>,
    refreshToken: Option<string>,
    isRefreshing: bool,
    leader: Option<nat>,
    queue: seq<nat>,
    requests: seq<Req>)

  /** How a refresh ends for those who wait: an error, or a token, which may be empty. */
  datatype Verdict = Error | Token(value: string)

  function Sent(r: Req, token: string): Req {
    r.(phase := InFlight, bearer := token, attempts := r.attempts + 1)
  }

  function Bearer(token: Option<string>): string {
    if token.Some? then token.value else ""
  }

  /** What `processQueue` does with one waiting request: an empty token settles nothing. */
  function Settle(r: Req, v: Verdict): Req {
    match v
    case Error => r.(phase := Finished, settlements := r.settlements + 1)
    case Token(value) =>
      if value != "" then Sent(r.(settlements := r.settlements + 1), value) else r.(phase := Stranded)
  }

  function SettleAll(requests: seq<Req>, queue: seq<nat>, v: Verdict): seq<Req>
    decreases |queue|
  {
    if queue == [] then requests
    else if queue[0] < |requests| then
      SettleAll(requests[queue[0] := Settle(requests[queue[0]], v)], queue[1..], v)
    else SettleAll(requests, queue[1..], v)
  }

  function AfterQueue(s: State, v: Verdict): State {
    s.(requests := SettleAll(s.requests, s.queue, v), queue := [])
  }

  function NewRequest(s: State): State {
    s.(requests := s.requests + [Req(InFlight, false, Bearer(s.accessToken), 1, 0)])
  }

  /** A response 401 for request `i`. */
  function Unauthorized(s: State, i: nat): State
    requires i < |s.requests|
  {
    var r := s.requests[i];
    if r.retry then s.(requests := s.requests[i := r.(phase := Finished)])
    else if s.isRefreshing then s.(requests := s.requests[i := r.(phase := Queued)], queue := s.queue + [i])
    else s.(requests := s.requests[i := r.(phase := Leading, retry := true)], isRefreshing := true, leader := Some(i))
  }

  /** Any other response for request `i`. */
  function Answered(s: State, i: nat): State
    requires i < |s.requests|
  {
    s.(requests := s.requests[i := s.requests[i].(phase := Finished)])
  }

  function WithLeader(s: State, f: Req -> Req): State {
    if s.leader.Some? && s.leader.value < |s.requests| then
      s.(requests := s.requests[s.leader.value := f(s.requests[s.leader.value])])
    else s
  }

  function RefreshSucceeded(s: State, access: string, refresh: string): State {
    var stored := s.(accessToken := Some(access), refreshToken := Some(refresh));
    WithLeader(AfterQueue(stored, Token(access)), (r: Req) => Sent(r, access)).(isRefreshing := false, leader := None)
  }

  function RefreshFailed(s: State): State {
    var forgotten := AfterQueue(s, Error).(accessToken := None, refreshToken := None);
    WithLeader(forgotten, (r: Req) => r.(phase := Finished)).(isRefreshing := false, leader := None)
  }

  class Client {
    var accessToken: Option<string>
    var refreshToken: Option<string>
    var isRefreshing: bool
    var leader: Option<nat>
    var failedQueue: seq<nat>
    var requests: seq<Req>

    constructor ()
      ensures View() == State(None, None, false, None, [], [])
    {
      accessToken, refreshToken := None, None;
      isRefreshing, leader := false, None;
      failedQueue, requests := [], [];
    }

    function View(): State
      reads this
    {
      State(accessToken, refreshToken, isRefreshing, leader, failedQueue, requests)
    }

    /** Rejects or resolves one waiting promise; a resolved one is sent again. */
    method SettleOne(i: nat, v: Verdict)
      requires i < |requests|
      modifies this`requests
      ensures requests == old(requests)[i := Settle(old(requests[i]), v)]
    {
      var r := requests[i];
      match v
      case Error =>
        r := r.(phase := Finished, settlements := r.settlements + 1);
        requests := requests[i := r];
      case Token(token) =>
        if token != "" {
          r := r.(settlements := r.settlements + 1);
          r := r.(phase := InFlight, bearer := token, attempts := r.attempts + 1);
        } else {
          r := r.(phase := Stranded);
        }
        requests := requests[i := r];
    }

    method ProcessQueue(v: Verdict)
      modifies this
      ensures View() == AfterQueue(old(View()), v)
    {
      for k := 0 to |failedQueue|
        invariant View() == old(View()).(requests := requests)
        invariant SettleAll(requests, failedQueue[k..], v) == SettleAll(old(requests), failedQueue, v)
      {
        assert failedQueue[k..][0] == failedQueue[k] && failedQueue[k..][1..] == failedQueue[k + 1..];
        if failedQueue[k] < |requests| {
          SettleOne(failedQueue[k], v);
        }
      }
      failedQueue := [];
    }

    /** The interceptor on a 401 for request `i`; `refresh` tells whether it goes on to call the refresh endpoint. */
    method OnUnauthorized(i: nat) returns (refresh: bool)
      requires i < |requests|
      modifies this
      ensures View() == Unauthorized(old(View()), i)
      ensures refresh <==> !old(requests[i].retry) && !old(isRefreshing)
    {
      if requests[i].retry {
        requests := requests[i := requests[i].(phase := Finished)];
        return false;
      }
      if isRefreshing {
        requests := requests[i := requests[i].(phase := Queued)];
        failedQueue := failedQueue + [i];
        return false;
      }
      requests := requests[i := requests[i].(phase := Leading, retry := true)];
      isRefreshing, leader := true, Some(i);
      return true;
    }

    method OnRefreshSucceeded(access: string, refresh: string)
      modifies this
      ensures View() == RefreshSucceeded(old(View()), access, refresh)
    {
      accessToken, refreshToken := Some(access), Some(refresh);
      ProcessQueue(Token(access));
      if leader.Some? && leader.value < |requests| {
        requests := requests[leader.value := Sent(requests[leader.value], access)];
      }
      isRefreshing, leader := false, None;
    }

    method OnRefreshFailed()
      modifies this
      ensures View() == RefreshFailed(old(View()))
    {
      ProcessQueue(Error);
      accessToken, refreshToken := None, None;
      if leader.Some? && leader.value < |requests| {
        requests := requests[leader.value := requests[leader.value].(phase := Finished)];
      }
      isRefreshing, leader := false, None;
    }
  }

  // ----- The queue -----

  ghost predicate NoRepeats(queue: seq<nat>) {
    forall i, j :: 0 <= i < j < |queue| ==> queue[i] != queue[j]
  }

  /** Every waiting request is treated once, all others are left alone. */
  lemma {:induction false} SettleAllAt(requests: seq<Req>, queue: seq<nat>, v: Verdict)
    requires NoRepeats(queue) && forall k :: 0 <= k < |queue| ==> queue[k] < |requests|
    ensures |SettleAll(requests, queue, v)| == |requests|
    ensures forall i :: 0 <= i < |requests| ==>
              SettleAll(requests, queue, v)[i] == if i in queue then Settle(requests[i], v) else requests[i]
    decreases |queue|
  {
    if queue != [] {
      var rest := queue[1..];
      assert forall k :: 0 <= k < |rest| ==> rest[k] == queue[k + 1];
      assert queue[0] !in rest;
      SettleAllAt(requests[queue[0] := Settle(requests[queue[0]], v)], rest, v);
    }
  }

  /** When a refresh ends, each waiting promise is settled exactly once, unless it ends with an empty token. */
  lemma QueueSettledExactly(s: State, v: Verdict)
    requires NoRepeats(s.queue) && forall k :: 0 <= k < |s.queue| ==> s.queue[k] < |s.requests|
    ensures var s' := AfterQueue(s, v);
            && s'.queue == [] && |s'.requests| == |s.requests|
            && (forall i :: 0 <= i < |s.requests| && i !in s.queue ==> s'.requests[i] == s.requests[i])
            && (s.queue != [] ==>
                  ((forall i :: i in s.queue ==> s'.requests[i].settlements == s.requests[i].settlements + 1)
                   <==> v != Token("")))
  {
    SettleAllAt(s.requests, s.queue, v);
    if s.queue != [] {
      assert s.queue[0] in s.queue;
    }
  }
}
