/**
  What becomes of each request: in every reachable state, the fate of a request is a
  small automaton over the events, in which neither queue nor leader appears.
 */
module RefreshOutcome {
  import opened Options
  import opened RefreshClient
  import opened RefreshProtocol

  /** The refresh under way ends with new tokens. */
  predicate EndsWell(s: System, e: Event) {
    e.DeliverSuccess? && s.call.Renewed?
  }

  /** The refresh under way ends without: it was refused, or its answer is lost. */
  predicate EndsBadly(s: System, e: Event) {
    (e.DeliverFailure? && s.call.Refused?) || (e.LoseResponse? && (s.call.Refused? || s.call.Renewed?))
  }

  /** What event `e` makes of request `i`. */
  ghost predicate Becomes(s: System, e: Event, i: nat, r: Req, r': Req) {
    match r.phase
    case InFlight =>
      if e == Receive401(i) then
        if r.retry then r' == r.(phase := Finished)
        else if s.call.Idle? then r' == r.(phase := Leading, retry := true)
        else r' == r.(phase := Queued)
      else if e == ReceiveOther(i) then r' == r.(phase := Finished)
      else r' == r
    case Queued =>
      if EndsWell(s, e) then
        if e.access != "" then r' == Req(InFlight, r.retry, e.access, r.attempts + 1, r.settlements + 1)
        else r' == r.(phase := Stranded)
      else if EndsBadly(s, e) then r' == Req(Finished, r.retry, r.bearer, r.attempts, r.settlements + 1)
      else r' == r
    case Leading =>
      if EndsWell(s, e) then r' == Req(InFlight, r.retry, e.access, r.attempts + 1, r.settlements)
      else if EndsBadly(s, e) then r' == r.(phase := Finished)
      else r' == r
    case _ => r' == r
  }

  lemma EndOutcome(s: System, e: Event, i: nat)
    requires QueueSound(s.client) && Calm(s) && (EndsWell(s, e) || EndsBadly(s, e))
    requires i < |s.client.requests|
    ensures |Step(s, e).client.requests| == |s.client.requests|
    ensures Becomes(s, e, i, s.client.requests[i], Step(s, e).client.requests[i])
  {
    if EndsWell(s, e) {
      var stored := s.client.(accessToken := Some(e.access), refreshToken := Some(s.call.newToken));
      RefreshEnds(stored, Token(e.access), (r: Req) => Sent(r, e.access));
    } else {
      RefreshEnds(s.client, Error, (r: Req) => r.(phase := Finished));
    }
  }

  lemma OtherOutcome(s: System, e: Event, i: nat)
    requires Calm(s) && !EndsWell(s, e) && !EndsBadly(s, e)
    requires i < |s.client.requests|
    ensures |Step(s, e).client.requests| == |s.client.requests| + if e.Send? then 1 else 0
    ensures Becomes(s, e, i, s.client.requests[i], Step(s, e).client.requests[i])
  {
    hide AfterQueue, WithLeader;
  }

  /** In every run: what each event makes of each request, and what requests are new. */
  lemma {:induction false} RequestOutcome(events: seq<Event>, e: Event)
    ensures var s, s' := Run(events), Step(Run(events), e);
            var rs, rs' := s.client.requests, s'.client.requests;
            && |rs'| == |rs| + (if e.Send? then 1 else 0)
            && (forall i :: 0 <= i < |rs| ==> Becomes(s, e, i, rs[i], rs'[i]))
            && (e.Send? ==> rs'[|rs|] == Req(InFlight, false, Bearer(s.client.accessToken), 1, 0))
  {
    AlwaysCounted(events);
    hide Step, Becomes, QueueSound, Counted, Calm;
    var s := Run(events);
    RequestsCount(s, e);
    forall i | 0 <= i < |s.client.requests|
      ensures Becomes(s, e, i, s.client.requests[i], Step(s, e).client.requests[i])
    {
      OneOutcome(s, e, i);
    }
  }

  lemma OneOutcome(s: System, e: Event, i: nat)
    requires QueueSound(s.client) && Calm(s) && i < |s.client.requests|
    ensures i < |Step(s, e).client.requests|
    ensures Becomes(s, e, i, s.client.requests[i], Step(s, e).client.requests[i])
  {
    hide Step, Becomes, QueueSound, Calm;
    if EndsWell(s, e) || EndsBadly(s, e) {
      EndOutcome(s, e, i);
    } else {
      OtherOutcome(s, e, i);
    }
  }

  lemma RequestsCount(s: System, e: Event)
    requires QueueSound(s.client) && Calm(s)
    ensures |Step(s, e).client.requests| == |s.client.requests| + if e.Send? then 1 else 0
    ensures e.Send? ==> Step(s, e).client.requests[|s.client.requests|]
                        == Req(InFlight, false, Bearer(s.client.accessToken), 1, 0)
  {
    if EndsWell(s, e) || EndsBadly(s, e) {
      assert s.client.leader.value < |s.client.requests|;
      EndOutcome(s, e, 0);
    }
  }

  /** In every run: which tokens the client holds after an event, and that a renewed one is the slot's. */
  lemma {:induction false} TokensHeld(events: seq<Event>, e: Event)
    ensures var s, s' := Run(events), Step(Run(events), e);
            var held := (s'.client.accessToken, s'.client.refreshToken);
            if EndsWell(s, e) then
              && held == (Some(e.access), Some(s.call.newToken))
              && (s'.slot.Some? ==> s'.slot == Some(s.call.newToken))
            else if EndsBadly(s, e) || e.Forget? then held == (None, None)
            else if e.Login? && s.call.Idle? && IsFresh(s, e.newToken) then
              held == (Some(e.access), Some(e.newToken)) && s'.slot == Some(e.newToken)
            else held == (s.client.accessToken, s.client.refreshToken)
  {
    TokensAlwaysAgree(events);
  }

  /** A request is given up only for an answer, a second 401, or a refresh that fails while it waits for it. */
  lemma GivenUpOnlyFor(events: seq<Event>, e: Event, i: nat)
    requires i < |Run(events).client.requests|
    ensures var s, s' := Run(events), Step(Run(events), e);
            var r := s.client.requests[i];
            && i < |s'.client.requests|
            && (s'.client.requests[i].phase == Finished && r.phase != Finished <==>
                  || (r.phase == InFlight && (e == ReceiveOther(i) || (e == Receive401(i) && r.retry)))
                  || (r.phase in {Queued, Leading} && EndsBadly(s, e)))
  {
    RequestOutcome(events, e);
  }

  /** A request that waits, or leads, is sent again with the new token exactly when the refresh yields one. */
  lemma SentAgainExactly(events: seq<Event>, e: Event, i: nat)
    requires i < |Run(events).client.requests| && Run(events).client.requests[i].phase in {Queued, Leading}
    ensures var s, s' := Run(events), Step(Run(events), e);
            var r := s.client.requests[i];
            && i < |s'.client.requests|
            && var r' := s'.client.requests[i];
               && (r'.phase == InFlight <==> EndsWell(s, e) && (r.phase == Leading || e.access != ""))
               && (r'.phase == InFlight ==> r'.bearer == e.access && r'.attempts == r.attempts + 1)
               && (r'.phase != InFlight ==> r'.attempts == r.attempts && r'.bearer == r.bearer)
  {
    RequestOutcome(events, e);
  }

  // ----- Logging out -----

  predicate NoLogin(events: seq<Event>) {
    forall k :: 0 <= k < |events| ==> !events[k].Login?
  }

  /** The server has found the token in the slot, or is past that, and has not renewed it yet. */
  predicate AboutToRenew(s: System) {
    s.call.Accepted? || (s.call.Fetched? && s.call.stored.Some?)
  }

  lemma {:induction false} StaysEmpty(s: System, more: seq<Event>)
    requires s.slot == None && !AboutToRenew(s) && NoLogin(more)
    ensures RunFrom(s, more).slot == None && !AboutToRenew(RunFrom(s, more))
  {
    if more != [] {
      StaysEmpty(s, more[..|more| - 1]);
    }
  }

  function RunFrom(s: System, events: seq<Event>): System {
    if events == [] then s else Step(RunFrom(s, events[..|events| - 1]), events[|events| - 1])
  }

  lemma {:induction false} RunFromRun(a: seq<Event>, b: seq<Event>)
    ensures Run(a + b) == RunFrom(Run(a), b)
  {
    if b == [] {
      assert a + b == a;
    } else {
      RunFromRun(a, b[..|b| - 1]);
      assert (a + b)[..|a + b| - 1] == a + b[..|b| - 1];
    }
  }

  /** No matter how many tokens have been issued, there are others. */
  lemma {:induction false} AnotherToken(issued: set<string>) returns (token: string)
    ensures token != "" && forall t :: t in issued ==> |t| < |token|
    decreases issued
  {
    if issued == {} {
      return "x";
    }
    var t :| t in issued;
    var longer := AnotherToken(issued - {t});
    token := longer + t + "x";
  }

  /** Whatever follows, short of a login, the slot stays empty. */
  ghost predicate LoggedOutForGood(events: seq<Event>) {
    forall more :: NoLogin(more) ==> Run(events + [Logout] + more).slot == None
  }

  /**
    A logout is final, in every run, exactly if it does not fall between the server's
    look at the slot and its renewal: then the renewal fills the slot again.
   */
  lemma {:induction false} LogoutFinalExactly(events: seq<Event>)
    ensures LoggedOutForGood(events) <==> !AboutToRenew(Run(events))
  {
    var s := Run(events + [Logout]);
    assert (events + [Logout])[..|events|] == events;
    if AboutToRenew(Run(events)) {
      var token := AnotherToken(s.issued);
      TokensAlwaysAgree(events);
      var more := [Compare(true), Renew(token)];
      assert more[..1] == [Compare(true)] && more[..1][..0] == [];
      RunFromRun(events + [Logout], more);
      assert RunFrom(s, more[..1]) == Step(s, Compare(true));
      assert Run(events + [Logout] + more).slot == Some(token);
    } else {
      forall more | NoLogin(more)
        ensures Run(events + [Logout] + more).slot == None
      {
        StaysEmpty(s, more);
        RunFromRun(events + [Logout], more);
      }
    }
  }
}
