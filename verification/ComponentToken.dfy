/**
  The component access token: refreshed by a 100-minute ticker and by every ticket
  event, from a ticket that is cached for 15 minutes and kept in the database. Times are in seconds.
 */
module ComponentToken {
  import opened Options

  const TICK: int := 100 * 60
  const TICKET_TTL: int := 15 * 60
  const TOKEN_TTL: int := 110 * 60
  const MARGIN: int := 10 * 60

  datatype CachedTicket = CachedTicket(ticket: string, expiresAt: int)

  /** A token is known by the instant it was made; it is never the empty string. */
  datatype CachedToken = CachedToken(issuedAt: int, expiresAt: int)

  /** `tickets` is the ticket table, oldest first; `nextTick` is when the ticker fires next. */
  datatype State = State(
    cachedTicket: Option<CachedTicket>,
    tickets: seq<string>,
    token: Option<CachedToken>,
    nextTick: int)

  /** `GetLatest`: the last ticket saved, or "". */
  function Latest(tickets: seq<string>): string {
    if tickets == [] then "" else tickets[|tickets| - 1]
  }

  /** The ticket a refresh works with: from the cache, or from the database if the cache has none. */
  function TicketAt(s: State, now: int): string {
    if s.cachedTicket.Some? && now < s.cachedTicket.value.expiresAt && s.cachedTicket.value.ticket != ""
    then s.cachedTicket.value.ticket
    else Latest(s.tickets)
  }

  predicate HasToken(s: State, now: int) {
    s.token.Some? && now < s.token.value.expiresAt
  }

  function Refreshed(s: State, now: int): State {
    if TicketAt(s, now) == "" then s else s.(token := Some(CachedToken(now, now + TOKEN_TTL)))
  }

  function ReceiveTicket(s: State, ticket: string, now: int): State {
    Refreshed(s.(cachedTicket := Some(CachedTicket(ticket, now + TICKET_TTL)), tickets := s.tickets + [ticket]), now)
  }

  function Tick(s: State, now: int): State {
    Refreshed(s, now).(nextTick := now + TICK)
  }

  /** `GetComponentAccessToken`: a missing token triggers a refresh. */
  function Requested(s: State, now: int): State {
    if HasToken(s, now) then s else Refreshed(s, now)
  }

  class TokenService {
    var cachedTicket: Option<CachedTicket>
    var tickets: seq<string>
    var token: Option<CachedToken>
    var nextTick: int

    /** `StartComponentTokenRefresher`: one refresh at once, then the ticker. */
    constructor (tickets: seq<string>, now: int)
      ensures View() == Tick(State(None, tickets, None, now), now)
      ensures nextTick == now + 6000
    {
      this.cachedTicket, this.tickets := None, tickets;
      this.token := if Latest(tickets) == "" then None else Some(CachedToken(now, now + TOKEN_TTL));
      this.nextTick := now + TICK;
    }

    function View(): State
      reads this
    {
      State(cachedTicket, tickets, token, nextTick)
    }

    method Refresh(now: int)
      modifies this
      ensures View() == Refreshed(old(View()), now)
    {
      var ticket := "";
      if cachedTicket.Some? && now < cachedTicket.value.expiresAt {
        ticket := cachedTicket.value.ticket;
      }
      if ticket == "" {
        ticket := Latest(tickets);
        if ticket == "" {
          return;
        }
      }
      token := Some(CachedToken(now, now + TOKEN_TTL));
    }

    method HandleComponentVerifyTicket(ticket: string, now: int)
      modifies this
      ensures View() == ReceiveTicket(old(View()), ticket, now)
      ensures cachedTicket == Some(CachedTicket(ticket, now + 900)) && tickets == old(tickets) + [ticket]
    {
      cachedTicket := Some(CachedTicket(ticket, now + TICKET_TTL));
      tickets := tickets + [ticket];
      Refresh(now);
    }

    method OnTick(now: int)
      modifies this
      ensures View() == Tick(old(View()), now)
      ensures nextTick == now + 6000
    {
      Refresh(now);
      nextTick := now + TICK;
    }

    method GetComponentAccessToken(now: int) returns (found: Option<CachedToken>)
      modifies this
      ensures View() == Requested(old(View()), now)
      ensures found == if HasToken(View(), now) then token else None
    {
      if !(token.Some? && now < token.value.expiresAt) {
        Refresh(now);
      }
      found := if token.Some? && now < token.value.expiresAt then token else None;
    }
  }

  // ----- Runs -----

  datatype Event =
    | Ticket(ticket: string, time: int)
    | Fire(time: int)
    | Request(time: int)

  function Step(s: State, e: Event): State {
    match e
    case Ticket(ticket, now) => ReceiveTicket(s, ticket, now)
    case Fire(now) => Tick(s, now)
    case Request(now) => Requested(s, now)
  }

  function Begin(tickets: seq<string>, start: int): State {
    Tick(State(None, tickets, None, start), start)
  }

  function Run(tickets: seq<string>, start: int, events: seq<Event>): State {
    if events == [] then Begin(tickets, start)
    else Step(Run(tickets, start, events[..|events| - 1]), events[|events| - 1])
  }

  /** The instant of the last event of a run. */
  function Now(start: int, events: seq<Event>): int {
    if events == [] then start else events[|events| - 1].time
  }

  /** Time does not go back, and the ticker fires when it is due, neither earlier nor later. */
  predicate Timed(tickets: seq<string>, start: int, events: seq<Event>) {
    events != [] ==>
      var before, last := events[..|events| - 1], events[|events| - 1];
      && Timed(tickets, start, before)
      && Now(start, before) <= last.time <= Run(tickets, start, before).nextTick
      && (last.Fire? ==> last.time == Run(tickets, start, before).nextTick)
  }

  /** The tickets received by the end of a run, oldest first. */
  function Received(tickets: seq<string>, events: seq<Event>): seq<string> {
    if events == [] then tickets
    else
      var last := events[|events| - 1];
      Received(tickets, events[..|events| - 1]) + if last.Ticket? then [last.ticket] else []
  }

  // ----- Cache and database agree on the ticket -----

  ghost predicate TicketsAgree(s: State) {
    s.cachedTicket.Some? ==> s.tickets != [] && s.cachedTicket.value.ticket == Latest(s.tickets)
  }

  lemma {:induction false} TicketsAlwaysAgree(tickets: seq<string>, start: int, events: seq<Event>)
    ensures TicketsAgree(Run(tickets, start, events))
    ensures Run(tickets, start, events).tickets == Received(tickets, events)
  {
    if events != [] {
      TicketsAlwaysAgree(tickets, start, events[..|events| - 1]);
    }
  }

  /** With its database fallback, the 15-minute ticket cache is as good as the last ticket received, at any time. */
  lemma {:induction false} RefreshUsesLastTicket(tickets: seq<string>, start: int, events: seq<Event>, now: int)
    ensures TicketAt(Run(tickets, start, events), now) == Latest(Received(tickets, events))
  {
    TicketsAlwaysAgree(tickets, start, events);
  }

  /** A request gets a token exactly if one is cached or a ticket has been received, and then a missing one is made. */
  lemma RequestServedExactly(tickets: seq<string>, start: int, events: seq<Event>, now: int)
    ensures var s := Run(tickets, start, events);
            var s' := Run(tickets, start, events + [Request(now)]);
            && (HasToken(s', now) <==> HasToken(s, now) || Latest(Received(tickets, events)) != "")
            && (HasToken(s', now) && !HasToken(s, now) ==> s'.token == Some(CachedToken(now, now + 6600)))
            && (HasToken(s, now) ==> s' == s)
  {
    RefreshUsesLastTicket(tickets, start, events, now);
    assert (events + [Request(now)])[..|events|] == events;
  }

  // ----- The token does not lapse -----

  /** The token outlives the next tick by at least ten minutes. */
  ghost predicate Covered(s: State) {
    s.token.Some? && s.token.value.expiresAt >= s.nextTick + MARGIN
  }

  /** Refreshes happen in the past, and the last tick is at most one interval ago. */
  ghost predicate OnSchedule(s: State, now: int) {
    && now <= s.nextTick <= now + TICK
    && (s.token.Some? ==>
          s.token.value.issuedAt <= now && s.token.value.expiresAt == s.token.value.issuedAt + TOKEN_TTL)
  }

  lemma {:induction false} AlwaysOnSchedule(tickets: seq<string>, start: int, events: seq<Event>)
    requires Timed(tickets, start, events)
    ensures OnSchedule(Run(tickets, start, events), Now(start, events))
  {
    if events != [] {
      AlwaysOnSchedule(tickets, start, events[..|events| - 1]);
    }
  }

  /** What a tick needs: a last ticket that is not empty, or a token made at the very instant of the tick. */
  predicate TickFindsToken(s: State) {
    Latest(s.tickets) != "" || (s.token.Some? && s.token.value.issuedAt == s.nextTick)
  }

  /** Every tick from event `i` on finds what it needs. */
  ghost predicate TicksFindTokens(tickets: seq<string>, start: int, events: seq<Event>, i: nat) {
    forall k :: i <= k < |events| && events[k].Fire? ==> TickFindsToken(Run(tickets, start, events[..k]))
  }

  ghost predicate CoveredFrom(tickets: seq<string>, start: int, events: seq<Event>, i: nat) {
    forall k :: i <= k <= |events| ==> Covered(Run(tickets, start, events[..k]))
  }

  /** Point `j` of a run, after `j` events, is a refresh: a tick or a ticket, or the start, with a ticket at hand. */
  predicate RefreshesAt(tickets: seq<string>, events: seq<Event>, j: nat)
    requires j <= |events|
  {
    (j == 0 || !events[j - 1].Request?) && Latest(Received(tickets, events[..j])) != ""
  }

  /** A refresh gives cover. */
  lemma RefreshGivesCover(tickets: seq<string>, start: int, events: seq<Event>)
    requires Timed(tickets, start, events) && RefreshesAt(tickets, events, |events|)
    ensures Covered(Run(tickets, start, events))
    ensures Run(tickets, start, events).token.value.issuedAt == Now(start, events)
  {
    assert events[..|events|] == events;
    if events != [] {
      AlwaysOnSchedule(tickets, start, events[..|events| - 1]);
      TicketsAlwaysAgree(tickets, start, events[..|events| - 1]);
    }
  }

  /** Among all events only a tick can end the cover, and it does exactly if it does not find what it needs. */
  lemma CoverEndsOnlyAtTicks(tickets: seq<string>, start: int, events: seq<Event>)
    requires Timed(tickets, start, events) && events != []
    requires Covered(Run(tickets, start, events[..|events| - 1]))
    ensures Covered(Run(tickets, start, events)) <==>
              (events[|events| - 1].Fire? ==> TickFindsToken(Run(tickets, start, events[..|events| - 1])))
  {
    var before, last := events[..|events| - 1], events[|events| - 1];
    AlwaysOnSchedule(tickets, start, before);
    TicketsAlwaysAgree(tickets, start, before);
  }

  /** Once there is cover, it lasts through the run exactly if every tick finds what it needs. */
  lemma {:induction false} CoverLastsExactly(tickets: seq<string>, start: int, events: seq<Event>, i: nat)
    requires Timed(tickets, start, events) && i <= |events|
    requires Covered(Run(tickets, start, events[..i]))
    ensures CoveredFrom(tickets, start, events, i) <==> TicksFindTokens(tickets, start, events, i)
    decreases |events|
  {
    hide Covered, Timed, TickFindsToken, Run;
    assert events[..|events|] == events;
    if i < |events| {
      var before := events[..|events| - 1];
      assert forall k :: 0 <= k <= |before| ==> before[..k] == events[..k];
      TimedPrefix(tickets, start, events);
      CoverLastsExactly(tickets, start, before, i);
      if Covered(Run(tickets, start, before)) {
        CoverEndsOnlyAtTicks(tickets, start, events);
      }
      LastTick(tickets, start, events, i);
    }
  }

  lemma TimedPrefix(tickets: seq<string>, start: int, events: seq<Event>)
    requires Timed(tickets, start, events) && events != []
    ensures Timed(tickets, start, events[..|events| - 1])
  {
  }

  /** The conditions on a run are those on the run before its last event, and one on that event. */
  lemma LastTick(tickets: seq<string>, start: int, events: seq<Event>, i: nat)
    requires i < |events|
    ensures var before, last := events[..|events| - 1], events[|events| - 1];
            && (TicksFindTokens(tickets, start, events, i) <==>
                  && TicksFindTokens(tickets, start, before, i)
                  && (last.Fire? ==> TickFindsToken(Run(tickets, start, before))))
            && (CoveredFrom(tickets, start, events, i) <==>
                  CoveredFrom(tickets, start, before, i) && Covered(Run(tickets, start, events)))
            && (CoveredFrom(tickets, start, before, i) ==> Covered(Run(tickets, start, before)))
  {
    hide Covered, TickFindsToken, Run;
    var before := events[..|events| - 1];
    assert forall k :: 0 <= k <= |before| ==> before[..k] == events[..k];
    assert events[..|events|] == events && before[..|before|] == before;
    assert forall k :: 0 <= k < |before| ==> before[k] == events[k];
  }

  lemma {:induction false} TimedUpTo(tickets: seq<string>, start: int, events: seq<Event>, i: nat)
    requires Timed(tickets, start, events) && i <= |events|
    ensures Timed(tickets, start, events[..i])
  {
    if i == |events| {
      assert events[..i] == events;
    } else {
      TimedUpTo(tickets, start, events[..|events| - 1], i);
      assert events[..|events| - 1][..i] == events[..i];
    }
  }

  // ----- When the token is there -----

  /** The instant `now` lies between event `k` and the next one. */
  predicate Between(start: int, events: seq<Event>, k: nat, now: int)
    requires k <= |events|
  {
    Now(start, events[..k]) <= now && (k < |events| ==> now <= events[k].time)
  }

  /** The token is in the cache at every instant from point `i` of the run until the given one. */
  ghost predicate PresentUntil(tickets: seq<string>, start: int, events: seq<Event>, i: nat, until: int) {
    forall k, now :: i <= k <= |events| && Between(start, events, k, now) && now <= until ==>
      HasToken(Run(tickets, start, events[..k]), now)
  }

  /** Some refresh between points `i` and `k` is less than the lifetime of a token ago. */
  ghost predicate Supplied(tickets: seq<string>, start: int, events: seq<Event>, i: nat, k: nat, now: int)
    requires i <= k <= |events|
  {
    exists j :: i <= j <= k && RefreshesAt(tickets, events, j) && now < Now(start, events[..j]) + TOKEN_TTL
  }

  ghost predicate SuppliedUntil(tickets: seq<string>, start: int, events: seq<Event>, i: nat, until: int) {
    forall k, now :: i <= k <= |events| && Between(start, events, k, now) && now <= until ==>
      Supplied(tickets, start, events, i, k, now)
  }

  /** One event of a timed run. */
  lemma RunStep(tickets: seq<string>, start: int, events: seq<Event>, k: nat)
    requires Timed(tickets, start, events) && k < |events|
    ensures Run(tickets, start, events[..k + 1]) == Step(Run(tickets, start, events[..k]), events[k])
    ensures Now(start, events[..k + 1]) == events[k].time && Now(start, events[..k]) <= events[k].time
    ensures events[k].time <= Run(tickets, start, events[..k]).nextTick
    ensures TicketAt(Step(Run(tickets, start, events[..k]), events[k]), events[k].time)
            == Latest(Received(tickets, events[..k + 1]))
    ensures OnSchedule(Run(tickets, start, events[..k]), Now(start, events[..k]))
  {
    assert events[..k + 1][..k] == events[..k] && events[..k + 1][k] == events[k];
    TimedUpTo(tickets, start, events, k + 1);
    AlwaysOnSchedule(tickets, start, events[..k]);
    RefreshUsesLastTicket(tickets, start, events[..k + 1], events[k].time);
  }

  /** The token is never older than a refresh. */
  lemma {:induction false} NoOlderThanRefresh(tickets: seq<string>, start: int, events: seq<Event>, j: nat, k: nat)
    requires Timed(tickets, start, events) && j <= k <= |events| && RefreshesAt(tickets, events, j)
    ensures var s := Run(tickets, start, events[..k]);
            && Now(start, events[..j]) <= Now(start, events[..k])
            && s.token.Some? && s.token.value.issuedAt >= Now(start, events[..j])
            && s.token.value.expiresAt == s.token.value.issuedAt + TOKEN_TTL
    decreases k
  {
    hide Timed, Received, Run;
    TimedUpTo(tickets, start, events, k);
    AlwaysOnSchedule(tickets, start, events[..k]);
    if j == k {
      assert events[..j][..j] == events[..j];
      RefreshGivesCover(tickets, start, events[..j]);
    } else {
      NoOlderThanRefresh(tickets, start, events, j, k - 1);
      RunStep(tickets, start, events, k - 1);
    }
  }

  /** As long as the token is present, requests do nothing, and it stems from a refresh. */
  lemma {:induction false} StemsFromRefresh(tickets: seq<string>, start: int, events: seq<Event>, i: nat, k: nat,
                                            until: int)
    returns (j: nat)
    requires Timed(tickets, start, events) && i <= k <= |events| && RefreshesAt(tickets, events, i)
    requires PresentUntil(tickets, start, events, i, until) && Now(start, events[..k]) <= until
    ensures i <= j <= k && RefreshesAt(tickets, events, j)
    ensures var s := Run(tickets, start, events[..k]);
            s.token == Some(CachedToken(Now(start, events[..j]), Now(start, events[..j]) + TOKEN_TTL))
    decreases k
  {
    hide Timed, Received, Run;
    if i == k {
      j := i;
      assert events[..i][..i] == events[..i];
      TimedUpTo(tickets, start, events, i);
      RefreshGivesCover(tickets, start, events[..i]);
      NoOlderThanRefresh(tickets, start, events, i, i);
    } else {
      RunStep(tickets, start, events, k - 1);
      j := StemsFromRefresh(tickets, start, events, i, k - 1, until);
      assert Between(start, events, k - 1, events[k - 1].time);
      if RefreshesAt(tickets, events, k) {
        j := k;
      }
    }
  }

  /**
    From a refresh on, the token is in the cache at every instant exactly if at every
    instant the last refresh is less than the lifetime of a token ago. Only the events
    and their times count, and of the events only ticks and tickets.
   */
  lemma PresentExactly(tickets: seq<string>, start: int, events: seq<Event>, i: nat, until: int)
    requires Timed(tickets, start, events) && i <= |events| && RefreshesAt(tickets, events, i)
    ensures PresentUntil(tickets, start, events, i, until) <==> SuppliedUntil(tickets, start, events, i, until)
  {
    hide Timed, Received, Run;
    forall k, now | i <= k <= |events| && Between(start, events, k, now) && Supplied(tickets, start, events, i, k, now)
      ensures HasToken(Run(tickets, start, events[..k]), now)
    {
      var j :| i <= j <= k && RefreshesAt(tickets, events, j) && now < Now(start, events[..j]) + TOKEN_TTL;
      NoOlderThanRefresh(tickets, start, events, j, k);
    }
    if PresentUntil(tickets, start, events, i, until) {
      forall k, now | i <= k <= |events| && Between(start, events, k, now) && now <= until
        ensures Supplied(tickets, start, events, i, k, now)
      {
        var j := StemsFromRefresh(tickets, start, events, i, k, until);
      }
    }
  }

  /** Every tick from point `i` on has a ticket at hand. */
  ghost predicate TicksHaveTickets(tickets: seq<string>, events: seq<Event>, i: nat) {
    forall k :: i <= k < |events| && events[k].Fire? ==> Latest(Received(tickets, events[..k])) != ""
  }

  lemma ReceivedStep(tickets: seq<string>, events: seq<Event>, k: nat)
    requires k < |events|
    ensures Received(tickets, events[..k + 1])
            == Received(tickets, events[..k]) + if events[k].Ticket? then [events[k].ticket] else []
  {
    assert events[..k + 1][..k] == events[..k] && events[..k + 1][k] == events[k];
  }

  /** Then the next tick is never more than one interval after a refresh. */
  lemma {:induction false} RefreshedInTime(tickets: seq<string>, start: int, events: seq<Event>, i: nat, k: nat)
    returns (j: nat)
    requires Timed(tickets, start, events) && i <= k <= |events| && RefreshesAt(tickets, events, i)
    requires TicksHaveTickets(tickets, events, i)
    ensures i <= j <= k && RefreshesAt(tickets, events, j)
    ensures Run(tickets, start, events[..k]).nextTick <= Now(start, events[..j]) + TICK
    decreases k
  {
    hide Timed, Received, Run;
    TimedUpTo(tickets, start, events, k);
    AlwaysOnSchedule(tickets, start, events[..k]);
    j := k;
    if i < k {
      RunStep(tickets, start, events, k - 1);
      ReceivedStep(tickets, events, k - 1);
      var before := RefreshedInTime(tickets, start, events, i, k - 1);
      if !events[k - 1].Fire? {
        j := before;
      }
    }
  }

  /**
    Once a ticket that is not empty is at hand at a tick or ticket event, and while every
    tick has one, the token is in the cache at every instant, up to ten minutes beyond the next tick.
   */
  lemma {:induction false} TokenNeverLapses(tickets: seq<string>, start: int, events: seq<Event>, i: nat)
    requires Timed(tickets, start, events) && i <= |events| && RefreshesAt(tickets, events, i)
    requires TicksHaveTickets(tickets, events, i)
    ensures PresentUntil(tickets, start, events, i, Run(tickets, start, events).nextTick + MARGIN - 1)
  {
    hide Timed, Received, Run;
    var until := Run(tickets, start, events).nextTick + MARGIN - 1;
    assert events[..|events|] == events;
    forall k, now | i <= k <= |events| && Between(start, events, k, now) && now <= until
      ensures Supplied(tickets, start, events, i, k, now)
    {
      var j := RefreshedInTime(tickets, start, events, i, k);
      if k < |events| {
        RunStep(tickets, start, events, k);
      }
    }
    PresentExactly(tickets, start, events, i, until);
  }

  /** In particular if no empty ticket arrives after a refresh. */
  lemma {:induction false} NoEmptyTicketNoLapse(tickets: seq<string>, start: int, events: seq<Event>, i: nat)
    requires Timed(tickets, start, events) && i <= |events| && RefreshesAt(tickets, events, i)
    requires forall k :: i <= k < |events| && events[k].Ticket? ==> events[k].ticket != ""
    ensures PresentUntil(tickets, start, events, i, Run(tickets, start, events).nextTick + MARGIN - 1)
  {
    hide Timed, Received, Run;
    forall k | i <= k <= |events|
      ensures Latest(Received(tickets, events[..k])) != ""
    {
      TicketStaysGood(tickets, events, i, k);
    }
    TokenNeverLapses(tickets, start, events, i);
  }

  lemma {:induction false} TicketStaysGood(tickets: seq<string>, events: seq<Event>, i: nat, k: nat)
    requires i <= k <= |events| && Latest(Received(tickets, events[..i])) != ""
    requires forall l :: i <= l < |events| && events[l].Ticket? ==> events[l].ticket != ""
    ensures Latest(Received(tickets, events[..k])) != ""
    decreases k
  {
    if i < k {
      TicketStaysGood(tickets, events, i, k - 1);
      ReceivedStep(tickets, events, k - 1);
    }
  }

  /**
    The same while every tick finds what it needs for cover: a ticket, or a token made
    at that very instant. Cover is more than presence.
   */
  lemma CoverKeepsTokenPresent(tickets: seq<string>, start: int, events: seq<Event>, i: nat)
    requires Timed(tickets, start, events) && i <= |events| && RefreshesAt(tickets, events, i)
    requires TicksFindTokens(tickets, start, events, i)
    ensures PresentUntil(tickets, start, events, i, Run(tickets, start, events).nextTick + MARGIN - 1)
  {
    hide Timed, Received, Run, TickFindsToken;
    assert events[..i][..i] == events[..i] && events[..|events|] == events;
    TimedUpTo(tickets, start, events, i);
    RefreshGivesCover(tickets, start, events[..i]);
    CoverLastsExactly(tickets, start, events, i);
    forall k, now | i <= k <= |events| && Between(start, events, k, now)
      && now < Run(tickets, start, events).nextTick + MARGIN
      ensures HasToken(Run(tickets, start, events[..k]), now)
    {
      if k < |events| {
        RunStep(tickets, start, events, k);
      }
    }
  }

  /** An empty ticket after a good one: the next tick cannot refresh, and the token is gone when it expires. */
  lemma EmptyTicketLapses() returns (events: seq<Event>)
    ensures Timed([], 0, events) && events != [] && events[0] == Ticket("t", 0)
    ensures !HasToken(Run([], 0, events), 0 + TOKEN_TTL)
  {
    var one: seq<Event> := [Ticket("t", 0)];
    var two := one + [Ticket("", 1)];
    events := two + [Fire(TICK)];
    assert one[..0] == [] && two[..1] == one && events[..2] == two;
    assert ["t", ""][1] == "";
    assert Timed([], 0, one);
    assert Timed([], 0, two);
  }
}
