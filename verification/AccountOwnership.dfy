/**
  Who may change what: the effect and the answers of each account handler, in terms of
  rows and cache entries alone, and what follows for whole runs.
 */
module AccountOwnership {
  import opened Options
  import opened AccountTable
  import opened WechatTokens
  import opened AccountInvariants

  // ----- Only those concerned -----

  /** The handler is called for this row: by its tenant, for its authorizer AppId, or for its token. */
  predicate Concerns(e: Event, id: int, a: Account) {
    match e
    case Authorize(appid, _, _, _, _) => a.authorizerAppid == Some(appid)
    case UpdateAuthorize(appid, _, _, _) => a.authorizerAppid == Some(appid)
    case Unauthorize(appid) => a.authorizerAppid == Some(appid)
    case GetToken(i, _, _) => i == id
    case Create(_, _, _, _, _) => false
    case Update(i, tenantId, _, _) => i == id && tenantId == a.tenantId
    case Delete(i, tenantId) => i == id && tenantId == a.tenantId
  }

  /** Row and cache entry `id` are the same in both worlds. */
  ghost predicate Untouched(w: World, w': World, id: int) {
    && 1 <= id <= |w.rows| <= |w'.rows|
    && w'.rows[id - 1] == w.rows[id - 1]
    && (id in w'.cache <==> id in w.cache)
    && (id in w.cache ==> w'.cache[id] == w.cache[id])
  }

  lemma PlatformEventTouches(w: World, e: Event, now: int, id: int)
    requires e.Authorize? || e.UpdateAuthorize? || e.Unauthorize?
    requires 1 <= id <= |w.rows| && (w.rows[id - 1].deleted || !Concerns(e, id, w.rows[id - 1]))
    ensures Untouched(w, Handle(w, e, now).0, id)
  {
    FirstIdFinds(w.rows, Authorized(e.appid));
    if e.UpdateAuthorize? {
      UpdateKeepsTokens(w, e.appid, e.access, e.refresh, e.funcInfo, now);
    }
  }

  /** A row and its cache entry change only through a handler called for it; the entry of a deleted row may be read. */
  lemma OnlyConcernedTouch(w: World, e: Event, now: int, id: int)
    requires 1 <= id <= |w.rows| && !Concerns(e, id, w.rows[id - 1])
    ensures Untouched(w, Handle(w, e, now).0, id)
  {
    if e.Authorize? || e.UpdateAuthorize? || e.Unauthorize? {
      PlatformEventTouches(w, e, now, id);
    }
  }

  /** No handler moves a row to another tenant or another authorizer AppId, or brings a deleted one back. */
  lemma OwnerStays(w: World, e: Event, now: int, id: int)
    requires 1 <= id <= |w.rows|
    ensures var w' := Handle(w, e, now).0;
            && |w.rows| <= |w'.rows|
            && w'.rows[id - 1].tenantId == w.rows[id - 1].tenantId
            && w'.rows[id - 1].authorizerAppid == w.rows[id - 1].authorizerAppid
            && (w.rows[id - 1].deleted ==> w'.rows[id - 1] == w.rows[id - 1])
  {
    if e.Authorize? || e.UpdateAuthorize? || e.Unauthorize? {
      FirstIdFinds(w.rows, Authorized(e.appid));
      if e.UpdateAuthorize? {
        UpdateKeepsTokens(w, e.appid, e.access, e.refresh, e.funcInfo, now);
      }
    }
  }

  /** Over whole runs: without a handler that is called for it, a row and its cache entry stay as they are. */
  lemma {:induction false} RunsTouchOnlyTheirOwn(events: seq<(Event, int)>, more: seq<(Event, int)>, id: int)
    requires 1 <= id <= |Run(events).rows|
    requires forall k :: 0 <= k < |more| ==> !Concerns(more[k].0, id, Run(events).rows[id - 1])
    ensures Untouched(Run(events), Run(events + more), id)
  {
    hide Handle, Run, Concerns;
    if more == [] {
      assert events + more == events;
    } else {
      var before, last := more[..|more| - 1], more[|more| - 1];
      RunsTouchOnlyTheirOwn(events, before, id);
      RunSnoc(events + before, last.0, last.1);
      assert events + more == (events + before) + [last];
      OnlyConcernedTouch(Run(events + before), last.0, last.1, id);
    }
  }

  /** So nothing that other tenants do through the account API reaches a tenant's rows and cached tokens. */
  lemma {:induction false} TenantsAreIsolated(events: seq<(Event, int)>, more: seq<(Event, int)>, id: int)
    requires 1 <= id <= |Run(events).rows|
    requires forall k :: 0 <= k < |more| ==>
               var e := more[k].0;
               (e.Create? || e.Update? || e.Delete?) && e.tenantId != Run(events).rows[id - 1].tenantId
    ensures Untouched(Run(events), Run(events + more), id)
  {
    RunsTouchOnlyTheirOwn(events, more, id);
  }

  // ----- The account API -----

  /** A live row of that tenant. */
  predicate Owns(w: World, id: int, tenantId: int) {
    1 <= id <= |w.rows| && !w.rows[id - 1].deleted && w.rows[id - 1].tenantId == tenantId
  }

  /** All rows but number `id` are as before. */
  ghost predicate OthersStay(rows: Rows, rows': Rows, id: int) {
    |rows'| == |rows| && forall i :: 0 <= i < |rows| && i != id - 1 ==> rows'[i] == rows[i]
  }

  ghost predicate OtherEntriesStay(c: Cache, c': Cache, id: int) {
    forall i :: i != id ==> (i in c' <==> i in c) && (i in c ==> c'[i] == c[i])
  }

  /** The answers to a request for a row that the tenant does not own. */
  predicate RefusesStranger(w: World, id: int, tenantId: int, reply: Reply) {
    && (id < 1 ==> reply == Failed)
    && (id >= 1 && (id > |w.rows| || w.rows[id - 1].deleted) ==> reply == NotFound)
    && (1 <= id <= |w.rows| && !w.rows[id - 1].deleted && w.rows[id - 1].tenantId != tenantId ==> reply == Forbidden)
  }

  /** A deletion succeeds exactly for the owner, and then takes just the row and its cached token. */
  lemma DeleteExact(w: World, id: int, tenantId: int, now: int)
    ensures var (w', reply) := Handle(w, Event.Delete(id, tenantId), now);
            && (reply == Done <==> Owns(w, id, tenantId))
            && (!Owns(w, id, tenantId) ==> w' == w && RefusesStranger(w, id, tenantId, reply))
            && (Owns(w, id, tenantId) ==>
                  && OthersStay(w.rows, w'.rows, id) && w'.rows[id - 1] == w.rows[id - 1].(deleted := true)
                  && id !in w'.cache && OtherEntriesStay(w.cache, w'.cache, id))
  {
  }

  predicate StartsWithWx(s: string) {
    |s| >= 2 && s[0] == 'w' && s[1] == 'x'
  }

  /** Another live manual row of the tenant, with status 0 or 1, has the AppId. */
  ghost predicate Bound(rows: Rows, appId: string, tenantId: int) {
    exists i :: 0 <= i < |rows| && !rows[i].deleted && rows[i].tenantId == tenantId && rows[i].authType == 1
                && (rows[i].authStatus == 0 || rows[i].authStatus == 1) && rows[i].wxAppId == Some(appId)
  }

  lemma BoundExact(rows: Rows, appId: string, tenantId: int)
    ensures FirstId(rows, BoundBy(appId, tenantId)) != 0 <==> Bound(rows, appId, tenantId)
  {
    FirstIdFinds(rows, BoundBy(appId, tenantId));
  }

  /** A manual account is created exactly for an unbound AppId that WeChat accepts, with the token it answers. */
  lemma CreateExact(w: World, tenantId: int, name: string, appId: string, secret: string, fetched: Fetched, now: int)
    ensures var (w', reply) := Handle(w, Event.Create(tenantId, name, appId, secret, fetched), now);
            && w'.cache == w.cache
            && (reply == Done <==> StartsWithWx(appId) && !Bound(w.rows, appId, tenantId) && fetched.Some?)
            && (reply != Done ==> w' == w)
            && (!StartsWithWx(appId) <==> reply == Invalid)
            && (StartsWithWx(appId) && Bound(w.rows, appId, tenantId) <==> reply == Conflict)
            && (reply == Done ==>
                  && |w'.rows| == |w.rows| + 1 && w'.rows[..|w.rows|] == w.rows
                  && var a := w'.rows[|w.rows|];
                     && a.tenantId == tenantId && a.name == Some(name) && a.wxAppId == Some(appId)
                     && a.wxAppSecret == Some(secret) && a.authType == 1 && a.authStatus == 1 && !a.deleted
                     && a.accessToken == Some(fetched.value.0) && a.tokenExpireAt == Some(now + fetched.value.1)
                     && a.refreshToken == None && a.authorizerAppid == None)
  {
    BoundExact(w.rows, appId, tenantId);
  }

  predicate Differs(new': Option<string>, was: Option<string>) {
    new'.Some? && new'.value != if was.Some? then was.value else ""
  }

  /** What an edit must satisfy beyond ownership. */
  ghost predicate MayEdit(w: World, id: int, tenantId: int, e: Edit, fetched: Fetched)
    requires Owns(w, id, tenantId)
  {
    var a := w.rows[id - 1];
    && (a.authType == 2 ==> e.wxAppId == None && e.wxAppSecret == None)
    && (Differs(e.wxAppId, a.wxAppId) ==>
          StartsWithWx(e.wxAppId.value) && !Bound(w.rows, e.wxAppId.value, tenantId))
    && (Differs(e.wxAppId, a.wxAppId) || Differs(e.wxAppSecret, a.wxAppSecret) ==> fetched.Some?)
  }

  /** The edited row: the given columns, a new token if the credentials change, and everything else as it was. */
  predicate IsEdited(a: Account, a': Account, e: Edit, fetched: Fetched, now: int) {
    && a'.name == (if e.name.Some? then e.name else a.name)
    && a'.wxAppId == (if e.wxAppId.Some? then e.wxAppId else a.wxAppId)
    && a'.wxAppSecret == (if e.wxAppSecret.Some? then e.wxAppSecret else a.wxAppSecret)
    && (if Differs(e.wxAppId, a.wxAppId) || Differs(e.wxAppSecret, a.wxAppSecret)
        then fetched.Some? && a'.accessToken == Some(fetched.value.0) && a'.tokenExpireAt == Some(now + fetched.value.1)
        else a'.accessToken == a.accessToken && a'.tokenExpireAt == a.tokenExpireAt)
    && (a'.tenantId, a'.authType, a'.authStatus, a'.refreshToken, a'.authorizerAppid, a'.funcInfo, a'.deleted)
       == (a.tenantId, a.authType, a.authStatus, a.refreshToken, a.authorizerAppid, a.funcInfo, a.deleted)
  }

  /** An edit succeeds exactly for the owner with an allowed change, and then changes just that row as asked. */
  lemma UpdateExact(w: World, id: int, tenantId: int, e: Edit, fetched: Fetched, now: int)
    ensures var (w', reply) := Handle(w, Event.Update(id, tenantId, e, fetched), now);
            && w'.cache == w.cache
            && (reply == Done <==> Owns(w, id, tenantId) && MayEdit(w, id, tenantId, e, fetched))
            && (reply != Done ==> w' == w)
            && (!Owns(w, id, tenantId) ==> RefusesStranger(w, id, tenantId, reply))
            && (reply == Done ==>
                  OthersStay(w.rows, w'.rows, id) && IsEdited(w.rows[id - 1], w'.rows[id - 1], e, fetched, now))
  {
    if Owns(w, id, tenantId) && Differs(e.wxAppId, w.rows[id - 1].wxAppId) {
      BoundExact(w.rows, e.wxAppId.value, tenantId);
      FirstIdFinds(w.rows, BoundBy(e.wxAppId.value, tenantId));
    }
  }

  /** What an owner's edit is refused for, in the order of the checks. */
  lemma EditRefusals(w: World, id: int, tenantId: int, e: Edit, fetched: Fetched, now: int)
    requires Owns(w, id, tenantId) && !MayEdit(w, id, tenantId, e, fetched)
    ensures var a, reply := w.rows[id - 1], Handle(w, Event.Update(id, tenantId, e, fetched), now).1;
            var newAppId := Differs(e.wxAppId, a.wxAppId);
            && (reply == Forbidden <==> a.authType == 2 && (e.wxAppId.Some? || e.wxAppSecret.Some?))
            && (reply == Invalid <==> a.authType != 2 && newAppId && !StartsWithWx(e.wxAppId.value))
            && (reply == Conflict <==>
                  && a.authType != 2 && newAppId && StartsWithWx(e.wxAppId.value)
                  && Bound(w.rows, e.wxAppId.value, tenantId))
            && reply in {Forbidden, Invalid, Conflict, Failed}
  {
    if Differs(e.wxAppId, w.rows[id - 1].wxAppId) {
      BoundExact(w.rows, e.wxAppId.value, tenantId);
      FirstIdFinds(w.rows, BoundBy(e.wxAppId.value, tenantId));
    }
  }

  // ----- The platform events -----

  /** Row `k` is the live row with that authorizer AppId; there is no other, see `TableSound`. */
  predicate IsFor(rows: Rows, k: nat, appid: string) {
    k < |rows| && !rows[k].deleted && rows[k].authorizerAppid == Some(appid)
  }

  /** An authorisation of a known account sets its tokens for 7200 seconds, in row and cache, and nothing else. */
  lemma AuthorizeKnown(events: seq<(Event, int)>, appid: string, tenant: int, access: string, refresh: string,
                       funcInfo: string, now: int, k: nat)
    requires |appid| >= 12 && IsFor(Run(events).rows, k, appid)
    ensures var w := Run(events);
            var (w', reply) := Handle(w, Authorize(appid, Some(tenant), access, refresh, funcInfo), now);
            && reply == Done && OthersStay(w.rows, w'.rows, k + 1)
            && w'.rows[k] == w.rows[k].(accessToken := Some(access), refreshToken := Some(refresh), authStatus := 1,
                                        tokenExpireAt := Some(now + 7200), funcInfo := Some(funcInfo))
            && w'.cache == w.cache[k + 1 := Entry(access, now + 7200)]
  {
    TableAlwaysSound(events);
    AuthorizedIdUnique(Run(events).rows, appid, k);
  }

  /** One of an unknown account adds a row for the tenant of the pre-authorisation code, and caches nothing. */
  lemma AuthorizeUnknown(w: World, appid: string, tenant: int, access: string, refresh: string,
                         funcInfo: string, now: int)
    requires |appid| >= 12 && forall k :: 0 <= k < |w.rows| ==> !IsFor(w.rows, k, appid)
    ensures var (w', reply) := Handle(w, Authorize(appid, Some(tenant), access, refresh, funcInfo), now);
            && reply == Done && w'.cache == w.cache
            && |w'.rows| == |w.rows| + 1 && w'.rows[..|w.rows|] == w.rows
            && var a := w'.rows[|w.rows|];
               && a.tenantId == tenant && a.authorizerAppid == Some(appid) && a.wxAppId == Some(appid)
               && a.wxAppSecret == None && a.authType == 2 && a.authStatus == 1 && !a.deleted
               && a.accessToken == Some(access) && a.refreshToken == Some(refresh)
               && a.tokenExpireAt == Some(now + 7200) && a.funcInfo == Some(funcInfo)
               && a.name.Some? && |a.name.value| == 18 && a.name.value[6..] == appid[..12]
  {
    FirstIdFinds(w.rows, Authorized(appid));
    forall i | 0 <= i < |w.rows|
      ensures !Authorized(appid)(w.rows[i])
    {
      assert !IsFor(w.rows, i, appid);
    }
  }

  /** Without a tenant the event fails; an AppId shorter than 12 makes the handler panic; nothing changes. */
  lemma AuthorizeRefused(w: World, appid: string, tenant: Option<int>, access: string, refresh: string,
                         funcInfo: string, now: int)
    requires tenant == None || |appid| < 12
    ensures Handle(w, Authorize(appid, tenant, access, refresh, funcInfo), now)
            == (w, if tenant == None then Failed else Panic)
  {
  }

  /** A cancellation sets status 3 and drops the cached token, of just that account. */
  lemma UnauthorizeKnown(events: seq<(Event, int)>, appid: string, now: int, k: nat)
    requires appid != "" && IsFor(Run(events).rows, k, appid)
    ensures var w := Run(events);
            var (w', reply) := Handle(w, Unauthorize(appid), now);
            && reply == Done && OthersStay(w.rows, w'.rows, k + 1)
            && w'.rows[k] == w.rows[k].(authStatus := 3)
            && k + 1 !in w'.cache && OtherEntriesStay(w.cache, w'.cache, k + 1)
  {
    TableAlwaysSound(events);
    AuthorizedIdUnique(Run(events).rows, appid, k);
  }

  // ----- Token requests -----

  predicate HasEntry(w: World, id: int, now: int) {
    id in w.cache && now < w.cache[id].expiresAt && |w.cache[id].value| > 0
  }

  predicate IsLive(w: World, id: int) {
    1 <= id <= |w.rows| && !w.rows[id - 1].deleted
  }

  predicate HasUsableToken(a: Account, now: int) {
    a.accessToken.Some? && a.tokenExpireAt.Some? && now < a.tokenExpireAt.value
  }

  /** A token comes from the cache, else from a live row, else from a refresh, and is cached as long as it lasts. */
  lemma TokenRequestExact(w: World, id: int, access: string, refresh: string, now: int)
    ensures var (w', reply) := Handle(w, Event.GetToken(id, access, refresh), now);
            if HasEntry(w, id, now) then w' == w && reply == Ok(w.cache[id].value)
            else if !IsLive(w, id) then w' == w && reply == Failed
            else
              var a := w.rows[id - 1];
              if HasUsableToken(a, now) then
                && w'.rows == w.rows && reply == Ok(a.accessToken.value)
                && w'.cache == w.cache[id := Entry(a.accessToken.value, a.tokenExpireAt.value)]
              else if a.refreshToken.Some? && |a.refreshToken.value| > 0 then
                && reply == Ok(access) && OthersStay(w.rows, w'.rows, id)
                && w'.rows[id - 1] == a.(accessToken := Some(access), refreshToken := Some(refresh), authStatus := 1,
                                         tokenExpireAt := Some(now + 7200))
                && w'.cache == w.cache[id := Entry(access, now + 7200)]
              else w' == w && reply == Failed
  {
  }

  /**
    In every run, the cache makes no difference to the answer, except for a manual account
    with a live entry that is not the row's unexpired token.
   */
  lemma {:induction false} CacheTransparentExactly(events: seq<(Event, int)>, id: int, a: string, r: string, now: int)
    ensures HasEntry(Run(events), id, now) ==> IsLive(Run(events), id)
    ensures var w := Run(events);
            var cached := Handle(w, Event.GetToken(id, a, r), now).1;
            var uncached := Handle(w.(cache := map[]), Event.GetToken(id, a, r), now).1;
            cached == uncached <==>
              (HasEntry(w, id, now) && w.rows[id - 1].authType == 1 ==>
                 HasUsableToken(w.rows[id - 1], now) && w.rows[id - 1].accessToken.value == w.cache[id].value)
  {
    TableAlwaysSound(events);
    CacheAlwaysSound(events);
    var w := Run(events);
    if HasEntry(w, id, now) {
      assert RowSound(w.rows[id - 1]) && Agrees(w.rows[id - 1], w.cache[id]);
    }
  }
}
