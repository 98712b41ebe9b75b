/**
  What every run of the account handlers keeps: the mutual invariants of the account
  table, and the agreement of the token cache with it.
 */
module AccountInvariants {
  import opened Options
  import opened AccountTable
  import opened WechatTokens

  /** The handlers, each with the answers it gets from outside. */
  datatype Event =
    | Authorize(appid: string, tenant: Option<int>, access: string, refresh: string, funcInfo: string)
    | UpdateAuthorize(appid: string, access: string, refresh: string, funcInfo: string)
    | Unauthorize(appid: string)
    | GetToken(id: int, access: string, refresh: string)
    | Create(tenantId: int, name: string, appId: string, secret: string, fetched: Fetched)
    | Update(id: int, tenantId: int, edit: Edit, fetched: Fetched)
    | Delete(id: int, tenantId: int)

  function Handle(w: World, e: Event, now: int): (World, Reply) {
    match e
    case Authorize(appid, tenant, access, refresh, funcInfo) =>
      HandleAuthorized(w, appid, tenant, access, refresh, funcInfo, now)
    case UpdateAuthorize(appid, access, refresh, funcInfo) =>
      HandleUpdateAuthorized(w, appid, access, refresh, funcInfo, now)
    case Unauthorize(appid) => HandleUnauthorized(w, appid)
    case GetToken(id, access, refresh) => GetAuthorizerAccessToken(w, id, access, refresh, now)
    case Create(tenantId, name, appId, secret, fetched) => CreateManual(w, tenantId, name, appId, secret, fetched, now)
    case Update(id, tenantId, edit, fetched) => UpdateAccount(w, id, tenantId, edit, fetched, now)
    case Delete(id, tenantId) => DeleteAccount(w, id, tenantId)
  }

  /** A run: events with the instants they are handled at. */
  function Run(events: seq<(Event, int)>): World {
    if events == [] then World([], map[])
    else
      var (e, now) := events[|events| - 1];
      Handle(Run(events[..|events| - 1]), e, now).0
  }

  // ----- The table -----

  /** A platform row has an authorizer AppId; a manual row has none, no refresh token, and while live, status 1. */
  ghost predicate RowSound(a: Account) {
    && a.authType in {1, 2}
    && (a.authorizerAppid.Some? <==> a.authType == 2)
    && (a.authType == 1 ==> a.refreshToken == None && a.wxAppId.Some? && (a.deleted || a.authStatus == 1))
  }

  /** Two live rows never clash: not in their authorizer AppId, nor, as manual rows of a tenant, in their AppId. */
  ghost predicate NoClash(a: Account, b: Account) {
    !a.deleted && !b.deleted ==>
      && (a.authorizerAppid.Some? ==> a.authorizerAppid != b.authorizerAppid)
      && (a.authType == 1 && b.authType == 1 && a.tenantId == b.tenantId ==> a.wxAppId != b.wxAppId)
  }

  ghost predicate TableSound(rows: Rows) {
    && (forall i :: 0 <= i < |rows| ==> RowSound(rows[i]))
    && forall i, j :: 0 <= i < |rows| && 0 <= j < |rows| && i != j ==> NoClash(rows[i], rows[j])
  }

  /** A changed row that clashes with nobody new. */
  lemma ReplaceRow(rows: Rows, k: nat, a: Account)
    requires TableSound(rows) && k < |rows| && RowSound(a)
    requires forall j :: 0 <= j < |rows| && j != k ==> NoClash(a, rows[j]) && NoClash(rows[j], a)
    ensures TableSound(rows[k := a])
  {
  }

  /** A row that keeps everything the invariants speak of, or is deleted. */
  lemma TouchRow(rows: Rows, k: nat, a: Account)
    requires TableSound(rows) && k < |rows| && RowSound(a)
    requires a.deleted || (!rows[k].deleted && a.authorizerAppid == rows[k].authorizerAppid
                           && a.authType == rows[k].authType && a.tenantId == rows[k].tenantId
                           && a.wxAppId == rows[k].wxAppId)
    ensures TableSound(rows[k := a])
  {
    forall j | 0 <= j < |rows| && j != k
      ensures NoClash(a, rows[j]) && NoClash(rows[j], a)
    {
      assert NoClash(rows[k], rows[j]) && NoClash(rows[j], rows[k]);
    }
    ReplaceRow(rows, k, a);
  }

  lemma AppendRow(rows: Rows, a: Account)
    requires TableSound(rows) && RowSound(a)
    requires forall j :: 0 <= j < |rows| ==> NoClash(a, rows[j]) && NoClash(rows[j], a)
    ensures TableSound(rows + [a])
  {
    var all := rows + [a];
    forall i, j | 0 <= i < |all| && 0 <= j < |all| && i != j
      ensures NoClash(all[i], all[j])
    {
      if i == |rows| {
        assert all[i] == a && all[j] == rows[j];
      } else if j == |rows| {
        assert all[j] == a && all[i] == rows[i];
      }
    }
  }

  /** The second write of the update event undoes the first. */
  lemma UpdateKeepsTokens(w: World, appid: string, access: string, refresh: string, funcInfo: string, now: int)
    ensures var id := FirstId(w.rows, Authorized(appid));
            HandleUpdateAuthorized(w, appid, access, refresh, funcInfo, now) ==
            if appid == "" || !(1 <= id <= |w.rows|) then (w, Failed)
            else (w.(rows := w.rows[id - 1 := w.rows[id - 1].(funcInfo := Some(funcInfo))]), Done)
  {
    FirstIdFinds(w.rows, Authorized(appid));
    var id := FirstId(w.rows, Authorized(appid));
    if appid != "" && id != 0 {
      var rows := HandleUpdateAuthorized(w, appid, access, refresh, funcInfo, now).0.rows;
      assert rows == w.rows[id - 1 := w.rows[id - 1].(funcInfo := Some(funcInfo))];
    }
  }

  lemma PlatformEventKeepsTable(w: World, e: Event, now: int)
    requires TableSound(w.rows) && (e.Authorize? || e.UpdateAuthorize? || e.Unauthorize?)
    ensures TableSound(Handle(w, e, now).0.rows)
  {
    var id := FirstId(w.rows, Authorized(e.appid));
    FirstIdFinds(w.rows, Authorized(e.appid));
    match e
    case Authorize(appid, tenant, access, refresh, funcInfo) =>
      if tenant.Some? && |appid| >= 12 {
        if id == 0 {
          AppendRow(w.rows, PlatformAccount(tenant.value, appid, access, refresh, now + EXPIRES_IN, funcInfo));
        } else {
          var a := WithToken(w.rows[id - 1], access, refresh, now + EXPIRES_IN);
          TouchRow(w.rows, id - 1, a.(funcInfo := Some(funcInfo)));
        }
      }
    case UpdateAuthorize(appid, access, refresh, funcInfo) =>
      UpdateKeepsTokens(w, appid, access, refresh, funcInfo, now);
      if appid != "" && id != 0 {
        TouchRow(w.rows, id - 1, w.rows[id - 1].(funcInfo := Some(funcInfo)));
      }
    case Unauthorize(appid) =>
      if appid != "" && id != 0 {
        TouchRow(w.rows, id - 1, w.rows[id - 1].(authStatus := 3));
      }
  }

  lemma CreateKeepsTable(w: World, e: Event, now: int)
    requires TableSound(w.rows) && e.Create?
    ensures TableSound(Handle(w, e, now).0.rows)
  {
    FirstIdFinds(w.rows, BoundBy(e.appId, e.tenantId));
    var w' := Handle(w, e, now).0;
    if w' != w {
      var a := w'.rows[|w.rows|];
      forall j | 0 <= j < |w.rows|
        ensures NoClash(a, w.rows[j]) && NoClash(w.rows[j], a)
      {
        assert RowSound(w.rows[j]) && !BoundBy(e.appId, e.tenantId)(w.rows[j]);
      }
      AppendRow(w.rows, a);
    }
  }

  lemma EditKeepsTable(w: World, e: Event, now: int)
    requires TableSound(w.rows) && e.Update?
    ensures TableSound(Handle(w, e, now).0.rows)
  {
    var (w', reply) := Handle(w, e, now);
    if w' != w {
      var k := e.id - 1;
      var was, a := w.rows[k], w'.rows[k];
      assert RowSound(was);
      if ChangesAppId(was, e.edit) {
        EditKeepsApart(w.rows, k, a, e.edit.wxAppId.value, e.tenantId);
        ReplaceRow(w.rows, k, a);
      } else {
        TouchRow(w.rows, k, a);
      }
    }
  }

  /** The uniqueness check: a manual row may take an AppId that no other active manual row of its tenant has. */
  lemma EditKeepsApart(rows: Rows, k: nat, a: Account, appId: string, tenantId: int)
    requires TableSound(rows) && k < |rows| && rows[k].wxAppId != Some(appId)
    requires a.authType == 1 && a.authorizerAppid == None && a.tenantId == tenantId && a.wxAppId == Some(appId)
    requires FirstId(rows, BoundBy(appId, tenantId)) in {0, k + 1}
    ensures forall j :: 0 <= j < |rows| && j != k ==> NoClash(a, rows[j]) && NoClash(rows[j], a)
  {
    FirstIdFinds(rows, BoundBy(appId, tenantId));
    forall j | 0 <= j < |rows| && j != k
      ensures NoClash(a, rows[j]) && NoClash(rows[j], a)
    {
      assert RowSound(rows[j]) && !BoundBy(appId, tenantId)(rows[j]);
    }
  }

  lemma TokenRequestKeepsTable(w: World, e: Event, now: int)
    requires TableSound(w.rows) && (e.GetToken? || e.Delete?)
    ensures TableSound(Handle(w, e, now).0.rows)
  {
    var w' := Handle(w, e, now).0;
    if w'.rows != w.rows {
      var k := e.id - 1;
      assert RowSound(w.rows[k]);
      TouchRow(w.rows, k, w'.rows[k]);
    }
  }

  lemma HandleKeepsTable(w: World, e: Event, now: int)
    requires TableSound(w.rows)
    ensures TableSound(Handle(w, e, now).0.rows)
  {
    match e
    case Authorize(_, _, _, _, _) => PlatformEventKeepsTable(w, e, now);
    case UpdateAuthorize(_, _, _, _) => PlatformEventKeepsTable(w, e, now);
    case Unauthorize(_) => PlatformEventKeepsTable(w, e, now);
    case Create(_, _, _, _, _) => CreateKeepsTable(w, e, now);
    case Update(_, _, _, _) => EditKeepsTable(w, e, now);
    case GetToken(_, _, _) => TokenRequestKeepsTable(w, e, now);
    case Delete(_, _) => TokenRequestKeepsTable(w, e, now);
  }

  /** The mutual invariants of the account table hold after every run. */
  lemma {:induction false} TableAlwaysSound(events: seq<(Event, int)>)
    ensures TableSound(Run(events).rows)
  {
    if events != [] {
      var (e, now) := events[|events| - 1];
      TableAlwaysSound(events[..|events| - 1]);
      HandleKeepsTable(Run(events[..|events| - 1]), e, now);
    }
  }

  // ----- The cache -----

  /** A cache entry of a platform row holds the row's token, and expires no later than the row says. */
  ghost predicate Agrees(a: Account, entry: Entry) {
    && !a.deleted
    && (a.authType == 2 ==>
          a.accessToken == Some(entry.value) && a.tokenExpireAt.Some? && entry.expiresAt <= a.tokenExpireAt.value)
  }

  ghost predicate CacheSound(w: World) {
    forall id :: id in w.cache ==> 1 <= id <= |w.rows| && Agrees(w.rows[id - 1], w.cache[id])
  }

  lemma PlatformEventKeepsCache(w: World, e: Event, now: int)
    requires TableSound(w.rows) && CacheSound(w) && (e.Authorize? || e.UpdateAuthorize? || e.Unauthorize?)
    ensures CacheSound(Handle(w, e, now).0)
  {
    FirstIdFinds(w.rows, Authorized(e.appid));
    if e.UpdateAuthorize? {
      UpdateKeepsTokens(w, e.appid, e.access, e.refresh, e.funcInfo, now);
    }
  }

  lemma RequestKeepsCache(w: World, e: Event, now: int)
    requires TableSound(w.rows) && CacheSound(w) && (e.GetToken? || e.Create? || e.Update? || e.Delete?)
    ensures CacheSound(Handle(w, e, now).0)
  {
  }

  lemma {:induction false} CacheAlwaysSound(events: seq<(Event, int)>)
    ensures CacheSound(Run(events))
  {
    if events != [] {
      var before := events[..|events| - 1];
      var (e, now) := events[|events| - 1];
      CacheAlwaysSound(before);
      TableAlwaysSound(before);
      if e.Authorize? || e.UpdateAuthorize? || e.Unauthorize? {
        PlatformEventKeepsCache(Run(before), e, now);
      } else {
        RequestKeepsCache(Run(before), e, now);
      }
    }
  }

  /**
    Every token handed out for a platform account, in every run, is the current access
    token of its live row, and has not expired.
   */
  lemma TokenHandedOutIsCurrent(events: seq<(Event, int)>, id: int, access: string, refresh: string, now: int)
    requires GetAuthorizerAccessToken(Run(events), id, access, refresh, now).1.Ok?
    ensures var (w, reply) := GetAuthorizerAccessToken(Run(events), id, access, refresh, now);
            && HasRow(w.rows, id)
            && (w.rows[id - 1].authType == 2 ==>
                  && w.rows[id - 1].accessToken == Some(reply.token)
                  && w.rows[id - 1].tokenExpireAt.Some? && now < w.rows[id - 1].tokenExpireAt.value)
  {
    CacheAlwaysSound(events);
  }

  /**
    After an authorisation the account is live with status 1, and its token is the one
    handed out until it expires, for a new row as for an old one.
   */
  lemma AuthorizedTokenIsServed(events: seq<(Event, int)>, appid: string, tenant: Option<int>, access: string,
                                refresh: string, funcInfo: string, now: int, later: int, a: string, r: string)
    requires HandleAuthorized(Run(events), appid, tenant, access, refresh, funcInfo, now).1 == Done
    requires access != "" && later < now + EXPIRES_IN
    ensures var w := HandleAuthorized(Run(events), appid, tenant, access, refresh, funcInfo, now).0;
            var id := FirstId(w.rows, Authorized(appid));
            && HasRow(w.rows, id) && w.rows[id - 1].authStatus == 1 && w.rows[id - 1].refreshToken == Some(refresh)
            && GetAuthorizerAccessToken(w, id, a, r, later).1 == Ok(access)
  {
    TableAlwaysSound(events);
    CacheAlwaysSound(events);
    hide Run, TableSound, RowSound, NoClash;
    var before := Run(events);
    var w := HandleAuthorized(before, appid, tenant, access, refresh, funcInfo, now).0;
    var was := FirstId(before.rows, Authorized(appid));
    FirstIdFinds(before.rows, Authorized(appid));
    HandleKeepsTable(before, Authorize(appid, tenant, access, refresh, funcInfo), now);
    AuthorizedIdUnique(w.rows, appid, if was == 0 then |before.rows| else was - 1);
  }

  /** At most one live row has a given authorizer AppId. */
  lemma AuthorizedIdUnique(rows: Rows, appid: string, k: nat)
    requires TableSound(rows) && k < |rows| && Authorized(appid)(rows[k])
    ensures FirstId(rows, Authorized(appid)) == k + 1
  {
    FirstIdFinds(rows, Authorized(appid));
  }

  /**
    After a cancellation the row has status 3 and no cached token, and yet its token is
    still handed out until it expires; then it is refreshed, and the status is 1 again.
   */
  lemma CancelledAccountIsStillServed(events: seq<(Event, int)>, appid: string, now: int, a: string, r: string)
    requires appid != "" && FirstId(Run(events).rows, Authorized(appid)) != 0
    ensures var w := HandleUnauthorized(Run(events), appid).0;
            var id := FirstId(Run(events).rows, Authorized(appid));
            && HasRow(w.rows, id) && w.rows[id - 1].authStatus == 3 && id !in w.cache
            && var row := w.rows[id - 1];
               var (w', reply) := GetAuthorizerAccessToken(w, id, a, r, now);
               if row.accessToken.Some? && row.tokenExpireAt.Some? && now < row.tokenExpireAt.value then
                 reply == Ok(row.accessToken.value) && w'.rows == w.rows
               else if row.refreshToken.Some? && row.refreshToken.value != "" then
                 reply == Ok(a) && w'.rows[id - 1].authStatus == 1
               else reply == Failed
  {
    FirstIdFinds(Run(events).rows, Authorized(appid));
  }

  // ----- The update event -----

  /** What the handlers answer to the events, from a given world on. */
  function Replies(w: World, events: seq<(Event, int)>): seq<Reply>
    decreases |events|
  {
    if events == [] then []
    else
      var (w', reply) := Handle(w, events[0].0, events[0].1);
      [reply] + Replies(w', events[1..])
  }

  ghost predicate SameRow(a: Account, b: Account) {
    b == a.(funcInfo := b.funcInfo)
  }

  /** Two worlds that differ at most in permissions, which no handler looks at. */
  ghost predicate SameTokens(w: World, v: World) {
    && |w.rows| == |v.rows| && w.cache == v.cache
    && forall i :: 0 <= i < |w.rows| ==> SameRow(w.rows[i], v.rows[i])
  }

  /** Both worlds find the same rows. */
  lemma {:induction false} SameRowFound(rows: Rows, others: Rows, p: Account -> bool)
    requires |rows| == |others|
    requires forall i :: 0 <= i < |rows| ==> (p(rows[i]) <==> p(others[i]))
    ensures FirstId(rows, p) == FirstId(others, p)
  {
    if rows != [] {
      SameRowFound(rows[..|rows| - 1], others[..|rows| - 1], p);
    }
  }

  lemma PlatformEventAlike(w: World, v: World, e: Event, now: int)
    requires SameTokens(w, v) && (e.Authorize? || e.UpdateAuthorize? || e.Unauthorize?)
    ensures Handle(w, e, now).1 == Handle(v, e, now).1
    ensures SameTokens(Handle(w, e, now).0, Handle(v, e, now).0)
  {
    SameRowFound(w.rows, v.rows, Authorized(e.appid));
    if e.UpdateAuthorize? {
      UpdateKeepsTokens(w, e.appid, e.access, e.refresh, e.funcInfo, now);
      UpdateKeepsTokens(v, e.appid, e.access, e.refresh, e.funcInfo, now);
    }
  }

  lemma RequestAlike(w: World, v: World, e: Event, now: int)
    requires SameTokens(w, v) && (e.GetToken? || e.Create? || e.Delete?)
    ensures Handle(w, e, now).1 == Handle(v, e, now).1
    ensures SameTokens(Handle(w, e, now).0, Handle(v, e, now).0)
  {
    if e.Create? {
      SameRowFound(w.rows, v.rows, BoundBy(e.appId, e.tenantId));
    }
  }

  lemma EditAlike(w: World, v: World, e: Event, now: int)
    requires SameTokens(w, v) && e.Update?
    ensures Handle(w, e, now).1 == Handle(v, e, now).1
    ensures SameTokens(Handle(w, e, now).0, Handle(v, e, now).0)
  {
    if e.edit.wxAppId.Some? {
      SameRowFound(w.rows, v.rows, BoundBy(e.edit.wxAppId.value, e.tenantId));
    }
  }

  lemma {:induction false} RepliesAlike(w: World, v: World, events: seq<(Event, int)>)
    requires SameTokens(w, v)
    ensures Replies(w, events) == Replies(v, events)
    decreases |events|
  {
    if events != [] {
      var (e, now) := events[0];
      if e.Authorize? || e.UpdateAuthorize? || e.Unauthorize? {
        PlatformEventAlike(w, v, e, now);
      } else if e.Update? {
        EditAlike(w, v, e, now);
      } else {
        RequestAlike(w, v, e, now);
      }
      RepliesAlike(Handle(w, e, now).0, Handle(v, e, now).0, events[1..]);
    }
  }

  /**
    The tokens that come with an update event are lost: whatever happens afterwards, every
    handler, token requests included, replies what it would have replied without the event.
   */
  lemma UpdateEventLosesTokens(w: World, appid: string, access: string, refresh: string, funcInfo: string, now: int,
                               later: seq<(Event, int)>)
    ensures var w' := HandleUpdateAuthorized(w, appid, access, refresh, funcInfo, now).0;
            SameTokens(w, w') && Replies(w', later) == Replies(w, later)
  {
    UpdateKeepsTokens(w, appid, access, refresh, funcInfo, now);
    RepliesAlike(w, HandleUpdateAuthorized(w, appid, access, refresh, funcInfo, now).0, later);
  }

  // ----- Credential edits -----

  /** Neither edits nor deletes account `id`, and happens by `t`. */
  predicate LeavesAlone(event: (Event, int), id: int, t: int) {
    var (e, now) := event;
    now <= t && !(e.Update? && e.id == id) && !(e.Delete? && e.id == id)
  }

  /**
    After an edit that stored `token` in manual row `id` and found `was` in the cache: what
    was alive until `t` is still there, and anything else that is cached for the row is `token`.
   */
  ghost predicate FollowsEdit(w: World, id: int, was: Cache, token: string, t: int) {
    && HasRow(w.rows, id) && w.rows[id - 1].authType == 1 && w.rows[id - 1].accessToken == Some(token)
    && (id in w.cache ==> w.cache[id].value == token || (id in was && w.cache[id] == was[id]))
    && (CacheGet(was, id, t) != "" ==> id in w.cache && w.cache[id] == was[id])
  }

  lemma PlatformEventFollows(w: World, e: Event, now: int, id: int, was: Cache, token: string, t: int)
    requires TableSound(w.rows) && FollowsEdit(w, id, was, token, t)
    requires e.Authorize? || e.UpdateAuthorize? || e.Unauthorize?
    ensures FollowsEdit(Handle(w, e, now).0, id, was, token, t)
  {
    FirstIdFinds(w.rows, Authorized(e.appid));
    assert RowSound(w.rows[id - 1]);
    if e.UpdateAuthorize? {
      UpdateKeepsTokens(w, e.appid, e.access, e.refresh, e.funcInfo, now);
    }
  }

  lemma RequestFollows(w: World, e: Event, now: int, id: int, was: Cache, token: string, t: int)
    requires TableSound(w.rows) && FollowsEdit(w, id, was, token, t) && LeavesAlone((e, now), id, t)
    requires e.GetToken? || e.Create? || e.Update? || e.Delete?
    ensures FollowsEdit(Handle(w, e, now).0, id, was, token, t)
  {
    assert RowSound(w.rows[id - 1]);
  }

  lemma RunSnoc(events: seq<(Event, int)>, e: Event, now: int)
    ensures Run(events + [(e, now)]) == Handle(Run(events), e, now).0
  {
    assert (events + [(e, now)])[..|events|] == events;
  }

  lemma {:induction false} RunFollowsEdit(events: seq<(Event, int)>, more: seq<(Event, int)>,
                                          id: int, was: Cache, token: string, t: int)
    requires FollowsEdit(Run(events), id, was, token, t)
    requires forall i :: 0 <= i < |more| ==> LeavesAlone(more[i], id, t)
    ensures FollowsEdit(Run(events + more), id, was, token, t)
  {
    if more == [] {
      assert events + more == events;
    } else {
      var before, last := more[..|more| - 1], more[|more| - 1];
      RunFollowsEdit(events, before, id, was, token, t);
      TableAlwaysSound(events + before);
      RunSnoc(events + before, last.0, last.1);
      assert events + more == (events + before) + [last];
      assert LeavesAlone(last, id, t);
      hide Handle, FollowsEdit, LeavesAlone, TableSound, Run;
      if last.0.Authorize? || last.0.UpdateAuthorize? || last.0.Unauthorize? {
        PlatformEventFollows(Run(events + before), last.0, last.1, id, was, token, t);
      } else {
        RequestFollows(Run(events + before), last.0, last.1, id, was, token, t);
      }
    }
  }

  lemma EditIsFollowed(w: World, id: int, tenantId: int, e: Edit, fetched: Fetched, now: int, t: int)
    requires TableSound(w.rows)
    requires UpdateAccount(w, id, tenantId, e, fetched, now).1 == Done && NeedsToken(w.rows[id - 1], e)
    ensures FollowsEdit(UpdateAccount(w, id, tenantId, e, fetched, now).0, id, w.cache, fetched.value.0, t)
  {
    assert RowSound(w.rows[id - 1]);
  }

  /** What a token request gets then. */
  lemma AnswerAfterEdit(w: World, id: int, was: Cache, token: string, t: int, a: string, r: string)
    requires TableSound(w.rows) && FollowsEdit(w, id, was, token, t)
    ensures var (w', reply) := GetAuthorizerAccessToken(w, id, a, r, t);
            && w'.rows == w.rows
            && if CacheGet(was, id, t) != "" then reply == Ok(CacheGet(was, id, t)) else reply in {Ok(token), Failed}
  {
    assert RowSound(w.rows[id - 1]);
  }

  /**
    Editing the credentials of a manual account stores a new token and leaves the cache
    alone. Whatever other handlers do from then on, and unless the new token is the cached
    one, a request at `t` gets nothing but the row's token exactly if the entry that the
    cache had at the edit is not alive at `t`.
   */
  lemma {:induction false} CredentialEditAndCache(events: seq<(Event, int)>, id: int, tenantId: int, e: Edit,
                                                  fetched: Fetched, now: int, more: seq<(Event, int)>,
                                                  t: int, a: string, r: string)
    requires UpdateAccount(Run(events), id, tenantId, e, fetched, now).1 == Done
    requires NeedsToken(Run(events).rows[id - 1], e)
    requires forall i :: 0 <= i < |more| ==> LeavesAlone(more[i], id, t)
    ensures var cached := CacheGet(Run(events).cache, id, t);
            var w := Run(events + [(Event.Update(id, tenantId, e, fetched), now)] + more);
            var (w', reply) := GetAuthorizerAccessToken(w, id, a, r, t);
            && HasRow(w'.rows, id)
            && (cached != fetched.value.0 ==>
                  ((reply.Ok? ==> w'.rows[id - 1].accessToken == Some(reply.token)) <==> cached == ""))
  {
    var was, token := Run(events).cache, fetched.value.0;
    var edit: Event := Event.Update(id, tenantId, e, fetched);
    var edited := events + [(edit, now)];
    TableAlwaysSound(events);
    EditIsFollowed(Run(events), id, tenantId, e, fetched, now, t);
    RunSnoc(events, edit, now);
    RunFollowsEdit(edited, more, id, was, token, t);
    TableAlwaysSound(edited + more);
    AnswerAfterEdit(Run(edited + more), id, was, token, t, a, r);
  }

  /** Such a stale token is handed out: a run that ends with one. */
  lemma StaleManualToken() returns (events: seq<(Event, int)>)
    ensures var w := Run(events);
            && HasRow(w.rows, 1) && w.rows[0].accessToken == Some("new")
            && GetAuthorizerAccessToken(w, 1, "", "", 3).1 == Ok("old")
  {
    var e1: (Event, int) := (Create(1, "n", "wx1", "s", Some(("old", 7200))), 0);
    var e2: (Event, int) := (GetToken(1, "", ""), 1);
    var e3: (Event, int) := (Update(1, 1, Edit(None, None, Some("t")), Some(("new", 7200))), 2);
    var one: seq<(Event, int)>, two: seq<(Event, int)> := [e1], [e1, e2];
    events := [e1, e2, e3];
    assert events[..2] == two && two[..1] == one && one[..0] == [];
    assert "wx1"[..2] == "wx";
    var row := Account(1, Some("n"), Some("wx1"), Some("s"), 1, 1, None, Some("old"), Some(7200), None, None, false);
    assert Run(one) == World([row], map[]);
    assert Run(two) == World([row], map[1 := Entry("old", 7200)]);
    assert Run(events).cache == map[1 := Entry("old", 7200)];
  }
}
