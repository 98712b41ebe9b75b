/**
  The handlers that touch accounts and their cached access tokens: what each does to
  the table and the cache, at one instant, with all database and cache calls succeeding.
 */
module WechatTokens {
  import opened Options
  import opened AccountTable

  /** A cached value with the instant it expires. */
  datatype Entry = Entry(value: string, expiresAt: int)

  type Cache = map<int, Entry>

  datatype World = World(rows: Rows, cache: Cache)

  datatype Reply = Ok(token: string) | Done | Conflict | NotFound | Forbidden | Invalid | Failed | Panic

  const EXPIRES_IN: int := 7200

  /** "" when the key is missing or has expired. */
  function CacheGet(cache: Cache, id: int, now: int): string {
    if id in cache && now < cache[id].expiresAt then cache[id].value else ""
  }

  // ----- Platform events -----

  function PlatformAccount(tenantId: int, appid: string, access: string, refresh: string,
                           expireAt: int, funcInfo: string): Account
    requires |appid| >= 12
  {
    Account(tenantId, Some("授权公众号_" + appid[..12]), Some(appid), None, 2, 1,
            Some(refresh), Some(access), Some(expireAt), Some(appid), Some(funcInfo), false)
  }

  /** `tenant` is what the pre-authorisation code resolves to; `access`, `refresh` and `funcInfo` come from WeChat. */
  function HandleAuthorized(w: World, appid: string, tenant: Option<int>,
                            access: string, refresh: string, funcInfo: string, now: int): (World, Reply) {
    if tenant == None then (w, Failed)
    else if |appid| < 12 then (w, Panic)
    else
      var id := FirstId(w.rows, Authorized(appid));
      var expireAt := now + EXPIRES_IN;
      if id == 0 then
        (w.(rows := w.rows + [PlatformAccount(tenant.value, appid, access, refresh, expireAt, funcInfo)]), Done)
      else if 1 <= id <= |w.rows| then
        (World(w.rows[id - 1 := WithToken(w.rows[id - 1], access, refresh, expireAt).(funcInfo := Some(funcInfo))],
               w.cache[id := Entry(access, expireAt)]),
         Done)
      else (w, Failed)
  }

  /** Two writes: of the new tokens, and of the row as it was loaded before them, with the new permissions. */
  function HandleUpdateAuthorized(w: World, appid: string, access: string, refresh: string,
                                  funcInfo: string, now: int): (World, Reply) {
    var id := FirstId(w.rows, Authorized(appid));
    if appid == "" || !(1 <= id <= |w.rows|) then (w, Failed)
    else
      var loaded := w.rows[id - 1];
      var updated := TokenUpdated(w.rows, id, access, refresh, now + EXPIRES_IN);
      (w.(rows := WrittenBack(updated, id, loaded.(funcInfo := Some(funcInfo)))), Done)
  }

  function HandleUnauthorized(w: World, appid: string): (World, Reply) {
    var id := FirstId(w.rows, Authorized(appid));
    if appid == "" || !(1 <= id <= |w.rows|) then (w, Done)
    else (World(w.rows[id - 1 := w.rows[id - 1].(authStatus := 3)], w.cache - {id}), Done)
  }

  /** `access` and `refresh` are what a refresh would yield. */
  function GetAuthorizerAccessToken(w: World, id: int, access: string, refresh: string, now: int): (World, Reply) {
    var cached := CacheGet(w.cache, id, now);
    if cached != "" then (w, Ok(cached))
    else if !HasRow(w.rows, id) then (w, Failed)
    else
      var a := w.rows[id - 1];
      if a.accessToken.Some? && a.tokenExpireAt.Some? && now < a.tokenExpireAt.value then
        (w.(cache := w.cache[id := Entry(a.accessToken.value, a.tokenExpireAt.value)]), Ok(a.accessToken.value))
      else if a.refreshToken == None || a.refreshToken == Some("") then (w, Failed)
      else
        (World(w.rows[id - 1 := WithToken(a, access, refresh, now + EXPIRES_IN)],
               w.cache[id := Entry(access, now + EXPIRES_IN)]),
         Ok(access))
  }

  // ----- The account API -----

  /** What WeChat answers to an AppId and secret: a token and its lifetime, or a refusal. */
  type Fetched = Option<(string, int)>

  predicate HasWxPrefix(appId: string) {
    |appId| >= 2 && appId[..2] == "wx"
  }

  function CreateManual(w: World, tenantId: int, name: string, appId: string, secret: string,
                        fetched: Fetched, now: int): (World, Reply) {
    if !HasWxPrefix(appId) then (w, Invalid)
    else if FirstId(w.rows, BoundBy(appId, tenantId)) != 0 then (w, Conflict)
    else if fetched == None then (w, Failed)
    else
      var a := Account(tenantId, Some(name), Some(appId), Some(secret), 1, 1,
                       None, Some(fetched.value.0), Some(now + fetched.value.1), None, None, false);
      (w.(rows := w.rows + [a]), Done)
  }

  datatype Edit = Edit(name: Option<string>, wxAppId: Option<string>, wxAppSecret: Option<string>)

  function OrEmpty(s: Option<string>): string {
    if s.Some? then s.value else ""
  }

  function Replaced<T>(new': Option<T>, was: Option<T>): Option<T> {
    if new'.Some? then new' else was
  }

  predicate ChangesAppId(a: Account, e: Edit) {
    e.wxAppId.Some? && e.wxAppId.value != OrEmpty(a.wxAppId)
  }

  predicate ChangesSecret(a: Account, e: Edit) {
    e.wxAppSecret.Some? && e.wxAppSecret.value != OrEmpty(a.wxAppSecret)
  }

  predicate NeedsToken(a: Account, e: Edit) {
    ChangesAppId(a, e) || ChangesSecret(a, e)
  }

  function Edited(a: Account, e: Edit, fetched: Fetched, now: int): Account
    requires NeedsToken(a, e) ==> fetched.Some?
  {
    var t := if NeedsToken(a, e)
             then a.(accessToken := Some(fetched.value.0), tokenExpireAt := Some(now + fetched.value.1))
             else a;
    t.(name := Replaced(e.name, a.name),
       wxAppId := Replaced(e.wxAppId, a.wxAppId),
       wxAppSecret := Replaced(e.wxAppSecret, a.wxAppSecret))
  }

  /** What the edit handler refuses before it asks WeChat for a token. */
  function CheckEdit(rows: Rows, id: int, tenantId: int, e: Edit): Reply {
    if id <= 0 then Failed
    else if !HasRow(rows, id) then NotFound
    else
      var a := rows[id - 1];
      if a.tenantId != tenantId then Forbidden
      else if a.authType == 2 && (e.wxAppId.Some? || e.wxAppSecret.Some?) then Forbidden
      else if ChangesAppId(a, e) && !HasWxPrefix(e.wxAppId.value) then Invalid
      else if ChangesAppId(a, e) && FirstId(rows, BoundBy(e.wxAppId.value, tenantId)) !in {0, id} then Conflict
      else Done
  }

  function UpdateAccount(w: World, id: int, tenantId: int, e: Edit, fetched: Fetched, now: int): (World, Reply) {
    var check := CheckEdit(w.rows, id, tenantId, e);
    if check != Done then (w, check)
    else
      var a := w.rows[id - 1];
      if NeedsToken(a, e) && fetched == None then (w, Failed)
      else (w.(rows := w.rows[id - 1 := Edited(a, e, fetched, now)]), Done)
  }

  function DeleteAccount(w: World, id: int, tenantId: int): (World, Reply) {
    if id <= 0 then (w, Failed)
    else if !HasRow(w.rows, id) then (w, NotFound)
    else if w.rows[id - 1].tenantId != tenantId then (w, Forbidden)
    else (World(w.rows[id - 1 := w.rows[id - 1].(deleted := true)], w.cache - {id}), Done)
  }

  // ----- The handlers, statement by statement -----

  class CacheStore {
    var entries: Cache

    constructor ()
      ensures entries == map[]
    {
      entries := map[];
    }

    method Get(id: int, now: int) returns (value: string)
      ensures value == CacheGet(entries, id, now)
    {
      value := if id in entries && now < entries[id].expiresAt then entries[id].value else "";
    }

    method Set(id: int, value: string, now: int, ttl: int)
      modifies this
      ensures entries == old(entries)[id := Entry(value, now + ttl)]
    {
      entries := entries[id := Entry(value, now + ttl)];
    }

    method Del(id: int)
      modifies this
      ensures entries == old(entries) - {id}
    {
      entries := entries - {id};
    }
  }

  class Handlers {
    const repo: Repo
    const cache: CacheStore

    constructor (repo: Repo, cache: CacheStore)
      ensures this.repo == repo && this.cache == cache
    {
      this.repo, this.cache := repo, cache;
    }

    function View(): World
      reads repo, cache
    {
      World(repo.rows, cache.entries)
    }

    method OnAuthorized(appid: string, tenant: Option<int>, access: string, refresh: string, funcInfo: string, now: int)
      returns (reply: Reply)
      modifies repo, cache
      ensures (View(), reply) == old(HandleAuthorized(View(), appid, tenant, access, refresh, funcInfo, now))
    {
      if tenant == None {
        return Failed;
      }
      if |appid| < 12 {
        return Panic;
      }
      FirstIdFinds(repo.rows, Authorized(appid));
      var id := repo.Find(Authorized(appid));
      var expireAt := now + EXPIRES_IN;
      if id == 0 {
        var _ := repo.Create(PlatformAccount(tenant.value, appid, access, refresh, expireAt, funcInfo));
        return Done;
      }
      var existing := WithToken(repo.rows[id - 1], access, refresh, expireAt).(funcInfo := Some(funcInfo));
      var _ := repo.Update(id, existing);
      cache.Set(id, access, now, EXPIRES_IN);
      return Done;
    }

    method OnUpdateAuthorized(appid: string, access: string, refresh: string, funcInfo: string, now: int)
      returns (reply: Reply)
      modifies repo, cache
      ensures (View(), reply) == old(HandleUpdateAuthorized(View(), appid, access, refresh, funcInfo, now))
    {
      FirstIdFinds(repo.rows, Authorized(appid));
      var id := repo.Find(Authorized(appid));
      if appid == "" || id == 0 {
        return Failed;
      }
      var loaded := repo.rows[id - 1];
      repo.UpdateToken(id, access, refresh, now + EXPIRES_IN);
      var _ := repo.Update(id, loaded.(funcInfo := Some(funcInfo)));
      return Done;
    }

    method OnUnauthorized(appid: string) returns (reply: Reply)
      modifies repo, cache
      ensures (View(), reply) == old(HandleUnauthorized(View(), appid))
    {
      FirstIdFinds(repo.rows, Authorized(appid));
      var id := repo.Find(Authorized(appid));
      if appid == "" || id == 0 {
        return Done;
      }
      repo.UpdateAuthStatus(id, 3);
      cache.Del(id);
      return Done;
    }

    method GetToken(id: int, access: string, refresh: string, now: int) returns (reply: Reply)
      modifies repo, cache
      ensures (View(), reply) == old(GetAuthorizerAccessToken(View(), id, access, refresh, now))
    {
      var cached := cache.Get(id, now);
      if cached != "" {
        return Ok(cached);
      }
      if !HasRow(repo.rows, id) {
        return Failed;
      }
      var a := repo.rows[id - 1];
      if a.accessToken.Some? && a.tokenExpireAt.Some? && now < a.tokenExpireAt.value {
        cache.Set(id, a.accessToken.value, now, a.tokenExpireAt.value - now);
        return Ok(a.accessToken.value);
      }
      if a.refreshToken == None || a.refreshToken == Some("") {
        return Failed;
      }
      repo.UpdateToken(id, access, refresh, now + EXPIRES_IN);
      cache.Set(id, access, now, EXPIRES_IN);
      return Ok(access);
    }

    method Create(tenantId: int, name: string, appId: string, secret: string, fetched: Fetched, now: int)
      returns (reply: Reply)
      modifies repo, cache
      ensures (View(), reply) == old(CreateManual(View(), tenantId, name, appId, secret, fetched, now))
    {
      if !HasWxPrefix(appId) {
        return Invalid;
      }
      var existing := repo.Find(BoundBy(appId, tenantId));
      if existing != 0 {
        return Conflict;
      }
      if fetched == None {
        return Failed;
      }
      var _ := repo.Create(Account(tenantId, Some(name), Some(appId), Some(secret), 1, 1,
                                   None, Some(fetched.value.0), Some(now + fetched.value.1), None, None, false));
      return Done;
    }

    method Update(id: int, tenantId: int, e: Edit, fetched: Fetched, now: int) returns (reply: Reply)
      modifies repo, cache
      ensures (View(), reply) == old(UpdateAccount(View(), id, tenantId, e, fetched, now))
    {
      reply := CheckEdit(repo.rows, id, tenantId, e);
      if reply != Done {
        return;
      }
      var acc := repo.rows[id - 1];
      if NeedsToken(acc, e) {
        if fetched == None {
          return Failed;
        }
        acc := acc.(accessToken := Some(fetched.value.0), tokenExpireAt := Some(now + fetched.value.1));
      }
      if e.name.Some? {
        acc := acc.(name := e.name);
      }
      if e.wxAppId.Some? {
        acc := acc.(wxAppId := e.wxAppId);
      }
      if e.wxAppSecret.Some? {
        acc := acc.(wxAppSecret := e.wxAppSecret);
      }
      var _ := repo.Update(id, acc);
    }

    method Delete(id: int, tenantId: int) returns (reply: Reply)
      modifies repo, cache
      ensures (View(), reply) == old(DeleteAccount(View(), id, tenantId))
    {
      if id <= 0 {
        return Failed;
      }
      if !HasRow(repo.rows, id) {
        return NotFound;
      }
      if repo.rows[id - 1].tenantId != tenantId {
        return Forbidden;
      }
      var _ := repo.SoftDelete(id);
      cache.Del(id);
      return Done;
    }
  }
}
