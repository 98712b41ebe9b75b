/**
  The server's refresh-token slots: one Redis key per user, overwritten by every new token.
 */
module RefreshServer {
  const WEEK: int := 7 * 24 * 3600

  datatype Slot = Slot(token: string, expiresAt: int)

  type Slots = map<int, Slot>

  /** `GetRefreshToken`: "" when the key is missing or has expired. */
  function Lookup(slots: Slots, userId: int, now: int): string {
    if userId in slots && now < slots[userId].expiresAt then slots[userId].token else ""
  }

  /** A configured lifetime that is not positive counts as a week. */
  function Lifetime(configured: int): (ttl: int)
    ensures ttl > 0 && (ttl == configured <==> configured > 0)
    ensures configured <= 0 ==> ttl == 604800
  {
    if configured <= 0 then WEEK else configured
  }

  datatype RefreshReply = Unauthorized | BadRequest | Rotated(refreshToken: string)

  /**
    The refresh handler, undisturbed. `userId` is 0 if the header names nobody, and
    `newToken` is the token that is generated if it comes to that.
   */
  function Refreshed(slots: Slots, userId: int, presented: string, userExists: bool,
                     newToken: string, ttl: int, now: int): (Slots, RefreshReply)
  {
    var stored := Lookup(slots, userId, now);
    if presented == "" then (slots, BadRequest)
    else if userId == 0 || stored == "" || stored != presented || !userExists then (slots, Unauthorized)
    else (slots[userId := Slot(newToken, now + ttl)], Rotated(newToken))
  }

  /** A token that replaces another is the user's for exactly its lifetime, and the replaced one is not. */
  lemma RotatedTokenLives(slots: Slots, userId: int, presented: string, newToken: string, ttl: int,
                          now: int, later: int)
    requires presented != "" && newToken != "" && newToken != presented
    requires userId != 0 && Lookup(slots, userId, now) == presented
    ensures var slots' := Refreshed(slots, userId, presented, true, newToken, ttl, now).0;
            && (Lookup(slots', userId, later) == newToken <==> later < now + ttl)
            && Lookup(slots', userId, later) != presented
  {
  }

  class SlotStore {
    var slots: Slots
    const configuredTtl: int

    constructor (configuredTtl: int)
      ensures slots == map[] && this.configuredTtl == configuredTtl
    {
      this.configuredTtl := configuredTtl;
      slots := map[];
    }

    method GetRefreshToken(userId: int, now: int) returns (token: string)
      ensures token == Lookup(slots, userId, now)
    {
      token := if userId in slots && now < slots[userId].expiresAt then slots[userId].token else "";
    }

    /** Stores a freshly generated token, whatever the slot held. */
    method GenerateRefreshToken(userId: int, token: string, now: int)
      modifies this
      ensures slots == old(slots)[userId := Slot(token, now + Lifetime(configuredTtl))]
    {
      slots := slots[userId := Slot(token, now + Lifetime(configuredTtl))];
    }

    method RevokeRefreshToken(userId: int)
      modifies this
      ensures slots == old(slots) - {userId}
    {
      slots := slots - {userId};
    }

    /** Only the current token of the user is accepted, and it is no longer accepted afterwards. */
    method Refresh(userId: int, presented: string, userExists: bool, newToken: string, now: int)
      returns (reply: RefreshReply)
      requires newToken != "" && newToken != presented
      modifies this
      ensures (slots, reply)
              == Refreshed(old(slots), userId, presented, userExists, newToken, Lifetime(configuredTtl), now)
      ensures reply.Rotated? <==>
                presented != "" && userId != 0 && userExists && old(Lookup(slots, userId, now)) == presented
      ensures reply == BadRequest <==> presented == ""
      ensures reply.Rotated? ==> reply.refreshToken == newToken == Lookup(slots, userId, now)
      ensures !reply.Rotated? ==> slots == old(slots)
      ensures reply.Rotated? ==> Lookup(slots, userId, now) != presented
      ensures forall u :: u != userId ==> Lookup(slots, u, now) == old(Lookup(slots, u, now))
    {
      if presented == "" {
        return BadRequest;
      }
      if userId == 0 {
        return Unauthorized;
      }
      var stored := GetRefreshToken(userId, now);
      if stored == "" || stored != presented {
        return Unauthorized;
      }
      if !userExists {
        return Unauthorized;
      }
      GenerateRefreshToken(userId, newToken, now);
      return Rotated(newToken);
    }
  }
}
