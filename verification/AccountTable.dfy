/**
  The account table and the statements on it. The id of a row is its position plus one.
 */
module AccountTable {
  import opened Options

  /** `authType` 1 is a manually entered account, 2 one authorised through the platform. */
  datatype Account = Account(
    tenantId: int,
    name: Option<string>,
    wxAppId: Option<string>,
    wxAppSecret: Option<string>,
    authType: int,
    authStatus: int,
    refreshToken: Option<string>,
    accessToken: Option<string>,
    tokenExpireAt: Option<int>,
    authorizerAppid: Option<string>,
    funcInfo: Option<string>,
    deleted: bool)

  type Rows = seq<Account>

  predicate HasRow(rows: Rows, id: int) {
    1 <= id <= |rows| && !rows[id - 1].deleted
  }

  /** The id of the first row with the property, or 0. */
  function FirstId(rows: Rows, p: Account -> bool): int {
    if rows == [] then 0
    else
      var earlier := FirstId(rows[..|rows| - 1], p);
      if earlier != 0 then earlier else if p(rows[|rows| - 1]) then |rows| else 0
  }

  lemma {:induction false} FirstIdFinds(rows: Rows, p: Account -> bool)
    ensures FirstId(rows, p) == 0 <==> forall i :: 0 <= i < |rows| ==> !p(rows[i])
    ensures FirstId(rows, p) != 0 ==> 1 <= FirstId(rows, p) <= |rows| && p(rows[FirstId(rows, p) - 1])
  {
    if rows != [] {
      FirstIdFinds(rows[..|rows| - 1], p);
    }
  }

  /** The row of `GetByAuthorizerAppid`. */
  function Authorized(appid: string): Account -> bool {
    (a: Account) => a.authorizerAppid == Some(appid) && !a.deleted
  }

  /** The rows of `GetByAppIDAndTenant`: active manual rows. */
  function BoundBy(appId: string, tenantId: int): Account -> bool {
    (a: Account) =>
      && a.wxAppId == Some(appId) && a.tenantId == tenantId
      && a.authType == 1 && a.authStatus in {0, 1} && !a.deleted
  }

  function WithToken(a: Account, access: string, refresh: string, expireAt: int): Account {
    a.(accessToken := Some(access), refreshToken := Some(refresh), tokenExpireAt := Some(expireAt), authStatus := 1)
  }

  /** The table after the tokens of a live row are set. */
  function TokenUpdated(rows: Rows, id: int, access: string, refresh: string, expireAt: int): Rows {
    if HasRow(rows, id) then rows[id - 1 := WithToken(rows[id - 1], access, refresh, expireAt)] else rows
  }

  /** The table after all columns of a loaded row, except for tenant and deletion mark, are written to a live row. */
  function WrittenBack(rows: Rows, id: int, a: Account): Rows {
    if HasRow(rows, id) then rows[id - 1 := a.(tenantId := rows[id - 1].tenantId, deleted := false)] else rows
  }

  class Repo {
    var rows: Rows

    constructor ()
      ensures rows == []
    {
      rows := [];
    }

    method Create(a: Account) returns (id: int)
      modifies this
      ensures rows == old(rows) + [a] && id == |rows|
    {
      rows := rows + [a];
      id := |rows|;
    }

    method Find(p: Account -> bool) returns (id: int)
      ensures id == FirstId(rows, p)
    {
      id := 0;
      for i := 0 to |rows|
        invariant id == FirstId(rows[..i], p)
      {
        assert rows[..i + 1][..i] == rows[..i];
        if id == 0 && p(rows[i]) {
          id := i + 1;
        }
      }
      assert rows[..|rows|] == rows;
    }

    method Update(id: int, a: Account) returns (ok: bool)
      modifies this
      ensures ok == old(HasRow(rows, id))
      ensures rows == WrittenBack(old(rows), id, a)
    {
      ok := HasRow(rows, id);
      if ok {
        rows := rows[id - 1 := a.(tenantId := rows[id - 1].tenantId, deleted := false)];
      }
    }

    method UpdateToken(id: int, access: string, refresh: string, expireAt: int)
      modifies this
      ensures rows == TokenUpdated(old(rows), id, access, refresh, expireAt)
    {
      if HasRow(rows, id) {
        rows := rows[id - 1 := WithToken(rows[id - 1], access, refresh, expireAt)];
      }
    }

    method UpdateAuthStatus(id: int, status: int)
      modifies this
      ensures rows == if old(HasRow(rows, id)) then old(rows)[id - 1 := old(rows)[id - 1].(authStatus := status)]
                      else old(rows)
    {
      if HasRow(rows, id) {
        rows := rows[id - 1 := rows[id - 1].(authStatus := status)];
      }
    }

    method SoftDelete(id: int) returns (deleted: bool)
      modifies this
      ensures deleted == old(HasRow(rows, id))
      ensures rows == if deleted then old(rows)[id - 1 := old(rows)[id - 1].(deleted := true)] else old(rows)
    {
      deleted := HasRow(rows, id);
      if deleted {
        rows := rows[id - 1 := rows[id - 1].(deleted := true)];
      }
    }
  }
}
