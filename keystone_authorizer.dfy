/** The Keystone authorizer: it keeps two indexes fetched from the OpenStack
    identity service, user name to user id and tenant name to tenant id, and
    grants a request when the identity service says the user holds a role in
    the tenant named by the request's namespace. Service accounts and a fixed
    list of system components are granted without asking.

    The identity service is a collaborator: its user and tenant listings are
    given to the refresh methods as the reply they produced, and its role
    check is a function parameter of `Authorize`. */
module Keystone {
  import opened AuthTypes

  const ServiceAccountPrefix := "system:serviceaccount:"
  const AuthFailedMsg := "Keystone authorization failed"
  const NotAuthorizedMsg := "User not authorized through keystone for namespace"
  /** The guard of `roleCheck` gives this text for an empty tenant id too. */
  const NullIDMsg := "UserID null during authorization"

  /** The fields read of a `users.User` (`Username`, `ID`, `Enabled`) or of a
      `tenants.Tenant` (`Name`, `ID`, `Enabled`). */
  datatype Account = Account(name: string, id: string, enabled: bool)

  /** The `([]T, error)` reply of `getUsers` or `getTenants`. */
  datatype Listing = Listing(accounts: seq<Account>, err: Error)

  /** The `(bool, error)` reply of `roleCheck`. */
  datatype RoleReply = RoleReply(hasRole: bool, err: Error)

  /** `roleCheck(userID, tenantID)` of the identity-service client. */
  type RoleCheck = (string, string) -> RoleReply

  /** The index a refresh builds from a listing: each enabled account's name
      mapped to its id, a later account overwriting an earlier one of the
      same name. */
  ghost function EnabledIndex(accounts: seq<Account>): map<string, string>
    decreases |accounts|
  {
    if accounts == [] then map[]
    else
      var m := EnabledIndex(accounts[..|accounts| - 1]);
      var last := accounts[|accounts| - 1];
      if last.enabled then m[last.name := last.id] else m
  }

  /** The keys of the index are exactly the names of the enabled accounts;
      a name held only by disabled accounts is not among them. */
  lemma {:induction false} EnabledIndexKeys(accounts: seq<Account>, name: string)
    ensures name in EnabledIndex(accounts) <==>
            exists i :: 0 <= i < |accounts| && accounts[i].enabled && accounts[i].name == name
    decreases |accounts|
  {
    if accounts != [] {
      var init := accounts[..|accounts| - 1];
      EnabledIndexKeys(init, name);
      if exists i :: 0 <= i < |init| && init[i].enabled && init[i].name == name {
        var i :| 0 <= i < |init| && init[i].enabled && init[i].name == name;
        assert accounts[i] == init[i];
      }
      if exists i :: 0 <= i < |accounts| && accounts[i].enabled && accounts[i].name == name {
        var i :| 0 <= i < |accounts| && accounts[i].enabled && accounts[i].name == name;
        if i < |init| {
          assert init[i] == accounts[i];
        }
      }
    }
  }

  /** Each name is mapped to the id of the last enabled account of that name. */
  lemma {:induction false} EnabledIndexLastWins(accounts: seq<Account>, name: string)
    requires name in EnabledIndex(accounts)
    ensures exists i :: 0 <= i < |accounts| && accounts[i].enabled && accounts[i].name == name
                        && EnabledIndex(accounts)[name] == accounts[i].id
                        && forall j :: i < j < |accounts| ==> !(accounts[j].enabled && accounts[j].name == name)
    decreases |accounts|
  {
    var init := accounts[..|accounts| - 1];
    var last := accounts[|accounts| - 1];
    if last.enabled && last.name == name {
      var i := |accounts| - 1;
      assert accounts[i].enabled && accounts[i].name == name && EnabledIndex(accounts)[name] == accounts[i].id;
    } else {
      EnabledIndexLastWins(init, name);
      var i :| 0 <= i < |init| && init[i].enabled && init[i].name == name
               && EnabledIndex(init)[name] == init[i].id
               && forall j :: i < j < |init| ==> !(init[j].enabled && init[j].name == name);
      assert accounts[i] == init[i];
      forall j | i < j < |accounts|
        ensures !(accounts[j].enabled && accounts[j].name == name)
      {
        if j < |init| {
          assert accounts[j] == init[j];
        }
      }
    }
  }

  /** The loop of `syncUserMap` and `syncTenantMap`: a fresh map into which
      every enabled account of the listing is inserted in order. */
  method IndexEnabled(accounts: seq<Account>) returns (m: map<string, string>)
    ensures m == EnabledIndex(accounts)
  {
    m := map[];
    var i := 0;
    while i < |accounts|
      invariant 0 <= i <= |accounts|
      invariant m == EnabledIndex(accounts[..i])
    {
      assert accounts[..i + 1][..i] == accounts[..i];
      if accounts[i].enabled {
        m := m[accounts[i].name := accounts[i].id];
      }
      i := i + 1;
    }
    assert accounts[..i] == accounts;
  }

  /** Go's `m[k]` on a `map[string]string`: the zero value `""` for a
      missing key. */
  function Lookup(m: map<string, string>, k: string): string {
    if k in m then m[k] else ""
  }

  /** `isWhiteListedUser`: the system components granted without a role
      check. */
  function IsWhiteListedUser(username: string): (r: bool)
    ensures r <==> username in {"kubelet", "kube_proxy", "system:scheduler",
                                "system:controller_manager", "system:logging",
                                "system:monitoring"}
  {
    var whiteList := map["kubelet" := true, "kube_proxy" := true, "system:scheduler" := true,
                         "system:controller_manager" := true, "system:logging" := true,
                         "system:monitoring" := true];
    username in whiteList && whiteList[username]
  }

  /** A user `Authorize` grants without consulting the identity service. */
  predicate Privileged(username: string) {
    ServiceAccountPrefix <= username || IsWhiteListedUser(username)
  }

  /** The production `roleCheck`: an empty user id or tenant id is refused
      before any call to the identity service, whose answer is `remote`. */
  function GuardedRoleCheck(userID: string, tenantID: string, remote: RoleCheck): (r: RoleReply)
    ensures userID == "" || tenantID == "" ==> r == RoleReply(false, Err(NullIDMsg))
    ensures userID != "" && tenantID != "" ==> r == remote(userID, tenantID)
  {
    if userID == "" then RoleReply(false, Err(NullIDMsg))
    else if tenantID == "" then RoleReply(false, Err(NullIDMsg))
    else remote(userID, tenantID)
  }

  class KeystoneAuthorizer {
    /** User name to user id, as of the last successful user refresh. */
    var userMap: map<string, string>
    /** Tenant name to tenant id, as of the last successful tenant refresh. */
    var tenantMap: map<string, string>

    /** An authorizer with no index yet, as the tests build it. */
    constructor ()
      ensures userMap == map[] && tenantMap == map[]
    {
      userMap := map[];
      tenantMap := map[];
    }

    /** `syncTenantMap`, given the reply of `getTenants`: on an error the
        error is returned and the old index kept; otherwise the index is
        replaced by the enabled tenants of the listing. The user index is
        never touched. */
    method SyncTenantMap(tenants: Listing) returns (err: Error)
      modifies this
      ensures err == tenants.err
      ensures tenants.err != Nil ==> tenantMap == old(tenantMap)
      ensures tenants.err == Nil ==> tenantMap == EnabledIndex(tenants.accounts)
      ensures userMap == old(userMap)
    {
      if tenants.err != Nil {
        return tenants.err;
      }
      var m := IndexEnabled(tenants.accounts);
      tenantMap := m;
      return Nil;
    }

    /** `syncUserMap`, given the reply of `getUsers`: the same refresh for
        the user index, leaving the tenant index alone. */
    method SyncUserMap(users: Listing) returns (err: Error)
      modifies this
      ensures err == users.err
      ensures users.err != Nil ==> userMap == old(userMap)
      ensures users.err == Nil ==> userMap == EnabledIndex(users.accounts)
      ensures tenantMap == old(tenantMap)
    {
      if users.err != Nil {
        return users.err;
      }
      var m := IndexEnabled(users.accounts);
      userMap := m;
      return Nil;
    }

    /** The reply of the role check for a request: the ids the indexes hold
        for its user and its namespace, `""` for a name not indexed. */
    function RoleReplyFor(a: Attributes, roleCheck: RoleCheck): RoleReply
      reads this
    {
      roleCheck(Lookup(userMap, a.userName), Lookup(tenantMap, a.namespace))
    }

    /** `Authorize`: a privileged user is granted; any other request is
        granted exactly when the role check answers `(true, nil)`, refused
        with the generic failure when the role check fails, and refused as
        not authorized when it answers `(false, nil)`. */
    function Authorize(a: Attributes, roleCheck: RoleCheck): (e: Error)
      reads this
      ensures e == Nil <==> Privileged(a.userName) || RoleReplyFor(a, roleCheck) == RoleReply(true, Nil)
      ensures e != Nil ==> !Privileged(a.userName)
      ensures e != Nil ==> (e == Err(AuthFailedMsg) <==> RoleReplyFor(a, roleCheck).err != Nil)
      ensures e != Nil ==> (e == Err(NotAuthorizedMsg) <==> RoleReplyFor(a, roleCheck) == RoleReply(false, Nil))
    {
      if ServiceAccountPrefix <= a.userName then Nil
      else if IsWhiteListedUser(a.userName) then Nil
      else
        var reply := RoleReplyFor(a, roleCheck);
        if reply.err != Nil then Err(AuthFailedMsg)
        else if reply.hasRole then Nil
        else Err(NotAuthorizedMsg)
    }
  }

  /** A privileged user is granted whatever the role check would answer:
      the role check is not consulted. */
  lemma PrivilegedIgnoresRoleCheck(ka: KeystoneAuthorizer, a: Attributes, check1: RoleCheck, check2: RoleCheck)
    requires Privileged(a.userName)
    ensures ka.Authorize(a, check1) == ka.Authorize(a, check2) == Nil
  {
  }

  /** The role check is consulted only at the indexed ids of the request's
      user and namespace: two role checks agreeing there decide alike. */
  lemma RoleCheckOnlyAtIndexedIds(ka: KeystoneAuthorizer, a: Attributes, check1: RoleCheck, check2: RoleCheck)
    requires check1(Lookup(ka.userMap, a.userName), Lookup(ka.tenantMap, a.namespace))
          == check2(Lookup(ka.userMap, a.userName), Lookup(ka.tenantMap, a.namespace))
    ensures ka.Authorize(a, check1) == ka.Authorize(a, check2)
  {
  }

  /** With the production role check, a request whose user or namespace is
      not indexed is refused with the generic failure, not as not
      authorized, and the identity service is not asked. */
  lemma UnindexedDenied(ka: KeystoneAuthorizer, a: Attributes, remote: RoleCheck)
    requires !Privileged(a.userName)
    requires a.userName !in ka.userMap || a.namespace !in ka.tenantMap
    ensures ka.Authorize(a, (u, t) => GuardedRoleCheck(u, t, remote)) == Err(AuthFailedMsg)
  {
    var reply := ka.RoleReplyFor(a, (u, t) => GuardedRoleCheck(u, t, remote));
    assert reply == RoleReply(false, Err(NullIDMsg));
  }

  /* The fixture of the authorizer's tests. */

  function SampleTenants(): seq<Account> {
    [Account("tenant1", "123", true), Account("tenant2", "234", true), Account("tenant3", "345", true)]
  }

  function SampleUsers(): seq<Account> {
    [Account("user1", "12", true), Account("user2", "23", true), Account("user3", "34", true),
     Account("user4", "56", true)]
  }

  /** The test double's role check: a role list keyed by `tenantID:userID`,
      a role held when the list is non-empty; it never fails. */
  function SampleRoleCheck(userID: string, tenantID: string): RoleReply {
    var roleMap := map["123:12" := ["admin"], "234:12" := ["admin", "user"], "456:23" := ["admin"]];
    var key := tenantID + ":" + userID;
    var roles := if key in roleMap then roleMap[key] else [];
    RoleReply(|roles| > 0, Nil)
  }

  lemma SampleUserIndex()
    ensures EnabledIndex(SampleUsers()) == map["user1" := "12", "user2" := "23", "user3" := "34", "user4" := "56"]
  {
    var u1, u2, u3, u4 := Account("user1", "12", true), Account("user2", "23", true),
                          Account("user3", "34", true), Account("user4", "56", true);
    assert [u1][..0] == [];
    assert [u1, u2][..1] == [u1];
    assert [u1, u2, u3][..2] == [u1, u2];
    assert [u1, u2, u3, u4][..3] == [u1, u2, u3];
    assert EnabledIndex([u1]) == map["user1" := "12"];
    assert EnabledIndex([u1, u2]) == map["user1" := "12", "user2" := "23"];
    assert EnabledIndex([u1, u2, u3]) == map["user1" := "12", "user2" := "23", "user3" := "34"];
  }

  lemma SampleTenantIndex()
    ensures EnabledIndex(SampleTenants()) == map["tenant1" := "123", "tenant2" := "234", "tenant3" := "345"]
  {
    var t1, t2, t3 := Account("tenant1", "123", true), Account("tenant2", "234", true), Account("tenant3", "345", true);
    assert [t1][..0] == [];
    assert [t1, t2][..1] == [t1];
    assert [t1, t2, t3][..2] == [t1, t2];
    assert EnabledIndex([t1]) == map["tenant1" := "123"];
    assert EnabledIndex([t1, t2]) == map["tenant1" := "123", "tenant2" := "234"];
  }

  /** The decisions of the authorizer's tests, once both indexes are
      refreshed from the sample listings: `user1` is granted in `tenant1` and
      `tenant2`; `user3` in `tenant1`, an empty user name and `user1` without
      a namespace are refused. */
  lemma SampleDecisions(ka: KeystoneAuthorizer)
    requires ka.userMap == EnabledIndex(SampleUsers())
    requires ka.tenantMap == EnabledIndex(SampleTenants())
    ensures ka.Authorize(Attributes("user1", "tenant1"), SampleRoleCheck) == Nil
    ensures ka.Authorize(Attributes("user1", "tenant2"), SampleRoleCheck) == Nil
    ensures ka.Authorize(Attributes("user3", "tenant1"), SampleRoleCheck) != Nil
    ensures ka.Authorize(Attributes("", ""), SampleRoleCheck) != Nil
    ensures ka.Authorize(Attributes("user1", ""), SampleRoleCheck) != Nil
  {
    SampleUserIndex();
    SampleTenantIndex();
    assert !Privileged("user1") && !Privileged("user3");
    assert "123" + ":" + "12" == "123:12";
    assert "234" + ":" + "12" == "234:12";
    assert SampleRoleCheck("12", "123").hasRole && SampleRoleCheck("12", "234").hasRole;
    assert "123" + ":" + "34" == "123:34";
    assert !SampleRoleCheck("34", "123").hasRole;
  }

  /** The authorizer's test run: a fresh authorizer refreshed from the
      sample listings decides the five test requests, in the order "null
      username", "null namespace", "namespace user match", "namespace user
      multi role match" and "namespace user role mis-match". */
  method SampleAuthorizeRun() returns (decisions: seq<Error>)
    ensures |decisions| == 5
    ensures decisions[0] != Nil && decisions[1] != Nil
    ensures decisions[2] == Nil && decisions[3] == Nil
    ensures decisions[4] != Nil
  {
    var ka := new KeystoneAuthorizer();
    var tenantErr := ka.SyncTenantMap(Listing(SampleTenants(), Nil));
    var userErr := ka.SyncUserMap(Listing(SampleUsers(), Nil));
    SampleDecisions(ka);
    decisions := [ka.Authorize(Attributes("", ""), SampleRoleCheck),
                  ka.Authorize(Attributes("user1", ""), SampleRoleCheck),
                  ka.Authorize(Attributes("user1", "tenant1"), SampleRoleCheck),
                  ka.Authorize(Attributes("user1", "tenant2"), SampleRoleCheck),
                  ka.Authorize(Attributes("user3", "tenant1"), SampleRoleCheck)];
  }
}
