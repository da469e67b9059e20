/**
  `GetAzureRedisServices`: targets found by listing every Azure Cache for
  Redis in every resource group of a subscription.
 */
module Azure {
  import opened Wrappers
  import opened Targets

  /** A cache as the management API describes it; `primaryKey` is `None` when its keys cannot be read. */
  datatype Cache = Cache(name: string, hostName: string, enableNonSslPort: bool, primaryKey: Option<string>)

  datatype ResourceGroup = ResourceGroup(name: string, caches: seq<Cache>)

  /**
    What the subscription yields: the authorizer cannot be built from the
    environment, the resource groups cannot be listed, or the groups, each
    with its caches, in listing order.
   */
  datatype Subscription =
    | AuthFailed(reason: string)
    | GroupListFailed(reason: string)
    | Groups(groups: seq<ResourceGroup>)

  datatype AzureError = AuthError(reason: string) | QueryError(reason: string) | NoKeyAccess(cache: string)

  /** The address uses TLS: the `rediss` scheme. */
  predicate IsTls(a: string) {
    |a| >= 9 && a[..9] == "rediss://"
  }

  /** Plain `redis://host` when the non-SSL port is enabled, else TLS on port 6380. */
  function CacheAddress(c: Cache): string {
    if c.enableNonSslPort then "redis://" + c.hostName
    else
      "rediss://" + c.hostName + ":6380"
  }

  /**
    The scheme and the port of a cache address follow the non-SSL flag:
    TLS (`rediss`, port 6380) exactly when the non-SSL port is disabled.
   */
  lemma CacheAddressScheme(c: Cache)
    ensures IsTls(CacheAddress(c)) <==> !c.enableNonSslPort
    ensures !c.enableNonSslPort ==> |CacheAddress(c)| >= 14 && CacheAddress(c)[|CacheAddress(c)| - 5..] == ":6380"
  {
    var a := CacheAddress(c);
    if c.enableNonSslPort {
      assert |a| >= 9 ==> a[..9][5] != "rediss://"[5];
    }
  }

  /** Recovers the host name and the non-SSL flag from a cache address. */
  function ParseCacheAddress(a: string): Option<(string, bool)> {
    if |a| >= 14 && a[..9] == "rediss://" && a[|a| - 5..] == ":6380" then Some((a[9..|a| - 5], false))
    else if |a| >= 8 && a[..8] == "redis://" then Some((a[8..], true))
    else None
  }

  /**
    The address of a cache determines its host name and whether it is
    reached without TLS: no two caches that differ in either share an address.
   */
  lemma CacheAddressRoundTrip(c: Cache)
    ensures ParseCacheAddress(CacheAddress(c)) == Some((c.hostName, c.enableNonSslPort))
  {
    var a := CacheAddress(c);
    if c.enableNonSslPort {
      assert a[..8] == "redis://" && a[8..] == c.hostName;
      assert |a| >= 14 ==> a[..9][5] != "rediss://"[5];
    } else {
      assert a[..9] == "rediss://" && a[|a| - 5..] == ":6380";
      assert a[9..|a| - 5] == c.hostName;
    }
  }

  /**
    The target of one cache: its address, its primary key ("" when the key
    cannot be read) and its name as alias.
   */
  function CacheTarget(c: Cache): (t: Target)
    ensures t.alias == c.name
    ensures c.primaryKey.Some? ==> t.password == c.primaryKey.value
    ensures c.primaryKey.None? ==> t.password == ""
  {
    Target(CacheAddress(c), c.primaryKey.GetOr(""), c.name)
  }

  /** The targets of the caches of one group, in listing order. */
  function GroupTargets(caches: seq<Cache>): (ts: seq<Target>)
    ensures |ts| == |caches|
  {
    if caches == [] then []
    else GroupTargets(caches[..|caches| - 1]) + [CacheTarget(caches[|caches| - 1])]
  }

  /** Cache `i` of a group gives target `i` of the group. */
  lemma {:induction false} GroupTargetAt(caches: seq<Cache>, i: nat)
    requires i < |caches|
    ensures GroupTargets(caches)[i] == CacheTarget(caches[i])
  {
    if i < |caches| - 1 {
      GroupTargetAt(caches[..|caches| - 1], i);
    }
  }

  /** The number of caches in all the groups. */
  function CacheCount(groups: seq<ResourceGroup>): nat {
    if groups == [] then 0
    else CacheCount(groups[..|groups| - 1]) + |groups[|groups| - 1].caches|
  }

  /** The targets of all caches: groups in order, and within a group its caches in order. */
  function AzureTargets(groups: seq<ResourceGroup>): (ts: seq<Target>)
    ensures |ts| == CacheCount(groups)
  {
    if groups == [] then []
    else AzureTargets(groups[..|groups| - 1]) + GroupTargets(groups[|groups| - 1].caches)
  }

  /**
    Cache `c` of group `g` is the target at position `c` after all the
    caches of the groups before `g`.
   */
  lemma {:induction false} AzureTargetAt(groups: seq<ResourceGroup>, g: nat, c: nat)
    requires g < |groups| && c < |groups[g].caches|
    ensures CacheCount(groups[..g]) + c < |AzureTargets(groups)|
    ensures AzureTargets(groups)[CacheCount(groups[..g]) + c] == CacheTarget(groups[g].caches[c])
  {
    var n := |groups|;
    var init := groups[..n - 1];
    var front, back := AzureTargets(init), GroupTargets(groups[n - 1].caches);
    assert AzureTargets(groups) == front + back;
    if g == n - 1 {
      assert groups[..g] == init;
      GroupTargetAt(groups[g].caches, c);
      assert (front + back)[|front| + c] == back[c];
    } else {
      assert init[..g] == groups[..g];
      AzureTargetAt(init, g, c);
      assert (front + back)[CacheCount(groups[..g]) + c] == front[CacheCount(groups[..g]) + c];
    }
  }

  /**
    The discovery as written: the source dereferences the primary key after
    warning that it cannot be read, so a cache whose keys cannot be read
    aborts the whole discovery.
   */
  function CacheTargetAsWritten(c: Cache): (r: Result<Target, AzureError>)
    ensures r.Err? <==> c.primaryKey.None?
    ensures r.Err? ==> r.error == NoKeyAccess(c.name)
    ensures r.Ok? ==> r.value == CacheTarget(c)
  {
    if c.primaryKey.None? then Err(NoKeyAccess(c.name))
    else Ok(Target(CacheAddress(c), c.primaryKey.value, c.name))
  }

  /** When it succeeds, the as-written group listing is the corrected one; when it fails, it names a cache whose key cannot be read. */
  function GroupTargetsAsWritten(caches: seq<Cache>): (r: Result<seq<Target>, AzureError>)
    ensures r.Ok? ==> r.value == GroupTargets(caches)
    ensures r.Err? ==> exists i :: 0 <= i < |caches| && caches[i].primaryKey.None? && r.error == NoKeyAccess(caches[i].name)
  {
    if caches == [] then Ok([])
    else
      var init :- GroupTargetsAsWritten(caches[..|caches| - 1]);
      var t :- CacheTargetAsWritten(caches[|caches| - 1]);
      Ok(init + [t])
  }

  /** When it succeeds, the as-written discovery is the corrected one; when it fails, it names a cache whose key cannot be read. */
  function AzureTargetsAsWritten(groups: seq<ResourceGroup>): (r: Result<seq<Target>, AzureError>)
    ensures r.Ok? ==> r.value == AzureTargets(groups)
    ensures r.Err? ==> exists g, c ::
      0 <= g < |groups| && 0 <= c < |groups[g].caches| &&
      groups[g].caches[c].primaryKey.None? && r.error == NoKeyAccess(groups[g].caches[c].name)
  {
    if groups == [] then Ok([])
    else
      var init :- AzureTargetsAsWritten(groups[..|groups| - 1]);
      var ts :- GroupTargetsAsWritten(groups[|groups| - 1].caches);
      Ok(init + ts)
  }

  /** The primary key of every cache can be read. */
  predicate KeysReadable(groups: seq<ResourceGroup>) {
    forall g :: 0 <= g < |groups| ==> forall c :: 0 <= c < |groups[g].caches| ==> groups[g].caches[c].primaryKey.Some?
  }

  /** Where every key can be read, the corrected discovery is the discovery as written. */
  lemma {:induction false} AsWrittenAgreesWhenKeysReadable(groups: seq<ResourceGroup>)
    requires KeysReadable(groups)
    ensures AzureTargetsAsWritten(groups) == Ok(AzureTargets(groups))
  {
    if groups != [] {
      var n := |groups|;
      AsWrittenAgreesWhenKeysReadable(groups[..n - 1]);
      GroupAgreesWhenKeysReadable(groups[n - 1].caches);
    }
  }

  lemma {:induction false} GroupAgreesWhenKeysReadable(caches: seq<Cache>)
    requires forall c :: 0 <= c < |caches| ==> caches[c].primaryKey.Some?
    ensures GroupTargetsAsWritten(caches) == Ok(GroupTargets(caches))
  {
    if caches != [] {
      GroupAgreesWhenKeysReadable(caches[..|caches| - 1]);
    }
  }

  /** As written, any one cache whose primary key cannot be read aborts the whole discovery. */
  lemma {:induction false} AsWrittenFailsOnUnreadableKey(groups: seq<ResourceGroup>, g: nat, c: nat)
    requires g < |groups| && c < |groups[g].caches| && groups[g].caches[c].primaryKey.None?
    ensures AzureTargetsAsWritten(groups).Err?
  {
    var n := |groups|;
    if g < n - 1 {
      AsWrittenFailsOnUnreadableKey(groups[..n - 1], g, c);
    } else {
      GroupFailsOnUnreadableKey(groups[g].caches, c);
    }
  }

  lemma {:induction false} GroupFailsOnUnreadableKey(caches: seq<Cache>, c: nat)
    requires c < |caches| && caches[c].primaryKey.None?
    ensures GroupTargetsAsWritten(caches).Err?
  {
    if c < |caches| - 1 {
      GroupFailsOnUnreadableKey(caches[..|caches| - 1], c);
    }
  }

  /** One cache whose keys cannot be read: the source aborts, the corrected discovery lists it without a password. */
  lemma UnreadableKeyAborts()
    ensures AzureTargetsAsWritten([ResourceGroup("rg", [Cache("c", "h", false, None)])]) == Err(NoKeyAccess("c"))
    ensures AzureTargets([ResourceGroup("rg", [Cache("c", "h", false, None)])]) == [Target("rediss://h:6380", "", "c")]
  {
    var cache := Cache("c", "h", false, None);
    var groups := [ResourceGroup("rg", [cache])];
    assert groups[..0] == [] && [cache][..0] == [];
    assert GroupTargetsAsWritten([cache]) == Err(NoKeyAccess("c"));
    assert CacheAddress(cache) == "rediss://h:6380";
    assert GroupTargets([cache]) == [Target("rediss://h:6380", "", "c")];
  }

  /**
    `GetAzureRedisServices` with the subscription as input: a failure to
    authorize or to list the resource groups is returned with no targets;
    otherwise every cache of every group is listed, groups outer and caches
    inner, keeping a cache whose key cannot be read with "" as its password.
   */
  method GetAzureRedisServices(sub: Subscription)
    returns (addrs: seq<string>, passwords: seq<string>, aliases: seq<string>, err: Option<AzureError>)
    ensures sub.AuthFailed? ==> err == Some(AuthError(sub.reason))
    ensures sub.GroupListFailed? ==> err == Some(QueryError(sub.reason))
    ensures !sub.Groups? ==> addrs == [] && passwords == [] && aliases == []
    ensures sub.Groups? ==> err == None && Columns(AzureTargets(sub.groups), addrs, passwords, aliases)
  {
    match sub
    case AuthFailed(reason) =>
      return [], [], [], Some(AuthError(reason));
    case GroupListFailed(reason) =>
      return [], [], [], Some(QueryError(reason));
    case Groups(groups) =>
      addrs, passwords, aliases := [], [], [];
      ghost var ts: seq<Target> := [];
      for g := 0 to |groups|
        invariant ts == AzureTargets(groups[..g])
        invariant Columns(ts, addrs, passwords, aliases)
      {
        var caches := groups[g].caches;
        ghost var before := ts;
        for c := 0 to |caches|
          invariant ts == before + GroupTargets(caches[..c])
          invariant Columns(ts, addrs, passwords, aliases)
        {
          var cache := caches[c];
          ghost var t := CacheTarget(cache);
          ColumnsAppend(ts, t, addrs, passwords, aliases);
          var addr;
          if cache.enableNonSslPort {
            addr := "redis://" + cache.hostName;
          } else {
            addr := "rediss://" + cache.hostName + ":6380";
          }
          assert addr == CacheAddress(cache) == t.addr;
          addrs := addrs + [addr];
          // The source logs a warning when the primary key cannot be read.
          aliases := aliases + [cache.name];
          passwords := passwords + [cache.primaryKey.GetOr("")];
          assert caches[..c + 1][..c] == caches[..c];
          ts := ts + [t];
        }
        assert caches[..|caches|] == caches;
        assert groups[..g + 1][..g] == groups[..g] && groups[..g + 1][g] == groups[g];
      }
      assert groups[..|groups|] == groups;
      err := None;
  }
}
