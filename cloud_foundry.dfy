/**
  `GetCloudFoundryRedisBindings`: targets published by Cloud Foundry as
  service bindings tagged `redis`.
 */
module CloudFoundry {
  import opened Wrappers
  import opened Targets
  import opened Credentials

  /** A bound service: its declared name and its decoded credentials. */
  datatype Service = Service(name: string, credentials: CredentialMap)

  /**
    What the platform reports once the process runs on Cloud Foundry:
    `Unavailable` when the current environment or the services tagged
    `redis` cannot be obtained (the source logs a warning), else the
    tagged services in the platform's order.
   */
  datatype Catalog = Unavailable | Tagged(services: seq<Service>)

  const HostKeys: seq<string> := ["host", "hostname"]
  const PortKeys: seq<string> := ["port"]
  const PasswordKeys: seq<string> := ["password"]

  /**
    The target of one service: `host:port`, its password, and the service
    name as alias. The lookups run in the order host, port, password; the
    first one that meets a non-string value decides the error.
   */
  function ServiceTarget(svc: Service): (r: Result<Target, LookupError>)
    ensures r.Ok? <==> (GetAlternative(svc.credentials, HostKeys).Ok? &&
      GetAlternative(svc.credentials, PortKeys).Ok? && GetAlternative(svc.credentials, PasswordKeys).Ok?)
    ensures r.Ok? ==> r.value.alias == svc.name && r.value.password == GetAlternative(svc.credentials, PasswordKeys).value
    ensures r.Ok? ==> (r.value.addr ==
      GetAlternative(svc.credentials, HostKeys).value + ":" + GetAlternative(svc.credentials, PortKeys).value)
    ensures r.Err? ==> r.error.key in svc.credentials && svc.credentials[r.error.key] == NonString
  {
    var host :- GetAlternative(svc.credentials, HostKeys);
    var port :- GetAlternative(svc.credentials, PortKeys);
    var password :- GetAlternative(svc.credentials, PasswordKeys);
    Ok(Target(host + ":" + port, password, svc.name))
  }

  /**
    The targets of the services in order: service `i` gives target `i`; the
    first service whose lookup meets a non-string value aborts the whole list
    with that service's error.
   */
  function CfTargets(services: seq<Service>): (r: Result<seq<Target>, LookupError>)
    ensures r.Ok? ==> (|r.value| == |services| &&
      forall i :: 0 <= i < |services| ==> ServiceTarget(services[i]) == Ok(r.value[i]))
    ensures r.Err? ==> exists i :: FirstFailure(services, i) && ServiceTarget(services[i]) == Err(r.error)
  {
    if services == [] then Ok([])
    else
      var n := |services|;
      var init := services[..n - 1];
      assert forall i :: 0 <= i < n - 1 ==> init[i] == services[i];
      match CfTargets(init)
      case Err(e) => Err(e)
      case Ok(ts) =>
        match ServiceTarget(services[n - 1])
        case Err(e) =>
          assert FirstFailure(services, n - 1);
          Err(e)
        case Ok(t) => Ok(ts + [t])
  }

  /** Service `i` is the first whose target cannot be built. */
  predicate FirstFailure(services: seq<Service>, i: int) {
    0 <= i < |services| && ServiceTarget(services[i]).Err? &&
    forall j :: 0 <= j < i ==> ServiceTarget(services[j]).Ok?
  }

  /** Once a prefix of the services fails, the whole list fails with the same error. */
  lemma {:induction false} PrefixErrorIsFinal(services: seq<Service>, k: nat)
    requires k <= |services| && CfTargets(services[..k]).Err?
    ensures CfTargets(services) == CfTargets(services[..k])
  {
    if k < |services| {
      var init := services[..|services| - 1];
      assert init[..k] == services[..k];
      PrefixErrorIsFinal(init, k);
    } else {
      assert services[..k] == services;
    }
  }

  /** A binding that names its host `hostname` yields `hostname:port`. */
  lemma HostnameBinding(name: string, h: string, p: string, pw: string)
    ensures ServiceTarget(Service(name, map["hostname" := Str(h), "port" := Str(p), "password" := Str(pw)]))
      == Ok(Target(h + ":" + p, pw, name))
  {
    var creds := map["hostname" := Str(h), "port" := Str(p), "password" := Str(pw)];
    assert FirstPresent(creds, HostKeys, 1);
    assert FirstPresent(creds, PortKeys, 0);
    assert FirstPresent(creds, PasswordKeys, 0);
  }

  /** `host` wins over `hostname` when a binding has both. */
  lemma HostPreferredToHostname(name: string, creds: CredentialMap, h: string)
    requires "host" in creds && creds["host"] == Str(h)
    requires "port" in creds && creds["port"].Str? && "password" in creds && creds["password"].Str?
    ensures ServiceTarget(Service(name, creds)).Ok?
    ensures ServiceTarget(Service(name, creds)).value.addr == h + ":" + creds["port"].s
  {
  }

  /** A binding without credentials yields the address ":" and no password. */
  lemma EmptyCredentials(name: string)
    ensures ServiceTarget(Service(name, map[])) == Ok(Target(":", "", name))
  {
    EmptyMapGivesEmpty(HostKeys);
    EmptyMapGivesEmpty(PortKeys);
    EmptyMapGivesEmpty(PasswordKeys);
    assert "" + ":" + "" == ":";
  }

  /** A non-string port aborts the discovery (a panic in the source). */
  lemma NonStringPort(name: string, h: string)
    ensures ServiceTarget(Service(name, map["host" := Str(h), "port" := NonString])) == Err(NotAString("port"))
  {
  }

  /**
    `GetCloudFoundryRedisBindings`, with the platform detection and the
    service catalog as inputs. `fault` is the non-string credential value
    on which the source panics; then nothing is returned.
   */
  method GetCloudFoundryRedisBindings(onCF: bool, catalog: Catalog)
    returns (addrs: seq<string>, passwords: seq<string>, aliases: seq<string>, fault: Option<LookupError>)
    ensures !onCF || catalog.Unavailable? ==> addrs == [] && passwords == [] && aliases == [] && fault == None
    ensures onCF && catalog.Tagged? && CfTargets(catalog.services).Ok? ==>
      fault == None && Columns(CfTargets(catalog.services).value, addrs, passwords, aliases)
    ensures onCF && catalog.Tagged? && CfTargets(catalog.services).Err? ==>
      fault == Some(CfTargets(catalog.services).error) && addrs == [] && passwords == [] && aliases == []
  {
    addrs, passwords, aliases, fault := [], [], [], None;
    if !onCF || catalog.Unavailable? {
      return;
    }
    var services := catalog.services;
    for i := 0 to |services|
      invariant CfTargets(services[..i]).Ok?
      invariant Columns(CfTargets(services[..i]).value, addrs, passwords, aliases)
    {
      assert services[..i + 1][..i] == services[..i];
      var credentials := services[i].credentials;
      var host := GetAlternative(credentials, HostKeys);
      if host.Err? {
        PrefixErrorIsFinal(services, i + 1);
        return [], [], [], Some(host.error);
      }
      var port := GetAlternative(credentials, PortKeys);
      if port.Err? {
        PrefixErrorIsFinal(services, i + 1);
        return [], [], [], Some(port.error);
      }
      var password := GetAlternative(credentials, PasswordKeys);
      if password.Err? {
        PrefixErrorIsFinal(services, i + 1);
        return [], [], [], Some(password.error);
      }
      var addr := host.value + ":" + port.value;
      var alias := services[i].name;
      addrs, passwords, aliases := addrs + [addr], passwords + [password.value], aliases + [alias];
    }
    assert services[..|services|] == services;
  }
}
