/**
  Targets given as three separator-delimited strings (addresses, passwords,
  aliases), as the exporter receives them from its flags or environment.
 */
module Args {
  import opened GoStrings

  /** The address polled when no address is configured. */
  const DefaultAddr: string := "redis://localhost:6379"

  function Max(a: int, b: int): int {
    if a < b then b else a
  }

  /** The address string that is split: the default when none was given. */
  function EffectiveAddr(addr: string): (a: string)
    ensures a != ""
    ensures addr != "" ==> a == addr
    ensures addr == "" ==> a == DefaultAddr
  {
    if addr == "" then DefaultAddr else addr
  }

  /**
    `r` is `xs` broadcast to length `n`: `xs` kept whole as a prefix, then
    the first element of `xs` repeated until `n` elements are reached;
    nothing is trimmed when `xs` is already longer.
   */
  predicate BroadcastOf(r: seq<string>, xs: seq<string>, n: nat)
    requires |xs| >= 1
  {
    |r| == Max(|xs|, n) && r[..|xs|] == xs &&
    forall i :: |xs| <= i < |r| ==> r[i] == xs[0]
  }

  /** Appends the first element of `xs` until it has at least `n` elements. */
  function Broadcast(xs: seq<string>, n: nat): (r: seq<string>)
    requires |xs| >= 1
    ensures BroadcastOf(r, xs, n)
    decreases n - |xs|
  {
    if |xs| >= n then xs else Broadcast(xs + [xs[0]], n)
  }

  datatype ArgLists = ArgLists(addrs: seq<string>, passwords: seq<string>, aliases: seq<string>)

  /**
    What `LoadRedisArgs` returns. The addresses join back into the effective
    address string; passwords and aliases are their split lists broadcast
    to the number of addresses.
   */
  function RedisArgs(addr: string, password: string, alias: string, separator: string): (r: ArgLists)
    requires separator != ""
    ensures Join(r.addrs, separator) == EffectiveAddr(addr)
    ensures forall k :: 0 <= k < |r.addrs| ==> !Contains(r.addrs[k], separator)
    ensures BroadcastOf(r.passwords, Split(password, separator), |r.addrs|)
    ensures BroadcastOf(r.aliases, Split(alias, separator), |r.addrs|)
  {
    var addrs := Split(EffectiveAddr(addr), separator);
    JoinSplit(EffectiveAddr(addr), separator);
    SplitPiecesAreFree(EffectiveAddr(addr), separator);
    ArgLists(addrs,
             Broadcast(Split(password, separator), |addrs|),
             Broadcast(Split(alias, separator), |addrs|))
  }

  /** `LoadRedisArgs(addr, password, alias, separator)`: split the three strings, then broadcast. */
  method LoadRedisArgs(addr: string, password: string, alias: string, separator: string)
    returns (addrs: seq<string>, passwords: seq<string>, aliases: seq<string>)
    requires separator != ""
    ensures ArgLists(addrs, passwords, aliases) == RedisArgs(addr, password, alias, separator)
  {
    var a := addr;
    if a == "" {
      a := DefaultAddr;
    }
    addrs := Split(a, separator);
    passwords := Split(password, separator);
    while |passwords| < |addrs|
      invariant |passwords| >= 1
      invariant Broadcast(passwords, |addrs|) == Broadcast(Split(password, separator), |addrs|)
      decreases |addrs| - |passwords|
    {
      passwords := passwords + [passwords[0]];
    }
    aliases := Split(alias, separator);
    while |aliases| < |addrs|
      invariant |aliases| >= 1
      invariant Broadcast(aliases, |addrs|) == Broadcast(Split(alias, separator), |addrs|)
      decreases |addrs| - |aliases|
    {
      aliases := aliases + [aliases[0]];
    }
  }

  /**
    With no address configured the default is polled alone, provided the
    separator does not occur in the default (the default is split too).
   */
  lemma DefaultAddress(password: string, alias: string, separator: string)
    requires separator != "" && !Contains(DefaultAddr, separator)
    ensures RedisArgs("", password, alias, separator).addrs == [DefaultAddr]
  {
    SplitWithoutSeparator(DefaultAddr, separator);
  }

  /**
    A separator that occurs in the default address splits the default as well.
    (The separator is a parameter pinned by `requires`, not a literal: with
    literal arguments Dafny unfolds `Split` eagerly and the proof gets slow.
    The same holds for the two examples below.)
   */
  lemma DefaultAddressSplitOnColon(colon: string)
    requires colon == ":"
    ensures RedisArgs("", "", "", colon).addrs == ["redis", "//localhost", "6379"]
  {
    var parts := ["redis", "//localhost", "6379"];
    assert parts[1..] == ["//localhost", "6379"] && parts[1..][1..] == ["6379"];
    assert Join(["//localhost", "6379"], colon) == "//localhost" + colon + "6379";
    assert Join(parts, colon) == "redis" + colon + ("//localhost" + colon + "6379") == DefaultAddr;
    SplitJoin(parts, colon);
  }

  /**
    The lists are parallel exactly when no more passwords and no more
    aliases than addresses were given; excess entries are kept.
   */
  lemma ParallelIffNoExcess(addr: string, password: string, alias: string, separator: string)
    requires separator != ""
    ensures var r := RedisArgs(addr, password, alias, separator);
      (|r.passwords| == |r.addrs| == |r.aliases|) <==>
      (|Split(password, separator)| <= |r.addrs| && |Split(alias, separator)| <= |r.addrs|)
  {
  }

  /** A single password is broadcast to every address. */
  lemma SinglePasswordBroadcast(comma: string)
    requires comma == ","
    ensures RedisArgs("a,b,c", "x", "", comma) == ArgLists(["a", "b", "c"], ["x", "x", "x"], ["", "", ""])
  {
    assert ["a", "b", "c"][1..] == ["b", "c"] && ["b", "c"][1..] == ["c"];
    assert Join(["b", "c"], comma) == "b" + comma + "c";
    assert Join(["a", "b", "c"], comma) == "a" + comma + ("b" + comma + "c") == "a,b,c";
    SplitJoin(["a", "b", "c"], comma);
    SplitJoin(["x"], comma);
    SplitJoin([""], comma);
    var r := RedisArgs("a,b,c", "x", "", comma);
    assert r.passwords[..1] == ["x"] && r.aliases[..1] == [""];
  }

  /** A partial list is completed with its first element, not cycled. */
  lemma PartialListRepeatsFirst(comma: string)
    requires comma == ","
    ensures RedisArgs("a,b,c,d", "x,y", "", comma).passwords == ["x", "y", "x", "x"]
  {
    assert ["a", "b", "c", "d"][1..] == ["b", "c", "d"];
    assert ["b", "c", "d"][1..] == ["c", "d"] && ["c", "d"][1..] == ["d"];
    assert Join(["c", "d"], comma) == "c" + comma + "d";
    assert Join(["a", "b", "c", "d"], comma) == "a" + comma + ("b" + comma + ("c" + comma + "d")) == "a,b,c,d";
    SplitJoin(["a", "b", "c", "d"], comma);
    assert ["x", "y"][1..] == ["y"];
    assert Join(["x", "y"], comma) == "x" + comma + "y" == "x,y";
    SplitJoin(["x", "y"], comma);
    var r := RedisArgs("a,b,c,d", "x,y", "", comma);
    assert r.passwords[..2] == ["x", "y"];
  }
}
