/**
  A discovered monitoring target and the three parallel lists in which the
  discovery functions return targets: addresses, passwords and aliases.
 */
module Targets {

  /** One Redis instance to poll: its address, its password ("" for none) and its display alias. */
  datatype Target = Target(addr: string, password: string, alias: string)

  /** The three parallel lists hold, position by position, the fields of `ts`. */
  predicate Columns(ts: seq<Target>, addrs: seq<string>, passwords: seq<string>, aliases: seq<string>) {
    |addrs| == |ts| && |passwords| == |ts| && |aliases| == |ts| &&
    forall i :: 0 <= i < |ts| ==>
      addrs[i] == ts[i].addr && passwords[i] == ts[i].password && aliases[i] == ts[i].alias
  }

  /** Appending one target's fields to the three lists appends that target. */
  lemma ColumnsAppend(ts: seq<Target>, t: Target, addrs: seq<string>, passwords: seq<string>, aliases: seq<string>)
    requires Columns(ts, addrs, passwords, aliases)
    ensures Columns(ts + [t], addrs + [t.addr], passwords + [t.password], aliases + [t.alias])
  {
  }
}
