# Redis exporter target discovery, modelled in Dafny

The Redis exporter polls a set of Redis instances. `exporter/discovery.go`
works out that set from four independent sources and returns each as three
parallel lists: addresses, passwords and aliases.

- **Arguments** (`LoadRedisArgs`): three strings split on a separator. An
  empty address string becomes `redis://localhost:6379`. A short password or
  alias list is padded with copies of its first element.
- **File** (`LoadRedisFile`): CSV records of one to three fields
  (`address[,password[,alias]]`). Records of any other length are dropped.
- **Cloud Foundry** (`GetCloudFoundryRedisBindings`): bound services tagged
  `redis`. Each gives `host:port`, a password and the service name. The
  fields are read through `getAlternative`, which returns the value of the
  first key present among several alternative names.
- **Azure** (`GetAzureRedisServices`): every Azure Cache for Redis in every
  resource group. A cache's address is `redis://host` when its non-SSL port
  is enabled and `rediss://host:6380` otherwise. Its primary key is the
  password and its name is the alias.

Modules, one per file:

- `GoStrings` (go_strings.dfy): Go's `strings.Split` and `strings.Join` for a
  non-empty separator, with round-trip lemmas in both directions.
- `Targets` (targets.dfy): the `Target` triple and the `Columns` predicate.
  `Columns` ties the three parallel lists to a sequence of targets.
- `Args`, `RedisFile`, `Credentials`, `CloudFoundry`, `Azure`: one module per
  discovery function, plus `getAlternative` in `Credentials`.
- `Wrappers` (wrappers.dfy): `Option` and `Result`.

The source builds its result lists in loops. Each such function is a
`method` with that loop, proved against a specification function. The
lemmas are stated about the specification functions.

Inputs that come from I/O or from foreign libraries are parameters:

- the outcome of opening and decoding the CSV file (`CsvRead`);
- whether the process runs on Cloud Foundry, and the tagged services
  (`Catalog`);
- the Azure subscription: an authorization failure, a failure to list
  resource groups, or the groups with their caches (`Subscription`).

Go's nil slices and empty slices are both the empty sequence here.

Three behaviours of the code are easy to misread:

- The default address is split like any other address string. An empty
  address gives exactly `["redis://localhost:6379"]` only when the
  separator does not occur in the default (`Args.DefaultAddress`). With `:`
  as the separator the default becomes three addresses
  (`Args.DefaultAddressSplitOnColon`).
- A cache whose primary key cannot be read is not kept with an empty
  password: the code logs a warning and then dereferences the missing key,
  which panics (see Findings).
- When CSV decoding fails, the code returns without closing the file. There
  is no file handle in the model.

## Model

| member | source | states |
|---|---|---|
| GoStrings.Split | exporter/discovery.go:24 | `strings.Split` with a non-empty separator gives at least one piece, and the first piece is a prefix of the input |
| GoStrings.JoinSplit | exporter/discovery.go:24 | joining the pieces of a split with the separator gives back the input, for every string and every non-empty separator |
| GoStrings.SplitJoin | exporter/discovery.go:24 | for a one-character separator, splitting the join of pieces that do not contain it gives back those pieces |
| GoStrings.SplitPiecesAreFree | exporter/discovery.go:24 | no piece of a split contains the separator |
| GoStrings.SplitWithoutSeparator | exporter/discovery.go:24 | a string that does not contain the separator is split into itself alone |
| GoStrings.SplitFirstPiece | exporter/discovery.go:24 | a piece followed by the separator is split off first when no separator occurrence begins inside it |
| Args.Broadcast | exporter/discovery.go:26-31 | padding keeps the split list as a prefix, appends only copies of its first element, reaches `max(len, number of addresses)` and trims nothing |
| Args.EffectiveAddr | exporter/discovery.go:21-23 | the address string used is never empty: the configured one when it is non-empty, otherwise `redis://localhost:6379` |
| Args.RedisArgs | exporter/discovery.go:20-34 | the addresses join back into the configured address string (or the default when it is empty) and contain no separator; passwords and aliases are their split lists broadcast to the number of addresses |
| Args.LoadRedisArgs | exporter/discovery.go:20-34 | the two padding loops return exactly `RedisArgs` |
| Args.DefaultAddress | exporter/discovery.go:21-24 | with no address configured, the addresses are `["redis://localhost:6379"]` when the separator does not occur in that default |
| Args.DefaultAddressSplitOnColon | exporter/discovery.go:21-24 | with separator `:` the default address is split into `redis`, `//localhost` and `6379` |
| Args.ParallelIffNoExcess | exporter/discovery.go:25-32 | the three lists have equal length exactly when no more passwords and no more aliases than addresses were given |
| Args.SinglePasswordBroadcast | exporter/discovery.go:24-32 | `a,b,c` with password `x` gives passwords `x,x,x` and three empty aliases |
| Args.PartialListRepeatsFirst | exporter/discovery.go:26-28 | four addresses with passwords `x,y` give `x,y,x,x`: the first password is repeated, not cycled |
| RedisFile.RecordTarget | exporter/discovery.go:57-70 | a record gives one target exactly when it has one to three fields, and that target is its first three fields with missing ones read as ""; any other record gives none |
| RedisFile.RecordTargets | exporter/discovery.go:55-71 | each record contributes at most one target |
| RedisFile.RecordTargetsAppend | exporter/discovery.go:55-71 | the records are interpreted in order: the targets of two runs of records are the targets of the first run followed by those of the second |
| RedisFile.RecordTargetsAreUsableTargets | exporter/discovery.go:55-71 | the field-count switch equals the reference reading: keep the records of one to three fields, in order, and fill missing password and alias with "" |
| RedisFile.AllRecordsUsable | exporter/discovery.go:55-71 | when every record has one to three fields, record `i` gives target `i` |
| RedisFile.ExampleFile | exporter/discovery.go:55-71 | records `h1,p1,a1` / `h2,p2` / `h3` give `(h1,p1,a1)`, `(h2,p2,"")`, `(h3,"","")` |
| RedisFile.LoadRedisFile | exporter/discovery.go:38-73 | an open or decode failure returns that error with three empty lists and never a partial result; otherwise the three lists have equal length and hold the record targets in order |
| Credentials.GetAlternative | exporter/discovery.go:153-160 | the result is the value under the first alternative present in the map, or "" when none is present; a non-string value there is an error |
| Credentials.LaterAlternativesIgnored | exporter/discovery.go:154-157 | once an alternative is present, appending more alternatives changes nothing |
| Credentials.AbsentAlternativesSkipped | exporter/discovery.go:154-158 | alternatives missing from the map can be dropped from the front of the list |
| Credentials.HostnameAlternative | exporter/discovery.go:153-160 | `{"hostname": "x"}` read through `host`, `hostname` gives `x` |
| Credentials.EmptyMapGivesEmpty | exporter/discovery.go:159 | nothing is found in an empty map, whatever the alternatives |
| CloudFoundry.ServiceTarget | exporter/discovery.go:93-99 | a service gives a target exactly when its host, port and password lookups all succeed; the address is `host:port`, the password the looked-up password and the alias the service name; an error names a credential key whose value is not a string |
| CloudFoundry.CfTargets | exporter/discovery.go:92-104 | the targets are the services in order, service `i` giving target `i`; otherwise the error is that of the first service whose credentials hold a non-string value |
| CloudFoundry.PrefixErrorIsFinal | exporter/discovery.go:92-104 | once a service fails, the services after it do not change the outcome |
| CloudFoundry.HostnameBinding | exporter/discovery.go:93-99 | credentials `hostname`, `port`, `password` give `hostname:port`, that password and the service name |
| CloudFoundry.HostPreferredToHostname | exporter/discovery.go:94 | a `host` entry is used before a `hostname` entry |
| CloudFoundry.EmptyCredentials | exporter/discovery.go:94-98 | a binding without credentials gives the address `:` and an empty password |
| CloudFoundry.NonStringPort | exporter/discovery.go:95 | a port that is not a string aborts the discovery |
| CloudFoundry.GetCloudFoundryRedisBindings | exporter/discovery.go:75-107 | off Cloud Foundry, or when the catalog is unavailable, three empty lists and no fault; otherwise the lists hold `CfTargets` of the services in order, or the fault with empty lists |
| Azure.CacheAddressScheme | exporter/discovery.go:137-142 | a cache address uses the `rediss` scheme exactly when the non-SSL port is disabled, and then ends in `:6380` |
| Azure.CacheAddressRoundTrip | exporter/discovery.go:137-142 | a cache's address gives back its host name and whether it is reached without TLS, so the scheme and port follow the non-SSL flag |
| Azure.CacheTarget | exporter/discovery.go:137-147 | a cache's target has the cache name as alias and its primary key as password, or "" when the key cannot be read |
| Azure.GroupTargets | exporter/discovery.go:135-148 | the caches of one group give one target each |
| Azure.GroupTargetAt | exporter/discovery.go:135-148 | cache `i` of a group gives target `i` of that group |
| Azure.AzureTargets | exporter/discovery.go:133-149 | every cache of every group gives exactly one target |
| Azure.AzureTargetAt | exporter/discovery.go:133-149 | cache `c` of group `g` is the target at position `c` after all the caches of the earlier groups: groups outer, caches inner |
| Azure.CacheTargetAsWritten | exporter/discovery.go:143-147 | as written, a cache fails exactly when its primary key cannot be read, with an error naming that cache; otherwise it gives the corrected target |
| Azure.GroupTargetsAsWritten | exporter/discovery.go:135-148 | as written, a group's listing either equals the corrected one or fails naming one of its caches whose key cannot be read |
| Azure.AzureTargetsAsWritten | exporter/discovery.go:133-148 | as written, the discovery either equals the corrected one or fails naming a cache, in some group, whose key cannot be read |
| Azure.AsWrittenAgreesWhenKeysReadable | exporter/discovery.go:143-147 | when every primary key can be read, the code as written and the corrected discovery give the same targets |
| Azure.AsWrittenFailsOnUnreadableKey | exporter/discovery.go:143-147 | as written, one cache whose primary key cannot be read aborts the whole discovery |
| Azure.UnreadableKeyAborts | exporter/discovery.go:143-147 | one cache without a readable key: as written the discovery aborts; corrected, it gives `rediss://h:6380` with an empty password |
| Azure.GetAzureRedisServices | exporter/discovery.go:109-151 | an authorization failure or a group-listing failure returns that error with no targets; otherwise the lists hold `AzureTargets` of the groups |

## Left out

- Opening the file and decoding the CSV (exporter/discovery.go:42-52) are I/O and a library parser. The model takes their outcome as input. The missing `file.Close()` when decoding fails has no counterpart here.
- `cfenv.IsRunningOnCF`, `cfenv.Current` and `Services.WithTag("redis")` are platform state and a foreign library. The model takes a flag and the tagged services. It does not model how services are filtered by tag.
- The Azure SDK calls (authorizer, environment lookup, clients, `context.Background`) are foreign code. Their outcomes are the `Subscription` input.
- The unchecked `azure.EnvironmentFromName` error (exporter/discovery.go:118-119, where the earlier `err` is tested again) is not modelled. Its effect lies inside the SDK.
- The discarded errors of `ListByResourceGroup` and `ListKeys` (exporter/discovery.go:134, 136) are not modelled. The groups and caches are the input. A `ListKeys` failure shows up only as a missing primary key.
- Only the first page of groups and of caches is read (`Values()` without paging). The input lists stand for that first page.
- Logging through logrus (exporter/discovery.go:82, 88, 144) is a side channel only.
- GoStrings.Split: requires a non-empty separator. With an empty separator Go splits into characters, and `LoadRedisArgs` then panics on an empty password or alias.
- Args.LoadRedisArgs: requires a non-empty separator, for the same reason.
- Credentials.GetAlternative: returns an error where the source's type assertion panics on a non-string value.
- CloudFoundry.GetCloudFoundryRedisBindings: reports that panic as `fault` with empty lists. The source aborts the process instead.
- Azure.GetAzureRedisServices: keeps a cache whose primary key cannot be read, with an empty password. The source panics there (see Findings). The as-written behaviour is `Azure.AzureTargetsAsWritten`.

## Findings

| source | as written | input that shows it | evidently intended | confidence | as-written member | corrected member |
|---|---|---|---|---|---|---|
| exporter/discovery.go:143-147 | after warning that the primary key cannot be read, the code dereferences the nil `PrimaryKey`, which panics and ends the whole discovery | a subscription holding one cache whose keys cannot be read, or whose `ListKeys` call failed (its error is discarded at :136) | log the warning and keep the cache with an empty password | high; not executed | Azure.AsWrittenFailsOnUnreadableKey | Azure.AzureTargets |
