# nftables system-table registry (opensnitch daemon)

This project models the part of the opensnitch daemon that keeps track of the
nftables tables the daemon created itself (its "system tables"). It also models
the lifecycle around that registry:

- `AddTable` stages a table on the nftables connection and flushes the batch.
  Only when the kernel accepts the batch does it register the table under the
  key `name-family`.
- `getTable` looks a table up by the same key.
- At startup, `addInterceptionTables` creates the `mangle` and `filter` tables
  of family `inet` and stops at the first error. `addSystemTables` does the
  same but ignores errors.
- `nonSystemRules` walks every chain and sums the rules of the chains it does
  not skip. It returns `-1` as soon as a query fails.
- At shutdown, `delSystemTables` deletes and unregisters each registered table
  whose count is exactly 0. An entry is removed only after the flush carrying
  its deletion succeeds.

Files:

- `wrappers.dfy`: `Option`, `Result` and `Outcome`. They stand for Go's nil
  pointers and `(value, error)` returns.
- `netlink.dfy` (module `Netlink`): the nftables connection as a value. It
  holds the kernel ruleset (tables, and chains that each name their table and
  hold their rules), the batch staged on the connection, and which of the two
  listing queries fail. `Apply` gives the effect of a batch. `Flushed` and
  `FlushFailed` describe an accepted and a refused flush: a refused flush
  applies no message of its batch.
- `tables.dfy` (module `NftTables`): the registry key, the skip test, the
  specification of the rule count, and the class `Nft`. `Nft` holds the
  connection, the registry `sysTables` and a ghost log of every flush. The
  class invariant `Valid()` says that every registered table was created by a
  batch the kernel accepted.

The skip test in `nonSystemRules` is modelled exactly as the code writes it: a
chain is skipped only when both its table's name and its table's family differ
from the counted table's. Lemmas state the consequences:

- A chain that shares only the name, or only the family, is counted.
- The count is never below the number of rules in the table's own chains, so
  the test can keep a table alive but never gets one deleted.

## Model

| member | source | states |
|---|---|---|
| `NftTables.TableKey` | daemon/firewall/nftables/tables.go:32-34 | The key is the name, a dash, then the family, with those exact lengths and positions. |
| `NftTables.TableKeyInjectiveWithoutDash` | daemon/firewall/nftables/tables.go:32-34 | When neither name contains a dash, two keys are equal if and only if the names and the families are equal. |
| `NftTables.TableKeyCollides` | daemon/firewall/nftables/tables.go:32-34 | Names containing a dash can collide: ("a-b", "c") and ("a", "b-c") give the same key. |
| `NftTables.Nft.AddTable` | daemon/firewall/nftables/tables.go:12-26 | Stages the table and flushes. The flush is logged with the outcome `r.Ok?`, so the call succeeds exactly when the kernel accepted the batch. The new connection is exactly the accepted or refused flush of the old one plus the creation (`AddTableFlush`). On success the returned table exists in the kernel, is registered under `TableKey(name, family)` (nothing else in the registry changes), and `GetTable(name, family)` returns it. On failure the registry is unchanged and no staged message applied. |
| `NftTables.Nft.GetTable` | daemon/firewall/nftables/tables.go:28-30 | Returns a table exactly when one is registered under the key of that name and family, and then returns that registered table. |
| `NftTables.Nft.Commit` | daemon/firewall/nftables/tables.go:20-22 | Flushes the staged batch. The kernel accepts or refuses the whole batch, and the attempt with its outcome is appended to the log. On acceptance the batch is applied and nothing stays staged. On refusal the ruleset is unchanged and the batch is either dropped or kept. The registry invariant is preserved. |
| `NftTables.Nft.AddInterceptionTables` | daemon/firewall/nftables/tables.go:36-44 | Tries mangle/inet first. If that flush is refused, it fails after exactly one flush, with the registry and connection as that flush left them, so filter is never tried. Otherwise it makes exactly one more flush, for filter/inet, from the connection the first left (`mid`). Mangle then exists in the kernel at the end. If the filter flush is refused it fails with only mangle-inet newly registered. It passes exactly when that flush is accepted, and then both keys are registered with their tables and both tables exist. |
| `NftTables.Nft.AddSystemTables` | daemon/firewall/nftables/tables.go:46-52 | Always makes two flushes, mangle/inet and then filter/inet, each giving the connection exactly as `AddTableFlush` says. Each table is registered if and only if its own flush was accepted, whatever the other's outcome, and each accepted table exists in the kernel at the end. |
| `NftTables.Nft.NonSystemRules` | daemon/firewall/nftables/tables.go:54-73 | The loop's result equals `ForeignRules`: -1 if listing the chains fails or if reading the rules of any counted chain fails, otherwise the sum of the rules of every chain the skip test does not exclude. |
| `NftTables.ForeignRulesFailureSentinel` | daemon/firewall/nftables/tables.go:55-59 | The count is -1 exactly when a query failed, and it is never below -1. |
| `NftTables.ForeignRulesZero` | daemon/firewall/nftables/tables.go:55-73 | The count is 0 exactly when every query succeeded and every counted chain is empty. A failed query never reads as 0. |
| `NftTables.CountedRulesZero` | daemon/firewall/nftables/tables.go:60-70 | The accumulated sum is 0 exactly when every chain the skip test keeps has no rules. |
| `NftTables.CountedChainIncluded` | daemon/firewall/nftables/tables.go:60-70 | Every rule of a chain the skip test keeps is included in the sum. |
| `NftTables.ChainSharingNameOrFamilyCounted` | daemon/firewall/nftables/tables.go:62 | With the `&&` test, a chain whose table shares only the name, or only the family, with the counted table adds its rules to the count. |
| `NftTables.CountedRulesCoverOwnRules` | daemon/firewall/nftables/tables.go:62 | The count as written is at least the number of rules in the chains of exactly that table (same name and family). |
| `NftTables.Nft.DelSystemTable` | daemon/firewall/nftables/tables.go:77-85 | One loop iteration. It counts the rules of the entry's table. Unless the count is exactly 0 (so also on -1), it stages nothing, flushes nothing and keeps the entry. At 0 it stages the deletion and flushes. It unregisters the key only when that flush was accepted, and then neither the table nor any of its chains is left in the kernel; otherwise the registry is unchanged. |
| `NftTables.Nft.DelSystemTables` | daemon/firewall/nftables/tables.go:75-87 | Visits each registered entry once, in the listing's order, with the table the listing gave. Each iteration is a `TeardownStep`, and each starts on the connection the previous one left. The flush log grows by exactly the iterations' flushes. The final registry is the old one minus exactly the entries whose deletion flush was accepted. |
| `NftTables.TeardownKeeps` | daemon/firewall/nftables/tables.go:76-86 | After the teardown, an entry whose count was nonzero (including -1), or whose deletion was refused, is still registered with the same table. An entry that is gone had a count of 0, and its table's deletion was in an accepted batch. |
| `NftTables.Remaining` | daemon/firewall/nftables/tables.go:85 | The registry after the teardown only loses entries and never changes a kept one. |
| `Netlink.AddTable` | daemon/firewall/nftables/tables.go:18 | Staging a table appends its creation to the batch and changes nothing else. |
| `Netlink.DelTable` | daemon/firewall/nftables/tables.go:80 | Staging a deletion appends it to the batch and changes nothing else. |
| `Netlink.ListChains` | daemon/firewall/nftables/tables.go:56-59 | Listing succeeds exactly when the connection does not fail it, and then yields every chain of the ruleset. |
| `Netlink.GetRule` | daemon/firewall/nftables/tables.go:65-68 | Reading a chain's rules succeeds exactly when the connection does not fail it for that chain, and then yields that chain's rules. |
| `Netlink.Flushed` | daemon/firewall/nftables/tables.go:20 | An accepted flush applies the whole staged batch and leaves nothing staged. |
| `Netlink.WithoutTable` | daemon/firewall/nftables/tables.go:80 | Deleting a table removes exactly the chains of that table and keeps all others. |
| `Netlink.AddedTableExists` | daemon/firewall/nftables/tables.go:18-24 | After an accepted batch that ends by creating a table, that table exists, which is what registering it relies on. |
| `Netlink.DeletedTableGone` | daemon/firewall/nftables/tables.go:80-85 | After an accepted batch that ends by deleting a table, neither the table nor any of its chains is left; `DelSystemTable` uses this for an entry it unregisters. |
| `NftTables.CreationKeepsTables` | daemon/firewall/nftables/tables.go:46-52 | A flush whose batch only creates a table never loses an existing table, and when accepted the created table exists. So after the startup pair both accepted tables exist. |
| `Netlink.AddTableIdempotent` | daemon/firewall/nftables/tables.go:18-20 | Creating the same table twice in a batch leaves the same ruleset as creating it once. |

## Left out

- `ui/opensnitch/auth/__init__.py` reads files and builds gRPC TLS credentials. That is I/O over a foreign library, with no logic to state.
- The real netlink calls and the body of `n.Commit()` are not shown, so they are modelled abstractly. `Conn` is a value, and `Apply` gives the effect of a batch. Whether a flush is accepted is chosen nondeterministically, and a refused flush applies none of its batch.
- Nothing fixes what happens to the staged batch after a refused flush. The model allows either outcome: the batch is dropped, or it is kept for the next flush.
- Failures of `ListChains` and `GetRule` are fixed properties of the connection value (`listChainsFails`, `getRuleFails`). So the model does not let a query fail on one call and succeed on the next.
- `getFamilyCode` is not shown. It is the function `familyCode` given to the `Nft` constructor. The exprs constants are the strings "mangle", "filter" and "inet".
- NftTables.Nft.AddTable: the error text omits the log tag and the numeric family code, and `log.Warning` in `delSystemTables` is not modelled (logging).
- The locking inside `sysTables` and any concurrent use are not modelled. The registry is a field that one caller updates at a time.
- `sysTables.List()` iterates in Go's unspecified map order. `DelSystemTables` takes that order as a parameter, `order`, which lists each registered key exactly once.
- `getTableKey` accepts any value as the family, formatted with `fmt.Sprint`. Every caller passes a string, and for strings the result is plain concatenation, so the model takes a string.
- `nonSystemRules` is commented as returning "the number of rules that we didn't add" (tables.go:54). The code counts every rule of every chain it does not skip, whoever added it, and the model follows the code.
- Under the "batch kept" outcome of a refused flush, a kept registry entry can outlive its kernel table. A deletion refused and kept is applied by the next accepted flush, yet the teardown keeps that entry. Likewise a refused creation can be applied later without being registered. The model states nothing that excludes this.
