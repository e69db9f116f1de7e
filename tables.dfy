/**
  The registry of the nftables tables the daemon created itself ("system
  tables"), and the lifecycle around it: create and register, look up, create
  the interception tables at startup, count the rules in a table, and delete
  and unregister at shutdown the tables that hold no rules.
*/
module NftTables {
  import opened Wrappers
  import opened Netlink

  /** Names the daemon uses for its tables and their family. */
  const MangleName: string := "mangle"
  const FilterName: string := "filter"
  const FamilyInet: string := "inet"

  /** The registry key of a table: its name and family joined by a dash. */
  function TableKey(name: string, family: string): (key: string)
    ensures |key| == |name| + 1 + |family|
    ensures key[..|name|] == name && key[|name|] == '-' && key[|name| + 1..] == family
  {
    name + "-" + family
  }

  /** When no name contains a dash, the key tells apart tables with different names or families. */
  lemma TableKeyInjectiveWithoutDash(n1: string, f1: string, n2: string, f2: string)
    requires '-' !in n1 && '-' !in n2
    ensures TableKey(n1, f1) == TableKey(n2, f2) <==> n1 == n2 && f1 == f2
  {
  }

  /** A dash in a name lets two different tables share one key. */
  lemma TableKeyCollides()
    ensures TableKey("a-b", "c") == TableKey("a", "b-c")
    ensures "a-b" != "a"
  {
    assert TableKey("a-b", "c") == "a-b-c" == TableKey("a", "b-c");
  }

  /**
    The test that excludes a chain from the count of a table's rules, as the
    daemon writes it: a chain is left out only when BOTH its table's name and
    its table's family differ from those of the table being counted.
  */
  predicate SkipsChain(tbl: Table, c: Chain)
  {
    tbl.name != c.table.name && tbl.family != c.table.family
  }

  /** The number of rules in the chains of `cs` that the count of `tbl` does not skip. */
  function CountedRules(tbl: Table, cs: seq<Chain>): nat
    decreases |cs|
  {
    if cs == [] then 0
    else CountedRules(tbl, cs[..|cs| - 1])
         + (if SkipsChain(tbl, cs[|cs| - 1]) then 0 else |cs[|cs| - 1].rules|)
  }

  /** Some query the count of `tbl` makes fails: the chain listing, or the rules of a counted chain. */
  predicate CountFails(c: Conn, tbl: Table)
  {
    c.listChainsFails
    || exists ch :: ch in c.ruleset.chains && !SkipsChain(tbl, ch) && ch in c.getRuleFails
  }

  /** What counting the rules of `tbl` yields: -1 when a query fails, the number of counted rules otherwise. */
  function ForeignRules(c: Conn, tbl: Table): int
  {
    if CountFails(c, tbl) then -1 else CountedRules(tbl, c.ruleset.chains)
  }

  /** -1 is the count exactly when a query failed; otherwise the count is never negative. */
  lemma ForeignRulesFailureSentinel(c: Conn, tbl: Table)
    ensures ForeignRules(c, tbl) == -1 <==> CountFails(c, tbl)
    ensures ForeignRules(c, tbl) >= -1
  {
  }

  /** The counted rules are zero exactly when every chain the count does not skip is empty. */
  lemma {:induction false} CountedRulesZero(tbl: Table, cs: seq<Chain>)
    ensures CountedRules(tbl, cs) == 0 <==> forall ch :: ch in cs && !SkipsChain(tbl, ch) ==> ch.rules == []
    decreases |cs|
  {
    if cs != [] {
      var init := cs[..|cs| - 1];
      CountedRulesZero(tbl, init);
      assert cs == init + [cs[|cs| - 1]];
    }
  }

  /**
    A count of 0 means that every query succeeded and that no chain the count
    does not skip holds a rule; a failed query never reads as 0.
  */
  lemma ForeignRulesZero(c: Conn, tbl: Table)
    ensures ForeignRules(c, tbl) == 0 <==>
      && !c.listChainsFails
      && forall ch :: ch in c.ruleset.chains && !SkipsChain(tbl, ch) ==> ch !in c.getRuleFails && ch.rules == []
  {
    CountedRulesZero(tbl, c.ruleset.chains);
  }

  /** Every rule of a chain the count does not skip is included in the count. */
  lemma {:induction false} CountedChainIncluded(tbl: Table, cs: seq<Chain>, ch: Chain)
    requires ch in cs && !SkipsChain(tbl, ch)
    ensures CountedRules(tbl, cs) >= |ch.rules|
    decreases |cs|
  {
    var init := cs[..|cs| - 1];
    assert cs == init + [cs[|cs| - 1]];
    if ch != cs[|cs| - 1] {
      CountedChainIncluded(tbl, init, ch);
    }
  }

  /**
    Because of the `&&` in the skip test, a chain whose table shares only the
    name, or only the family, with the table being counted is still counted.
  */
  lemma ChainSharingNameOrFamilyCounted(c: Conn, tbl: Table, ch: Chain)
    requires !CountFails(c, tbl)
    requires ch in c.ruleset.chains
    requires ch.table.name == tbl.name || ch.table.family == tbl.family
    ensures ForeignRules(c, tbl) >= |ch.rules|
  {
    CountedChainIncluded(tbl, c.ruleset.chains, ch);
  }

  /** The rules of the chains that belong to `tbl` itself, same name and same family. */
  function OwnRules(tbl: Table, cs: seq<Chain>): nat
    decreases |cs|
  {
    if cs == [] then 0
    else OwnRules(tbl, cs[..|cs| - 1]) + (if cs[|cs| - 1].table == tbl then |cs[|cs| - 1].rules| else 0)
  }

  /**
    The count as written never falls below the count of the table's own
    chains: the `&&` test can only keep a table that holds rules, never delete one.
  */
  lemma {:induction false} CountedRulesCoverOwnRules(tbl: Table, cs: seq<Chain>)
    ensures CountedRules(tbl, cs) >= OwnRules(tbl, cs)
    decreases |cs|
  {
    if cs != [] {
      CountedRulesCoverOwnRules(tbl, cs[..|cs| - 1]);
    }
  }

  /** One flush of the connection: the batch it sent and whether the kernel accepted it. */
  datatype Attempt = Attempt(ops: seq<Op>, ok: bool)

  /**
    The connection `c'` after staging the creation of `t` on `c` and flushing,
    with the kernel accepting (`ok`) or refusing the batch.
  */
  ghost predicate AddTableFlush(c: Conn, t: Table, ok: bool, c': Conn)
  {
    if ok then c' == Flushed(Netlink.AddTable(c, t)) else FlushFailed(Netlink.AddTable(c, t), c')
  }

  /** `t` was created by a batch the kernel accepted. */
  ghost predicate Committed(log: seq<Attempt>, t: Table)
  {
    exists i :: 0 <= i < |log| && log[i].ok && AddTableOp(t) in log[i].ops
  }

  /**
    One iteration of the teardown loop over the registry: the entry it visited,
    the connection before and after, the count it obtained, and the flush it
    made, if any.
  */
  datatype Step = Step(key: string, table: Table, before: Conn, count: int, attempt: Option<Attempt>, after: Conn)

  /** The iteration deleted its table and so unregistered its key. */
  predicate Deleted(s: Step)
  {
    s.attempt.Some? && s.attempt.value.ok
  }

  /**
    What one iteration of the teardown loop does: count the rules; unless the
    count is exactly 0 (so also on -1), move on untouched; otherwise stage the
    deletion and flush.
  */
  ghost predicate TeardownStep(s: Step)
  {
    && s.count == ForeignRules(s.before, s.table)
    && if s.count != 0 then
         s.attempt == None && s.after == s.before
       else
         && s.attempt.Some?
         && s.attempt.value.ops == s.before.staged + [DelTableOp(s.table)]
         && if s.attempt.value.ok then s.after == Flushed(DelTable(s.before, s.table))
            else FlushFailed(DelTable(s.before, s.table), s.after)
  }

  /** The iterations follow one another on the connection, from `c0` to `c`. */
  ghost predicate Chained(c0: Conn, steps: seq<Step>, c: Conn)
  {
    && (forall i :: 0 < i < |steps| ==> steps[i].before == steps[i - 1].after)
    && if steps == [] then c == c0 else steps[0].before == c0 && steps[|steps| - 1].after == c
  }

  /** The iterations visit the first `|steps|` keys of `order`, each with its registered table. */
  ghost predicate Visits(reg: map<string, Table>, order: seq<string>, steps: seq<Step>)
  {
    && |steps| <= |order|
    && forall j :: 0 <= j < |steps| ==>
         && order[j] in reg
         && steps[j].key == order[j] && steps[j].table == reg[order[j]]
         && TeardownStep(steps[j])
  }

  /** The flushes the iterations made, in order. */
  ghost function AttemptsOf(steps: seq<Step>): seq<Attempt>
    decreases |steps|
  {
    if steps == [] then []
    else AttemptsOf(steps[..|steps| - 1])
         + (if steps[|steps| - 1].attempt.Some? then [steps[|steps| - 1].attempt.value] else [])
  }

  /** Some iteration deleted the table registered under `key`. */
  ghost predicate Removed(steps: seq<Step>, key: string)
  {
    exists j :: 0 <= j < |steps| && steps[j].key == key && Deleted(steps[j])
  }

  /** The registry after the teardown: the entries no iteration deleted, unchanged. */
  ghost function Remaining(reg: map<string, Table>, steps: seq<Step>): (r: map<string, Table>)
    ensures r.Keys <= reg.Keys
    ensures forall key :: key in r ==> r[key] == reg[key]
  {
    map key | key in reg && !Removed(steps, key) :: reg[key]
  }

  /**
    The state of the teardown after the iterations `steps`, started from the
    connection `c0`, the registry `reg` and the flush log `log0`.
  */
  ghost predicate TornDown(
    c0: Conn, reg: map<string, Table>, log0: seq<Attempt>, order: seq<string>,
    steps: seq<Step>, c: Conn, regNow: map<string, Table>, log: seq<Attempt>)
  {
    && Visits(reg, order, steps)
    && Chained(c0, steps, c)
    && log == log0 + AttemptsOf(steps)
    && regNow == Remaining(reg, steps)
  }

  /** A trace that visits the keys in order extends by the iteration that visits the next key. */
  lemma VisitsAppend(reg: map<string, Table>, order: seq<string>, steps: seq<Step>, step: Step)
    requires Visits(reg, order, steps) && |steps| < |order|
    requires order[|steps|] in reg && step.key == order[|steps|] && step.table == reg[step.key]
    requires TeardownStep(step)
    ensures Visits(reg, order, steps + [step])
  {
    var all := steps + [step];
    forall j | 0 <= j < |all|
      ensures order[j] in reg && all[j].key == order[j] && all[j].table == reg[order[j]] && TeardownStep(all[j])
    {
      if j < |steps| {
        assert all[j] == steps[j];
      }
    }
  }

  /** A trace that ends where the next iteration starts extends by that iteration. */
  lemma ChainedAppend(c0: Conn, steps: seq<Step>, step: Step)
    requires Chained(c0, steps, step.before)
    ensures Chained(c0, steps + [step], step.after)
  {
    var all := steps + [step];
    forall i | 0 < i < |all|
      ensures all[i].before == all[i - 1].after
    {
      if i < |steps| {
        assert all[i] == steps[i] && all[i - 1] == steps[i - 1];
      }
    }
  }

  /** The flushes of a longer trace are those of the shorter one followed by the new iteration's. */
  lemma AttemptsOfAppend(steps: seq<Step>, step: Step)
    ensures AttemptsOf(steps + [step]) == AttemptsOf(steps) + (if step.attempt.Some? then [step.attempt.value] else [])
  {
    assert (steps + [step])[..|steps|] == steps;
  }

  /** Appending an iteration removes at most its own key from the remaining registry. */
  lemma RemainingAppend(reg: map<string, Table>, steps: seq<Step>, step: Step)
    ensures Remaining(reg, steps + [step]) ==
      if Deleted(step) then Remaining(reg, steps) - {step.key} else Remaining(reg, steps)
  {
    var all := steps + [step];
    forall key
      ensures Removed(all, key) <==> Removed(steps, key) || (key == step.key && Deleted(step))
    {
      if Removed(all, key) {
        var j :| 0 <= j < |all| && all[j].key == key && Deleted(all[j]);
        if j < |steps| {
          assert steps[j] == all[j];
        }
      }
      if Removed(steps, key) {
        var j :| 0 <= j < |steps| && steps[j].key == key && Deleted(steps[j]);
        assert all[j] == steps[j];
      }
      if key == step.key && Deleted(step) {
        assert all[|steps|] == step;
      }
    }
  }

  /** One more iteration of the teardown loop keeps the bundled description of its state. */
  lemma TornDownAppend(
    c0: Conn, reg: map<string, Table>, log0: seq<Attempt>, order: seq<string>,
    steps: seq<Step>, step: Step, regNow: map<string, Table>, log: seq<Attempt>)
    requires TornDown(c0, reg, log0, order, steps, step.before, regNow, log)
    requires |steps| < |order| && order[|steps|] in reg
    requires step.key == order[|steps|] && step.table == reg[step.key] && TeardownStep(step)
    ensures TornDown(c0, reg, log0, order, steps + [step], step.after,
      if Deleted(step) then regNow - {step.key} else regNow,
      log + (if step.attempt.Some? then [step.attempt.value] else []))
  {
    VisitsAppend(reg, order, steps, step);
    ChainedAppend(c0, steps, step);
    AttemptsOfAppend(steps, step);
    RemainingAppend(reg, steps, step);
  }

  /**
    Over a teardown that visited each registered key once: an entry whose
    count was not exactly 0 (so also one whose count was -1), or whose
    deletion the kernel refused, is still registered with the same table; an
    entry that is gone was counted at 0 and its table's deletion was in a batch
    the kernel accepted.
  */
  lemma TeardownKeeps(reg: map<string, Table>, order: seq<string>, steps: seq<Step>)
    requires forall i, j :: 0 <= i < j < |order| ==> order[i] != order[j]
    requires |steps| == |order| && Visits(reg, order, steps)
    ensures forall i :: 0 <= i < |steps| && (steps[i].count != 0 || !Deleted(steps[i])) ==>
      order[i] in Remaining(reg, steps) && Remaining(reg, steps)[order[i]] == reg[order[i]]
    ensures forall key :: key in reg && key !in Remaining(reg, steps) ==>
      exists i :: 0 <= i < |steps| && steps[i].key == key && steps[i].count == 0 && Deleted(steps[i])
        && DelTableOp(reg[key]) in steps[i].attempt.value.ops
  {
  }

  /**
    A flush that only creates a table keeps every table that already exists:
    whether the kernel accepts or refuses it, no table is lost.
  */
  lemma CreationKeepsTables(c: Conn, t: Table, ok: bool, c': Conn)
    requires c.staged == []
    requires AddTableFlush(c, t, ok, c')
    ensures c.ruleset.tables <= c'.ruleset.tables
    ensures ok ==> t in c'.ruleset.tables
  {
    if ok {
      var batch := Netlink.AddTable(c, t).staged;
      assert batch == [AddTableOp(t)];
      assert batch[1..] == [];
      assert c'.ruleset == Apply(c.ruleset, batch) == ApplyOp(c.ruleset, AddTableOp(t));
    }
  }

  /** The daemon's nftables handle: the connection and the registry of system tables. */
  class Nft {
    /** How a family name such as "inet" maps to the kernel's family code. */
    const familyCode: string -> FamilyCode
    var conn: Conn
    /** The registry, keyed by `TableKey(name, family)`. */
    var sysTables: map<string, Table>
    /** Every flush made so far. */
    ghost var attempts: seq<Attempt>

    /** Every registered table was created by a batch the kernel accepted. */
    ghost predicate Valid()
      reads this
    {
      forall key :: key in sysTables ==> Committed(attempts, sysTables[key])
    }

    constructor (familyCode: string -> FamilyCode, conn: Conn)
      ensures Valid()
      ensures this.familyCode == familyCode && this.conn == conn
      ensures sysTables == map[] && attempts == []
    {
      this.familyCode := familyCode;
      this.conn := conn;
      sysTables := map[];
      attempts := [];
    }

    /** `n.Commit()`: flush the staged batch; the kernel accepts or refuses it as a whole. */
    method Commit() returns (ok: bool)
      requires Valid()
      modifies this`conn, this`attempts
      ensures Valid()
      ensures attempts == old(attempts) + [Attempt(old(conn.staged), ok)]
      ensures ok ==> conn == Flushed(old(conn))
      ensures !ok ==> FlushFailed(old(conn), conn)
    {
      ok :| true;
      ghost var log := attempts;
      attempts := attempts + [Attempt(conn.staged, ok)];
      if ok {
        conn := Flushed(conn);
      } else {
        var dropped :| true;
        if dropped {
          conn := conn.(staged := []);
        }
      }
      forall key | key in sysTables
        ensures Committed(attempts, sysTables[key])
      {
        var i :| 0 <= i < |log| && log[i].ok && AddTableOp(sysTables[key]) in log[i].ops;
        assert attempts[i] == log[i];
      }
    }

    /** `n.getTable(name, family)`: the registered table under the key of `name` and `family`, if any. */
    function GetTable(name: string, family: string): (r: Option<Table>)
      reads this
      ensures r.Some? <==> TableKey(name, family) in sysTables
      ensures r.Some? ==> r.value == sysTables[TableKey(name, family)]
    {
      var key := TableKey(name, family);
      if key in sysTables then Some(sysTables[key]) else None
    }

    /**
      `n.AddTable(name, family)`: stage the table and flush. The table is
      registered if and only if the kernel accepted the batch.
    */
    method AddTable(name: string, family: string) returns (r: Result<Table>)
      requires Valid()
      modifies this`conn, this`attempts, this`sysTables
      ensures Valid()
      ensures attempts == old(attempts) + [Attempt(old(conn.staged) + [AddTableOp(Table(name, familyCode(family)))], r.Ok?)]
      ensures AddTableFlush(old(conn), Table(name, familyCode(family)), r.Ok?, conn)
      ensures r.Ok? ==>
        && r.value == Table(name, familyCode(family))
        && r.value in conn.ruleset.tables
        && conn.staged == []
        && sysTables == old(sysTables)[TableKey(name, family) := r.value]
        && GetTable(name, family) == Some(r.value)
      ensures r.Err? ==> sysTables == old(sysTables) && FlushFailed(Netlink.AddTable(old(conn), Table(name, familyCode(family))), conn)
    {
      var tbl := Table(name, familyCode(family));
      conn := Netlink.AddTable(conn, tbl);
      var ok := Commit();
      if !ok {
        return Err("error adding system firewall table: " + name + ", family: " + family);
      }
      AddedTableExists(old(conn.ruleset), old(conn.staged), tbl);
      var key := TableKey(name, family);
      assert Committed(attempts, tbl) by {
        assert attempts[|attempts| - 1].ok && AddTableOp(tbl) in attempts[|attempts| - 1].ops;
      }
      sysTables := sysTables[key := tbl];
      return Ok(tbl);
    }

    /**
      `n.addInterceptionTables()`: create mangle then filter, both of family
      inet, and stop at the first error without attempting the rest.
    */
    method AddInterceptionTables() returns (r: Outcome, ghost mid: Conn)
      requires Valid()
      modifies this`conn, this`attempts, this`sysTables
      ensures Valid()
      ensures var n := |old(attempts)|;
        && n < |attempts| <= n + 2
        && attempts[n].ops == old(conn.staged) + [AddTableOp(Table(MangleName, familyCode(FamilyInet)))]
        && AddTableFlush(old(conn), Table(MangleName, familyCode(FamilyInet)), attempts[n].ok, mid)
        && (!attempts[n].ok ==> r.Fail? && |attempts| == n + 1 && sysTables == old(sysTables) && conn == mid)
        && (attempts[n].ok ==>
              && |attempts| == n + 2
              && attempts[n + 1].ops == [AddTableOp(Table(FilterName, familyCode(FamilyInet)))]
              && AddTableFlush(mid, Table(FilterName, familyCode(FamilyInet)), attempts[n + 1].ok, conn)
              && Table(MangleName, familyCode(FamilyInet)) in conn.ruleset.tables
              && (r.Pass? <==> attempts[n + 1].ok)
              && (r.Fail? ==>
                    sysTables == old(sysTables)[TableKey(MangleName, FamilyInet) := Table(MangleName, familyCode(FamilyInet))]))
      ensures r.Pass? ==>
        && sysTables == old(sysTables)
             [TableKey(MangleName, FamilyInet) := Table(MangleName, familyCode(FamilyInet))]
             [TableKey(FilterName, FamilyInet) := Table(FilterName, familyCode(FamilyInet))]
        && GetTable(MangleName, FamilyInet) == Some(Table(MangleName, familyCode(FamilyInet)))
        && GetTable(FilterName, FamilyInet) == Some(Table(FilterName, familyCode(FamilyInet)))
        && Table(FilterName, familyCode(FamilyInet)) in conn.ruleset.tables
    {
      var m := AddTable(MangleName, FamilyInet);
      mid := conn;
      if m.Err? {
        return Fail(m.msg), mid;
      }
      var f := AddTable(FilterName, FamilyInet);
      CreationKeepsTables(mid, Table(FilterName, familyCode(FamilyInet)), f.Ok?, conn);
      if f.Err? {
        return Fail(f.msg), mid;
      }
      assert TableKey(MangleName, FamilyInet)[0] == 'm' != 'f' == TableKey(FilterName, FamilyInet)[0];
      return Pass, mid;
    }

    /** `n.addSystemTables()`: create mangle then filter, both of family inet, ignoring errors. */
    method AddSystemTables() returns (ghost mid: Conn)
      requires Valid()
      modifies this`conn, this`attempts, this`sysTables
      ensures Valid()
      ensures var n := |old(attempts)|;
        && |attempts| == n + 2
        && attempts[n].ops == old(conn.staged) + [AddTableOp(Table(MangleName, familyCode(FamilyInet)))]
        && AddTableFlush(old(conn), Table(MangleName, familyCode(FamilyInet)), attempts[n].ok, mid)
        && attempts[n + 1].ops == mid.staged + [AddTableOp(Table(FilterName, familyCode(FamilyInet)))]
        && AddTableFlush(mid, Table(FilterName, familyCode(FamilyInet)), attempts[n + 1].ok, conn)
        && (attempts[n].ok ==> Table(MangleName, familyCode(FamilyInet)) in conn.ruleset.tables)
        && (attempts[n + 1].ok ==> Table(FilterName, familyCode(FamilyInet)) in conn.ruleset.tables)
        && var afterMangle :=
             if attempts[n].ok
             then old(sysTables)[TableKey(MangleName, FamilyInet) := Table(MangleName, familyCode(FamilyInet))]
             else old(sysTables);
           sysTables ==
             if attempts[n + 1].ok
             then afterMangle[TableKey(FilterName, FamilyInet) := Table(FilterName, familyCode(FamilyInet))]
             else afterMangle
    {
      var m := AddTable(MangleName, FamilyInet);
      mid := conn;
      var f := AddTable(FilterName, FamilyInet);
      if m.Ok? {
        CreationKeepsTables(mid, Table(FilterName, familyCode(FamilyInet)), f.Ok?, conn);
      }
    }

    /**
      `n.nonSystemRules(tbl)`: sum the rules of every chain the skip test does
      not exclude, returning -1 as soon as a query fails.
    */
    method NonSystemRules(tbl: Table) returns (t: int)
      ensures t == ForeignRules(conn, tbl)
    {
      var listed := ListChains(conn);
      if listed.Err? {
        return -1;
      }
      var chains := listed.value;
      t := 0;
      for i := 0 to |chains|
        invariant t == CountedRules(tbl, chains[..i])
        invariant forall j :: 0 <= j < i && !SkipsChain(tbl, chains[j]) ==> chains[j] !in conn.getRuleFails
      {
        assert chains[..i + 1][..i] == chains[..i];
        var c := chains[i];
        if tbl.name != c.table.name && tbl.family != c.table.family {
          continue;
        }
        var rules := GetRule(conn, c.table, c);
        if rules.Err? {
          return -1;
        }
        t := t + |rules.value|;
      }
      assert chains[..|chains|] == chains;
    }

    /**
      `n.delSystemTables()`: visit the registry entries in `order` (the order
      in which the registry's listing yields them); delete and unregister each
      table whose count is exactly 0, keeping the entry when the flush fails.
    */
    method DelSystemTables(order: seq<string>) returns (ghost steps: seq<Step>)
      requires Valid()
      requires forall i, j :: 0 <= i < j < |order| ==> order[i] != order[j]
      requires forall key :: key in sysTables <==> key in order
      modifies this`conn, this`attempts, this`sysTables
      ensures Valid()
      ensures |steps| == |order|
      ensures TornDown(old(conn), old(sysTables), old(attempts), order, steps, conn, sysTables, attempts)
    {
      var entries := sysTables;
      steps := [];
      for i := 0 to |order|
        invariant |steps| == i
        invariant TornDown(old(conn), entries, old(attempts), order, steps, conn, sysTables, attempts)
        invariant Valid()
      {
        assert order[i] in entries;
        ghost var regBefore, logBefore := sysTables, attempts;
        var step := DelSystemTable(order[i], entries[order[i]]);
        TornDownAppend(old(conn), entries, old(attempts), order, steps, step, regBefore, logBefore);
        steps := steps + [step];
      }
    }

    /**
      One iteration of `n.delSystemTables()`: count the rules of `tbl`, and
      only when the count is exactly 0 stage its deletion, flush, and on
      success unregister `key`.
    */
    method DelSystemTable(key: string, tbl: Table) returns (ghost step: Step)
      requires Valid()
      modifies this`conn, this`attempts, this`sysTables
      ensures Valid()
      ensures step.key == key && step.table == tbl && TeardownStep(step)
      ensures step.before == old(conn) && step.after == conn
      ensures attempts == old(attempts) + (if step.attempt.Some? then [step.attempt.value] else [])
      ensures sysTables == if Deleted(step) then old(sysTables) - {key} else old(sysTables)
      ensures Deleted(step) ==>
        tbl !in conn.ruleset.tables && forall c :: c in conn.ruleset.chains ==> c.table != tbl
    {
      var count := NonSystemRules(tbl);
      if count != 0 {
        return Step(key, tbl, conn, count, None, conn);
      }
      ghost var before := conn;
      conn := Netlink.DelTable(conn, tbl);
      var ok := Commit();
      step := Step(key, tbl, before, count, Some(Attempt(before.staged + [DelTableOp(tbl)], ok)), conn);
      if !ok {
        return;
      }
      DeletedTableGone(before.ruleset, before.staged, tbl);
      sysTables := sysTables - {key};
    }
  }
}
