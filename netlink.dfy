/**
  The nftables connection as the table registry sees it: the kernel's ruleset,
  the batch of messages staged on the connection but not yet sent, and which of
  the two listing queries the registry uses would fail. Nothing staged is
  visible in the ruleset until a flush applies the whole batch.
*/
module Netlink {
  import opened Wrappers

  /** The numeric address-family code the kernel stores with a table. */
  type FamilyCode = nat

  datatype Table = Table(name: string, family: FamilyCode)

  /** A rule is opaque to the registry: only how many a chain holds matters. */
  datatype Rule = Rule(handle: nat)

  /** A chain refers to the table it lives in and holds its rules in order. */
  datatype Chain = Chain(name: string, table: Table, rules: seq<Rule>)

  /** A message staged on the connection. */
  datatype Op = AddTableOp(table: Table) | DelTableOp(table: Table)

  datatype Ruleset = Ruleset(tables: set<Table>, chains: seq<Chain>)

  /**
    `listChainsFails` and `getRuleFails` say which queries the kernel answers
    with an error; the registry never changes them.
  */
  datatype Conn = Conn(
    ruleset: Ruleset,
    staged: seq<Op>,
    listChainsFails: bool,
    getRuleFails: set<Chain>)

  /** The chains of `cs` that do not belong to table `t`, in their order. */
  function WithoutTable(cs: seq<Chain>, t: Table): (r: seq<Chain>)
    ensures |r| <= |cs|
    ensures forall c :: c in r <==> c in cs && c.table != t
  {
    if cs == [] then []
    else if cs[0].table == t then WithoutTable(cs[1..], t)
    else [cs[0]] + WithoutTable(cs[1..], t)
  }

  /** The effect of one message on the ruleset. Adding an existing table is a no-op. */
  function ApplyOp(rs: Ruleset, op: Op): Ruleset
  {
    match op
    case AddTableOp(t) => rs.(tables := rs.tables + {t})
    case DelTableOp(t) => Ruleset(rs.tables - {t}, WithoutTable(rs.chains, t))
  }

  /** The effect of a whole batch, message by message. */
  function Apply(rs: Ruleset, ops: seq<Op>): Ruleset
    decreases |ops|
  {
    if ops == [] then rs else Apply(ApplyOp(rs, ops[0]), ops[1..])
  }

  /** `conn.AddTable(t)`: stage the creation of `t`. */
  function AddTable(c: Conn, t: Table): (c': Conn)
    ensures c'.staged == c.staged + [AddTableOp(t)]
    ensures c' == c.(staged := c'.staged)
  {
    c.(staged := c.staged + [AddTableOp(t)])
  }

  /** `conn.DelTable(t)`: stage the deletion of `t`. */
  function DelTable(c: Conn, t: Table): (c': Conn)
    ensures c'.staged == c.staged + [DelTableOp(t)]
    ensures c' == c.(staged := c'.staged)
  {
    c.(staged := c.staged + [DelTableOp(t)])
  }

  /** `conn.ListChains()`: every chain of every table, or an error. */
  function ListChains(c: Conn): (r: Result<seq<Chain>>)
    ensures r.Ok? <==> !c.listChainsFails
    ensures r.Ok? ==> r.value == c.ruleset.chains
  {
    if c.listChainsFails then Err("netlink: listing chains failed")
    else Ok(c.ruleset.chains)
  }

  /** `conn.GetRule(t, ch)`: the rules of chain `ch` of table `t`, or an error. */
  function GetRule(c: Conn, t: Table, ch: Chain): (r: Result<seq<Rule>>)
    ensures r.Ok? <==> ch !in c.getRuleFails
    ensures r.Ok? ==> r.value == ch.rules
  {
    if ch in c.getRuleFails then Err("netlink: listing rules failed")
    else Ok(ch.rules)
  }

  /** The connection after a flush the kernel accepted: the whole batch applied, nothing staged. */
  function Flushed(c: Conn): (c': Conn)
    ensures c'.ruleset == Apply(c.ruleset, c.staged) && c'.staged == []
    ensures c'.listChainsFails == c.listChainsFails && c'.getRuleFails == c.getRuleFails
  {
    c.(ruleset := Apply(c.ruleset, c.staged), staged := [])
  }

  /**
    The connection after a flush the kernel refused: no message of the batch
    applied. Whether the batch is dropped or kept for the next flush is left open.
  */
  ghost predicate FlushFailed(c: Conn, c': Conn)
  {
    && c'.ruleset == c.ruleset
    && c'.listChainsFails == c.listChainsFails
    && c'.getRuleFails == c.getRuleFails
    && (c'.staged == [] || c'.staged == c.staged)
  }

  /** A batch applies as its two halves in turn. */
  lemma {:induction false} ApplyAppend(rs: Ruleset, a: seq<Op>, b: seq<Op>)
    ensures Apply(rs, a + b) == Apply(Apply(rs, a), b)
    decreases |a|
  {
    if a == [] {
      assert a + b == b;
    } else {
      assert (a + b)[0] == a[0];
      assert (a + b)[1..] == a[1..] + b;
      ApplyAppend(ApplyOp(rs, a[0]), a[1..], b);
    }
  }

  /** Once a batch ending in the creation of `t` is applied, `t` exists. */
  lemma AddedTableExists(rs: Ruleset, ops: seq<Op>, t: Table)
    ensures t in Apply(rs, ops + [AddTableOp(t)]).tables
  {
    ApplyAppend(rs, ops, [AddTableOp(t)]);
  }

  /** Once a batch ending in the deletion of `t` is applied, neither `t` nor any chain of it is left. */
  lemma DeletedTableGone(rs: Ruleset, ops: seq<Op>, t: Table)
    ensures t !in Apply(rs, ops + [DelTableOp(t)]).tables
    ensures forall c :: c in Apply(rs, ops + [DelTableOp(t)]).chains ==> c.table != t
  {
    ApplyAppend(rs, ops, [DelTableOp(t)]);
  }

  /** Creating the same table twice leaves the same ruleset as creating it once. */
  lemma AddTableIdempotent(rs: Ruleset, ops: seq<Op>, t: Table)
    ensures Apply(rs, ops + [AddTableOp(t), AddTableOp(t)]) == Apply(rs, ops + [AddTableOp(t)])
  {
    ApplyAppend(rs, ops, [AddTableOp(t), AddTableOp(t)]);
    ApplyAppend(rs, ops, [AddTableOp(t)]);
  }
}
