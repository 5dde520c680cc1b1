/** The credit ledger: a balance column for read speed and a row per movement for truth
    (app/billing/credits.py). Each step is one transaction, serialised by the row lock the
    source takes on the account. */
module Credits {

  datatype Action =
    | GenerateCreative
    | ReviseCopy
    | RegenerateImage
    | PublishInstagram
    | ReferenceAsset
    | OtherAction(name: string)

  /** The idempotency keys the callers mint. The source writes them as strings; the uuids in
      them make the four forms distinct. */
  datatype Key =
    | CreativeCharge(group: nat)
    | GroupRefund(group: nat, reason: string)
    | StuckRefund(group: nat, slide: nat)  // a creative row: its job's group and its place in it
    | OtherKey(name: string)

  datatype Row = Row(account: nat, delta: int, balanceAfter: int, reason: string, key: Key)

  datatype Books = Books(balance: map<nat, int>, rows: seq<Row>)

  datatype ChargeOutcome =
    | Charged(amount: int, balanceAfter: int, deduped: bool)
    | Insufficient(balance: int, needed: int)
    | UnknownPayer

  datatype RefundOutcome =
    | Balance(value: int)
    | BelowZero  // the column's CHECK constraint rolls the transaction back
    | UnknownPayee

  const EMPTY := Books(map[], [])

  function CostOf(action: Action): nat {
    match action
    case GenerateCreative => 1
    case ReviseCopy => 0
    case RegenerateImage => 1
    case PublishInstagram => 0
    case ReferenceAsset => 0
    case OtherAction(_) => 1
  }

  function Label(action: Action): string {
    match action
    case GenerateCreative => "generate_creative"
    case ReviseCopy => "revise_copy"
    case RegenerateImage => "regenerate_image"
    case PublishInstagram => "publish_instagram"
    case ReferenceAsset => "reference_asset"
    case OtherAction(name) => name
  }

  function Amount(action: Action, units: int): nat {
    CostOf(action) * (if units > 0 then units else 0)
  }

  predicate HasKey(rows: seq<Row>, key: Key) {
    exists i :: 0 <= i < |rows| && rows[i].key == key
  }

  /** The first row written under `key`. */
  function RowOf(rows: seq<Row>, key: Key): (r: Row)
    requires HasKey(rows, key)
    ensures r in rows && r.key == key
  {
    if rows[0].key == key then rows[0] else RowOf(rows[1..], key)
  }

  function ChargeStep(b: Books, account: nat, action: Action, units: int, key: Key): (Books, ChargeOutcome) {
    if account !in b.balance then (b, UnknownPayer)
    else
      var amount: int := Amount(action, units);
      var have := b.balance[account];
      if amount == 0 then (b, Charged(0, have, false))
      else if HasKey(b.rows, key) then
        var row := RowOf(b.rows, key);
        (b, Charged(-row.delta, row.balanceAfter, true))
      else if have < amount then (b, Insufficient(have, amount))
      else
        (Books(b.balance[account := have - amount],
               b.rows + [Row(account, -amount, have - amount, Label(action), key)]),
         Charged(amount, have - amount, false))
  }

  function RefundStep(b: Books, account: nat, amount: int, reason: string, key: Key): (Books, RefundOutcome) {
    if account !in b.balance then (b, UnknownPayee)
    else
      var have := b.balance[account];
      if HasKey(b.rows, key) then (b, Balance(have))
      else if have + amount < 0 then (b, BelowZero)
      else
        (Books(b.balance[account := have + amount],
               b.rows + [Row(account, amount, have + amount, reason, key)]),
         Balance(have + amount))
  }

  /** First contact: the trial credits are granted on the column, with no ledger row. */
  function OpenStep(b: Books, account: nat, trial: nat): Books {
    if account in b.balance then b else b.(balance := b.balance[account := trial])
  }

  datatype Op =
    | Open(account: nat, trial: nat)
    | Charge(account: nat, action: Action, units: int, key: Key)
    | Refund(account: nat, amount: int, reason: string, key: Key)

  function Apply(b: Books, op: Op): Books {
    match op
    case Open(a, trial) => OpenStep(b, a, trial)
    case Charge(a, action, units, key) => ChargeStep(b, a, action, units, key).0
    case Refund(a, amount, reason, key) => RefundStep(b, a, amount, reason, key).0
  }

  function ApplyAll(b: Books, ops: seq<Op>): Books
    decreases |ops|
  {
    if ops == [] then b else ApplyAll(Apply(b, ops[0]), ops[1..])
  }

  // ------------------------------------------------------------------ what the books mean

  function Sum(rows: seq<Row>, account: nat): int {
    if rows == [] then 0
    else Sum(rows[..|rows| - 1], account)
         + (if rows[|rows| - 1].account == account then rows[|rows| - 1].delta else 0)
  }

  /** What the account must have been opened with, if the rows are the truth. */
  function Grant(b: Books, account: nat): int
    requires account in b.balance
  {
    b.balance[account] - Sum(b.rows, account)
  }

  ghost predicate Valid(b: Books) {
    && (forall a :: a in b.balance ==> b.balance[a] >= 0)
    && (forall i :: 0 <= i < |b.rows| ==> b.rows[i].account in b.balance)
    && (forall i :: 0 <= i < |b.rows| ==> RunningTotal(b, i))
    && (forall i, j :: 0 <= i < j < |b.rows| ==> b.rows[i].key != b.rows[j].key)
  }

  /** Row i's `balance_after` is the grant plus every movement up to and including it. */
  ghost predicate RunningTotal(b: Books, i: nat)
    requires i < |b.rows| && b.rows[i].account in b.balance
  {
    var a := b.rows[i].account;
    b.rows[i].balanceAfter == Grant(b, a) + Sum(b.rows[..i + 1], a) && b.rows[i].balanceAfter >= 0
  }

  lemma SumSnoc(rows: seq<Row>, row: Row, account: nat)
    ensures Sum(rows + [row], account) == Sum(rows, account) + (if row.account == account then row.delta else 0)
  {
  }

  lemma SumOfStrangers(rows: seq<Row>, account: nat)
    requires forall i :: 0 <= i < |rows| ==> rows[i].account != account
    ensures Sum(rows, account) == 0
  {
  }

  /** The books with one more row, which moved its account's balance by its delta. */
  function WithRow(b: Books, row: Row): Books {
    Books(b.balance[row.account := row.balanceAfter], b.rows + [row])
  }

  /** What a step may do to the books. */
  ghost predicate Keeps(b: Books, c: Books) {
    && Valid(c) && b.rows <= c.rows && b.balance.Keys <= c.balance.Keys
    && forall a :: a in b.balance ==> Grant(c, a) == Grant(b, a)
  }

  lemma RowKeeps(b: Books, row: Row)
    requires Valid(b) && row.account in b.balance && !HasKey(b.rows, row.key)
    requires row.balanceAfter == b.balance[row.account] + row.delta >= 0
    ensures Keeps(b, WithRow(b, row))
  {
    var c := WithRow(b, row);
    forall a | a in b.balance ensures Grant(c, a) == Grant(b, a) { SumSnoc(b.rows, row, a); }
    forall i | 0 <= i < |c.rows| ensures RunningTotal(c, i) {
      if i < |b.rows| {
        assert c.rows[..i + 1] == b.rows[..i + 1];
        assert RunningTotal(b, i);
      } else {
        assert c.rows[..i + 1] == c.rows;
      }
    }
  }

  lemma OpenKeeps(b: Books, account: nat, trial: nat)
    requires Valid(b)
    ensures Keeps(b, OpenStep(b, account, trial))
  {
    var c := OpenStep(b, account, trial);
    forall i | 0 <= i < |c.rows| ensures RunningTotal(c, i) { assert RunningTotal(b, i); }
  }

  /** Every transaction keeps the books true, rewrites no row and no account's grant. */
  lemma StepKeeps(b: Books, op: Op)
    requires Valid(b)
    ensures Valid(Apply(b, op))
    ensures b.rows <= Apply(b, op).rows
    ensures b.balance.Keys <= Apply(b, op).balance.Keys
    ensures forall a :: a in b.balance ==> Grant(Apply(b, op), a) == Grant(b, a)
  {
    var c := Apply(b, op);
    if op.Open? {
      OpenKeeps(b, op.account, op.trial);
    } else if c != b {
      var row := c.rows[|b.rows|];
      RowKeeps(b, row);
      assert c == WithRow(b, row);
    }
  }

  /** The trial an account was opened with: the first Open naming it. */
  function OpenedWith(ops: seq<Op>, account: nat): int {
    if ops == [] then 0
    else if ops[0].Open? && ops[0].account == account then ops[0].trial
    else OpenedWith(ops[1..], account)
  }

  lemma {:induction false} RunKeeps(b: Books, ops: seq<Op>)
    requires Valid(b)
    ensures Valid(ApplyAll(b, ops))
    ensures b.rows <= ApplyAll(b, ops).rows
    ensures b.balance.Keys <= ApplyAll(b, ops).balance.Keys
    ensures forall a :: a in b.balance ==> Grant(ApplyAll(b, ops), a) == Grant(b, a)
    ensures forall a :: a in ApplyAll(b, ops).balance && a !in b.balance ==>
              Grant(ApplyAll(b, ops), a) == OpenedWith(ops, a)
    decreases |ops|
  {
    if ops != [] {
      var c := Apply(b, ops[0]);
      StepKeeps(b, ops[0]);
      RunKeeps(c, ops[1..]);
      forall a | a in c.balance && a !in b.balance ensures Grant(c, a) == OpenedWith(ops, a) {
        SumOfStrangers(b.rows, a);
      }
    }
  }

  /** The ledger's promise, over every run from an empty database: no balance is negative,
      every balance is the trial credits plus the sum of its rows, every `balance_after` is the
      running total, and no key was written twice. */
  lemma LedgerTruth(ops: seq<Op>, account: nat)
    requires account in ApplyAll(EMPTY, ops).balance
    ensures var b := ApplyAll(EMPTY, ops);
            && Valid(b)
            && b.balance[account] == OpenedWith(ops, account) + Sum(b.rows, account)
            && b.balance[account] >= 0
  {
    RunKeeps(EMPTY, ops);
  }

  /** A step under a key already in the books moves nothing. */
  lemma KeyBlocks(b: Books, i: nat, account: nat, action: Action, units: int, amount: int, reason: string)
    requires Valid(b) && i < |b.rows| && account in b.balance
    ensures RefundStep(b, account, amount, reason, b.rows[i].key) == (b, Balance(b.balance[account]))
    ensures Amount(action, units) > 0 ==>
              ChargeStep(b, account, action, units, b.rows[i].key)
              == (b, Charged(-b.rows[i].delta, b.rows[i].balanceAfter, true))
  {
  }

  /** `books` but for one account, and one row more that says how its balance came about. */
  ghost predicate Moved(b: Books, c: Books, account: nat, delta: int, reason: string, key: Key) {
    && account in b.balance && c.balance.Keys == b.balance.Keys
    && c.balance[account] == b.balance[account] + delta
    && (forall a :: a in b.balance && a != account ==> c.balance[a] == b.balance[a])
    && c.rows == b.rows + [Row(account, delta, b.balance[account] + delta, reason, key)]
  }

  /** What a charge under a new key takes. Copy changes, publishing and the owner's own photographs are
      free, everything else a credit a unit. It goes through exactly when it is free or the balance
      pays for it -- to the last credit -- and then takes that much and no more, from this account
      alone; short of that nothing moves and the answer says what was missing. */
  lemma ChargeExactly(b: Books, account: nat, action: Action, units: int, key: Key)
    requires account in b.balance && !HasKey(b.rows, key)
    ensures var have, (c, out) := b.balance[account], ChargeStep(b, account, action, units, key);
            var free := units <= 0 || action == ReviseCopy || action == PublishInstagram || action == ReferenceAsset;
            if free then c == b && out == Charged(0, have, false)
            else if units <= have then
              out == Charged(units, have - units, false) && Moved(b, c, account, -units, Label(action), key)
            else c == b && out == Insufficient(have, units)
  {
  }

  /** A refund under a new key adds what it says, unless that would leave the balance below nothing --
      a top-up of less than nothing -- which the column refuses. */
  lemma RefundExactly(b: Books, account: nat, amount: int, reason: string, key: Key)
    requires account in b.balance && !HasKey(b.rows, key)
    ensures var have, (c, out) := b.balance[account], RefundStep(b, account, amount, reason, key);
            if have + amount >= 0 then out == Balance(have + amount) && Moved(b, c, account, amount, reason, key)
            else c == b && out == BelowZero
  {
  }

  /** A double-tap cannot spend twice. Whatever happened since the first charge went through,
      charging again under its key moves nothing and answers with the first charge's figures,
      and refunding under its key moves nothing either. */
  lemma ChargeReplay(b: Books, account: nat, action: Action, units: int, key: Key, since: seq<Op>,
                     again: int, amount: int, reason: string)
    requires Valid(b)
    requires var out := ChargeStep(b, account, action, units, key).1; out.Charged? && out.amount > 0 && !out.deduped
    requires again > 0
    ensures var (first, out) := ChargeStep(b, account, action, units, key);
            var later := ApplyAll(first, since);
            && ChargeStep(later, account, action, again, key) == (later, out.(deduped := true))
            && RefundStep(later, account, amount, reason, key).0 == later
  {
    var (first, out) := ChargeStep(b, account, action, units, key);
    ChargeLeavesARow(b, account, action, units, key);
    RunKeeps(first, since);
    assert CostOf(action) == 1;
    StillBlocks(first, ApplyAll(first, since), |b.rows|, account, action, again, amount, reason);
  }

  lemma ChargeLeavesARow(b: Books, account: nat, action: Action, units: int, key: Key)
    requires Valid(b)
    requires var out := ChargeStep(b, account, action, units, key).1; out.Charged? && out.amount > 0 && !out.deduped
    ensures var (first, out) := ChargeStep(b, account, action, units, key);
            && Valid(first) && account in first.balance && |first.rows| == |b.rows| + 1
            && first.rows[|b.rows|] == Row(account, -out.amount, out.balanceAfter, Label(action), key)
  {
    StepKeeps(b, Charge(account, action, units, key));
  }

  lemma StillBlocks(first: Books, later: Books, i: nat, account: nat, action: Action, again: int, amount: int,
                    reason: string)
    requires Valid(later) && i < |first.rows| && first.rows <= later.rows && account in later.balance
             && Amount(action, again) > 0
    ensures var row := first.rows[i];
            && ChargeStep(later, account, action, again, row.key)
               == (later, Charged(-row.delta, row.balanceAfter, true))
            && RefundStep(later, account, amount, reason, row.key).0 == later
  {
  }

  /** A refund is paid once per key, however often the job is retried. */
  lemma RefundReplay(b: Books, account: nat, amount: int, reason: string, key: Key, since: seq<Op>,
                     amount': int, reason': string)
    requires Valid(b)
    requires RefundStep(b, account, amount, reason, key).1.Balance?
    ensures var later := ApplyAll(RefundStep(b, account, amount, reason, key).0, since);
            RefundStep(later, account, amount', reason', key).0 == later
  {
    var first := RefundStep(b, account, amount, reason, key).0;
    StepKeeps(b, Refund(account, amount, reason, key));
    RunKeeps(first, since);
    assert HasKey(first.rows, key) by {
      if !HasKey(b.rows, key) { assert first.rows[|b.rows|].key == key; }
    }
    var i :| 0 <= i < |first.rows| && first.rows[i].key == key;
    assert ApplyAll(first, since).rows[i].key == key;
  }

  // ------------------------------------------------------------------ the tables, in place

  class CreditLedger {
    var balance: map<nat, int>
    var rows: seq<Row>

    constructor ()
      ensures Contents() == EMPTY
    {
      balance, rows := map[], [];
    }

    function Contents(): Books
      reads this
    {
      Books(balance, rows)
    }

    /** get_or_create_account. */
    method OpenAccount(account: nat, trial: nat)
      modifies this
      ensures Contents() == OpenStep(old(Contents()), account, trial)
    {
      if account !in balance {
        balance := balance[account := trial];
      }
    }

    method FindRow(key: Key) returns (found: bool, row: Row)
      ensures found == HasKey(rows, key)
      ensures found ==> row == RowOf(rows, key)
    {
      found, row := false, Row(0, 0, 0, "", key);
      for i := 0 to |rows|
        invariant forall j :: 0 <= j < i ==> rows[j].key != key
        invariant HasKey(rows, key) ==> HasKey(rows[i..], key) && RowOf(rows, key) == RowOf(rows[i..], key)
      {
        if rows[i].key == key {
          return true, rows[i];
        }
        assert rows[i..][1..] == rows[i + 1..];
      }
    }

    method ChargeAccount(account: nat, action: Action, units: int, key: Key) returns (out: ChargeOutcome)
      modifies this
      ensures (Contents(), out) == ChargeStep(old(Contents()), account, action, units, key)
    {
      var amount := CostOf(action) * (if units > 0 then units else 0);
      if account !in balance {
        return UnknownPayer;
      }
      if amount == 0 {
        return Charged(0, balance[account], false);
      }
      var found, row := FindRow(key);
      if found {
        return Charged(-row.delta, row.balanceAfter, true);
      }
      if balance[account] < amount {
        return Insufficient(balance[account], amount);
      }
      balance := balance[account := balance[account] - amount];
      rows := rows + [Row(account, -amount, balance[account], Label(action), key)];
      out := Charged(amount, balance[account], false);
    }

    /** refund, and topup under another reason. */
    method RefundAccount(account: nat, amount: int, reason: string, key: Key) returns (out: RefundOutcome)
      modifies this
      ensures (Contents(), out) == RefundStep(old(Contents()), account, amount, reason, key)
    {
      if account !in balance {
        return UnknownPayee;
      }
      var found, _ := FindRow(key);
      if found {
        return Balance(balance[account]);
      }
      if balance[account] + amount < 0 {
        return BelowZero;
      }
      balance := balance[account := balance[account] + amount];
      rows := rows + [Row(account, amount, balance[account], reason, key)];
      out := Balance(balance[account]);
    }
  }
}
