/** Player accounts: what every operation does to the sum of all balances, over whole runs. */
module Economy {

  const MAX := 0x7FFF_FFFF_FFFF_FFFF
  const MIN := -0x8000_0000_0000_0000

  type Accounts = map<string, int>

  /** The sum of all balances, an arbitrary account first. */
  ghost function Sum(m: Accounts): int {
    if m == map[] then 0
    else
      var k :| k in m;
      m[k] + Sum(m - {k})
  }

  /** The sum may be taken in any order. */
  lemma {:induction false} SumRemove(m: Accounts, k: string)
    requires k in m
    ensures Sum(m) == m[k] + Sum(m - {k})
    decreases |m|
  {
    var j :| j in m && Sum(m) == m[j] + Sum(m - {j});
    if j != k {
      SumRemove(m - {j}, k);
      SumRemove(m - {k}, j);
      assert m - {j} - {k} == m - {k} - {j};
    }
  }

  function Balance(m: Accounts, id: string): int {
    if id in m then m[id] else 0
  }

  lemma SumUpdate(m: Accounts, k: string, v: int)
    ensures Sum(m[k := v]) == Sum(m) - Balance(m, k) + v
  {
    SumRemove(m[k := v], k);
    if k in m {
      SumRemove(m, k);
      assert m[k := v] - {k} == m - {k};
    } else {
      assert m[k := v] - {k} == m;
    }
  }

  // ----- The operations as functions of the accounts -----

  datatype Op =
    | Create(id: string, balance: int)
    | Delete(id: string)
    | Deposit(id: string, amount: int)
    | Withdraw(id: string, amount: int)
    | Transfer(from: string, to: string, amount: int)

  predicate Succeeds(m: Accounts, op: Op) {
    match op
    case Deposit(_, amount) => amount > 0
    case Withdraw(id, amount) => amount > 0 && id in m && m[id] >= amount
    case Transfer(from, _, amount) => amount > 0 && from in m && m[from] >= amount
    case _ => true
  }

  /** A failed operation changes nothing; a deposit creates a missing account. */
  function Apply(m: Accounts, op: Op): Accounts {
    if !Succeeds(m, op) then m
    else
      match op
      case Create(id, balance) => m[id := balance]
      case Delete(id) => m - {id}
      case Deposit(id, amount) => m[id := Balance(m, id) + amount]
      case Withdraw(id, amount) => m[id := m[id] - amount]
      case Transfer(from, to, amount) =>
        var rest := m[from := m[from] - amount];
        rest[to := Balance(rest, to) + amount]
  }

  class EconomyManager {
    var accounts: Accounts

    constructor ()
      ensures accounts == map[]
    {
      accounts := map[];
    }

    /** Overwrites an existing account. */
    method CreateAccount(playerId: string, initialBalance: int)
      modifies this
      ensures accounts == Apply(old(accounts), Op.Create(playerId, initialBalance))
      ensures accounts == old(accounts)[playerId := initialBalance]
    {
      accounts := accounts[playerId := initialBalance];
    }

    method DeleteAccount(playerId: string)
      modifies this
      ensures accounts == Apply(old(accounts), Op.Delete(playerId))
      ensures accounts == old(accounts) - {playerId}
    {
      accounts := accounts - {playerId};
    }

    method Deposit(playerId: string, amount: int) returns (ok: bool)
      modifies this
      ensures ok == Succeeds(old(accounts), Op.Deposit(playerId, amount))
      ensures accounts == Apply(old(accounts), Op.Deposit(playerId, amount))
      ensures ok <==> amount > 0
      ensures !ok ==> accounts == old(accounts)
      ensures ok && playerId in old(accounts) ==> accounts == old(accounts)[playerId := old(accounts)[playerId] + amount]
      ensures ok && playerId !in old(accounts) ==> accounts == old(accounts)[playerId := amount]
    {
      if amount <= 0 {
        return false;
      }
      if playerId !in accounts {
        CreateAccount(playerId, amount);
      } else {
        accounts := accounts[playerId := accounts[playerId] + amount];
      }
      return true;
    }

    method Withdraw(playerId: string, amount: int) returns (ok: bool)
      modifies this
      ensures ok == Succeeds(old(accounts), Op.Withdraw(playerId, amount))
      ensures accounts == Apply(old(accounts), Op.Withdraw(playerId, amount))
      ensures ok <==> amount > 0 && playerId in old(accounts) && amount <= old(accounts)[playerId]
      ensures !ok ==> accounts == old(accounts)
      ensures ok ==> accounts == old(accounts)[playerId := old(accounts)[playerId] - amount]
    {
      if amount <= 0 {
        return false;
      }
      if playerId !in accounts || accounts[playerId] < amount {
        return false;
      }
      accounts := accounts[playerId := accounts[playerId] - amount];
      return true;
    }

    method Transfer(fromId: string, toId: string, amount: int) returns (ok: bool)
      modifies this
      ensures ok == Succeeds(old(accounts), Op.Transfer(fromId, toId, amount))
      ensures accounts == Apply(old(accounts), Op.Transfer(fromId, toId, amount))
      ensures ok <==> amount > 0 && fromId in old(accounts) && amount <= old(accounts)[fromId]
      ensures !ok || fromId == toId ==> accounts == old(accounts)
      ensures ok && fromId != toId ==>
        accounts == old(accounts)[fromId := old(accounts)[fromId] - amount][toId := Balance(old(accounts), toId) + amount]
    {
      ok := Withdraw(fromId, amount);
      if ok {
        var deposited := Deposit(toId, amount);
      }
    }
  }

  // ----- Conservation -----

  /** What an operation adds to the money in the system: only creation, deletion, deposits and
      withdrawals move money across its border. */
  function Flow(m: Accounts, op: Op): int {
    if !Succeeds(m, op) then 0
    else
      match op
      case Create(id, balance) => balance - Balance(m, id)
      case Delete(id) => -Balance(m, id)
      case Deposit(_, amount) => amount
      case Withdraw(_, amount) => -amount
      case Transfer(_, _, _) => 0
  }

  lemma StepConserves(m: Accounts, op: Op)
    ensures Sum(Apply(m, op)) == Sum(m) + Flow(m, op)
  {
    if Succeeds(m, op) {
      match op
      case Create(id, balance) => SumUpdate(m, id, balance);
      case Delete(id) =>
        if id in m {
          SumRemove(m, id);
        } else {
          assert m - {id} == m;
        }
      case Deposit(id, amount) => SumUpdate(m, id, Balance(m, id) + amount);
      case Withdraw(id, amount) => SumUpdate(m, id, m[id] - amount);
      case Transfer(from, to, amount) =>
        var rest := m[from := m[from] - amount];
        SumUpdate(m, from, m[from] - amount);
        SumUpdate(rest, to, Balance(rest, to) + amount);
    }
  }

  /** A transfer keeps the sum, whether it succeeds or not, to oneself and to a missing account too. */
  lemma TransferConserves(m: Accounts, from: string, to: string, amount: int)
    ensures Sum(Apply(m, Transfer(from, to, amount))) == Sum(m)
    ensures !Succeeds(m, Transfer(from, to, amount)) || from == to ==> Apply(m, Transfer(from, to, amount)) == m
    ensures Succeeds(m, Transfer(from, to, amount)) && from != to ==>
              var after := Apply(m, Transfer(from, to, amount));
              && after.Keys == m.Keys + {to}
              && after[from] == m[from] - amount && after[to] == Balance(m, to) + amount
              && forall id :: id in m && id != from && id != to ==> after[id] == m[id]
  {
    StepConserves(m, Transfer(from, to, amount));
    if Succeeds(m, Transfer(from, to, amount)) && from == to {
      assert Apply(m, Transfer(from, to, amount)) == m;
    }
  }

  function Run(m: Accounts, ops: seq<Op>): Accounts
    decreases |ops|
  {
    if ops == [] then m else Run(Apply(m, ops[0]), ops[1..])
  }

  function TotalFlow(m: Accounts, ops: seq<Op>): int
    decreases |ops|
  {
    if ops == [] then 0 else Flow(m, ops[0]) + TotalFlow(Apply(m, ops[0]), ops[1..])
  }

  /** After any run the sum is the initial one plus what crossed the border. */
  lemma {:induction false} RunConserves(m: Accounts, ops: seq<Op>)
    ensures Sum(Run(m, ops)) == Sum(m) + TotalFlow(m, ops)
    decreases |ops|
  {
    if ops != [] {
      StepConserves(m, ops[0]);
      RunConserves(Apply(m, ops[0]), ops[1..]);
    }
  }

  predicate NonNegative(m: Accounts) {
    forall id :: id in m ==> m[id] >= 0
  }

  lemma {:induction false} RunStaysNonNegative(m: Accounts, ops: seq<Op>)
    requires NonNegative(m)
    requires forall i :: 0 <= i < |ops| && ops[i].Create? ==> ops[i].balance >= 0
    ensures NonNegative(Run(m, ops))
    decreases |ops|
  {
    if ops != [] {
      assert NonNegative(Apply(m, ops[0]));
      RunStaysNonNegative(Apply(m, ops[0]), ops[1..]);
    }
  }

  // ----- 64-bit balances -----

  predicate Fits(m: Accounts) {
    forall id :: id in m ==> MIN <= m[id] <= MAX
  }

  lemma {:induction false} BalanceBelowSum(m: Accounts, id: string)
    requires NonNegative(m)
    ensures Balance(m, id) <= Sum(m) && Sum(m) >= 0
    decreases |m|
  {
    if m != map[] {
      var k :| k in m && (id in m ==> k == id);
      SumRemove(m, k);
      BalanceBelowSum(m - {k}, id);
    }
  }

  /** With non-negative balances whose sum fits 64 bits, neither step of a transfer can overflow. */
  lemma TransferCannotOverflow(m: Accounts, from: string, to: string, amount: int)
    requires NonNegative(m) && Sum(m) <= MAX
    ensures var after := Apply(m, Transfer(from, to, amount)); NonNegative(after) && Fits(after)
    ensures Succeeds(m, Withdraw(from, amount)) ==> Fits(Apply(m, Withdraw(from, amount)))
  {
    var after, mid := Apply(m, Transfer(from, to, amount)), Apply(m, Withdraw(from, amount));
    StepConserves(m, Transfer(from, to, amount));
    StepConserves(m, Withdraw(from, amount));
    forall id | id in after ensures MIN <= after[id] <= MAX {
      BalanceBelowSum(after, id);
    }
    forall id | id in mid ensures MIN <= mid[id] <= MAX {
      BalanceBelowSum(mid, id);
    }
  }

  /** In general, whoever pays whom: withdrawing never leaves 64 bits, and the whole transfer does exactly if
      it succeeds, is not to oneself, and the recipient has less headroom than the amount. */
  lemma TransferOverflowsIff(m: Accounts, from: string, to: string, amount: int)
    requires Fits(m)
    ensures Fits(Apply(m, Withdraw(from, amount)))
    ensures !Fits(Apply(m, Transfer(from, to, amount)))
            <==> Succeeds(m, Transfer(from, to, amount)) && from != to && Balance(m, to) > MAX - amount
  {
    var after := Apply(m, Transfer(from, to, amount));
    if Succeeds(m, Transfer(from, to, amount)) {
      if from == to {
        assert after == m;
      } else {
        assert after[to] == Balance(m, to) + amount && to in after;
      }
    }
  }

}
