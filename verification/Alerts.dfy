/** The alerts module: bonds held in escrow while an alert waits for its conclusion, conclusions that
    return or burn the bond, and the pruning at the end of a block. */
module Alerts {
  import opened Wrappers
  import opened Varint
  import opened StakeMedian

  const UNCONCLUDED: uint64 := 0
  const CONCLUDED: uint64 := 1

  const POSITIVE: uint64 := 0
  const NEGATIVE: uint64 := 1

  datatype Alert = Alert(height: uint64, signer: string, pair: CurrencyPair)

  datatype AlertStatus = AlertStatus(conclusion: uint64, submissionHeight: uint64, submissionTimestamp: uint64,
                                     purgeHeight: uint64)

  datatype AlertWithStatus = AlertWithStatus(alert: Alert, status: AlertStatus)

  /** Alerts are stored under their height and the text of their pair. */
  datatype AlertKey = AlertKey(height: uint64, ticker: string)

  type Table = map<AlertKey, AlertWithStatus>

  datatype AlertError =
    | Disabled
    | TooOld
    | AlreadyExists
    | UnknownPair
    | InvalidAlert
    | NotFound
    | AlreadyConcluded
    | InvalidStatus
    | BankRefused

  function KeyOf(a: Alert): AlertKey {
    AlertKey(a.height, a.pair.base + "/" + a.pair.quote)
  }

  /** Addition and subtraction of uint64 values. */
  function Wrap(x: int): uint64 {
    x % TWO_64
  }

  // ---------------------------------------------------------------- the bank

  /** The balances in the bond's denomination: the accounts, the module's escrow, and what was burned. */
  datatype Bank = Bank(accounts: map<Address, nat>, escrow: nat, burned: nat) {
    function Balance(a: Address): nat {
      if a in accounts then accounts[a] else 0
    }
  }

  function Deposited(b: Bank, from: Address, amount: nat): Option<Bank> {
    if b.Balance(from) < amount then None
    else Some(b.(accounts := b.accounts[from := b.Balance(from) - amount], escrow := b.escrow + amount))
  }

  /** The bank refuses to pay out to a blocked address. */
  function Returned(blocked: set<Address>, b: Bank, to: Address, amount: nat): Option<Bank> {
    if to in blocked || b.escrow < amount then None
    else Some(b.(accounts := b.accounts[to := b.Balance(to) + amount], escrow := b.escrow - amount))
  }

  function Burnt(b: Bank, amount: nat): Option<Bank> {
    if b.escrow < amount then None
    else Some(b.(escrow := b.escrow - amount, burned := b.burned + amount))
  }

  class BankKeeper {
    var accounts: map<Address, nat>
    var escrow: nat
    var burned: nat
    const blocked: set<Address>

    constructor (accounts: map<Address, nat>, blocked: set<Address>)
      ensures Book() == Bank(accounts, 0, 0) && this.blocked == blocked
    {
      this.accounts, escrow, burned, this.blocked := accounts, 0, 0, blocked;
    }

    function Book(): Bank
      reads this
    {
      Bank(accounts, escrow, burned)
    }

    method SendCoinsFromAccountToModule(from: Address, amount: nat) returns (ok: bool)
      modifies this
      ensures ok == Deposited(old(Book()), from, amount).Some?
      ensures Book() == if ok then Deposited(old(Book()), from, amount).value else old(Book())
    {
      var balance := if from in accounts then accounts[from] else 0;
      if balance < amount {
        return false;
      }
      accounts := accounts[from := balance - amount];
      escrow := escrow + amount;
      return true;
    }

    method SendCoinsFromModuleToAccount(to: Address, amount: nat) returns (ok: bool)
      modifies this
      ensures ok == Returned(blocked, old(Book()), to, amount).Some?
      ensures Book() == if ok then Returned(blocked, old(Book()), to, amount).value else old(Book())
    {
      if to in blocked || escrow < amount {
        return false;
      }
      escrow := escrow - amount;
      accounts := accounts[to := (if to in accounts then accounts[to] else 0) + amount];
      return true;
    }

    method BurnCoins(amount: nat) returns (ok: bool)
      modifies this
      ensures ok == Burnt(old(Book()), amount).Some?
      ensures Book() == if ok then Burnt(old(Book()), amount).value else old(Book())
    {
      if escrow < amount {
        return false;
      }
      escrow, burned := escrow - amount, burned + amount;
      return true;
    }
  }

  // ---------------------------------------------------------------- specification

  datatype Params = Params(alertsEnabled: bool, bond: nat, maxBlockAge: uint64, pruningEnabled: bool,
                           blocksToPrune: uint64)

  /** The parameters and the parts of the chain the module relies on: address decoding, the format rules
      of a pair, and the addresses the bank does not pay. */
  datatype Chain = Chain(params: Params, decode: string -> Option<Address>, validPair: CurrencyPair -> bool,
                         blocked: set<Address>)

  datatype State = State(alerts: Table, bank: Bank)

  predicate ValidAlert(c: Chain, a: Alert) {
    c.validPair(a.pair) && c.decode(a.signer).Some?
  }

  function Submitted(c: Chain, s: State, a: Alert, height: uint64, timestamp: uint64, hasPair: bool)
    : Result<State, AlertError>
  {
    if !ValidAlert(c, a) then Err(InvalidAlert)
    else if !c.params.alertsEnabled then Err(Disabled)
    else if Wrap(height - a.height) > c.params.maxBlockAge then Err(TooOld)
    else if KeyOf(a) in s.alerts then Err(AlreadyExists)
    else if !hasPair then Err(UnknownPair)
    else match Deposited(s.bank, c.decode(a.signer).value, c.params.bond)
      case None => Err(BankRefused)
      case Some(bank) =>
        var status := AlertStatus(UNCONCLUDED, height, timestamp, Wrap(height + c.params.blocksToPrune));
        Ok(State(s.alerts[KeyOf(a) := AlertWithStatus(a, status)], bank))
  }

  /** The bond goes to the signer of the stored alert, whoever names it, or is burned. */
  function Settled(c: Chain, b: Bank, signer: string, verdict: uint64): Result<Bank, AlertError> {
    if verdict == POSITIVE then
      if c.decode(signer).None? then Err(InvalidAlert)
      else match Returned(c.blocked, b, c.decode(signer).value, c.params.bond)
        case None => Err(BankRefused)
        case Some(bank) => Ok(bank)
    else if verdict == NEGATIVE then
      match Burnt(b, c.params.bond)
      case None => Err(BankRefused)
      case Some(bank) => Ok(bank)
    else Err(InvalidStatus)
  }

  function Closed(c: Chain, a: AlertWithStatus): AlertWithStatus {
    a.(status := a.status.(conclusion := CONCLUDED, purgeHeight := Wrap(a.alert.height + c.params.maxBlockAge)))
  }

  function Concluded(c: Chain, s: State, a: Alert, verdict: uint64): Result<State, AlertError> {
    if !ValidAlert(c, a) then Err(InvalidAlert)
    else if KeyOf(a) !in s.alerts then Err(NotFound)
    else
      var stored := s.alerts[KeyOf(a)];
      if stored.status.conclusion != UNCONCLUDED then Err(AlreadyConcluded)
      else match Settled(c, s.bank, stored.alert.signer, verdict)
        case Err(error) => Err(error)
        case Ok(bank) => Ok(State(s.alerts[KeyOf(stored.alert) := Closed(c, stored)], bank))
  }

  /** The pruning loop over the rest of its snapshot: it stops at the first alert it cannot conclude. */
  function Swept(c: Chain, s: State, rest: seq<AlertWithStatus>, height: uint64): (State, Option<AlertError>)
    decreases |rest|
  {
    if rest == [] then (s, None)
    else
      var a := rest[0];
      if a.status.purgeHeight > height then Swept(c, s, rest[1..], height)
      else if a.status.conclusion == CONCLUDED then
        Swept(c, s.(alerts := s.alerts - {KeyOf(a.alert)}), rest[1..], height)
      else match Concluded(c, s, a.alert, POSITIVE)
        case Err(error) => (s, Some(error))
        case Ok(settled) => Swept(c, settled.(alerts := settled.alerts - {KeyOf(a.alert)}), rest[1..], height)
  }

  /** A snapshot of the table: every stored alert once, in some order. */
  ghost predicate Snapshot(list: seq<AlertWithStatus>, alerts: Table) {
    && (forall i :: 0 <= i < |list| ==> KeyOf(list[i].alert) in alerts && alerts[KeyOf(list[i].alert)] == list[i])
    && (forall i, j :: 0 <= i < j < |list| ==> KeyOf(list[i].alert) != KeyOf(list[j].alert))
    && forall k | k in alerts :: alerts[k] in list
  }

  /** Every alert is stored under its own key. */
  ghost predicate Keyed(alerts: Table) {
    forall k | k in alerts :: KeyOf(alerts[k].alert) == k
  }

  // ---------------------------------------------------------------- the keeper

  class Keeper {
    var alerts: Table
    var params: Params
    const bank: BankKeeper
    const decode: string -> Option<Address>
    const validPair: CurrencyPair -> bool

    constructor (bank: BankKeeper, params: Params, decode: string -> Option<Address>, validPair: CurrencyPair -> bool)
      ensures View() == State(map[], bank.Book())
      ensures Env() == Chain(params, decode, validPair, bank.blocked) && this.bank == bank
    {
      this.bank, this.params, this.decode, this.validPair, alerts := bank, params, decode, validPair, map[];
    }

    function View(): State
      reads this, bank
    {
      State(alerts, bank.Book())
    }

    function Env(): Chain
      reads this
    {
      Chain(params, decode, validPair, bank.blocked)
    }

    /** The message handler that files an alert. */
    method Alert(a: Alert, height: uint64, timestamp: uint64, hasPair: bool) returns (r: Result<(), AlertError>)
      modifies this`alerts, bank
      ensures var want := Submitted(Env(), old(View()), a, height, timestamp, hasPair);
              && r.Ok? == want.Ok?
              && (r.Err? ==> r.error == want.error)
              && View() == if want.Ok? then want.value else old(View())
    {
      if !ValidAlert(Env(), a) {
        return Err(InvalidAlert);
      }
      if !params.alertsEnabled {
        return Err(Disabled);
      }
      var alertBlockAge := Wrap(height - a.height);
      if alertBlockAge > params.maxBlockAge {
        return Err(TooOld);
      }
      if KeyOf(a) in alerts {
        return Err(AlreadyExists);
      }
      if !hasPair {
        return Err(UnknownPair);
      }
      var escrowed := bank.SendCoinsFromAccountToModule(decode(a.signer).value, params.bond);
      if !escrowed {
        return Err(BankRefused);
      }
      var status := AlertStatus(UNCONCLUDED, height, timestamp, Wrap(height + params.blocksToPrune));
      alerts := alerts[KeyOf(a) := AlertWithStatus(a, status)];
      return Ok(());
    }

    method UnescrowBond(a: Alert) returns (r: Result<(), AlertError>)
      modifies bank
      ensures var want := Settled(Env(), old(bank.Book()), a.signer, POSITIVE);
              && r.Ok? == want.Ok?
              && (r.Err? ==> r.error == want.error)
              && bank.Book() == if want.Ok? then want.value else old(bank.Book())
    {
      var signer := decode(a.signer);
      if signer.None? {
        return Err(InvalidAlert);
      }
      var sent := bank.SendCoinsFromModuleToAccount(signer.value, params.bond);
      return if sent then Ok(()) else Err(BankRefused);
    }

    method ConcludeAlert(alertToConclude: Alert, verdict: uint64) returns (r: Result<(), AlertError>)
      modifies this`alerts, bank
      ensures var want := Concluded(Env(), old(View()), alertToConclude, verdict);
              && r.Ok? == want.Ok?
              && (r.Err? ==> r.error == want.error)
              && View() == if want.Ok? then want.value else old(View())
    {
      if !ValidAlert(Env(), alertToConclude) {
        return Err(InvalidAlert);
      }
      if KeyOf(alertToConclude) !in alerts {
        return Err(NotFound);
      }
      var alert := alerts[KeyOf(alertToConclude)];
      if alert.status.conclusion != UNCONCLUDED {
        return Err(AlreadyConcluded);
      }
      if verdict == POSITIVE {
        var unescrowed := UnescrowBond(alert.alert);
        if unescrowed.Err? {
          return unescrowed;
        }
      } else if verdict == NEGATIVE {
        var burnt := bank.BurnCoins(params.bond);
        if !burnt {
          return Err(BankRefused);
        }
      } else {
        return Err(InvalidStatus);
      }
      alert := alert.(status := alert.status.(conclusion := CONCLUDED));
      alert := alert.(status := alert.status.(purgeHeight := Wrap(alert.alert.height + params.maxBlockAge)));
      alerts := alerts[KeyOf(alert.alert) := alert];
      return Ok(());
    }

    method RemoveAlert(a: Alert)
      modifies this`alerts
      ensures alerts == old(alerts) - {KeyOf(a)}
    {
      alerts := alerts - {KeyOf(a)};
    }

    method GetAllAlerts() returns (list: seq<AlertWithStatus>)
      requires Keyed(alerts)
      ensures Snapshot(list, alerts)
    {
      list := [];
      var left := alerts.Keys;
      while left != {}
        invariant left <= alerts.Keys
        invariant Snapshot(list, alerts - left)
      {
        var k :| k in left;
        ghost var seen, shorter := alerts - left, list;
        left := left - {k};
        assert KeyOf(alerts[k].alert) == k;
        list := list + [alerts[k]];
        forall j | j in alerts - left
          ensures alerts[j] in list
        {
          if j == k {
            assert list[|shorter|] == alerts[k];
          } else {
            assert j in seen && seen[j] == alerts[j];
          }
        }
      }
      assert alerts - left == alerts;
    }

    /** At the end of a block. An error leaves the alerts handled before it settled. */
    method EndBlocker(height: uint64) returns (r: Result<(), AlertError>)
      requires Keyed(alerts)
      modifies this`alerts, bank
      ensures !params.pruningEnabled ==> r.Ok? && View() == old(View())
      ensures params.pruningEnabled ==> exists list ::
                && Snapshot(list, old(alerts))
                && var (after, error) := Swept(Env(), old(View()), list, height);
                   View() == after && (if error.None? then r.Ok? else r == Err(error.value))
    {
      if !params.pruningEnabled {
        return Ok(());
      }
      var list := GetAllAlerts();
      ghost var outcome := Swept(Env(), View(), list, height);
      for i := 0 to |list|
        invariant Swept(Env(), View(), list[i..], height) == outcome
      {
        var alert := list[i];
        assert list[i..][1..] == list[i + 1..];
        if alert.status.purgeHeight > height {
          continue;
        }
        if alert.status.conclusion != CONCLUDED {
          var concluded := ConcludeAlert(alert.alert, POSITIVE);
          if concluded.Err? {
            return concluded;
          }
        }
        RemoveAlert(alert.alert);
      }
      assert list[|list|..] == [];
      return Ok(());
    }
  }
}
