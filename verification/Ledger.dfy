/** Invoices, balances and admission: the stored functions, the repositories' upserts, and their runs. */
module Ledger {
  import opened Wrappers

  datatype Unit = Msats | Sats | Btc

  datatype Status = Pending | Completed | Expired

  datatype User = User(balance: int, isAdmitted: bool)

  /** A row of the invoices table; the unit column is nullable. */
  datatype Invoice = Invoice(
    id: string, pubkey: string, unit: Option<Unit>, status: Status, amountRequested: int,
    amountPaid: Option<int>, confirmedAt: Option<int>)

  datatype Tables = Tables(users: map<string, User>, invoices: seq<Invoice>)

  const EMPTY := Tables(map[], [])

  // ----- amounts -----

  /** An amount in millisatoshis; the stored function credits nothing for a missing unit. */
  function ToMsats(amount: int, unit: Option<Unit>): int {
    match unit
    case Some(Sats) => amount * 1000
    case Some(Msats) => amount
    case Some(Btc) => amount * 100000000 * 1000
    case None => 0
  }

  /** What a row has added to its user's balance. */
  function CreditOf(i: Invoice): int {
    if i.confirmedAt.Some? && i.amountPaid.Some? then ToMsats(i.amountPaid.value, i.unit) else 0
  }

  function Credits(invoices: seq<Invoice>, pubkey: string): int {
    if invoices == [] then 0
    else (if invoices[0].pubkey == pubkey then CreditOf(invoices[0]) else 0) + Credits(invoices[1..], pubkey)
  }

  function BalanceOf(t: Tables, pubkey: string): int {
    if pubkey in t.users then t.users[pubkey].balance else 0
  }

  // ----- statements -----

  predicate HasInvoice(invoices: seq<Invoice>, id: string) {
    exists i | 0 <= i < |invoices| :: invoices[i].id == id
  }

  function IndexOf(invoices: seq<Invoice>, id: string): (k: nat)
    requires HasInvoice(invoices, id)
    ensures k < |invoices| && invoices[k].id == id
  {
    if invoices[0].id == id then 0
    else
      var i :| 0 <= i < |invoices| && invoices[i].id == id;
      assert invoices[1..][i - 1].id == id;
      IndexOf(invoices[1..], id) + 1
  }

  /** UserRepository.upsert: an absent admission flag is left alone, and the balance always is. */
  function UpsertUser(t: Tables, pubkey: string, isAdmitted: Option<bool>): Tables {
    var flag := if isAdmitted.Some? then isAdmitted.value else pubkey in t.users && t.users[pubkey].isAdmitted;
    t.(users := t.users[pubkey := User(BalanceOf(t, pubkey), flag)])
  }

  /** InvoiceRepository.upsert: a conflict changes the status only; payment columns are never written. */
  function UpsertInvoice(t: Tables, i: Invoice): Tables {
    if HasInvoice(t.invoices, i.id) then SetStatus(t, i.id, i.status)
    else t.(invoices := t.invoices + [i.(amountPaid := None, confirmedAt := None)])
  }

  /** InvoiceRepository.updateStatus */
  function SetStatus(t: Tables, id: string, status: Status): Tables {
    if HasInvoice(t.invoices, id) then
      var k := IndexOf(t.invoices, id);
      t.(invoices := t.invoices[k := t.invoices[k].(status := status)])
    else t
  }

  /** confirm_invoice: confirm and credit, unless the invoice is already confirmed. */
  function ConfirmStored(t: Tables, id: string, amount: int, date: int): Tables {
    if !HasInvoice(t.invoices, id) then t
    else
      var k := IndexOf(t.invoices, id);
      var i := t.invoices[k];
      if i.confirmedAt.Some? then t
      else
        var invoices := t.invoices[k := i.(confirmedAt := Some(date), amountPaid := Some(amount))];
        var users := if i.pubkey in t.users
          then t.users[i.pubkey := t.users[i.pubkey].(balance := t.users[i.pubkey].balance + ToMsats(amount, i.unit))]
          else t.users;
        Tables(users, invoices)
  }

  predicate Chargeable(t: Tables, pubkey: string, amount: int) {
    pubkey in t.users && t.users[pubkey].balance - amount >= 0
  }

  /** charge_user: a missing user has a NULL balance, which is not chargeable. */
  function Charge(t: Tables, pubkey: string, amount: int): (Tables, nat) {
    if Chargeable(t, pubkey, amount)
    then (t.(users := t.users[pubkey := t.users[pubkey].(balance := t.users[pubkey].balance - amount)]), 1)
    else (t, 0)
  }

  // ----- transactions and runs -----

  /** The transactions the relay runs; `threshold` is the admission fee that applies to the payer. */
  datatype Step =
    | CreateInvoice(invoice: Invoice)
    | ConfirmInvoice(invoice: Invoice, threshold: int)
    | UpdateStatus(id: string, status: Status)
    | ChargeUser(pubkey: string, amount: int)

  /** What confirmInvoice demands of the invoice it is handed. */
  predicate Confirmable(i: Invoice) {
    i.confirmedAt.Some? && i.status == Completed && i.amountPaid.Some?
  }

  /** The service scales by the unit it is handed; anything but sats and btc counts as millisatoshis. */
  function PaidMsats(amount: int, unit: Option<Unit>): int {
    if unit == Some(Sats) then amount * 1000
    else if unit == Some(Btc) then amount * (1000 * 100000000)
    else amount
  }

  predicate Admits(amount: int, unit: Option<Unit>, threshold: int) {
    threshold > 0 && PaidMsats(amount, unit) >= threshold
  }

  function Next(t: Tables, step: Step): Tables {
    match step
    case CreateInvoice(i) => UpsertInvoice(UpsertUser(t, i.pubkey, None), i)
    case ConfirmInvoice(i, threshold) =>
      if !Confirmable(i) then t
      else
        var u := ConfirmStored(t, i.id, i.amountPaid.value, i.confirmedAt.value);
        if Admits(i.amountPaid.value, i.unit, threshold) then UpsertUser(u, i.pubkey, Some(true)) else u
    case UpdateStatus(id, status) => SetStatus(t, id, status)
    case ChargeUser(pubkey, amount) => Charge(t, pubkey, amount).0
  }

  function Run(steps: seq<Step>): Tables {
    if steps == [] then EMPTY else Next(Run(steps[..|steps| - 1]), steps[|steps| - 1])
  }

  /** The charge a step grants to a user. */
  function GrantedBy(t: Tables, step: Step, pubkey: string): int {
    if step.ChargeUser? && step.pubkey == pubkey && Chargeable(t, pubkey, step.amount) then step.amount else 0
  }

  /** The charges granted to a user over a run. */
  function Charged(steps: seq<Step>, pubkey: string): int {
    if steps == [] then 0
    else
      var before, last := steps[..|steps| - 1], steps[|steps| - 1];
      Charged(before, pubkey) + GrantedBy(Run(before), last, pubkey)
  }

  // ----- invariant -----

  ghost predicate Inv(t: Tables) {
    && (forall i, j | 0 <= i < j < |t.invoices| :: t.invoices[i].id != t.invoices[j].id)
    && (forall i | 0 <= i < |t.invoices| :: t.invoices[i].pubkey in t.users)
    && (forall i | 0 <= i < |t.invoices| :: t.invoices[i].confirmedAt.Some? ==> t.invoices[i].amountPaid.Some?)
  }

  lemma {:induction false} CreditsAppend(a: seq<Invoice>, i: Invoice, pubkey: string)
    ensures Credits(a + [i], pubkey) == Credits(a, pubkey) + if i.pubkey == pubkey then CreditOf(i) else 0
  {
    hide CreditOf;
    if a == [] {
      assert a + [i] == [i] && [i][1..] == [];
    } else {
      assert (a + [i])[1..] == a[1..] + [i];
      CreditsAppend(a[1..], i, pubkey);
    }
  }

  lemma {:induction false} CreditsUpdate(a: seq<Invoice>, k: nat, i: Invoice, pubkey: string)
    requires k < |a| && a[k].pubkey == i.pubkey
    ensures Credits(a[k := i], pubkey) ==
            Credits(a, pubkey) + if i.pubkey == pubkey then CreditOf(i) - CreditOf(a[k]) else 0
  {
    hide CreditOf;
    if k == 0 {
      assert a[k := i][1..] == a[1..];
    } else {
      assert a[k := i][1..] == a[1..][k - 1 := i];
      CreditsUpdate(a[1..], k - 1, i, pubkey);
    }
  }

  /** How each statement moves a user's balance and credits; `charge` is what it granted. */
  ghost predicate Balanced(t: Tables, u: Tables, pubkey: string, charge: int) {
    BalanceOf(u, pubkey) - BalanceOf(t, pubkey) == Credits(u.invoices, pubkey) - Credits(t.invoices, pubkey) - charge
  }

  lemma UpsertUserBalanced(t: Tables, who: string, isAdmitted: Option<bool>, pubkey: string)
    requires Inv(t)
    ensures Inv(UpsertUser(t, who, isAdmitted)) && Balanced(t, UpsertUser(t, who, isAdmitted), pubkey, 0)
  {
  }

  lemma SetStatusBalanced(t: Tables, id: string, status: Status, pubkey: string)
    requires Inv(t)
    ensures Inv(SetStatus(t, id, status)) && Balanced(t, SetStatus(t, id, status), pubkey, 0)
  {
    hide ToMsats;
    if HasInvoice(t.invoices, id) {
      var k := IndexOf(t.invoices, id);
      CreditsUpdate(t.invoices, k, t.invoices[k].(status := status), pubkey);
    }
  }

  lemma UpsertInvoiceBalanced(t: Tables, i: Invoice, pubkey: string)
    requires Inv(t) && i.pubkey in t.users
    ensures Inv(UpsertInvoice(t, i)) && Balanced(t, UpsertInvoice(t, i), pubkey, 0)
  {
    hide ToMsats;
    if HasInvoice(t.invoices, i.id) {
      SetStatusBalanced(t, i.id, i.status, pubkey);
    } else {
      CreditsAppend(t.invoices, i.(amountPaid := None, confirmedAt := None), pubkey);
    }
  }

  lemma ConfirmStoredBalanced(t: Tables, id: string, amount: int, date: int, pubkey: string)
    requires Inv(t)
    ensures Inv(ConfirmStored(t, id, amount, date)) && Balanced(t, ConfirmStored(t, id, amount, date), pubkey, 0)
  {
    hide ToMsats;
    if HasInvoice(t.invoices, id) {
      var k := IndexOf(t.invoices, id);
      CreditsUpdate(t.invoices, k, t.invoices[k].(confirmedAt := Some(date), amountPaid := Some(amount)), pubkey);
    }
  }

  lemma StepBalanced(t: Tables, step: Step, pubkey: string)
    requires Inv(t)
    ensures Inv(Next(t, step)) && Balanced(t, Next(t, step), pubkey, GrantedBy(t, step, pubkey))
  {
    hide ToMsats, Credits, ConfirmStored, SetStatus, HasInvoice, PaidMsats;
    match step {
      case CreateInvoice(i) =>
        UpsertUserBalanced(t, i.pubkey, None, pubkey);
        UpsertInvoiceBalanced(UpsertUser(t, i.pubkey, None), i, pubkey);
      case ConfirmInvoice(i, threshold) =>
        if Confirmable(i) {
          var u := ConfirmStored(t, i.id, i.amountPaid.value, i.confirmedAt.value);
          ConfirmStoredBalanced(t, i.id, i.amountPaid.value, i.confirmedAt.value, pubkey);
          UpsertUserBalanced(u, i.pubkey, Some(true), pubkey);
        }
      case UpdateStatus(id, status) => SetStatusBalanced(t, id, status, pubkey);
      case ChargeUser(_, _) =>
    }
  }

  lemma {:induction false} BalanceIsCredits(steps: seq<Step>, pubkey: string)
    ensures Inv(Run(steps))
    ensures BalanceOf(Run(steps), pubkey) == Credits(Run(steps).invoices, pubkey) - Charged(steps, pubkey)
  {
    hide Inv, Next, Credits;
    if steps == [] {
      EmptyBalanced(pubkey);
    } else {
      var before := steps[..|steps| - 1];
      BalanceIsCredits(before, pubkey);
      StepBalanced(Run(before), steps[|steps| - 1], pubkey);
    }
  }

  /** The plain sum of what a payer's confirmed invoices of one unit paid, in that unit. */
  function Paid(invoices: seq<Invoice>, pubkey: string, unit: Unit): int {
    if invoices == [] then 0
    else
      var i := invoices[0];
      (if i.pubkey == pubkey && i.unit == Some(unit) && i.confirmedAt.Some? && i.amountPaid.Some?
       then i.amountPaid.value else 0)
      + Paid(invoices[1..], pubkey, unit)
  }

  lemma {:induction false} CreditsByUnit(invoices: seq<Invoice>, pubkey: string)
    ensures Credits(invoices, pubkey) ==
            1000 * Paid(invoices, pubkey, Sats) + Paid(invoices, pubkey, Msats)
            + 100000000000 * Paid(invoices, pubkey, Btc)
  {
    if invoices != [] {
      CreditsByUnit(invoices[1..], pubkey);
    }
  }

  /**
   In every reachable state a user's balance in millisatoshis is 1000 times what the user's confirmed invoices
   in sats paid, plus what those in msats paid, plus 100000000000 times what those in btc paid, minus the
   charges granted to the user.
   */
  lemma LedgerConserves(steps: seq<Step>, pubkey: string)
    ensures
      var paid := Run(steps).invoices;
      BalanceOf(Run(steps), pubkey) ==
      1000 * Paid(paid, pubkey, Sats) + Paid(paid, pubkey, Msats) + 100000000000 * Paid(paid, pubkey, Btc)
      - Charged(steps, pubkey)
  {
    hide Run, Paid, Credits, Charged;
    BalanceIsCredits(steps, pubkey);
    CreditsByUnit(Run(steps).invoices, pubkey);
  }

  /** Crediting and admission scale a paid amount alike, by 1000, 1 and 100000000000. */
  lemma ScalesAlike(amount: int, unit: Unit)
    ensures ToMsats(amount, Some(unit)) == PaidMsats(amount, Some(unit))
    ensures PaidMsats(amount, Some(unit)) ==
            match unit { case Sats => 1000 * amount case Msats => amount case Btc => 100000000000 * amount }
  {
  }

  /** A payment admits exactly when the threshold is positive and the scaled amount reaches it. */
  lemma AdmitsExactly(amount: int, unit: Unit, threshold: int)
    ensures Admits(amount, Some(unit), threshold)
            <==> threshold > 0
                 && threshold <= amount * (match unit { case Sats => 1000 case Msats => 1 case Btc => 100000000000 })
    ensures Admits(amount, None, threshold) <==> threshold > 0 && threshold <= amount
  {
  }

  lemma EmptyBalanced(pubkey: string)
    ensures Inv(EMPTY) && Credits(EMPTY.invoices, pubkey) == 0
  {
  }

  // ----- single crediting -----

  /** Step n is a confirmation that finds its invoice unconfirmed, and credits it. */
  predicate CreditsInvoice(steps: seq<Step>, n: nat, id: string) {
    && n < |steps| && steps[n].ConfirmInvoice? && steps[n].invoice.id == id && Confirmable(steps[n].invoice)
    && Unconfirmed(Run(steps[..n]), id)
  }

  predicate Unconfirmed(t: Tables, id: string) {
    HasInvoice(t.invoices, id) && t.invoices[IndexOf(t.invoices, id)].confirmedAt.None?
  }

  predicate ConfirmedAs(t: Tables, i: Invoice) {
    i.confirmedAt.Some? && exists k | 0 <= k < |t.invoices| :: t.invoices[k].(status := i.status) == i
  }

  lemma RunStep(steps: seq<Step>, n: nat)
    requires n < |steps|
    ensures Run(steps[..n + 1]) == Next(Run(steps[..n]), steps[n])
  {
    assert steps[..n + 1][..n] == steps[..n];
  }

  /** A confirmed row keeps its payer, unit, amount and date through every step; only its status moves. */
  lemma ConfirmedStays(t: Tables, step: Step, i: Invoice)
    requires ConfirmedAs(t, i)
    ensures ConfirmedAs(Next(t, step), i)
  {
    hide ToMsats, HasInvoice, PaidMsats;
    var k :| 0 <= k < |t.invoices| && t.invoices[k].(status := i.status) == i;
    var after := Next(t, step).invoices;
    assert |t.invoices| <= |after| && after[k].(status := i.status) == i;
  }

  lemma {:induction false} ConfirmedStaysInRun(steps: seq<Step>, n: nat, m: nat, i: Invoice)
    requires n <= m <= |steps| && ConfirmedAs(Run(steps[..n]), i)
    ensures ConfirmedAs(Run(steps[..m]), i)
  {
    hide ConfirmedAs, Next;
    if n < m {
      ConfirmedStaysInRun(steps, n, m - 1, i);
      RunStep(steps, m - 1);
      ConfirmedStays(Run(steps[..m - 1]), steps[m - 1], i);
    }
  }

  lemma ConfirmedIsNotUnconfirmed(t: Tables, i: Invoice)
    requires Inv(t) && ConfirmedAs(t, i)
    ensures !Unconfirmed(t, i.id)
  {
    var k :| 0 <= k < |t.invoices| && t.invoices[k].(status := i.status) == i;
    assert t.invoices[k].id == i.id;
    assert k == IndexOf(t.invoices, i.id);
  }

  /** A confirmation that credits leaves its invoice confirmed. */
  lemma CreditingConfirms(steps: seq<Step>, n: nat, id: string) returns (i: Invoice)
    requires CreditsInvoice(steps, n, id)
    ensures ConfirmedAs(Run(steps[..n + 1]), i) && i.id == id
    ensures i.amountPaid == steps[n].invoice.amountPaid && i.confirmedAt == steps[n].invoice.confirmedAt
  {
    hide ToMsats, PaidMsats;
    RunStep(steps, n);
    var t, x := Run(steps[..n]), steps[n].invoice;
    var k := IndexOf(t.invoices, id);
    i := t.invoices[k].(confirmedAt := x.confirmedAt, amountPaid := x.amountPaid);
    assert Run(steps[..n + 1]).invoices[k] == i;
    assert Run(steps[..n + 1]).invoices[k].(status := i.status) == i;
  }

  /** However often and in whatever order an invoice is confirmed, it is credited at most once. */
  lemma CreditedAtMostOnce(steps: seq<Step>, n: nat, m: nat, id: string)
    requires n < m && CreditsInvoice(steps, n, id)
    ensures !CreditsInvoice(steps, m, id)
  {
    hide Next, ConfirmedAs, Unconfirmed, Inv;
    if m < |steps| {
      var i := CreditingConfirms(steps, n, id);
      ConfirmedStaysInRun(steps, n + 1, m, i);
      BalanceIsCredits(steps[..m], "");
      ConfirmedIsNotUnconfirmed(Run(steps[..m]), i);
    }
  }

  // ----- charges -----

  /** A charge is granted exactly to a user whose balance covers it, and then takes the amount and nothing else. */
  lemma ChargeStaysNonNegative(t: Tables, pubkey: string, amount: int)
    ensures
      var (u, granted) := Charge(t, pubkey, amount);
      && (granted == 1 <==> pubkey in t.users && amount <= t.users[pubkey].balance)
      && (granted == 1 ==>
            && BalanceOf(u, pubkey) == BalanceOf(t, pubkey) - amount >= 0
            && pubkey in u.users && u.users[pubkey].isAdmitted == t.users[pubkey].isAdmitted)
      && (granted != 1 ==> granted == 0 && u == t)
      && u.invoices == t.invoices && u.users.Keys == t.users.Keys
      && (forall k | k != pubkey && k in t.users :: k in u.users && u.users[k] == t.users[k])
  {
  }

  // ----- what the other statements keep -----

  /** Updating a status sets it for that invoice and touches nothing else. */
  lemma StatusIsSet(t: Tables, id: string, status: Status)
    ensures
      var u := SetStatus(t, id, status);
      && u.users == t.users && |u.invoices| == |t.invoices|
      && (HasInvoice(t.invoices, id) ==> exists k | 0 <= k < |u.invoices| ::
            u.invoices[k] == t.invoices[k].(status := status) && t.invoices[k].id == id)
      && forall k | 0 <= k < |t.invoices| && t.invoices[k].id != id :: u.invoices[k] == t.invoices[k]
  {
    if HasInvoice(t.invoices, id) {
      var k := IndexOf(t.invoices, id);
      assert SetStatus(t, id, status).invoices[k] == t.invoices[k].(status := status);
    }
  }

  /**
   Creating an invoice keeps every user's balance and admission, makes sure its payer has a row, not admitted
   and empty when it is new, and leaves the invoice stored with its payer and unit, or with its status only
   changed when it was there.
   */
  lemma CreatingKeepsUsers(t: Tables, i: Invoice)
    ensures
      var u := Next(t, CreateInvoice(i));
      && i.pubkey in u.users
      && (forall k | k in t.users :: k in u.users && u.users[k] == t.users[k])
      && (i.pubkey !in t.users ==> u.users[i.pubkey] == User(0, false))
      && (forall k | k in u.users :: k in t.users || k == i.pubkey)
      && (if HasInvoice(t.invoices, i.id) then u.invoices == SetStatus(t, i.id, i.status).invoices
          else u.invoices == t.invoices + [i.(amountPaid := None, confirmedAt := None)])
  {
  }

  /** Confirming admits the payer exactly when the payment does, and never takes an admission away. */
  lemma ConfirmingAdmits(t: Tables, i: Invoice, threshold: int, pubkey: string)
    requires Confirmable(i)
    ensures
      var u := Next(t, ConfirmInvoice(i, threshold));
      (pubkey in u.users && u.users[pubkey].isAdmitted)
      <==> (pubkey in t.users && t.users[pubkey].isAdmitted)
           || (pubkey == i.pubkey && Admits(i.amountPaid.value, i.unit, threshold))
  {
    hide PaidMsats, ToMsats, HasInvoice;
  }

  // ----- balances stay non-negative -----

  lemma StepNonNegative(t: Tables, step: Step, pubkey: string)
    requires BalanceOf(t, pubkey) >= 0
    requires step.ConfirmInvoice? && Confirmable(step.invoice) ==> step.invoice.amountPaid.value >= 0
    ensures BalanceOf(Next(t, step), pubkey) >= 0
  {
    hide PaidMsats, HasInvoice;
  }

  /** If no payment is negative, no balance ever is, whatever charges are attempted. */
  lemma {:induction false} BalancesStayNonNegative(steps: seq<Step>, pubkey: string)
    requires forall n | 0 <= n < |steps| && steps[n].ConfirmInvoice? && Confirmable(steps[n].invoice) ::
               steps[n].invoice.amountPaid.value >= 0
    ensures BalanceOf(Run(steps), pubkey) >= 0
  {
    hide Next, Confirmable;
    if steps != [] {
      BalancesStayNonNegative(steps[..|steps| - 1], pubkey);
      StepNonNegative(Run(steps[..|steps| - 1]), steps[|steps| - 1], pubkey);
    }
  }
}
