/** Admission fees, their billing, and the payments service over the database tables. */
module Payments {
  import opened Wrappers
  import opened Ledger

  // ----- fees -----

  datatype FeeSchedule = FeeSchedule(enabled: bool, amount: int, whitelist: Option<seq<string>>)

  predicate Whitelisted(f: FeeSchedule, pubkey: string) {
    f.whitelist.Some? && exists p | p in f.whitelist.value :: p <= pubkey
  }

  predicate Applies(f: FeeSchedule, pubkey: string) {
    f.enabled && !Whitelisted(f, pubkey)
  }

  /** The sum confirmInvoice compares a payment against. */
  function Threshold(fees: seq<FeeSchedule>, pubkey: string): int {
    if fees == [] then 0
    else
      var last := fees[|fees| - 1];
      Threshold(fees[..|fees| - 1], pubkey) + if Applies(last, pubkey) then last.amount else 0
  }

  function Applicable(fees: seq<FeeSchedule>, pubkey: string): seq<FeeSchedule> {
    if fees == [] then []
    else (if Applies(fees[0], pubkey) then [fees[0]] else []) + Applicable(fees[1..], pubkey)
  }

  /** The controller's own sum over the applicable fees, with its second, exact-match whitelist test. */
  function SumListed(fees: seq<FeeSchedule>, pubkey: string): int {
    if fees == [] then 0
    else
      var last := fees[|fees| - 1];
      SumListed(fees[..|fees| - 1], pubkey)
      + if last.enabled && !(last.whitelist.Some? && pubkey in last.whitelist.value) then last.amount else 0
  }

  /** The amount PostInvoiceController requests, or none when no admission fee applies. */
  function RequestedAmount(fees: Option<seq<FeeSchedule>>, pubkey: string): Option<int> {
    if fees.None? || Applicable(fees.value, pubkey) == [] then None
    else Some(SumListed(Applicable(fees.value, pubkey), pubkey))
  }

  /** A fee applies exactly when it is enabled and no whitelisted text begins the payer's key. */
  lemma AppliesExactly(f: FeeSchedule, pubkey: string)
    ensures Applies(f, pubkey)
            <==> f.enabled
                 && !(f.whitelist.Some? && exists p, rest | p in f.whitelist.value :: pubkey == p + rest)
  {
    if Whitelisted(f, pubkey) {
      var p :| p in f.whitelist.value && p <= pubkey;
      assert pubkey == p + pubkey[|p|..];
    }
    if f.whitelist.Some? {
      if p, rest :| p in f.whitelist.value && pubkey == p + rest {
        assert p <= pubkey;
      }
    }
  }

  /** The threshold adds up the amounts of the fees that apply. */
  lemma ThresholdAdds(fees: seq<FeeSchedule>, f: FeeSchedule, pubkey: string)
    ensures Threshold([], pubkey) == 0
    ensures Threshold(fees + [f], pubkey) == Threshold(fees, pubkey) + if Applies(f, pubkey) then f.amount else 0
  {
    assert (fees + [f])[..|fees|] == fees;
  }

  lemma {:induction false} ApplicableSnoc(fees: seq<FeeSchedule>, last: FeeSchedule, pubkey: string)
    ensures Applicable(fees + [last], pubkey) ==
            Applicable(fees, pubkey) + if Applies(last, pubkey) then [last] else []
  {
    hide Applies;
    if fees == [] {
      assert fees + [last] == [last] && [last][1..] == [];
    } else {
      var first := if Applies(fees[0], pubkey) then [fees[0]] else [];
      assert (fees + [last])[1..] == fees[1..] + [last];
      assert Applicable(fees + [last], pubkey) == first + Applicable(fees[1..] + [last], pubkey);
      ApplicableSnoc(fees[1..], last, pubkey);
    }
  }

  /** The two whitelist tests sum alike: an exact match is a prefix match the filter already took out. */
  lemma {:induction false} SumIsThreshold(fees: seq<FeeSchedule>, pubkey: string)
    ensures SumListed(Applicable(fees, pubkey), pubkey) == Threshold(fees, pubkey)
  {
    hide Applies;
    if fees != [] {
      var front, last := fees[..|fees| - 1], fees[|fees| - 1];
      assert fees == front + [last];
      SumIsThreshold(front, pubkey);
      ApplicableSnoc(front, last, pubkey);
      if Applies(last, pubkey) {
        AppliesExcludes(last, pubkey);
        SumListedSnoc(Applicable(front, pubkey), last, pubkey);
      } else {
        assert Applicable(front, pubkey) + [] == Applicable(front, pubkey);
      }
    }
  }

  lemma SumListedSnoc(listed: seq<FeeSchedule>, last: FeeSchedule, pubkey: string)
    requires last.enabled && !(last.whitelist.Some? && pubkey in last.whitelist.value)
    ensures SumListed(listed + [last], pubkey) == SumListed(listed, pubkey) + last.amount
  {
    assert (listed + [last])[..|listed|] == listed;
  }

  lemma AppliesExcludes(f: FeeSchedule, pubkey: string)
    requires Applies(f, pubkey)
    ensures f.enabled && !(f.whitelist.Some? && pubkey in f.whitelist.value)
  {
    assert pubkey <= pubkey;
  }

  /** With unchanged settings, the amount requested is the amount admission asks for. */
  lemma RequestedMeetsThreshold(fees: seq<FeeSchedule>, pubkey: string)
    ensures RequestedAmount(Some(fees), pubkey).Some? ==>
              RequestedAmount(Some(fees), pubkey).value == Threshold(fees, pubkey)
    ensures RequestedAmount(Some(fees), pubkey).None? ==> Threshold(fees, pubkey) == 0
    ensures RequestedAmount(Some(fees), pubkey).None? <==> forall f | f in fees :: !Applies(f, pubkey)
    ensures RequestedAmount(None, pubkey).None?
  {
    hide Applies;
    SumIsThreshold(fees, pubkey);
    NothingApplies(fees, pubkey);
  }

  lemma {:induction false} NothingApplies(fees: seq<FeeSchedule>, pubkey: string)
    ensures Applicable(fees, pubkey) == [] <==> forall f | f in fees :: !Applies(f, pubkey)
  {
    hide Applies;
    if fees != [] {
      NothingApplies(fees[1..], pubkey);
      assert forall f :: f in fees <==> f == fees[0] || f in fees[1..];
    }
  }

  // ----- billing -----

  /** BigInt division truncates toward zero. */
  function TruncatedDiv(a: int, b: int): int
    requires b > 0
  {
    if a >= 0 then a / b else -((-a) / b)
  }

  datatype Bill = Bill(amount: int, unit: Unit)

  /** LnurlPaymentsProcessor */
  function BillMsats(amount: int): Bill {
    Bill(amount, Msats)
  }

  /** NodelessPaymentsProcessor */
  function BillSats(amount: int): Bill {
    Bill(TruncatedDiv(amount, 1000), Sats)
  }

  /** Paying a positive fee in full admits always when billed in msats, and in sats exactly for whole sats. */
  lemma FullPaymentAdmits(fee: int)
    requires fee > 0
    ensures Admits(BillMsats(fee).amount, Some(BillMsats(fee).unit), fee)
    ensures Admits(BillSats(fee).amount, Some(BillSats(fee).unit), fee) <==> fee % 1000 == 0
    ensures 0 <= fee - PaidMsats(BillSats(fee).amount, Some(Sats)) < 1000
  {
    assert fee == 1000 * (fee / 1000) + fee % 1000;
  }

  /** From the fee settings to the users table: billing and paying in full admits the payer. */
  lemma PayerIsAdmitted(t: Tables, fees: seq<FeeSchedule>, invoice: Invoice, bill: Bill)
    requires RequestedAmount(Some(fees), invoice.pubkey).Some? && Threshold(fees, invoice.pubkey) > 0
    requires bill == BillMsats(RequestedAmount(Some(fees), invoice.pubkey).value)
          || bill == BillSats(RequestedAmount(Some(fees), invoice.pubkey).value)
    requires Confirmable(invoice) && invoice.amountPaid == Some(bill.amount) && invoice.unit == Some(bill.unit)
    requires invoice.pubkey !in t.users || !t.users[invoice.pubkey].isAdmitted
    ensures
      var u := Next(t, ConfirmInvoice(invoice, Threshold(fees, invoice.pubkey)));
      (invoice.pubkey in u.users && u.users[invoice.pubkey].isAdmitted)
      <==> bill.unit == Msats || Threshold(fees, invoice.pubkey) % 1000 == 0
  {
    hide Threshold, RequestedAmount, HasInvoice, PaidMsats;
    RequestedMeetsThreshold(fees, invoice.pubkey);
    FullPaymentAdmits(Threshold(fees, invoice.pubkey));
  }

  // ----- the service -----

  datatype Failure = NotConfirmed | NotComplete | AmountNotSet

  class Database {
    var users: map<string, User>
    var invoices: seq<Invoice>

    constructor ()
      ensures State() == EMPTY
    {
      users, invoices := map[], [];
    }

    function State(): Tables
      reads this
    {
      Tables(users, invoices)
    }

    /** SELECT ... WHERE id, or -1 */
    method Find(id: string) returns (k: int)
      ensures k == if HasInvoice(invoices, id) then IndexOf(invoices, id) else -1
    {
      var i := 0;
      while i < |invoices|
        invariant i <= |invoices|
        invariant HasInvoice(invoices, id) <==> HasInvoice(invoices[i..], id)
        invariant HasInvoice(invoices, id) ==> IndexOf(invoices, id) == i + IndexOf(invoices[i..], id)
      {
        var rest := invoices[i..];
        assert rest[1..] == invoices[i + 1..];
        if invoices[i].id == id {
          assert rest[0].id == id;
          return i;
        }
        assert HasInvoice(rest, id) <==> HasInvoice(rest[1..], id) by {
          assert rest == [rest[0]] + rest[1..];
        }
        i := i + 1;
      }
      return -1;
    }

    method ConfirmInvoice(id: string, amountReceived: int, confirmationDate: int)
      modifies this
      ensures State() == ConfirmStored(old(State()), id, amountReceived, confirmationDate)
    {
      hide IndexOf, HasInvoice;
      var k := Find(id);
      if k < 0 {
        return;
      }
      var invoice := invoices[k];
      if invoice.confirmedAt.None? {
        invoices := invoices[k := invoice.(confirmedAt := Some(confirmationDate), amountPaid := Some(amountReceived))];
        if invoice.pubkey in users {
          var user := users[invoice.pubkey];
          match invoice.unit {
            case Some(Sats) =>
              users := users[invoice.pubkey := user.(balance := user.balance + amountReceived * 1000)];
            case Some(Msats) =>
              users := users[invoice.pubkey := user.(balance := user.balance + amountReceived)];
            case Some(Btc) =>
              users := users[invoice.pubkey := user.(balance := user.balance + amountReceived * 100000000 * 1000)];
            case None =>
          }
        }
      }
    }

    method ChargeUser(pubkey: string, amount: int) returns (charged: nat)
      modifies this
      ensures (State(), charged) == Charge(old(State()), pubkey, amount)
    {
      if pubkey in users && users[pubkey].balance - amount >= 0 {
        users := users[pubkey := users[pubkey].(balance := users[pubkey].balance - amount)];
        return 1;
      }
      return 0;
    }

    method UpsertUser(pubkey: string, isAdmitted: Option<bool>)
      modifies this
      ensures State() == Ledger.UpsertUser(old(State()), pubkey, isAdmitted)
    {
      if pubkey in users {
        if isAdmitted.Some? {
          users := users[pubkey := users[pubkey].(isAdmitted := isAdmitted.value)];
        }
        assert users == old(users)[pubkey := users[pubkey]];
      } else {
        users := users[pubkey := User(0, isAdmitted.Some? && isAdmitted.value)];
      }
    }

    method UpdateStatus(id: string, status: Status)
      modifies this
      ensures State() == SetStatus(old(State()), id, status)
    {
      var k := Find(id);
      if k >= 0 {
        invoices := invoices[k := invoices[k].(status := status)];
      }
    }

    method UpsertInvoice(invoice: Invoice)
      modifies this
      ensures State() == Ledger.UpsertInvoice(old(State()), invoice)
    {
      var k := Find(invoice.id);
      if k >= 0 {
        UpdateStatus(invoice.id, invoice.status);
      } else {
        invoices := invoices + [invoice.(amountPaid := None, confirmedAt := None)];
      }
    }
  }

  class PaymentsService {
    const database: Database

    constructor (database: Database)
      ensures this.database == database
    {
      this.database := database;
    }

    /** `invoice` is the processor's answer for this payer; both writes are one transaction. */
    method CreateInvoice(invoice: Invoice)
      modifies database
      ensures database.State() == Next(old(database.State()), Step.CreateInvoice(invoice))
    {
      database.UpsertUser(invoice.pubkey, None);
      database.UpsertInvoice(invoice);
    }

    method ConfirmInvoice(invoice: Invoice, fees: seq<FeeSchedule>) returns (r: Result<bool, Failure>)
      modifies database
      ensures database.State() ==
              Next(old(database.State()), Step.ConfirmInvoice(invoice, Threshold(fees, invoice.pubkey)))
      ensures r.Ok? <==> invoice.confirmedAt.Some? && invoice.status == Completed && invoice.amountPaid.Some?
      ensures r.Ok? ==> r.value == Admits(invoice.amountPaid.value, invoice.unit, Threshold(fees, invoice.pubkey))
    {
      if invoice.confirmedAt.None? {
        return Err(NotConfirmed);
      }
      if invoice.status != Completed {
        return Err(NotComplete);
      }
      if invoice.amountPaid.None? {
        return Err(AmountNotSet);
      }
      database.ConfirmInvoice(invoice.id, invoice.amountPaid.value, invoice.confirmedAt.value);
      var amountPaidMsat := invoice.amountPaid.value;
      if invoice.unit == Some(Sats) {
        amountPaidMsat := amountPaidMsat * 1000;
      } else if invoice.unit == Some(Btc) {
        amountPaidMsat := amountPaidMsat * (1000 * 100000000);
      }
      var admissionFee := Threshold(fees, invoice.pubkey);
      if admissionFee > 0 && amountPaidMsat >= admissionFee {
        database.UpsertUser(invoice.pubkey, Some(true));
        return Ok(true);
      }
      return Ok(false);
    }
  }
}
