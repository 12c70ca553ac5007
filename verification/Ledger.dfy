/** Invoices, confirmations and charges: every balance is what was confirmed, scaled, less what was charged. */
module Ledger {
  import opened Hex
  import opened Wrappers

  datatype Unit = Msats | Sats | Btc

  datatype Status = Pending | Completed | Expired

  datatype User = User(balance: int, isAdmitted: bool)

  /** A row of the invoices table; amountPaid is set together with the confirmation date. */
  datatype InvoiceRow = InvoiceRow(payee: Bytes, unit: Option<Unit>, status: Status, amountPaid: Option<int>)

  datatype Tables = Tables(users: map<Bytes, User>, invoices: map<string, InvoiceRow>)

  const EMPTY := Tables(map[], map[])

  /** An invoice as the payments processor reports it. */
  datatype Invoice = Invoice(
    id: string,
    pubkey: string,
    unit: Option<Unit>,
    status: Status,
    amountPaid: Option<int>,
    confirmed: bool)

  datatype FeeSchedule = FeeSchedule(enabled: bool, amount: nat, whitelist: seq<string>)

  const OUT_OF_RANGE := "bigint out of range"
  const NOT_STARTED := "Unable to get transaction: transaction not started."

  predicate IsBigint(n: int) {
    -0x8000_0000_0000_0000 <= n < 0x8000_0000_0000_0000
  }

  // ---- statements -----------------------------------------------------------------------

  /** A known user keeps the balance; the admission is updated only if it is given. */
  function UpsertUser(t: Tables, pubkey: Bytes, isAdmitted: Option<bool>): Tables {
    var was := if pubkey in t.users then t.users[pubkey] else User(0, false);
    t.(users := t.users[pubkey := if isAdmitted.Some? then was.(isAdmitted := isAdmitted.value) else was])
  }

  /** Of a known invoice only the status is updated. */
  function UpsertInvoice(t: Tables, id: string, payee: Bytes, unit: Option<Unit>, status: Status): Tables {
    var row := if id in t.invoices then t.invoices[id].(status := status) else InvoiceRow(payee, unit, status, None);
    t.(invoices := t.invoices[id := row])
  }

  /** Millisatoshis; an invoice without a unit credits nothing. */
  function Scaled(unit: Option<Unit>, amount: int): int {
    match unit
    case Some(Sats) => amount * 1000
    case Some(Msats) => amount
    case Some(Btc) => amount * 100000000 * 1000
    case None => 0
  }

  /** The confirm_invoice procedure. */
  function ConfirmProcedure(t: Tables, id: string, amount: int): Result<Tables, string> {
    if !IsBigint(amount) then Err(OUT_OF_RANGE)
    else if id !in t.invoices || t.invoices[id].amountPaid.Some? then Ok(t)
    else
      var row := t.invoices[id];
      var confirmed := t.(invoices := t.invoices[id := row.(amountPaid := Some(amount))]);
      var credit := Scaled(row.unit, amount);
      if row.payee !in t.users || row.unit.None? then Ok(confirmed)
      else if !IsBigint(credit) || !IsBigint(t.users[row.payee].balance + credit) then Err(OUT_OF_RANGE)
      else
        var user := t.users[row.payee];
        Ok(confirmed.(users := t.users[row.payee := user.(balance := user.balance + credit)]))
  }

  datatype Charged = Charged(tables: Tables, count: nat)

  /** The charge_user procedure. */
  function ChargeProcedure(t: Tables, pubkey: Bytes, amount: int): Result<Charged, string> {
    if !IsBigint(amount) then Err(OUT_OF_RANGE)
    else if pubkey !in t.users then Ok(Charged(t, 0))
    else
      var left := t.users[pubkey].balance - amount;
      if !IsBigint(left) then Err(OUT_OF_RANGE)
      else if left >= 0 then Ok(Charged(t.(users := t.users[pubkey := t.users[pubkey].(balance := left)]), 1))
      else Ok(Charged(t, 0))
  }

  predicate Exempts(prefixes: seq<string>, pubkey: string) {
    exists k :: 0 <= k < |prefixes| && prefixes[k] <= pubkey
  }

  function AdmissionFee(schedules: seq<FeeSchedule>, pubkey: string): nat {
    if schedules == [] then 0
    else
      var last := schedules[|schedules| - 1];
      AdmissionFee(schedules[..|schedules| - 1], pubkey)
      + if last.enabled && !Exempts(last.whitelist, pubkey) then last.amount else 0
  }

  /** The fee is the sum of the amounts of the schedules that are enabled and have no prefix of the payee. */
  lemma FeeOfOne(schedule: FeeSchedule, pubkey: string)
    ensures AdmissionFee([schedule], pubkey)
            == if schedule.enabled && forall prefix :: prefix in schedule.whitelist ==> !(prefix <= pubkey)
               then schedule.amount else 0
  {
    assert [schedule][..0] == [];
    assert AdmissionFee([schedule][..0], pubkey) == 0;
    if k :| 0 <= k < |schedule.whitelist| && schedule.whitelist[k] <= pubkey {
      assert schedule.whitelist[k] in schedule.whitelist;
    }
  }

  lemma {:induction false} FeesAdd(a: seq<FeeSchedule>, b: seq<FeeSchedule>, pubkey: string)
    ensures AdmissionFee(a + b, pubkey) == AdmissionFee(a, pubkey) + AdmissionFee(b, pubkey)
  {
    if b == [] {
      assert a + b == a;
    } else {
      assert (a + b)[..|a + b| - 1] == a + b[..|b| - 1];
      FeesAdd(a, b[..|b| - 1], pubkey);
    }
  }

  lemma BigintExactly(n: int)
    ensures IsBigint(n) <==> -9_223_372_036_854_775_808 <= n <= 9_223_372_036_854_775_807
  {
  }

  /** A confirmation fails exactly if a number does not fit: the amount itself, or, of an unconfirmed invoice
      with a unit and a known payee, the credit or the new balance. */
  lemma ConfirmFailsExactly(t: Tables, id: string, amount: int)
    ensures ConfirmProcedure(t, id, amount).Err?
            <==> !IsBigint(amount)
                 || (id in t.invoices && t.invoices[id].amountPaid.None? && t.invoices[id].unit.Some?
                     && t.invoices[id].payee in t.users
                     && var credit := Scaled(t.invoices[id].unit, amount);
                        !IsBigint(credit) || !IsBigint(t.users[t.invoices[id].payee].balance + credit))
  {
  }

  /** A confirmation credits the payee of an unconfirmed invoice in millisatoshis: a thousand for a satoshi, and
      a hundred million satoshis for a bitcoin. */
  lemma CreditPerUnit(t: Tables, id: string, amount: int)
    requires id in t.invoices && t.invoices[id].amountPaid.None? && t.invoices[id].payee in t.users
    requires ConfirmProcedure(t, id, amount).Ok?
    ensures var row, next := t.invoices[id], ConfirmProcedure(t, id, amount).value;
            && row.payee in next.users
            && var gained := next.users[row.payee].balance - t.users[row.payee].balance;
               && (row.unit == Some(Msats) ==> gained == amount)
               && (row.unit == Some(Sats) ==> gained == 1000 * amount)
               && (row.unit == Some(Btc) ==> gained == 100_000_000_000 * amount)
               && (row.unit == None ==> gained == 0)
  {
  }

  /** What was paid, as the service compares it with the fee. */
  function PaidMsats(unit: Option<Unit>, amount: int): int {
    match unit
    case Some(Sats) => amount * 1000
    case Some(Btc) => amount * (1000 * 100000000)
    case _ => amount
  }

  // ---- transactions ---------------------------------------------------------------------

  datatype Operation =
    /** The response is the payments processor's. */
    | CreateInvoice(pubkey: string, response: Result<Invoice, string>)
    | ConfirmInvoice(invoice: Invoice, schedules: seq<FeeSchedule>)
    | ChargeUser(charged: Bytes, amount: int)

  function StatusText(status: Status): string {
    match status
    case Pending => "pending"
    case Completed => "completed"
    case Expired => "expired"
  }

  /** The error of the first guard that fails, before the transaction begins. */
  function GuardError(invoice: Invoice): Option<string> {
    if !invoice.confirmed then Some("Invoice confirmation date is not set")
    else if invoice.status != Completed then Some("Invoice is not complete: " + StatusText(invoice.status))
    else if invoice.amountPaid.None? then Some("Invoice paid amount is not set: undefined")
    else None
  }

  /** The error that reaches the caller once the transaction was rolled back: rolling back one that never
      began throws on its own account. */
  function Reported(begun: bool, error: string): string {
    if begun then error else NOT_STARTED
  }

  function Confirm(t: Tables, invoice: Invoice, schedules: seq<FeeSchedule>): Result<Tables, string> {
    match GuardError(invoice)
    case Some(error) => Err(Reported(false, error))
    case None =>
      match ConfirmProcedure(t, invoice.id, invoice.amountPaid.value)
      case Err(error) => Err(Reported(true, error))
      case Ok(confirmed) =>
        var fee := AdmissionFee(schedules, invoice.pubkey);
        if fee > 0 && PaidMsats(invoice.unit, invoice.amountPaid.value) >= fee
        then Ok(UpsertUser(confirmed, ToBuffer(invoice.pubkey), Some(true)))
        else Ok(confirmed)
  }

  /** The tables after an operation; one that throws is rolled back. */
  function Perform(t: Tables, o: Operation): Tables {
    match o
    case CreateInvoice(pubkey, Err(_)) => t
    case CreateInvoice(pubkey, Ok(r)) =>
      UpsertInvoice(UpsertUser(t, ToBuffer(pubkey), None), r.id, ToBuffer(pubkey), r.unit, r.status)
    case ConfirmInvoice(invoice, schedules) =>
      (match Confirm(t, invoice, schedules) case Ok(next) => next case Err(_) => t)
    case ChargeUser(pubkey, amount) =>
      (match ChargeProcedure(t, pubkey, amount) case Ok(c) => c.tables case Err(_) => t)
  }

  function After(os: seq<Operation>): Tables {
    if os == [] then EMPTY else Perform(After(os[..|os| - 1]), os[|os| - 1])
  }

  // ---- what a balance is made of --------------------------------------------------------

  /** What one invoice has credited to a user. */
  function CreditOf(row: InvoiceRow, user: Bytes): int {
    if row.payee == user && row.amountPaid.Some? then Scaled(row.unit, row.amountPaid.value) else 0
  }

  /** The sum over the given invoices. */
  ghost function Credits(invoices: map<string, InvoiceRow>, ids: set<string>, user: Bytes): int
    requires ids <= invoices.Keys
  {
    if ids == {} then 0
    else
      var id :| id in ids;
      CreditOf(invoices[id], user) + Credits(invoices, ids - {id}, user)
  }

  ghost function TotalCredits(t: Tables, user: Bytes): int {
    Credits(t.invoices, t.invoices.Keys, user)
  }

  /** What the successful charges of a run took from a user. */
  function ChargesIn(os: seq<Operation>, user: Bytes): int {
    if os == [] then 0
    else
      var o := os[|os| - 1];
      ChargesIn(os[..|os| - 1], user) + ChargeOf(After(os[..|os| - 1]), o, user)
  }

  function ChargeOf(t: Tables, o: Operation, user: Bytes): int {
    if o.ChargeUser? && o.charged == user && ChargeProcedure(t, user, o.amount).Ok?
       && ChargeProcedure(t, user, o.amount).value.count == 1
    then o.amount else 0
  }

  lemma {:induction false} CreditsAnyOrder(invoices: map<string, InvoiceRow>, ids: set<string>, id: string, user: Bytes)
    requires ids <= invoices.Keys && id in ids
    ensures Credits(invoices, ids, user) == CreditOf(invoices[id], user) + Credits(invoices, ids - {id}, user)
    decreases |ids|
  {
    var first :| first in ids && Credits(invoices, ids, user)
                 == CreditOf(invoices[first], user) + Credits(invoices, ids - {first}, user);
    if first != id {
      CreditsAnyOrder(invoices, ids - {first}, id, user);
      CreditsAnyOrder(invoices, ids - {id}, first, user);
      assert ids - {first} - {id} == ids - {id} - {first};
    }
  }

  lemma {:induction false} CreditsElsewhere(was: map<string, InvoiceRow>, now: map<string, InvoiceRow>,
                                            ids: set<string>, user: Bytes)
    requires ids <= was.Keys && ids <= now.Keys
    requires forall id :: id in ids ==> CreditOf(was[id], user) == CreditOf(now[id], user)
    ensures Credits(was, ids, user) == Credits(now, ids, user)
    decreases |ids|
  {
    if ids != {} {
      var id :| id in ids;
      CreditsAnyOrder(was, ids, id, user);
      CreditsAnyOrder(now, ids, id, user);
      CreditsElsewhere(was, now, ids - {id}, user);
    }
  }

  /** Writing one invoice changes the sum by what the invoice now credits more. */
  lemma CreditsWrite(t: Tables, id: string, row: InvoiceRow, user: Bytes)
    ensures TotalCredits(t.(invoices := t.invoices[id := row]), user)
            == TotalCredits(t, user) + CreditOf(row, user)
               - if id in t.invoices then CreditOf(t.invoices[id], user) else 0
  {
    var now := t.invoices[id := row];
    var rest := t.invoices.Keys - {id};
    CreditsAnyOrder(now, now.Keys, id, user);
    assert now.Keys - {id} == rest;
    CreditsElsewhere(t.invoices, now, rest, user);
    if id in t.invoices {
      CreditsAnyOrder(t.invoices, t.invoices.Keys, id, user);
    } else {
      assert rest == t.invoices.Keys;
    }
  }

  // ---- every run ------------------------------------------------------------------------

  predicate PayeesExist(t: Tables) {
    forall id :: id in t.invoices ==> t.invoices[id].payee in t.users
  }

  function BalanceOf(t: Tables, user: Bytes): int {
    if user in t.users then t.users[user].balance else 0
  }

  /** How much an operation changes what a user has, beyond what the invoices credit. */
  lemma PerformConserves(t: Tables, o: Operation, user: Bytes)
    requires PayeesExist(t)
    ensures PayeesExist(Perform(t, o))
    ensures BalanceOf(Perform(t, o), user) - TotalCredits(Perform(t, o), user)
            == BalanceOf(t, user) - TotalCredits(t, user) - ChargeOf(t, o, user)
  {
    match o
    case CreateInvoice(pubkey, Err(_)) =>
    case CreateInvoice(pubkey, Ok(r)) =>
      var mid := UpsertUser(t, ToBuffer(pubkey), None);
      CreditsWrite(mid, r.id, UpsertInvoice(mid, r.id, ToBuffer(pubkey), r.unit, r.status).invoices[r.id], user);
    case ConfirmInvoice(invoice, schedules) =>
      if Confirm(t, invoice, schedules).Ok? {
        ConfirmConserves(t, invoice.id, invoice.amountPaid.value, user);
      }
    case ChargeUser(pubkey, amount) =>
  }

  lemma ConfirmConserves(t: Tables, id: string, amount: int, user: Bytes)
    requires PayeesExist(t) && ConfirmProcedure(t, id, amount).Ok?
    ensures var next := ConfirmProcedure(t, id, amount).value;
            && PayeesExist(next)
            && BalanceOf(next, user) - TotalCredits(next, user) == BalanceOf(t, user) - TotalCredits(t, user)
  {
    if id in t.invoices && t.invoices[id].amountPaid.None? {
      CreditsWrite(t, id, t.invoices[id].(amountPaid := Some(amount)), user);
    }
  }

  /** After every run: every invoice's payee is a user, and every balance is the scaled sum of the
      confirmed amounts of the user's invoices, each of them once, less the successful charges. */
  lemma {:induction false} LedgerIsConserved(os: seq<Operation>, user: Bytes)
    ensures PayeesExist(After(os))
    ensures BalanceOf(After(os), user) == TotalCredits(After(os), user) - ChargesIn(os, user)
  {
    if os != [] {
      LedgerIsConserved(os[..|os| - 1], user);
      PerformConserves(After(os[..|os| - 1]), os[|os| - 1], user);
    }
  }

  /** With no negative payment no balance is ever negative, whatever amounts are charged. */
  lemma {:induction false} NoNegativeBalance(os: seq<Operation>, user: Bytes)
    requires forall o :: o in os && o.ConfirmInvoice? && o.invoice.amountPaid.Some? ==> o.invoice.amountPaid.value >= 0
    ensures BalanceOf(After(os), user) >= 0
  {
    if os != [] {
      NoNegativeBalance(os[..|os| - 1], user);
      assert os[|os| - 1] in os;
    }
  }

  /** A confirmed invoice stays confirmed with the same amount, payee and unit, whatever follows: it cannot
      be credited again. */
  lemma {:induction false} CreditedOnce(os: seq<Operation>, more: seq<Operation>, id: string)
    requires id in After(os).invoices && After(os).invoices[id].amountPaid.Some?
    ensures id in After(os + more).invoices
    ensures After(os + more).invoices[id].(status := Pending) == After(os).invoices[id].(status := Pending)
  {
    if more == [] {
      assert os + more == os;
    } else {
      assert (os + more)[..|os + more| - 1] == os + more[..|more| - 1];
      CreditedOnce(os, more[..|more| - 1], id);
    }
  }

  // ---- admission ------------------------------------------------------------------------

  /** A confirmed invoice of the user covers the fee. */
  predicate Recorded(t: Tables, user: Bytes, fee: nat) {
    exists id :: id in t.invoices && Covers(t.invoices[id], user, fee)
  }

  predicate Covers(row: InvoiceRow, user: Bytes, fee: nat) {
    row.payee == user && row.amountPaid.Some? && Scaled(row.unit, row.amountPaid.value) >= fee
  }

  /** The confirmation succeeds, and what it says was paid covers an admission fee. */
  predicate Admits(t: Tables, invoice: Invoice, schedules: seq<FeeSchedule>) {
    && Confirm(t, invoice, schedules).Ok?
    && 0 < AdmissionFee(schedules, invoice.pubkey) <= PaidMsats(invoice.unit, invoice.amountPaid.value)
  }

  /** The invoice is known, not yet confirmed, the payee's own, and covers the fee in the unit on record. */
  predicate Records(t: Tables, invoice: Invoice, fee: nat) {
    && invoice.id in t.invoices && t.invoices[invoice.id].amountPaid.None?
    && t.invoices[invoice.id].payee == ToBuffer(invoice.pubkey)
    && invoice.amountPaid.Some? && Scaled(t.invoices[invoice.id].unit, invoice.amountPaid.value) >= fee
  }

  lemma ConfirmRecords(t: Tables, invoice: Invoice, fee: nat)
    requires invoice.amountPaid.Some? && ConfirmProcedure(t, invoice.id, invoice.amountPaid.value).Ok?
    ensures var next, user := ConfirmProcedure(t, invoice.id, invoice.amountPaid.value).value, ToBuffer(invoice.pubkey);
            Recorded(next, user, fee) <==> Recorded(t, user, fee) || Records(t, invoice, fee)
  {
    var next, user := ConfirmProcedure(t, invoice.id, invoice.amountPaid.value).value, ToBuffer(invoice.pubkey);
    assert forall id :: id in t.invoices && id != invoice.id ==> next.invoices[id] == t.invoices[id];
    if id :| id in t.invoices && Covers(t.invoices[id], user, fee) {
      assert Covers(next.invoices[id], user, fee);
    }
    if Records(t, invoice, fee) {
      assert Covers(next.invoices[invoice.id], user, fee);
    }
  }

  /** A confirmation that admits leaves a confirmed invoice covering the fee on record if and only if one was
      there before, or the confirmed invoice is known, unconfirmed, the payee's own, and covers it on record. */
  lemma AdmissionRecordedExactly(t: Tables, invoice: Invoice, schedules: seq<FeeSchedule>)
    requires Admits(t, invoice, schedules)
    ensures var next, user := Confirm(t, invoice, schedules).value, ToBuffer(invoice.pubkey);
            var fee := AdmissionFee(schedules, invoice.pubkey);
            && user in next.users && next.users[user].isAdmitted
            && (Recorded(next, user, fee) <==> Recorded(t, user, fee) || Records(t, invoice, fee))
  {
    ConfirmRecords(t, invoice, AdmissionFee(schedules, invoice.pubkey));
  }

  /** With the unit on record, that is: known, unconfirmed, and the payee's own. */
  lemma MatchingInvoiceRecords(t: Tables, invoice: Invoice, schedules: seq<FeeSchedule>)
    requires Admits(t, invoice, schedules) && invoice.unit.Some?
    requires invoice.id in t.invoices ==> t.invoices[invoice.id].unit == invoice.unit
    ensures Records(t, invoice, AdmissionFee(schedules, invoice.pubkey))
            <==> invoice.id in t.invoices && t.invoices[invoice.id].amountPaid.None?
                 && t.invoices[invoice.id].payee == ToBuffer(invoice.pubkey)
  {
    var amount := invoice.amountPaid.value;
    assert amount * (1000 * 100000000) == amount * 100000000 * 1000;
  }

  /** An invoice nobody created admits its payee, and leaves neither an invoice nor a balance. */
  lemma UnknownInvoiceAdmits(id: string, pubkey: string, amount: int, schedules: seq<FeeSchedule>)
    requires IsBigint(amount) && 0 < AdmissionFee(schedules, pubkey) <= amount * 1000
    ensures var unknown := Invoice(id, pubkey, Some(Sats), Completed, Some(amount), true);
            var last := After([ConfirmInvoice(unknown, schedules)]);
            && last.users == map[ToBuffer(pubkey) := User(0, true)] && last.invoices == map[]
            && !Recorded(last, ToBuffer(pubkey), AdmissionFee(schedules, pubkey))
  {
    var o := ConfirmInvoice(Invoice(id, pubkey, Some(Sats), Completed, Some(amount), true), schedules);
    assert [o][..0] == [] && After([o][..0]) == EMPTY;
  }

  /** Operation k of the run is a successful confirmation that admits the user. */
  predicate AdmittedAt(os: seq<Operation>, k: nat, user: Bytes)
    requires k < |os|
  {
    && os[k].ConfirmInvoice? && ToBuffer(os[k].invoice.pubkey) == user
    && Admits(After(os[..k]), os[k].invoice, os[k].schedules)
  }

  function FeeAt(os: seq<Operation>, k: nat): nat
    requires k < |os| && os[k].ConfirmInvoice?
  {
    AdmissionFee(os[k].schedules, os[k].invoice.pubkey)
  }

  /** Nobody is admitted but by a successful confirmation that pays the fee. */
  lemma {:induction false} AdmittedByConfirmation(os: seq<Operation>, user: Bytes)
    requires user in After(os).users && After(os).users[user].isAdmitted
    ensures exists k: nat :: k < |os| && AdmittedAt(os, k, user)
  {
    if os != [] {
      var n := |os| - 1;
      var before := After(os[..n]);
      if user in before.users && before.users[user].isAdmitted {
        AdmittedByConfirmation(os[..n], user);
        var k: nat :| k < n && AdmittedAt(os[..n], k, user);
        assert os[..n][..k] == os[..k];
        assert AdmittedAt(os, k, user);
      } else {
        assert AdmittedAt(os, n, user);
      }
    }
  }

  lemma RecordedStays(os: seq<Operation>, more: seq<Operation>, user: Bytes, fee: nat)
    requires Recorded(After(os), user, fee)
    ensures Recorded(After(os + more), user, fee)
  {
    var id :| id in After(os).invoices && Covers(After(os).invoices[id], user, fee);
    CreditedOnce(os, more, id);
    assert Covers(After(os + more).invoices[id], user, fee);
  }

  lemma AfterNext(os: seq<Operation>, k: nat)
    requires k < |os|
    ensures After(os[..k + 1]) == Perform(After(os[..k]), os[k])
  {
    assert os[..k + 1][..k] == os[..k];
  }

  lemma RecordedNext(t: Tables, o: Operation, user: Bytes)
    requires o.ConfirmInvoice? && ToBuffer(o.invoice.pubkey) == user && Admits(t, o.invoice, o.schedules)
    requires var fee := AdmissionFee(o.schedules, o.invoice.pubkey);
             Recorded(t, user, fee) || Records(t, o.invoice, fee)
    ensures Recorded(Perform(t, o), user, AdmissionFee(o.schedules, o.invoice.pubkey))
  {
    AdmissionRecordedExactly(t, o.invoice, o.schedules);
  }

  lemma RecordedAfter(os: seq<Operation>, k: nat, user: Bytes)
    requires k < |os| && AdmittedAt(os, k, user)
    requires Recorded(After(os[..k]), user, FeeAt(os, k)) || Records(After(os[..k]), os[k].invoice, FeeAt(os, k))
    ensures Recorded(After(os[..k + 1]), user, FeeAt(os, k))
  {
    RecordedNext(After(os[..k]), os[k], user);
    AfterNext(os, k);
  }

  /** What a confirmation that admits leaves on record is there to stay. */
  lemma AdmittedIsRecorded(os: seq<Operation>, k: nat, user: Bytes)
    requires k < |os| && AdmittedAt(os, k, user)
    requires Recorded(After(os[..k]), user, FeeAt(os, k)) || Records(After(os[..k]), os[k].invoice, FeeAt(os, k))
    ensures Recorded(After(os), user, FeeAt(os, k))
  {
    var front, rest := os[..k + 1], os[k + 1..];
    RecordedAfter(os, k, user);
    RecordedStays(front, rest, user, FeeAt(os, k));
    assert front + rest == os;
  }

  /** In a run whose admitting confirmations are of known, unconfirmed invoices of their payees that cover the
      fee on record, every admitted user has, to the end, a confirmed invoice that covers the fee paid. */
  lemma AdmittedHasPaid(os: seq<Operation>, user: Bytes)
    requires user in After(os).users && After(os).users[user].isAdmitted
    requires forall k: nat :: k < |os| && AdmittedAt(os, k, user) ==>
      Recorded(After(os[..k]), user, FeeAt(os, k)) || Records(After(os[..k]), os[k].invoice, FeeAt(os, k))
    ensures exists k: nat :: k < |os| && AdmittedAt(os, k, user) && Recorded(After(os), user, FeeAt(os, k))
  {
    AdmittedByConfirmation(os, user);
    var k: nat :| k < |os| && AdmittedAt(os, k, user);
    AdmittedIsRecorded(os, k, user);
  }

  /** No guard's own message ever reaches the caller: the failing rollback reports in its place. */
  lemma GuardErrorsAreHidden(t: Tables, invoice: Invoice, schedules: seq<FeeSchedule>)
    ensures Confirm(t, invoice, schedules) == Err(NOT_STARTED) <==> GuardError(invoice).Some?
    ensures GuardError(invoice).Some? ==> GuardError(invoice).value != NOT_STARTED
  {
    assert |OUT_OF_RANGE| != |NOT_STARTED|;
    if GuardError(invoice).Some? {
      assert GuardError(invoice).value[0] == 'I';
    }
  }

  // ---- the service ----------------------------------------------------------------------

  /** A database transaction: what the tables held when it began, if it has begun. */
  class Transaction {
    var trx: Option<Tables>

    constructor ()
      ensures trx == None
    {
      trx := None;
    }

    method Begin(tables: Tables)
      modifies this
      ensures trx == Some(tables)
    {
      trx := Some(tables);
    }

    method Commit() returns (r: Result<(), string>)
      ensures r == if trx.Some? then Ok(()) else Err(NOT_STARTED)
    {
      if trx.None? {
        return Err(NOT_STARTED);
      }
      r := Ok(());
    }

    /** The tables to go back to. */
    method Rollback() returns (r: Result<Tables, string>)
      ensures r == if trx.Some? then Ok(trx.value) else Err(NOT_STARTED)
    {
      if trx.None? {
        return Err(NOT_STARTED);
      }
      r := Ok(trx.value);
    }
  }

  class PaymentsService {
    var users: map<Bytes, User>
    var invoices: map<string, InvoiceRow>

    function Contents(): Tables
      reads this
    {
      Tables(users, invoices)
    }

    constructor ()
      ensures Contents() == EMPTY
    {
      users, invoices := map[], map[];
    }

    method Upsert(pubkey: Bytes, isAdmitted: Option<bool>)
      modifies this
      ensures Contents() == UpsertUser(old(Contents()), pubkey, isAdmitted)
    {
      if pubkey !in users {
        users := users[pubkey := User(0, false)];
      }
      if isAdmitted.Some? {
        users := users[pubkey := users[pubkey].(isAdmitted := isAdmitted.value)];
      }
    }

    /** The catch clause: rolls back, and throws the error unless the rollback throws first. */
    method Fail(transaction: Transaction, error: string) returns (reported: string)
      modifies this
      ensures Contents() == if transaction.trx.Some? then transaction.trx.value else old(Contents())
      ensures reported == Reported(transaction.trx.Some?, error)
    {
      var rolledBack := transaction.Rollback();
      match rolledBack
      case Err(own) =>
        reported := own;
      case Ok(tables) =>
        users, invoices := tables.users, tables.invoices;
        reported := error;
    }

    method CreateInvoice(pubkey: string, response: Result<Invoice, string>) returns (r: Result<string, string>)
      modifies this
      ensures Contents() == Perform(old(Contents()), Operation.CreateInvoice(pubkey, response))
      ensures match response
              case Err(error) => r == Err(error)
              case Ok(i) =>
                r == Ok(i.id) && i.id in invoices && ToBuffer(pubkey) in users && invoices[i.id].status == i.status
    {
      var transaction := new Transaction();
      transaction.Begin(Contents());
      Upsert(ToBuffer(pubkey), None);
      match response
      case Err(error) =>
        var reported := Fail(transaction, error);
        r := Err(reported);
      case Ok(i) =>
        if i.id in invoices {
          invoices := invoices[i.id := invoices[i.id].(status := i.status)];
        } else {
          invoices := invoices[i.id := InvoiceRow(ToBuffer(pubkey), i.unit, i.status, None)];
        }
        var _ := transaction.Commit();
        r := Ok(i.id);
    }

    method ConfirmInvoiceProcedure(id: string, amount: int) returns (r: Result<(), string>)
      modifies this
      ensures match ConfirmProcedure(old(Contents()), id, amount)
              case Ok(next) => r == Ok(()) && Contents() == next
              case Err(error) => r == Err(error)
    {
      if !IsBigint(amount) {
        return Err(OUT_OF_RANGE);
      }
      if id !in invoices || invoices[id].amountPaid.Some? {
        return Ok(());
      }
      var row := invoices[id];
      invoices := invoices[id := row.(amountPaid := Some(amount))];
      if row.unit.Some? && row.payee in users {
        var credit := amount;
        if row.unit == Some(Sats) {
          credit := amount * 1000;
        } else if row.unit == Some(Btc) {
          credit := amount * 100000000 * 1000;
        }
        var user := users[row.payee];
        if !IsBigint(credit) || !IsBigint(user.balance + credit) {
          return Err(OUT_OF_RANGE);
        }
        users := users[row.payee := user.(balance := user.balance + credit)];
      }
      r := Ok(());
    }

    /** The sum over the enabled schedules that do not exempt the payee. */
    static method AdmissionFeeAmount(schedules: seq<FeeSchedule>, pubkey: string) returns (sum: nat)
      ensures sum == AdmissionFee(schedules, pubkey)
    {
      sum := 0;
      for i := 0 to |schedules|
        invariant sum == AdmissionFee(schedules[..i], pubkey)
      {
        assert schedules[..i + 1][..i] == schedules[..i];
        var whitelisted := IsWhitelisted(schedules[i].whitelist, pubkey);
        if schedules[i].enabled && !whitelisted {
          sum := sum + schedules[i].amount;
        }
      }
      assert schedules[..|schedules|] == schedules;
    }

    static method IsWhitelisted(prefixes: seq<string>, pubkey: string) returns (whitelisted: bool)
      ensures whitelisted <==> Exempts(prefixes, pubkey)
    {
      whitelisted := false;
      for i := 0 to |prefixes|
        invariant whitelisted <==> exists k :: 0 <= k < i && prefixes[k] <= pubkey
      {
        whitelisted := whitelisted || prefixes[i] <= pubkey;
      }
    }

    /** A failed guard throws before the transaction begins. */
    method ConfirmInvoice(invoice: Invoice, schedules: seq<FeeSchedule>) returns (r: Result<(), string>)
      modifies this
      ensures Contents() == Perform(old(Contents()), Operation.ConfirmInvoice(invoice, schedules))
      ensures match Confirm(old(Contents()), invoice, schedules)
              case Ok(_) => r == Ok(())
              case Err(error) => r == Err(error)
    {
      var transaction := new Transaction();
      var guard := GuardError(invoice);
      if guard.Some? {
        var reported := Fail(transaction, guard.value);
        return Err(reported);
      }
      transaction.Begin(Contents());
      r := ConfirmInvoiceProcedure(invoice.id, invoice.amountPaid.value);
      if r.Err? {
        var reported := Fail(transaction, r.error);
        return Err(reported);
      }
      var paid := invoice.amountPaid.value;
      if invoice.unit == Some(Sats) {
        paid := paid * 1000;
      } else if invoice.unit == Some(Btc) {
        paid := paid * (1000 * 100000000);
      }
      var fee := AdmissionFeeAmount(schedules, invoice.pubkey);
      if fee > 0 && paid >= fee {
        Upsert(ToBuffer(invoice.pubkey), Some(true));
      }
      var _ := transaction.Commit();
    }

    /** Takes the amount if the balance covers it, and nothing otherwise. */
    method ChargeUser(pubkey: Bytes, amount: int) returns (r: Result<nat, string>)
      modifies this
      ensures Contents() == Perform(old(Contents()), Operation.ChargeUser(pubkey, amount))
      ensures r == Ok(1) <==> IsBigint(amount) && pubkey in old(users) && old(users[pubkey]).balance >= amount
                              && IsBigint(old(users[pubkey]).balance - amount)
      ensures r == Ok(1) ==>
                users == old(users)[pubkey := old(users[pubkey]).(balance := old(users[pubkey]).balance - amount)]
      ensures r != Ok(1) ==> Contents() == old(Contents())
    {
      if !IsBigint(amount) {
        return Err(OUT_OF_RANGE);
      }
      if pubkey !in users {
        return Ok(0);
      }
      var left := users[pubkey].balance - amount;
      if !IsBigint(left) {
        return Err(OUT_OF_RANGE);
      }
      if left < 0 {
        return Ok(0);
      }
      users := users[pubkey := users[pubkey].(balance := left)];
      r := Ok(1);
    }
  }
}
