/** A worked run of the payroll from initialization to a second, premature
    payment. */
module Scenarios {
  import opened Outcome
  import opened Ints
  import opened Accounts
  import Ledger

  const PAYROLL_ID: Bytes := [0x61, 0x63, 0x6d, 0x65]   // "acme"
  const EMPLOYEE_ID: Bytes := [0x61, 0x6c, 0x69, 0x63, 0x65]   // "alice"
  const NOW: i64 := 1_700_000_000

  /** A 10% payroll funded with 200,000,000 pays an employee earning
      100,000,000 with 5,000,000 of deductions a net 85,000,000, leaving
      115,000,000; paying again at the same instant fails with `PaymentTooSoon`
      and changes nothing. */
  lemma DepositThenPay(authority: Pubkey, paymentToken: Pubkey, wallet: Pubkey)
    ensures Ledger.InitializePayroll(map[], authority, PAYROLL_ID, paymentToken, 1000).Ok?
    ensures var b0 := Ledger.InitializePayroll(map[], authority, PAYROLL_ID, paymentToken, 1000).value[PAYROLL_ID];
            var b1 := Ledger.Next(b0, Ledger.Hire(EMPLOYEE_ID, wallet, 100_000_000, 5_000_000, Weekly));
            var b2 := Ledger.Next(b1, Ledger.Deposit(200_000_000, true));
            var paid := Ledger.ProcessPayment(b2, EMPLOYEE_ID, NOW, true);
            && b2.payroll.totalFunds == 200_000_000
            && paid.Ok?
            && paid.value.netPay == 85_000_000
            && paid.value.book.payroll.totalFunds == 115_000_000
            && Ledger.ProcessPayment(paid.value.book, EMPLOYEE_ID, NOW, true)
               == Err(Program(PaymentTooSoon))
  {
    var b0 := Ledger.InitializePayroll(map[], authority, PAYROLL_ID, paymentToken, 1000).value[PAYROLL_ID];
    var b1 := Ledger.Next(b0, Ledger.Hire(EMPLOYEE_ID, wallet, 100_000_000, 5_000_000, Weekly));
    assert EMPLOYEE_ID in b1.employees;
    var b2 := Ledger.Next(b1, Ledger.Deposit(200_000_000, true));
    assert b2.employees == b1.employees;
  }
}
