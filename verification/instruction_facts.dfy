/** Properties that relate several instruction calls, or an instruction and the
    circuit. */
module InstructionFacts {
  import opened Outcome
  import opened Ints
  import opened Accounts
  import opened Instructions
  import NetPay
  import Circuits

  /** Pausing and then resuming gives back the payroll that was paused. */
  lemma PauseThenResume(payroll: Payroll)
    requires payroll.isActive
    ensures PausePayroll(payroll).Ok?
    ensures ResumePayroll(PausePayroll(payroll).value) == Ok(payroll)
  {
  }

  /** Resuming and then pausing gives back the payroll that was resumed. */
  lemma ResumeThenPause(payroll: Payroll)
    requires !payroll.isActive
    ensures ResumePayroll(payroll).Ok?
    ensures PausePayroll(ResumePayroll(payroll).value) == Ok(payroll)
  {
  }

  /** A paused payroll rejects every instruction but `resume_payroll`. */
  lemma PausedPayrollRejects(
    payroll: Payroll, employee: Employee, now: i64, transferOk: bool,
    employeeId: Bytes, wallet: Pubkey, salaryAmount: u64, deductions: u64,
    frequency: PaymentFrequency, amount: u64)
    requires !payroll.isActive
    ensures AddEmployee(payroll, employeeId, wallet, salaryAmount, deductions, frequency)
            == Err(Program(PayrollInactive))
    ensures ProcessPayment(payroll, employee, now, transferOk) == Err(Program(PayrollInactive))
    ensures DepositFunds(payroll, amount, transferOk) == Err(Program(PayrollInactive))
    ensures PausePayroll(payroll) == Err(Program(PayrollActive))
    ensures ResumePayroll(payroll).Ok?
  {
  }

  /** After a payment at `now`, paying the same employee again before a full
      interval has passed, the same instant included, fails with
      `PaymentTooSoon`. */
  lemma RepeatPaymentTooSoon(payroll: Payroll, employee: Employee, now: i64, transferOk: bool,
                             later: i64, transferOk': bool)
    requires ProcessPayment(payroll, employee, now, transferOk).Ok?
    requires now <= later < now + PaymentInterval(employee.paymentFrequency)
    ensures var paid := ProcessPayment(payroll, employee, now, transferOk).value;
            ProcessPayment(paid.payroll, paid.employee, later, transferOk')
            == Err(Program(PaymentTooSoon))
  {
  }

  /** After a payment at `now`, a second payment once the interval has elapsed
      succeeds exactly when the remaining funds cover the same net pay and the
      transfer goes through. The elapsed time must itself fit in an `i64`, or
      the subtraction that measures it panics. */
  lemma PaymentAfterInterval(payroll: Payroll, employee: Employee, now: i64, transferOk: bool,
                             later: i64, transferOk': bool)
    requires ProcessPayment(payroll, employee, now, transferOk).Ok?
    requires later >= now + PaymentInterval(employee.paymentFrequency)
    requires InI64(later - now)
    ensures var paid := ProcessPayment(payroll, employee, now, transferOk).value;
            var again := ProcessPayment(paid.payroll, paid.employee, later, transferOk');
            && (again.Ok? <==> paid.netPay <= paid.payroll.totalFunds && transferOk')
            && (again.Ok? ==> again.value.netPay == paid.netPay)
  {
    var paid := ProcessPayment(payroll, employee, now, transferOk).value;
    assert paid.employee == employee.(lastPayment := now);
    assert paid.payroll.taxRate == payroll.taxRate && paid.payroll.isActive;
    assert IntervalElapsed(paid.employee, later);
    assert NetPay.NetPay(employee.salaryAmount, payroll.taxRate, employee.deductions) == Some(paid.netPay);
    assert PaymentComputable(paid.payroll, paid.employee, later);
  }

  /** The plaintext path of `process_payment` pays exactly what the circuit
      computes for the employee's salary and deductions and the payroll's rate;
      when the circuit has no result, no payment goes through. */
  lemma PaymentMatchesCircuit(payroll: Payroll, employee: Employee, now: i64, transferOk: bool)
    ensures var input := Circuits.PayrollInput(employee.salaryAmount, payroll.taxRate, employee.deductions);
            var r := ProcessPayment(payroll, employee, now, transferOk);
            && (r.Ok? ==> Circuits.CalculateNetPay(input) == Some(r.value.netPay))
            && (Circuits.CalculateNetPay(input).None? ==> r.Err?)
  {
  }

  /** A successful payment never pays more than the gross salary, and with a
      rate of at most 100% it pays salary minus tax minus deductions. */
  lemma PaymentWithinSalary(payroll: Payroll, employee: Employee, now: i64, transferOk: bool)
    requires ProcessPayment(payroll, employee, now, transferOk).Ok?
    ensures ProcessPayment(payroll, employee, now, transferOk).value.netPay <= employee.salaryAmount
    ensures payroll.taxRate <= NetPay.BASIS_POINTS ==>
              ProcessPayment(payroll, employee, now, transferOk).value.netPay
              == employee.salaryAmount - NetPay.TaxAmount(employee.salaryAmount, payroll.taxRate)
                 - employee.deductions
  {
    if payroll.taxRate <= NetPay.BASIS_POINTS {
      NetPay.NetPayDefinedIff(employee.salaryAmount, payroll.taxRate, employee.deductions);
    }
  }
}
