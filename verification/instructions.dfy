/** The payroll program's instruction handlers, each a guarded atomic update of
    the accounts it is given. The clock is the `now` parameter; each token
    transfer is reduced to whether the token program accepted it. No handler
    compares the signer with `payroll.authority`, so the model takes no signer. */
module Instructions {
  import opened Outcome
  import opened Ints
  import opened Accounts
  import NetPay

  /** The longest employee id, in bytes, `add_employee` accepts. */
  const MAX_EMPLOYEE_ID_LEN: nat := 64

  /** `initialize_payroll`: a fresh, active, empty and unfunded payroll. The tax
      rate is stored as given, whatever its value. */
  function InitializePayroll(authority: Pubkey, payrollId: Bytes, paymentToken: Pubkey, taxRate: u16): (p: Payroll)
    ensures p.isActive
    ensures p.totalFunds == 0 && p.employeeCount == 0
    ensures p.taxRate == taxRate
    ensures p.authority == authority && p.payrollId == payrollId && p.paymentToken == paymentToken
  {
    Payroll(authority, payrollId, paymentToken, 0, true, taxRate, 0)
  }

  /** What a successful `add_employee` writes back. */
  datatype Added = Added(payroll: Payroll, employee: Employee)

  /** `add_employee`: registers an active employee that may be paid as soon as
      a full interval has passed since time 0. */
  function AddEmployee(
    payroll: Payroll, employeeId: Bytes, wallet: Pubkey,
    salaryAmount: u64, deductions: u64, frequency: PaymentFrequency
  ): (r: Result<Added, Failure>)
    ensures !payroll.isActive ==> r == Err(Program(PayrollInactive))
    ensures payroll.isActive && |employeeId| > MAX_EMPLOYEE_ID_LEN ==> r == Err(Program(InvalidEmployeeId))
    ensures r.Ok? <==>
              payroll.isActive && |employeeId| <= MAX_EMPLOYEE_ID_LEN && payroll.employeeCount < U64_LIMIT - 1
    ensures r.Ok? ==> r.value.payroll == payroll.(employeeCount := payroll.employeeCount + 1)
    ensures r.Ok? ==>
              r.value.employee == Employee(payroll.payrollId, employeeId, wallet,
                                           salaryAmount, deductions, frequency, 0, true)
  {
    if !payroll.isActive then Err(Program(PayrollInactive))
    else if |employeeId| > MAX_EMPLOYEE_ID_LEN then Err(Program(InvalidEmployeeId))
    else
      var employee := Employee(payroll.payrollId, employeeId, wallet,
                               salaryAmount, deductions, frequency, 0, true);
      match CheckedAddU64(payroll.employeeCount, 1)
      case None => Err(ArithmeticOverflow)
      case Some(count) => Ok(Added(payroll.(employeeCount := count), employee))
  }

  /** Whether a full payment interval has passed since the employee's last
      payment, measured in unbounded integers. */
  predicate IntervalElapsed(employee: Employee, now: i64) {
    now - employee.lastPayment >= PaymentInterval(employee.paymentFrequency)
  }

  /** Every check of `process_payment` before the funds check passes, and its
      net pay is defined. */
  predicate PaymentComputable(payroll: Payroll, employee: Employee, now: i64) {
    && payroll.isActive
    && employee.isActive
    && InI64(now - employee.lastPayment)
    && IntervalElapsed(employee, now)
    && NetPay.NetPay(employee.salaryAmount, payroll.taxRate, employee.deductions).Some?
  }

  /** What a successful `process_payment` writes back, with the amount paid. */
  datatype Payment = Payment(payroll: Payroll, employee: Employee, netPay: u64)

  /** `process_payment`: pays one employee from the payroll's funds, using the
      same net-pay formula the circuit evaluates. */
  function ProcessPayment(payroll: Payroll, employee: Employee, now: i64, transferOk: bool): (r: Result<Payment, Failure>)
    ensures !payroll.isActive ==> r == Err(Program(PayrollInactive))
    ensures payroll.isActive && !employee.isActive ==> r == Err(Program(EmployeeInactive))
    ensures r == Err(Program(PayrollInactive)) <==> !payroll.isActive
    ensures r == Err(Program(EmployeeInactive)) <==> payroll.isActive && !employee.isActive
    ensures r == Err(Program(PaymentTooSoon)) <==>
              payroll.isActive && employee.isActive && InI64(now - employee.lastPayment)
              && !IntervalElapsed(employee, now)
    ensures payroll.isActive && employee.isActive && !InI64(now - employee.lastPayment)
            ==> r == Err(ArithmeticOverflow)
    ensures (payroll.isActive && employee.isActive && InI64(now - employee.lastPayment)
             && IntervalElapsed(employee, now)
             && NetPay.NetPay(employee.salaryAmount, payroll.taxRate, employee.deductions).None?)
            ==> r == Err(ArithmeticOverflow)
    ensures (PaymentComputable(payroll, employee, now)
             && NetPay.NetPay(employee.salaryAmount, payroll.taxRate, employee.deductions).value
                <= payroll.totalFunds
             && !transferOk) ==> r == Err(TransferFailed)
    ensures r == Err(Program(InsufficientFunds)) <==>
              PaymentComputable(payroll, employee, now)
              && payroll.totalFunds
                 < NetPay.NetPay(employee.salaryAmount, payroll.taxRate, employee.deductions).value
    ensures r.Ok? <==>
              PaymentComputable(payroll, employee, now)
              && NetPay.NetPay(employee.salaryAmount, payroll.taxRate, employee.deductions).value
                 <= payroll.totalFunds
              && transferOk
    ensures r.Ok? ==>
              && Some(r.value.netPay) == NetPay.NetPay(employee.salaryAmount, payroll.taxRate, employee.deductions)
              && r.value.payroll.totalFunds + r.value.netPay == payroll.totalFunds
              && r.value.payroll == payroll.(totalFunds := r.value.payroll.totalFunds)
              && r.value.employee == employee.(lastPayment := now)
  {
    if !payroll.isActive then Err(Program(PayrollInactive))
    else if !employee.isActive then Err(Program(EmployeeInactive))
    else match CheckedSubI64(now, employee.lastPayment)
      case None => Err(ArithmeticOverflow)
      case Some(sinceLast) =>
        if sinceLast < PaymentInterval(employee.paymentFrequency) then Err(Program(PaymentTooSoon))
        else match NetPay.NetPay(employee.salaryAmount, payroll.taxRate, employee.deductions)
          case None => Err(ArithmeticOverflow)
          case Some(netPay) =>
            if payroll.totalFunds < netPay then Err(Program(InsufficientFunds))
            else if !transferOk then Err(TransferFailed)
            else Ok(Payment(payroll.(totalFunds := payroll.totalFunds - netPay),
                            employee.(lastPayment := now), netPay))
  }

  /** `deposit_funds`: credits the payroll with the amount moved into its
      vault. Any amount is accepted, zero included. */
  function DepositFunds(payroll: Payroll, amount: u64, transferOk: bool): (r: Result<Payroll, Failure>)
    ensures !payroll.isActive ==> r == Err(Program(PayrollInactive))
    ensures r == Err(Program(PayrollInactive)) <==> !payroll.isActive
    ensures payroll.isActive && !transferOk ==> r == Err(TransferFailed)
    ensures payroll.isActive && transferOk && payroll.totalFunds + amount >= U64_LIMIT
            ==> r == Err(ArithmeticOverflow)
    ensures r.Ok? <==> payroll.isActive && transferOk && payroll.totalFunds + amount < U64_LIMIT
    ensures r.Ok? ==> r.value.totalFunds - amount == payroll.totalFunds
    ensures r.Ok? ==> r.value == payroll.(totalFunds := r.value.totalFunds)
  {
    if !payroll.isActive then Err(Program(PayrollInactive))
    else if !transferOk then Err(TransferFailed)
    else match CheckedAddU64(payroll.totalFunds, amount)
      case None => Err(ArithmeticOverflow)
      case Some(total) => Ok(payroll.(totalFunds := total))
  }

  /** `pause_payroll`: deactivates an active payroll; anything else fails with
      `PayrollActive`. */
  function PausePayroll(payroll: Payroll): (r: Result<Payroll, Failure>)
    ensures r.Ok? <==> payroll.isActive
    ensures r.Err? ==> r.error == Program(PayrollActive)
    ensures r.Ok? ==> !r.value.isActive && r.value == payroll.(isActive := r.value.isActive)
  {
    if !payroll.isActive then Err(Program(PayrollActive))
    else Ok(payroll.(isActive := false))
  }

  /** `resume_payroll`: reactivates a paused payroll; anything else fails with
      `PayrollInactive`. */
  function ResumePayroll(payroll: Payroll): (r: Result<Payroll, Failure>)
    ensures r.Ok? <==> !payroll.isActive
    ensures r.Err? ==> r.error == Program(PayrollInactive)
    ensures r.Ok? ==> r.value.isActive && r.value == payroll.(isActive := r.value.isActive)
  {
    if payroll.isActive then Err(Program(PayrollInactive))
    else Ok(payroll.(isActive := true))
  }
}
