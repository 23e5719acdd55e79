/** The payroll's accounts taken together: a payroll with the employee accounts
    derived from it, the instructions lifted to that book, and what holds over
    any sequence of instructions. A failed instruction rolls back completely,
    so the book after it is the book before it. */
module Ledger {
  import opened Outcome
  import opened Ints
  import opened Accounts
  import Instructions
  import NetPay

  /** A payroll account and its employee accounts, keyed by employee id. */
  datatype Book = Book(payroll: Payroll, employees: map<Bytes, Employee>)

  /** The payroll counts exactly its employees, and each employee account sits
      under its own id and names this payroll as its owner. */
  predicate Valid(b: Book) {
    && b.payroll.employeeCount == |b.employees|
    && forall id :: id in b.employees ==>
         b.employees[id].employeeId == id && b.employees[id].payroll == b.payroll.payrollId
  }

  /** The payroll fields no instruction after `initialize_payroll` writes. */
  predicate SameSettings(b: Book, b': Book) {
    && b'.payroll.authority == b.payroll.authority
    && b'.payroll.payrollId == b.payroll.payrollId
    && b'.payroll.paymentToken == b.payroll.paymentToken
    && b'.payroll.taxRate == b.payroll.taxRate
  }

  /** All payroll books, keyed by payroll id. */
  type Registry = map<Bytes, Book>

  /** `initialize_payroll` at the registry: creating the payroll account fails
      when an account for that id already exists. */
  function InitializePayroll(registry: Registry, authority: Pubkey, payrollId: Bytes,
                             paymentToken: Pubkey, taxRate: u16): (r: Result<Registry, Failure>)
    ensures r.Err? <==> payrollId in registry
    ensures r.Err? ==> r.error == AccountInUse
    ensures r.Ok? ==>
              && r.value.Keys == registry.Keys + {payrollId}
              && (forall id :: id in registry ==> r.value[id] == registry[id])
              && Valid(r.value[payrollId])
              && r.value[payrollId].employees == map[]
              && r.value[payrollId].payroll.totalFunds == 0
              && r.value[payrollId].payroll.isActive
              && r.value[payrollId].payroll.taxRate == taxRate
  {
    if payrollId in registry then Err(AccountInUse)
    else
      var payroll := Instructions.InitializePayroll(authority, payrollId, paymentToken, taxRate);
      Ok(registry[payrollId := Book(payroll, map[])])
  }

  /** `add_employee` on a book: creating the employee account fails when one
      already exists under that id. */
  function AddEmployee(b: Book, employeeId: Bytes, wallet: Pubkey, salaryAmount: u64,
                       deductions: u64, frequency: PaymentFrequency): (r: Result<Book, Failure>)
    ensures employeeId in b.employees ==> r == Err(AccountInUse)
    ensures employeeId !in b.employees ==>
              (r.Ok? <==> Instructions.AddEmployee(b.payroll, employeeId, wallet, salaryAmount,
                                                  deductions, frequency).Ok?)
    ensures r.Ok? ==>
              && employeeId !in b.employees
              && r.value.employees.Keys == b.employees.Keys + {employeeId}
              && (forall id :: id in b.employees ==> r.value.employees[id] == b.employees[id])
              && r.value.employees[employeeId].salaryAmount == salaryAmount
              && r.value.employees[employeeId].deductions == deductions
              && r.value.employees[employeeId].lastPayment == 0
              && r.value.employees[employeeId].isActive
              && r.value.payroll.totalFunds == b.payroll.totalFunds
              && SameSettings(b, r.value)
    ensures Valid(b) && r.Ok? ==> Valid(r.value)
  {
    if employeeId in b.employees then Err(AccountInUse)
    else match Instructions.AddEmployee(b.payroll, employeeId, wallet, salaryAmount, deductions, frequency)
      case Err(e) => Err(e)
      case Ok(added) => Ok(Book(added.payroll, b.employees[employeeId := added.employee]))
  }

  /** The book after a payment, with the amount paid. */
  datatype Paid = Paid(book: Book, netPay: u64)

  /** `process_payment` on a book: the employee account must exist. */
  function ProcessPayment(b: Book, employeeId: Bytes, now: i64, transferOk: bool): (r: Result<Paid, Failure>)
    ensures employeeId !in b.employees ==> r == Err(AccountNotInitialized)
    ensures employeeId in b.employees ==>
              (r.Ok? <==> Instructions.ProcessPayment(b.payroll, b.employees[employeeId], now, transferOk).Ok?)
    ensures r.Ok? ==>
              && employeeId in b.employees
              && Some(r.value.netPay)
                 == NetPay.NetPay(b.employees[employeeId].salaryAmount, b.payroll.taxRate,
                                  b.employees[employeeId].deductions)
              && r.value.book.payroll.totalFunds + r.value.netPay == b.payroll.totalFunds
              && r.value.book.payroll == b.payroll.(totalFunds := r.value.book.payroll.totalFunds)
              && r.value.book.employees == b.employees[employeeId := b.employees[employeeId].(lastPayment := now)]
    ensures Valid(b) && r.Ok? ==> Valid(r.value.book)
  {
    if employeeId !in b.employees then Err(AccountNotInitialized)
    else match Instructions.ProcessPayment(b.payroll, b.employees[employeeId], now, transferOk)
      case Err(e) => Err(e)
      case Ok(payment) =>
        Ok(Paid(Book(payment.payroll, b.employees[employeeId := payment.employee]), payment.netPay))
  }

  /** `deposit_funds` on a book. */
  function DepositFunds(b: Book, amount: u64, transferOk: bool): (r: Result<Book, Failure>)
    ensures r.Ok? <==> Instructions.DepositFunds(b.payroll, amount, transferOk).Ok?
    ensures r.Ok? ==>
              && r.value.payroll.totalFunds == b.payroll.totalFunds + amount
              && r.value.payroll == b.payroll.(totalFunds := r.value.payroll.totalFunds)
              && r.value.employees == b.employees
  {
    match Instructions.DepositFunds(b.payroll, amount, transferOk)
    case Err(e) => Err(e)
    case Ok(payroll) => Ok(Book(payroll, b.employees))
  }

  /** `pause_payroll` on a book. */
  function PausePayroll(b: Book): (r: Result<Book, Failure>)
    ensures r.Ok? <==> b.payroll.isActive
    ensures r.Ok? ==> r.value == b.(payroll := b.payroll.(isActive := false))
  {
    match Instructions.PausePayroll(b.payroll)
    case Err(e) => Err(e)
    case Ok(payroll) => Ok(Book(payroll, b.employees))
  }

  /** `resume_payroll` on a book. */
  function ResumePayroll(b: Book): (r: Result<Book, Failure>)
    ensures r.Ok? <==> !b.payroll.isActive
    ensures r.Ok? ==> r.value == b.(payroll := b.payroll.(isActive := true))
  {
    match Instructions.ResumePayroll(b.payroll)
    case Err(e) => Err(e)
    case Ok(payroll) => Ok(Book(payroll, b.employees))
  }

  /** One instruction against a book, with its clock reading and token
      transfer outcome. */
  datatype Op =
    | Hire(employeeId: Bytes, wallet: Pubkey, salaryAmount: u64, deductions: u64, frequency: PaymentFrequency)
    | Deposit(amount: u64, transferOk: bool)
    | Pay(employeeId: Bytes, now: i64, transferOk: bool)
    | Pause
    | Resume

  function Apply(b: Book, op: Op): Result<Book, Failure> {
    match op
    case Hire(id, wallet, salary, deductions, frequency) => AddEmployee(b, id, wallet, salary, deductions, frequency)
    case Deposit(amount, ok) => DepositFunds(b, amount, ok)
    case Pay(id, now, ok) =>
      (match ProcessPayment(b, id, now, ok)
       case Err(e) => Err(e)
       case Ok(paid) => Ok(paid.book))
    case Pause => PausePayroll(b)
    case Resume => ResumePayroll(b)
  }

  /** What `op` moved into the vault: the amount of a deposit that went through. */
  function Credit(b: Book, op: Op): nat {
    match op
    case Deposit(amount, ok) => if DepositFunds(b, amount, ok).Ok? then amount else 0
    case _ => 0
  }

  /** What `op` paid out of the vault: the net pay of a payment that went through. */
  function Debit(b: Book, op: Op): nat {
    match op
    case Pay(id, now, ok) =>
      (match ProcessPayment(b, id, now, ok)
       case Ok(paid) => paid.netPay
       case Err(_) => 0)
    case _ => 0
  }

  /** The book after `op`: its result, or the same book when it failed. Every
      step moves the funds by exactly what it credited or debited, and keeps
      the book valid and its settings. */
  function Next(b: Book, op: Op): (b': Book)
    ensures b'.payroll.totalFunds + Debit(b, op) == b.payroll.totalFunds + Credit(b, op)
    ensures Valid(b) ==> Valid(b')
    ensures SameSettings(b, b')
  {
    match Apply(b, op)
    case Ok(next) => next
    case Err(_) => b
  }

  /** The book after running `ops` in order. */
  function Replay(b: Book, ops: seq<Op>): Book
    decreases |ops|
  {
    if ops == [] then b else Replay(Next(b, ops[0]), ops[1..])
  }

  /** Everything the deposits in `ops` credited. */
  function Deposited(b: Book, ops: seq<Op>): nat
    decreases |ops|
  {
    if ops == [] then 0 else Credit(b, ops[0]) + Deposited(Next(b, ops[0]), ops[1..])
  }

  /** Everything the payments in `ops` paid out. */
  function PaidOut(b: Book, ops: seq<Op>): nat
    decreases |ops|
  {
    if ops == [] then 0 else Debit(b, ops[0]) + PaidOut(Next(b, ops[0]), ops[1..])
  }

  /** Funds are conserved: after any sequence of instructions the funds are the
      starting funds plus what was deposited minus what was paid out. Since the
      funds are a `u64`, the payments never exceed what was there. */
  lemma {:induction false} FundsConservation(b: Book, ops: seq<Op>)
    ensures Replay(b, ops).payroll.totalFunds + PaidOut(b, ops) == b.payroll.totalFunds + Deposited(b, ops)
    ensures PaidOut(b, ops) <= b.payroll.totalFunds + Deposited(b, ops)
    decreases |ops|
  {
    if ops != [] {
      FundsConservation(Next(b, ops[0]), ops[1..]);
    }
  }

  /** Any sequence of instructions keeps a valid book valid and leaves its
      settings untouched. */
  lemma {:induction false} ReplayPreservesValid(b: Book, ops: seq<Op>)
    requires Valid(b)
    ensures Valid(Replay(b, ops))
    ensures SameSettings(b, Replay(b, ops))
    decreases |ops|
  {
    if ops != [] {
      ReplayPreservesValid(Next(b, ops[0]), ops[1..]);
    }
  }

  /** From a freshly initialized payroll, the funds are always the deposits
      minus the net pays paid, and the payroll counts exactly its employees. */
  lemma FundsFromInitialization(registry: Registry, authority: Pubkey, payrollId: Bytes,
                                paymentToken: Pubkey, taxRate: u16, ops: seq<Op>)
    requires InitializePayroll(registry, authority, payrollId, paymentToken, taxRate).Ok?
    ensures var b := InitializePayroll(registry, authority, payrollId, paymentToken, taxRate).value[payrollId];
            && Replay(b, ops).payroll.totalFunds == Deposited(b, ops) - PaidOut(b, ops)
            && Valid(Replay(b, ops))
            && Replay(b, ops).payroll.taxRate == taxRate
  {
    var b := InitializePayroll(registry, authority, payrollId, paymentToken, taxRate).value[payrollId];
    FundsConservation(b, ops);
    ReplayPreservesValid(b, ops);
  }
}
