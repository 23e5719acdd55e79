/** The on-ledger records of the payroll program and its error taxonomy. */
module Accounts {
  import opened Ints

  /** Byte strings: identifiers (`String`s measured in UTF-8 bytes) and keys. */
  type Bytes = seq<u8>

  /** An account address; its derivation is not modelled. */
  type Pubkey = seq<u8>

  datatype PaymentFrequency = Weekly | BiWeekly | Monthly

  const SECONDS_PER_DAY: int := 24 * 60 * 60

  /** Seconds that must pass between two payments at this frequency:
      7, 14 and 30 days. */
  function PaymentInterval(f: PaymentFrequency): (secs: i64)
    ensures secs > 0 && secs % SECONDS_PER_DAY == 0
  {
    match f
    case Weekly => 7 * 24 * 60 * 60
    case BiWeekly => 14 * 24 * 60 * 60
    case Monthly => 30 * 24 * 60 * 60
  }

  /** The payroll account. The vault bump seed is left out with the rest of
      the address derivation. */
  datatype Payroll = Payroll(
    authority: Pubkey,
    payrollId: Bytes,
    paymentToken: Pubkey,
    employeeCount: u64,
    isActive: bool,
    taxRate: u16,          // basis points, 10000 = 100%; never validated
    totalFunds: u64
  )

  /** An employee account. `payroll` names the owning payroll by its id, from
      which the payroll account's address is derived. */
  datatype Employee = Employee(
    payroll: Bytes,
    employeeId: Bytes,
    wallet: Pubkey,
    salaryAmount: u64,
    deductions: u64,
    paymentFrequency: PaymentFrequency,
    lastPayment: i64,
    isActive: bool
  )

  /** The program's named errors. */
  datatype ErrorCode =
    | AbortedComputation
    | PayrollInactive
    | PayrollActive
    | EmployeeInactive
    | InvalidEmployeeId
    | PaymentTooSoon
    | InsufficientFunds
    | ClusterNotSet

  /** Why a transaction was rolled back. Besides the named errors, a checked
      arithmetic panic, a failed token transfer, and the two account
      constraints the ledger layer checks before an instruction runs. */
  datatype Failure =
    | Program(code: ErrorCode)
    | ArithmeticOverflow
    | TransferFailed
    | AccountInUse
    | AccountNotInitialized
}
