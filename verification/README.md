# Confidential payroll: a Dafny model of the payroll program and its net-pay circuit

This project models the on-ledger payroll program of the confidential payroll
system and the one arithmetic circuit it shares with the MPC cluster.

- **Net-pay formula** (`NetPay`). Tax is `floor(salary * tax_rate / 10000)`. It is
  computed in 128 bits and cast back to 64 bits with Rust's truncating `as u64`.
  Net pay is `salary - tax - deductions` in overflow-checked 64-bit arithmetic.
  The formula is defined once. The circuit (`Circuits.CalculateNetPay`) and the
  plaintext payment path (`Instructions.ProcessPayment`) both call it.
- **Instructions** (`Instructions`). `initialize_payroll`, `add_employee`,
  `process_payment`, `deposit_funds`, `pause_payroll` and `resume_payroll` are
  pure functions over the `Payroll` and `Employee` records. Each returns the
  updated accounts or a `Failure`. A failure is either a named `ErrorCode`, a
  checked-arithmetic panic (`ArithmeticOverflow`) or a rejected token transfer
  (`TransferFailed`). Any failure rolls the whole transaction back.
- **Callback** (`Callback`). `calculate_net_pay_callback` turns a successful
  computation output into a `NetPayCalculated` event. Any other output gives
  `AbortedComputation`.
- **Ledger** (`Ledger`). A payroll and its employee accounts form a `Book`.
  Payrolls are kept in a registry keyed by payroll id. The instructions are
  lifted to these collections, with the `init` account constraint that refuses
  an account that already exists. Replaying any sequence of instructions
  conserves funds: the funds equal the deposits minus the net pay paid out.

Integers are Rust's widths as subset types of `int` (`u16`, `u64`, `u128`,
`i64`). The clock reading (`Clock::get()`) is the `now` parameter. The outcome of
each SPL token transfer is the `transferOk` parameter.

The program omits several checks a payroll might be expected to make; the
model follows the code:
- `initialize_payroll` stores any 16-bit tax rate. It has no "at most 10000" check.
- `deposit_funds` accepts an amount of zero.
- No instruction compares the signer with `payroll.authority`, so the model has
  no signer.
- A negative net pay has no named error. The checked subtraction panics
  instead (`ArithmeticOverflow`).
- There is no duplicate-id error beyond the account constraint.

Because the tax rate is not validated, a rate above 10000 can make the cast to
64 bits wrap. `NetPay.RateAboveFullCanWrap` exhibits such a case: a payment whose
real tax exceeds the salary still yields a positive net pay. The lemmas that
rely on the tax fitting in the salary therefore require `tax_rate <= 10000`.

## Model

| member | source | states |
|---|---|---|
| NetPay.TaxProductFitsU128 | encrypted-ixs/src/lib.rs:16 | the 128-bit product of any 64-bit salary and 16-bit rate never overflows |
| NetPay.TaxAmount | encrypted-ixs/src/lib.rs:16 | the tax is the floor of salary times rate over 10000 |
| NetPay.NetPay | encrypted-ixs/src/lib.rs:16-17 | net pay is defined exactly when the truncated tax plus deductions fit in the salary; it then makes up the rest of the salary and never exceeds it |
| NetPay.TaxWithinSalary | encrypted-ixs/src/lib.rs:9-16 | with a rate of at most 10000 basis points the tax is at most the salary, so the cast to u64 is lossless |
| NetPay.NetPayDefinedIff | encrypted-ixs/src/lib.rs:16-17 | for rates up to 100%, net pay is defined iff tax plus deductions are at most the salary, and then equals salary minus tax minus deductions |
| NetPay.ZeroRate | encrypted-ixs/src/lib.rs:16-17 | a zero rate withholds no tax: net pay is salary minus deductions, defined iff deductions fit |
| NetPay.FullRate | encrypted-ixs/src/lib.rs:16-17 | a 10000 rate withholds the whole salary: net pay is defined only with zero deductions, and is then zero |
| NetPay.TaxMonotoneInRate | encrypted-ixs/src/lib.rs:16 | a higher rate never gives a lower tax |
| NetPay.NetPayMonotoneInRate | encrypted-ixs/src/lib.rs:16-17 | up to 100%, a higher rate never raises net pay and never makes an undefined net pay defined |
| NetPay.NetPayMonotoneInDeductions | encrypted-ixs/src/lib.rs:17 | higher deductions lower net pay by exactly the difference and never make it defined |
| NetPay.RateAboveFullCanWrap | encrypted-ixs/src/lib.rs:16-17 | at a 200% rate on the largest salary the tax exceeds the salary, yet the wrapped cast leaves a net pay of 1 |
| NetPay.WorkedExample | encrypted-ixs/src/lib.rs:16-17 | 10% of 100,000,000 with 5,000,000 deductions nets 85,000,000 |
| Circuits.CalculateNetPay | encrypted-ixs/src/lib.rs:13-19 | the circuit's result never exceeds the salary and is the salary less the truncated tax and the deductions; for rates up to 100% it exists iff tax plus deductions fit in the salary, and is then salary minus tax minus deductions |
| Ints.TruncateToU64 | programs/confidential_payroll/src/lib.rs:143 | `as u64` keeps values below 2^64 and otherwise drops a multiple of 2^64 |
| Ints.CheckedAddU64 | programs/confidential_payroll/src/lib.rs:203 | a checked `u64` addition succeeds exactly when the sum stays below 2^64, and then yields the sum; otherwise the instruction panics |
| Ints.CheckedSubU64 | programs/confidential_payroll/src/lib.rs:143 | a checked `u64` subtraction succeeds exactly when it does not go below zero, and then yields the difference; otherwise the instruction panics |
| Ints.CheckedSubI64 | programs/confidential_payroll/src/lib.rs:132 | the elapsed time is defined exactly when the difference fits in an i64 |
| Ints.LeBytesRoundTrip | programs/confidential_payroll/src/lib.rs:118 | decoding the little-endian bytes of a number that fits the width gives the number back |
| Ints.LeBytesRoundTripBytes | programs/confidential_payroll/src/lib.rs:118 | encoding the number a byte string denotes gives the byte string back |
| Accounts.PaymentInterval | programs/confidential_payroll/src/lib.rs:133-137 | each frequency's interval is a positive whole number of days |
| Instructions.InitializePayroll | programs/confidential_payroll/src/lib.rs:18-40 | a new payroll is active, unfunded and has no employees, and it stores the tax rate unvalidated |
| Instructions.AddEmployee | programs/confidential_payroll/src/lib.rs:42-75 | a paused payroll fails with PayrollInactive; an id over 64 bytes fails with InvalidEmployeeId; otherwise it succeeds unless the count overflows, adding one active employee with last payment 0 and incrementing the count by one, with nothing else changed |
| Instructions.ProcessPayment | programs/confidential_payroll/src/lib.rs:123-183 | each error exactly under its condition, in order: PayrollInactive, EmployeeInactive, a panic when the elapsed time overflows an i64, PaymentTooSoon before the interval, a panic (no named error) when net pay would be negative, InsufficientFunds when funds are below the net pay, TransferFailed when the transfer is refused; success exactly when all checks pass and the transfer goes through, debiting exactly the shared formula's net pay, setting last payment to now and changing nothing else |
| Instructions.DepositFunds | programs/confidential_payroll/src/lib.rs:185-212 | fails with PayrollInactive exactly when paused, then TransferFailed on a refused transfer, then a panic on overflow; succeeds iff active, transferred and not overflowing, raising the funds by exactly the amount, zero included |
| Instructions.PausePayroll | programs/confidential_payroll/src/lib.rs:214-225 | succeeds only from the active state, otherwise PayrollActive; flips only the active flag |
| Instructions.ResumePayroll | programs/confidential_payroll/src/lib.rs:227-238 | succeeds only from the paused state, otherwise PayrollInactive; flips only the active flag |
| Callback.CalculateNetPayCallback | programs/confidential_payroll/src/lib.rs:106-121 | any non-success output aborts with AbortedComputation; a success emits exactly the first ciphertext and 16 bytes that decode to the output nonce |
| InstructionFacts.PauseThenResume | programs/confidential_payroll/src/lib.rs:214-238 | pausing then resuming restores the original payroll |
| InstructionFacts.ResumeThenPause | programs/confidential_payroll/src/lib.rs:214-238 | resuming then pausing restores the original payroll |
| InstructionFacts.PausedPayrollRejects | programs/confidential_payroll/src/lib.rs:52-229 | on a paused payroll, adding, paying and depositing fail with PayrollInactive, pausing fails with PayrollActive, and only resuming succeeds |
| InstructionFacts.RepeatPaymentTooSoon | programs/confidential_payroll/src/lib.rs:131-171 | after a payment at now, another payment before a full interval has passed, at the same instant included, fails with PaymentTooSoon |
| InstructionFacts.PaymentAfterInterval | programs/confidential_payroll/src/lib.rs:131-171 | once the interval has passed, a second payment succeeds iff the remaining funds cover the same net pay and the transfer goes through |
| InstructionFacts.PaymentMatchesCircuit | programs/confidential_payroll/src/lib.rs:141-143 | the plaintext payment pays exactly the circuit's net pay for the same salary, rate and deductions, and no payment goes through when the circuit has no result |
| InstructionFacts.PaymentWithinSalary | programs/confidential_payroll/src/lib.rs:142-143 | a payment never exceeds the gross salary, and for rates up to 100% it is salary minus tax minus deductions |
| Ledger.InitializePayroll | programs/confidential_payroll/src/lib.rs:331-341 | creating a payroll fails with AccountInUse iff the id is taken; otherwise it adds one valid, active, empty, unfunded payroll with the given rate and leaves the others unchanged |
| Ledger.AddEmployee | programs/confidential_payroll/src/lib.rs:358-374 | an existing employee id fails with AccountInUse; a new one is added with the given pay, last payment 0 and active, the existing employees and funds unchanged, and the book stays valid |
| Ledger.ProcessPayment | programs/confidential_payroll/src/lib.rs:382-395 | a missing employee fails; a payment debits exactly the shared formula's net pay for that employee's salary and deductions and the payroll's rate, and changes only that employee's last payment |
| Ledger.DepositFunds | programs/confidential_payroll/src/lib.rs:185-212 | a deposit raises the book's funds by the amount and leaves the employees unchanged |
| Ledger.PausePayroll | programs/confidential_payroll/src/lib.rs:214-225 | pausing a book changes only the payroll's active flag |
| Ledger.ResumePayroll | programs/confidential_payroll/src/lib.rs:227-238 | resuming a book changes only the payroll's active flag |
| Ledger.Next | programs/confidential_payroll/src/lib.rs:123-212 | every instruction moves the funds by exactly what it credited or debited, keeps the book valid and leaves authority, id, token and rate unchanged |
| Ledger.FundsConservation | programs/confidential_payroll/src/lib.rs:170-203 | after any sequence of instructions the funds are the starting funds plus deposits minus paid net pay, and payouts never exceed what was available |
| Ledger.ReplayPreservesValid | programs/confidential_payroll/src/lib.rs:52-65 | any sequence of instructions keeps the employee count equal to the number of employees and keeps the settings |
| Ledger.FundsFromInitialization | programs/confidential_payroll/src/lib.rs:27-30 | from a new payroll, the funds always equal deposits minus paid net pay |
| Scenarios.DepositThenPay | programs/confidential_payroll/src/lib.rs:123-203 | depositing 200,000,000 and paying 85,000,000 leaves 115,000,000; an immediate second payment fails with PaymentTooSoon |

## Left out

- Token transfers (`token::transfer`): the SPL token program is external. Each transfer is a boolean outcome. Its failure rolls the instruction back as `TransferFailed`.
- `init_calculate_net_pay_comp_def` and the queuing instruction `calculate_net_pay`: their behaviour lives in the Arcium library, which is not part of this model. This covers the computation-definition lifecycle, offsets, the mempool and the fee pool.
- Encryption, key agreement and nonces (`Enc<Shared, …>`, `to_arcis`, `from_arcis`): these are opaque library types. The circuit is modelled on plaintexts, and ciphertexts are opaque 32-byte blocks.
- Circuits.CalculateNetPay: the behaviour of an underflowing subtraction inside the MPC circuit is defined by the Arcis compiler, which is not part of this model. The model assumes the same checked subtraction as the program, with no result.
- Callback.ComputationOutputs: the library's non-success variants are not shown. They are collapsed into one `NotSuccess`, since the callback treats them all alike.
- Account validation: address derivation, bump seeds, `space` sizes and the length limits they put on ids are not modelled. Only two account constraints are kept: `init` refusing an existing account, and a missing employee account.
- Event emission (`emit!`): only the callback's `NetPayCalculated` event is modelled. The other events carry no state.
- `Clock::get()`: the time is the `now` parameter, and a failing clock read is not modelled.
- Employee deactivation and update: the code has no such instruction. `EmployeeInactive` is modelled but cannot be reached from `add_employee`.
- Payroll registry: an instruction touches one payroll only, so every instruction other than initialization acts on a single `Book`.
