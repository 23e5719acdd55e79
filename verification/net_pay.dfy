/** The net-pay formula shared by the MPC circuit and the plaintext payment
    path: tax is `floor(salary * tax_rate / 10000)` in 128-bit arithmetic, cast
    back to 64 bits, and net pay is `salary - tax - deductions` in checked
    64-bit arithmetic. */
module NetPay {
  import opened Outcome
  import opened Ints

  /** 10000 basis points make 100%. */
  const BASIS_POINTS: nat := 10000

  /** Monotonicity of multiplication on naturals. */
  lemma MulLe(a: nat, b: nat, c: nat, d: nat)
    requires a <= c && b <= d
    ensures a * b <= c * d
  {
    assert a * b <= c * b;
    assert c * b <= c * d;
  }

  /** The 128-bit product `salary * tax_rate` cannot overflow for any 64-bit
      salary and 16-bit rate, so the multiplication never panics. */
  lemma TaxProductFitsU128(salary: u64, taxRate: u16)
    ensures salary * taxRate < U128_LIMIT
  {
    MulLe(salary, taxRate, U64_LIMIT - 1, U16_LIMIT - 1);
  }

  /** The tax withheld from `salary`, before the cast to 64 bits: the floor of
      `salary * taxRate / 10000`. */
  function TaxAmount(salary: u64, taxRate: u16): (tax: u128)
    ensures tax * BASIS_POINTS <= salary * taxRate < (tax + 1) * BASIS_POINTS
  {
    TaxProductFitsU128(salary, taxRate);
    var product: u128 := salary * taxRate;
    product / BASIS_POINTS
  }

  /** Net pay, or `None` when one of the two checked subtractions underflows
      (the program then panics and the transaction aborts). */
  function NetPay(salary: u64, taxRate: u16, deductions: u64): (r: Option<u64>)
    ensures r.Some? <==> TruncateToU64(TaxAmount(salary, taxRate)) + deductions <= salary
    ensures r.Some? ==> r.value + TruncateToU64(TaxAmount(salary, taxRate)) + deductions == salary
    ensures r.Some? ==> r.value <= salary
  {
    var tax := TruncateToU64(TaxAmount(salary, taxRate));
    match CheckedSubU64(salary, tax)
    case None => None
    case Some(afterTax) => CheckedSubU64(afterTax, deductions)
  }

  /** With a rate of at most 100% the tax never exceeds the salary, so the
      cast to 64 bits loses nothing. */
  lemma TaxWithinSalary(salary: u64, taxRate: u16)
    requires taxRate <= BASIS_POINTS
    ensures TaxAmount(salary, taxRate) <= salary
    ensures TruncateToU64(TaxAmount(salary, taxRate)) == TaxAmount(salary, taxRate)
  {
    var tax := TaxAmount(salary, taxRate);
    MulLe(salary, taxRate, salary, BASIS_POINTS);
    assert tax * BASIS_POINTS <= salary * BASIS_POINTS;
  }

  /** For rates of at most 100%, net pay is defined exactly when the untruncated
      tax plus the deductions fit in the salary, and is then what remains. */
  lemma NetPayDefinedIff(salary: u64, taxRate: u16, deductions: u64)
    requires taxRate <= BASIS_POINTS
    ensures NetPay(salary, taxRate, deductions).Some?
            <==> TaxAmount(salary, taxRate) + deductions <= salary
    ensures NetPay(salary, taxRate, deductions).Some? ==>
              NetPay(salary, taxRate, deductions).value
              == salary - TaxAmount(salary, taxRate) - deductions
  {
    TaxWithinSalary(salary, taxRate);
  }

  /** A zero rate withholds nothing: net pay is salary minus deductions. */
  lemma ZeroRate(salary: u64, deductions: u64)
    ensures TaxAmount(salary, 0) == 0
    ensures NetPay(salary, 0, deductions).Some? <==> deductions <= salary
    ensures NetPay(salary, 0, deductions).Some? ==>
              NetPay(salary, 0, deductions).value == salary - deductions
  {
  }

  /** A 100% rate withholds the whole salary: net pay is defined only without
      deductions, and is then zero. */
  lemma FullRate(salary: u64, deductions: u64)
    ensures TaxAmount(salary, 10000) == salary
    ensures NetPay(salary, 10000, deductions).Some? <==> deductions == 0
    ensures NetPay(salary, 10000, deductions).Some? ==>
              NetPay(salary, 10000, deductions).value == 0
  {
    TaxWithinSalary(salary, 10000);
  }

  /** Raising the rate never lowers the tax. */
  lemma TaxMonotoneInRate(salary: u64, rate1: u16, rate2: u16)
    requires rate1 <= rate2
    ensures TaxAmount(salary, rate1) <= TaxAmount(salary, rate2)
  {
    var t1, t2 := TaxAmount(salary, rate1), TaxAmount(salary, rate2);
    MulLe(salary, rate1, salary, rate2);
    assert t1 * BASIS_POINTS < (t2 + 1) * BASIS_POINTS;
  }

  /** Raising the rate (up to 100%) never raises net pay, nor turns an
      undefined net pay into a defined one. */
  lemma NetPayMonotoneInRate(salary: u64, rate1: u16, rate2: u16, deductions: u64)
    requires rate1 <= rate2 <= BASIS_POINTS
    ensures NetPay(salary, rate2, deductions).Some? ==>
              && NetPay(salary, rate1, deductions).Some?
              && NetPay(salary, rate2, deductions).value <= NetPay(salary, rate1, deductions).value
  {
    TaxMonotoneInRate(salary, rate1, rate2);
    NetPayDefinedIff(salary, rate1, deductions);
    NetPayDefinedIff(salary, rate2, deductions);
  }

  /** Raising the deductions never raises net pay, nor turns an undefined net
      pay into a defined one. */
  lemma NetPayMonotoneInDeductions(salary: u64, taxRate: u16, deductions1: u64, deductions2: u64)
    requires deductions1 <= deductions2
    ensures NetPay(salary, taxRate, deductions2).Some? ==>
              && NetPay(salary, taxRate, deductions1).Some?
              && NetPay(salary, taxRate, deductions2).value
                 == NetPay(salary, taxRate, deductions1).value - (deductions2 - deductions1)
  {
  }

  /** Above 100% the cast to 64 bits can wrap: at a 200% rate on the largest
      salary the tax is twice the salary, yet the truncated tax leaves a net
      pay of 1 instead of an underflow. */
  lemma RateAboveFullCanWrap()
    ensures TaxAmount(U64_LIMIT - 1, 20000) == 2 * (U64_LIMIT - 1)
    ensures TaxAmount(U64_LIMIT - 1, 20000) > U64_LIMIT - 1
    ensures NetPay(U64_LIMIT - 1, 20000, 0) == Some(1)
  {
  }

  /** The worked example: 10% tax on 100,000,000 with 5,000,000 of deductions
      leaves 85,000,000. */
  lemma WorkedExample()
    ensures TaxAmount(100_000_000, 1000) == 10_000_000
    ensures NetPay(100_000_000, 1000, 5_000_000) == Some(85_000_000)
  {
  }
}
