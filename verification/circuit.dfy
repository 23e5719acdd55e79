/** The confidential instruction evaluated by the MPC cluster. Encryption of
    its input and output is not modelled: the circuit is shown on plaintexts. */
module Circuits {
  import opened Outcome
  import opened Ints
  import NetPay

  datatype PayrollInput = PayrollInput(salary: u64, taxRate: u16, deductions: u64)

  /** `calculate_net_pay`: the shared net-pay formula on the decrypted input;
      `None` when the formula's checked subtraction underflows. */
  function CalculateNetPay(input: PayrollInput): (r: Option<u64>)
    ensures r.Some? ==> r.value <= input.salary
    ensures r.Some? ==>
              r.value + TruncateToU64(NetPay.TaxAmount(input.salary, input.taxRate)) + input.deductions
              == input.salary
    ensures input.taxRate <= NetPay.BASIS_POINTS && r.Some? ==>
              r.value == input.salary - NetPay.TaxAmount(input.salary, input.taxRate) - input.deductions
    ensures input.taxRate <= NetPay.BASIS_POINTS ==>
              (r.Some? <==> NetPay.TaxAmount(input.salary, input.taxRate) + input.deductions <= input.salary)
  {
    if input.taxRate <= NetPay.BASIS_POINTS then
      NetPay.NetPayDefinedIff(input.salary, input.taxRate, input.deductions);
      NetPay.NetPay(input.salary, input.taxRate, input.deductions)
    else
      NetPay.NetPay(input.salary, input.taxRate, input.deductions)
  }
}
