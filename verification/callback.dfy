/** The callback that receives the MPC cluster's answer for `calculate_net_pay`
    and republishes it as a `NetPayCalculated` event. */
module Callback {
  import opened Outcome
  import opened Ints
  import opened Accounts

  /** One 32-byte ciphertext block. */
  type Block = s: seq<u8> | |s| == 32 witness seq(32, _ => 0)

  const ZERO_BLOCK: Block := seq(32, _ => 0)

  type OneBlock = s: seq<Block> | |s| == 1 witness [ZERO_BLOCK]

  /** The circuit's single encrypted `u64` output: one block under a nonce the
      cluster chose. */
  datatype SharedEncryptedU64 = SharedEncryptedU64(nonce: u128, ciphertexts: OneBlock)

  /** The computation's outcome as delivered to the callback. Every variant
      other than `Success` is handled alike, so they are collapsed into one. */
  datatype ComputationOutputs = Success(field0: SharedEncryptedU64) | NotSuccess

  /** The event the callback emits. */
  datatype NetPayCalculated = NetPayCalculated(netPay: Block, nonce: seq<u8>)

  /** `calculate_net_pay_callback`: aborts on anything but a success, and
      otherwise publishes the first ciphertext with the output nonce as 16
      little-endian bytes. */
  function CalculateNetPayCallback(output: ComputationOutputs): (r: Result<NetPayCalculated, Failure>)
    ensures r.Ok? <==> output.Success?
    ensures !output.Success? ==> r == Err(Program(AbortedComputation))
    ensures output.Success? ==>
              && r.value.netPay == output.field0.ciphertexts[0]
              && |r.value.nonce| == 16
              && FromLeBytes(r.value.nonce) == output.field0.nonce
  {
    match output
    case Success(encrypted) =>
      Pow256Sixteen();
      LeBytesRoundTrip(encrypted.nonce, 16);
      Ok(NetPayCalculated(encrypted.ciphertexts[0], ToLeBytes(encrypted.nonce, 16)))
    case NotSuccess => Err(Program(AbortedComputation))
  }
}
