/** Opaque stand-ins for the kernel primitives the init process uses:
    machine words, capability references, error values and LMP channels.
    Nothing here has logic of its own in the modelled code; these types only
    give the registry and the RPC handlers something to store and pass on. */
module Lmp {

  /** A machine word (`uintptr_t`); wide enough for both the 32- and 64-bit builds. */
  const WORD_LIMIT: nat := 0x1_0000_0000_0000_0000
  type Word = w: nat | w < WORD_LIMIT

  /** `uint32_t`, the width in which the handlers keep a client id. */
  const U32_LIMIT: nat := 0x1_0000_0000
  type U32 = w: nat | w < U32_LIMIT

  /** The C conversion of an unsigned value to `uint32_t`: keep the low 32 bits. */
  function ToU32(x: nat): U32
  {
    x % U32_LIMIT
  }

  /** An `errval_t`. `SYS_ERR_OK` is zero and every other value is a failure. */
  type ErrVal = Word
  const SYS_ERR_OK: ErrVal := 0

  predicate ErrIsFail(err: ErrVal)
  {
    err != SYS_ERR_OK
  }

  /** A `struct capref`: either `NULL_CAP` or an opaque slot reference. */
  datatype Cap = NullCap | CapRef(slot: nat)

  /** A `struct lmp_chan`: the local endpoint it listens on and the remote
      endpoint it sends to. Its buffers and state are not modelled. */
  datatype Chan = Chan(local: Cap, remote: Cap)

  /** Words in the receive buffer of a `struct lmp_recv_msg`
      (`LMP_MSG_LENGTH`, nine on ARMv7; the handlers read only the first three). */
  const LMP_MSG_LENGTH: nat := 9
  type MsgWords = w: seq<Word> | |w| == LMP_MSG_LENGTH witness seq(LMP_MSG_LENGTH, _ => 0)

  /** A `struct lmp_recv_msg`: the number of words received and the buffer. */
  datatype RecvMsg = RecvMsg(msglen: nat, words: MsgWords)

  /** `LMP_RECV_MSG_INIT`: nothing received yet, the buffer zeroed. */
  const EmptyMsg: RecvMsg := RecvMsg(0, seq(LMP_MSG_LENGTH, _ => 0))

  /** What one `lmp_chan_recv` call leaves behind: its error value, whether
      `lmp_err_is_transient` holds of that error, the message buffer and the
      capability slot that came with the message. */
  datatype RecvOutcome = RecvOutcome(err: ErrVal, transient: bool, msg: RecvMsg, cap: Cap)
}
