/** The two RPC protocols of the init process: the pending responses the
    receive handler produces and the continuations that turn them into the
    words of an `lmp_chan_send` (usr/init/main.c, `parent_send_handshake` and
    `parent_send_memory`). */
module AosRpc {
  import opened Lmp

  /** Opcodes and status words of the RPC protocol (declared in aos_rpc.h,
      which is not part of this model; the model relies only on each pair
      being distinct). */
  const AOS_RPC_HANDSHAKE: Word := 1
  const AOS_RPC_MEMORY: Word := 2
  const AOS_RPC_OK: Word := 0
  const AOS_RPC_FAILED: Word := 1

  /** A response waiting for its channel to become ready to send: the closure
      and argument array that the receive handler registers, as a tagged value. */
  datatype Pending =
    | Handshake(chan: Chan, id: U32)
    | MemoryGrant(chan: Chan, id: U32, slot: Cap, size: Word)

  /** One `lmp_chan_sendN` call: the channel, the capability sent along, the words. */
  datatype Outgoing = Outgoing(chan: Chan, cap: Cap, words: seq<Word>)

  /** What `frame_alloc(&slot, size, &retsize)` leaves behind: its error value,
      the capability it wrote into the slot and the size it reports. */
  datatype AllocOutcome = AllocOutcome(err: ErrVal, frame: Cap, retsize: Word)

  /** The frame allocator, a collaborator whose internals are not modelled. */
  type FrameAlloc = (Cap, Word) -> AllocOutcome

  /** The response code a memory grant reports for an allocation result. */
  function GrantStatus(err: ErrVal): (code: Word)
    ensures code == AOS_RPC_FAILED <==> ErrIsFail(err)
    ensures code == AOS_RPC_OK <==> !ErrIsFail(err)
  {
    if ErrIsFail(err) then AOS_RPC_FAILED else AOS_RPC_OK
  }

  /** `parent_send_handshake`: acknowledge a handshake with the client's id. */
  function SendHandshake(chan: Chan, id: U32): (out: Outgoing)
    ensures out.chan == chan && out.cap == NullCap && out.words == [AOS_RPC_OK, id]
  {
    Outgoing(chan, NullCap, [AOS_RPC_OK, id])
  }

  /** `parent_send_memory`: ask the allocator for a frame of the requested size
      and report the outcome. The status agrees with the allocator's error, the
      error value and the reported size are passed on, and whatever the
      allocator left in the slot travels with the message. The client id is
      read from the argument array but not sent. */
  function SendMemory(chan: Chan, id: U32, slot: Cap, size: Word, frameAlloc: FrameAlloc): (out: Outgoing)
    ensures out.chan == chan
    ensures |out.words| == 3
    ensures out.words[0] == AOS_RPC_FAILED <==> ErrIsFail(frameAlloc(slot, size).err)
    ensures out.words[0] == AOS_RPC_OK <==> !ErrIsFail(frameAlloc(slot, size).err)
    ensures out.words[1] == frameAlloc(slot, size).err
    ensures out.words[2] == frameAlloc(slot, size).retsize
    ensures out.cap == frameAlloc(slot, size).frame
  {
    var a := frameAlloc(slot, size);
    Outgoing(chan, a.frame, [GrantStatus(a.err), a.err, a.retsize])
  }

  /** The event loop running a pending response once its channel can send. */
  function Fire(p: Pending, frameAlloc: FrameAlloc): (out: Outgoing)
    ensures out.chan == p.chan
  {
    match p
    case Handshake(chan, id) => SendHandshake(chan, id)
    case MemoryGrant(chan, id, slot, size) => SendMemory(chan, id, slot, size, frameAlloc)
  }
}
