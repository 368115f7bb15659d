# Request broker of the Barrelfish `init` process

The `init` process is the root server. Child processes reach it over LMP
channels. Its receive handler (`recv_handler` in `usr/init/main.c`) is a small
state machine with two parts:

- an append-only table of client channels, `clients`;
- a counter that numbers the clients, `num_conns`.

Two requests are served:

- A **handshake** appends a copy of the receiving channel to the table. The
  copy's `remote` endpoint is the capability the client sent. The client is
  given the old count as its id. The reply (`parent_send_handshake`) is
  `(AOS_RPC_OK, id)` with no capability.
- A **memory request** names a client id, a capability slot and a size. The
  reply (`parent_send_memory`) goes out on that client's table entry. It
  carries the frame the allocator put into the slot and the words
  `(status, err, retsize)`. The status is `AOS_RPC_FAILED` exactly when the
  allocation failed.

Other cases:

- An empty message skips dispatch.
- An unknown opcode returns 1 at once, and receive is not re-armed.
- In every other case the handler allocates a new receive slot and
  re-registers itself.

The project has four modules:

- `Lmp` (`lmp.dfy`) holds opaque stand-ins for machine words, `uint32_t`,
  error values, capabilities, channels and the received-message buffer.
- `AosRpc` (`aos_rpc.dfy`) holds the protocol constants and `Pending`, the
  typed form of the closure and its `void**` argument array. It also models
  the two reply builders as functions. `frame_alloc` is a function parameter.
- `Init` (`init.dfy`) holds the registry and `Step`, one handler call as a
  pure function. It also holds the class `Server`, with the globals as
  fields. `Server.RecvHandler` updates those fields step by step and is
  proved equal to `Step`. Calls into the channel library are returned as a
  list of `Action` values, in the order the handler makes them.
- `InitProofs` (`init_proofs.dfy`) proves properties of whole runs of
  handler calls. These include dense ids from an empty table, ids that
  count the earlier handshakes in any mix of messages, append-only
  growth, routing of memory grants to the registered client, and a
  two-client scenario.

## Model

| member | source | states |
|---|---|---|
| Init.Server.constructor | usr/init/main.c:32-33 | The program starts with no table and a zero count, and table length equals count. |
| Init.Server.RecvHandler | usr/init/main.c:39-123 | The in-place update of `clients`/`num_conns` gives the registry `Step` gives. It returns the same value and makes the library calls `Actions` lists, in source order. The table length still equals the count. |
| Init.Step | usr/init/main.c:39-123 | The table length still equals the count, and the old table is a prefix of the new one. Only a handshake changes the registry. A handshake appends one entry (`lc` with `remote` set to the received cap), raises the count by one and acknowledges on the new entry with the old count as a `uint32_t`. A memory request is answered on `clients[(uint32_t)words[1]]` with that id, the cap and `words[2]`. No send is registered exactly when the message is empty or its opcode is unknown. Receive is re-armed exactly when the opcode is not unknown. Receive is re-registered early exactly on a transient failure. The result is 1 for an unknown opcode and the receive error otherwise. |
| AosRpc.GrantStatus | usr/init/main.c:159 | The code is `AOS_RPC_FAILED` if and only if the error is a failure, and `AOS_RPC_OK` if and only if it is not. |
| AosRpc.SendHandshake | usr/init/main.c:125-142 | The acknowledgement goes out on the stored channel with no capability and the two words `(AOS_RPC_OK, id)`. |
| AosRpc.SendMemory | usr/init/main.c:144-167 | The reply goes out on the stored channel with three words. The status agrees with the allocator's failure in both directions. The second word is the allocator's error and the third its reported size. The capability sent is the one the allocator left in the slot. |
| AosRpc.Fire | usr/init/main.c:112-114 | The registered closure always sends on the channel stored in its arguments. |
| InitProofs.Trace | usr/init/main.c:32-82 | Along any run there is one outcome per received message, and after every call the table length equals the count. |
| InitProofs.TraceAt | usr/init/main.c:39-123 | The i-th call of a run is one handler step from the registry the earlier calls left. That registry accepts the i-th message. |
| InitProofs.AppendOnly | usr/init/main.c:61-69 | Along a run the table only grows and no entry, once made, changes. The count never decreases. |
| InitProofs.HandshakeCountAt | usr/init/main.c:80-82 | After i handshakes the count has grown by exactly i. |
| InitProofs.CountTracksHandshakes | usr/init/main.c:58-110 | In any accepted run, whatever mix of messages it holds, the count before call i has grown by the number of handshakes among the first i messages. Memory requests, empty messages and unknown opcodes leave it alone. |
| InitProofs.HandshakeIdCountsEarlierHandshakes | usr/init/main.c:59-82 | In any accepted run, a handshake preceded by j other handshakes is acknowledged with id `(uint32_t)(n0 + j)` on its own new channel. |
| InitProofs.HandshakeRunAt | usr/init/main.c:61-82 | After i handshakes the old table is kept and entry `n0 + j` is the receiving channel aimed at the j-th client's endpoint. |
| InitProofs.HandshakeAcknowledgedAt | usr/init/main.c:59-82 | The i-th handshake of a run is acknowledged with id `(uint32_t)(n0 + i)` on its own new channel. |
| InitProofs.HandshakesNumberConsecutively | usr/init/main.c:61-82 | A run of handshakes is always accepted. It numbers clients consecutively from the starting count (as `uint32_t`). It ends with the count raised by the run's length and with one entry per client, in order. |
| InitProofs.HandshakeIdsDenseFromStart | usr/init/main.c:61-82 | From the empty table, N handshakes (N at most 2^32) get ids 0, 1, …, N-1 in order. After each one the table length equals the count. |
| InitProofs.MemoryRequestRoutedToRegisteredChannel | usr/init/main.c:88-96 | A later memory request naming the id that handshake k received is accepted. It is answered on the channel registered at handshake k and on no other client's channel. |
| InitProofs.HandshakeAcknowledged | usr/init/main.c:125-142 | A handshake's reply is `(AOS_RPC_OK, id)` with no capability, sent on the table entry the handshake created. |
| InitProofs.MemoryGranted | usr/init/main.c:84-107 | A memory request leaves the registry unchanged. Its reply goes to the named client's entry with the allocator's frame and the words `(status, err, retsize)`. The status is FAILED exactly when the allocation failed. |
| InitProofs.FailedReceiveSkipped | usr/init/main.c:45-122 | A failed receive that leaves the buffer empty changes nothing and registers no send. It returns the receive error and re-arms receive. After a transient failure, receive is registered twice. |
| InitProofs.UnknownOpcodeRejected | usr/init/main.c:108-109 | An unknown opcode leaves the registry alone and returns 1. It registers nothing after the early re-registration and does not re-arm receive. |
| InitProofs.HandshakeRequestStep | usr/init/main.c:59-83 | A successful one-word handshake appends the client, returns success and is acknowledged with the old count. |
| InitProofs.MemoryRequestStep | usr/init/main.c:84-107 | A successful memory request naming a registered client leaves the table alone. It registers a grant for that client's entry and returns success. |
| InitProofs.JoinThenRequestTrace | usr/init/main.c:59-107 | A client that joins and then asks for memory gets the next id. Its grant goes to its own new entry. |
| InitProofs.TraceAppend | usr/init/main.c:39-123 | Running one run after another gives the outcomes of their concatenation. |
| InitProofs.FinalAppend | usr/init/main.c:39-123 | The registry after a concatenation is the one the second run leaves when it starts where the first ended. |
| InitProofs.TwoClientsScenario | usr/init/main.c:58-107 | Two clients that each handshake and then ask for 4096 bytes get ids 0 and 1. Each grant is registered on the asking client's own channel with its own slot and size. The table ends with both channels and a count of 2. |

## Left out

- `main` is not modelled. It covers core-id lookup, bootinfo parsing,
  `initialize_ram_alloc`, `cap_retype`, `lmp_chan_accept`, `cap_copy`, process
  spawning and the event loop. These are all calls into the kernel and
  libraries.
- The channel library is not executed. `lmp_chan_register_recv`,
  `lmp_chan_register_send` and `lmp_chan_alloc_recv_slot` are recorded as
  `Action` values. What `lmp_chan_recv` returns, including whether its error
  is transient, is the `RecvOutcome` input. Each `lmp_chan_send2/3` is the
  `Outgoing` value `Fire` returns. The `LMP_FLAG_SYNC` flag and the
  channel's buffers are not modelled.
- `CHECK` failures are not modelled. `CHECK` is defined outside main.c, so
  what it does on failure is not known here. The model assumes that
  `lmp_chan_register_send`, `lmp_chan_alloc_recv_slot` and `lmp_chan_send*`
  succeed.
- The internals of `frame_alloc` are not modelled. Its outcome (error,
  frame, reported size) is an arbitrary function of slot and size. This
  covers the failure cases, but not whether the reported size is at least the
  requested one.
- `malloc`, `realloc` and `free` are not modelled. The `void**` argument
  arrays become the `Pending` datatype, and the grown table is a sequence
  append that keeps earlier entries.
- Error values are plain words, and `err_is_fail` is "not zero". Error
  stacking and `lmp_err_is_transient`'s decision are not modelled; the latter
  is the `transient` flag of the input.
- The values of `AOS_RPC_HANDSHAKE`, `AOS_RPC_MEMORY`, `AOS_RPC_OK` and
  `AOS_RPC_FAILED` are chosen here, because aos_rpc.h is not part of this
  model. The proofs rely only on each pair being distinct.
- `LMP_MSG_LENGTH` is fixed at 9 words. The handler reads only the first
  three.
- `debug_printf` output and commented-out code are left out.
- Init.Step: the source does not bounds-check the client id of a memory
  request (main.c:88-96), so reading past the table is undefined behaviour.
  The model requires the id to name a registered client (`Accepts`), and
  runs require that of every memory request (`Admissible`).
- Init.Server.RecvHandler: has the same precondition as Init.Step, for the
  same reason.
- Init.Step: `num_conns` is a `size_t` but is modelled as an unbounded
  count. Client ids do wrap at 2^32, because they are kept as `uint32_t`. On
  a 32-bit build such as ARMv7, `num_conns` itself would wrap together with
  the id after 2^32 handshakes. That is long after the table would have
  used up memory, and the model does not capture the table index wrapping.
- InitProofs.HandshakeIdsDenseFromStart: ids equal positions only while they
  fit in 32 bits. Longer runs are covered, with the wrap-around, by
  InitProofs.HandshakesNumberConsecutively.

## Source defects

As written, `usr/init/main.c` does not compile. The model follows the evident
intent at each of these points:

- main.c:35 declares `recv_handler(void *arg)`, but main.c:39 defines it
  with a `void **` parameter.
- main.c:36 declares `parent_send_handshake(void *arg)`, but main.c:125
  defines it with a `void **` parameter.
- main.c:76-77: the typo `resopnse_args` and a missing `;`. The intent is that
  the first argument holds a copy of the new table entry.
- main.c:118-119: `rpc` is not declared. The intent is to re-arm receive on the
  handler's own channel `*lc`.
- main.c:113: the `struct lmp_chan **` argument `lc` is passed where a channel
  is expected. The model registers the send on `*lc`.
- main.c:144-147: the parameter is called `arg`, but the body reads `args`.
- main.c:164: `*retsize` dereferences a `size_t`. The intent is to send the
  reported size itself.
- main.c:64: the result of `realloc` is discarded. The model grows the table
  by appending, and earlier entries keep their values.
- main.c:80 and 96-105: values are stored through `void *` without a cast.
  The model keeps the types the comments name, with the id as `uint32_t`.

Two behaviours of the code as written are kept as they are:

- After a transient receive failure the handler re-registers receive at once
  (main.c:46-50). It then also falls through to the re-registration at the
  end (main.c:117-120), so receive is registered twice.
- An unknown opcode returns before the end of the handler (main.c:108-109),
  so receive is never re-armed on that channel.

`parent_send_memory` reads the client id from its arguments but never sends
it, and it does not free its argument array.
