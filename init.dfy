/** The request broker of the init process (usr/init/main.c, `recv_handler`):
    the append-only table of client channels, the counter that numbers
    clients, and the handling of one received message. */
module Init {
  import opened Lmp
  import opened AosRpc

  /** The error value `recv_handler` returns for an opcode it does not know. */
  const UNKNOWN_OPERATION: ErrVal := 1

  /** A side effect the handler asks of the channel library, in the order it asks. */
  datatype Action =
    | RegisterRecv(on: Chan)                     // lmp_chan_register_recv with recv_handler
    | RegisterSend(on: Chan, pending: Pending)   // lmp_chan_register_send with a response closure
    | AllocRecvSlot(on: Chan)                    // lmp_chan_alloc_recv_slot

  /** The value of the globals `clients` and `num_conns`. */
  datatype Registry = Registry(clients: seq<Chan>, numConns: nat)

  const EmptyRegistry: Registry := Registry([], 0)

  /** The table holds exactly one entry per client numbered so far. */
  predicate Valid(reg: Registry)
  {
    |reg.clients| == reg.numConns
  }

  datatype Option<T> = None | Some(value: T)

  /** Everything one call of `recv_handler` decides: the new registry, the
      value it returns, whether it re-registered receive straight after a
      transient failure, the response it registered for sending, if any, and
      whether it re-armed receive at the end. */
  datatype Outcome = Outcome(reg: Registry, ret: ErrVal, reregistered: bool, send: Option<Pending>, rearmed: bool)

  /** The calls into the channel library an outcome stands for, in the order
      the handler makes them on the receiving channel `lc`. */
  function Actions(lc: Chan, o: Outcome): seq<Action>
  {
    (if o.reregistered then [RegisterRecv(lc)] else [])
    + (if o.send.Some? then [RegisterSend(lc, o.send.value)] else [])
    + (if o.rearmed then [AllocRecvSlot(lc), RegisterRecv(lc)] else [])
  }

  predicate IsHandshake(recv: RecvOutcome)
  {
    recv.msg.msglen > 0 && recv.msg.words[0] == AOS_RPC_HANDSHAKE
  }

  predicate IsMemoryRequest(recv: RecvOutcome)
  {
    recv.msg.msglen > 0 && recv.msg.words[0] == AOS_RPC_MEMORY
  }

  predicate IsUnknownOp(recv: RecvOutcome)
  {
    recv.msg.msglen > 0 && recv.msg.words[0] != AOS_RPC_HANDSHAKE && recv.msg.words[0] != AOS_RPC_MEMORY
  }

  /** The client a memory request names: its second word, kept as `uint32_t`. */
  function ClientId(msg: RecvMsg): U32
  {
    ToU32(msg.words[1])
  }

  /** The size a memory request asks for: its third word. */
  function RequestedSize(msg: RecvMsg): Word
  {
    msg.words[2]
  }

  /** The handler indexes `clients` with the id a memory request names and
      does not check it: the id must belong to a registered client. */
  predicate Accepts(reg: Registry, recv: RecvOutcome)
  {
    IsMemoryRequest(recv) ==> ClientId(recv.msg) < |reg.clients|
  }

  /** One call of `recv_handler` on the channel `lc`, as a function of the
      registry before the call and what the receive produced. */
  function Step(reg: Registry, lc: Chan, recv: RecvOutcome): (o: Outcome)
    requires Valid(reg) && Accepts(reg, recv)
    ensures Valid(o.reg)
    // the table only grows, and only a handshake changes it
    ensures reg.clients <= o.reg.clients
    ensures !IsHandshake(recv) ==> o.reg == reg
    // a handshake appends one copy of the receiving channel aimed at the
    // client's endpoint, numbers it with the old count and acknowledges it on that copy
    ensures IsHandshake(recv) ==>
              && o.reg.numConns == reg.numConns + 1
              && o.reg.clients == reg.clients + [lc.(remote := recv.cap)]
              && o.send == Some(Handshake(o.reg.clients[reg.numConns], ToU32(reg.numConns)))
    // a memory request is answered on the channel of the client it names
    ensures IsMemoryRequest(recv) ==>
              o.send == Some(MemoryGrant(reg.clients[ClientId(recv.msg)], ClientId(recv.msg),
                                         recv.cap, RequestedSize(recv.msg)))
    // an empty message or an unknown opcode registers nothing for sending
    ensures o.send.None? <==> !IsHandshake(recv) && !IsMemoryRequest(recv)
    // receive is re-armed unless the handler returned early on an unknown opcode
    ensures o.rearmed <==> !IsUnknownOp(recv)
    ensures o.reregistered <==> ErrIsFail(recv.err) && recv.transient
    ensures o.ret == if IsUnknownOp(recv) then UNKNOWN_OPERATION else recv.err
  {
    var early := ErrIsFail(recv.err) && recv.transient;
    if recv.msg.msglen == 0 then
      Outcome(reg, recv.err, early, None, true)
    else if recv.msg.words[0] == AOS_RPC_HANDSHAKE then
      var chan := lc.(remote := recv.cap);
      Outcome(Registry(reg.clients + [chan], reg.numConns + 1), recv.err, early,
              Some(Handshake(chan, ToU32(reg.numConns))), true)
    else if recv.msg.words[0] == AOS_RPC_MEMORY then
      var conn := ClientId(recv.msg);
      Outcome(reg, recv.err, early, Some(MemoryGrant(reg.clients[conn], conn, recv.cap, RequestedSize(recv.msg))), true)
    else
      Outcome(reg, UNKNOWN_OPERATION, early, None, false)
  }

  /** The receive handler over the globals `clients` and `num_conns`. */
  class Server {
    var clients: seq<Chan>
    var numConns: nat

    predicate Valid()
      reads this
    {
      |clients| == numConns
    }

    function State(): Registry
      reads this
    {
      Registry(clients, numConns)
    }

    /** The globals as the program starts: no table, no clients. */
    constructor ()
      ensures Valid() && State() == EmptyRegistry
    {
      clients := [];
      numConns := 0;
    }

    /** `recv_handler`: take one received message, update the table, register
        at most one response for sending and re-arm receive. */
    method RecvHandler(lc: Chan, recv: RecvOutcome) returns (ret: ErrVal, actions: seq<Action>)
      requires Valid() && Accepts(State(), recv)
      modifies this
      ensures Valid()
      ensures State() == Step(old(State()), lc, recv).reg
      ensures ret == Step(old(State()), lc, recv).ret
      ensures actions == Actions(lc, Step(old(State()), lc, recv))
    {
      actions := [];
      if ErrIsFail(recv.err) && recv.transient {
        actions := actions + [RegisterRecv(lc)];
      }
      var msg := recv.msg;
      if msg.msglen > 0 {
        var pending: Pending;
        var op := msg.words[0];
        if op == AOS_RPC_HANDSHAKE {
          clients := clients + [lc];
          clients := clients[numConns := clients[numConns].(remote := recv.cap)];
          pending := Handshake(clients[numConns], ToU32(numConns));
          numConns := numConns + 1;
        } else if op == AOS_RPC_MEMORY {
          var conn := ToU32(msg.words[1]);
          pending := MemoryGrant(clients[conn], conn, recv.cap, msg.words[2]);
        } else {
          return UNKNOWN_OPERATION, actions;
        }
        actions := actions + [RegisterSend(lc, pending)];
      }
      actions := actions + [AllocRecvSlot(lc), RegisterRecv(lc)];
      ret := recv.err;
    }
  }
}
