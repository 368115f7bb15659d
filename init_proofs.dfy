/** Properties of the broker over whole runs: the receive handler called once
    per received message, always on the one channel `main` registers it on. */
module InitProofs {
  import opened Lmp
  import opened AosRpc
  import opened Init

  /** Every memory request in the run names a client registered by then. */
  predicate Admissible(reg: Registry, lc: Chan, evs: seq<RecvOutcome>)
    requires Valid(reg)
    decreases |evs|
  {
    |evs| == 0 || (Accepts(reg, evs[0]) && Admissible(Step(reg, lc, evs[0]).reg, lc, evs[1..]))
  }

  /** The outcome of each handler call of the run, in order. */
  function Trace(reg: Registry, lc: Chan, evs: seq<RecvOutcome>): (trace: seq<Outcome>)
    requires Valid(reg) && Admissible(reg, lc, evs)
    ensures |trace| == |evs|
    ensures forall i | 0 <= i < |trace| :: Valid(trace[i].reg)
    decreases |evs|
  {
    if |evs| == 0 then []
    else
      var o := Step(reg, lc, evs[0]);
      [o] + Trace(o.reg, lc, evs[1..])
  }

  /** The registry before the `i`-th call of the run (after the last one when `i == |evs|`). */
  function Before(reg: Registry, lc: Chan, evs: seq<RecvOutcome>, i: nat): (r: Registry)
    requires Valid(reg) && Admissible(reg, lc, evs) && i <= |evs|
    ensures Valid(r)
  {
    if i == 0 then reg else Trace(reg, lc, evs)[i - 1].reg
  }

  function Final(reg: Registry, lc: Chan, evs: seq<RecvOutcome>): Registry
    requires Valid(reg) && Admissible(reg, lc, evs)
  {
    Before(reg, lc, evs, |evs|)
  }

  /** Dropping the first call of a run shifts the registries by one. */
  lemma BeforeShift(reg: Registry, lc: Chan, evs: seq<RecvOutcome>, i: nat)
    requires Valid(reg) && Admissible(reg, lc, evs) && 1 <= i <= |evs|
    ensures Admissible(Step(reg, lc, evs[0]).reg, lc, evs[1..])
    ensures Before(reg, lc, evs, i) == Before(Step(reg, lc, evs[0]).reg, lc, evs[1..], i - 1)
  {
  }

  /** A run that starts with `e` is one handler step followed by the rest of the run. */
  lemma TraceCons(reg: Registry, lc: Chan, e: RecvOutcome, rest: seq<RecvOutcome>)
    requires Valid(reg) && Accepts(reg, e) && Admissible(Step(reg, lc, e).reg, lc, rest)
    ensures Admissible(reg, lc, [e] + rest)
    ensures Trace(reg, lc, [e] + rest) == [Step(reg, lc, e)] + Trace(Step(reg, lc, e).reg, lc, rest)
  {
    assert ([e] + rest)[1..] == rest;
  }

  /** The `i`-th call of a run is one handler step from the registry before it. */
  lemma {:induction false} TraceAt(reg: Registry, lc: Chan, evs: seq<RecvOutcome>, i: nat)
    requires Valid(reg) && Admissible(reg, lc, evs) && i < |evs|
    ensures Accepts(Before(reg, lc, evs, i), evs[i])
    ensures Trace(reg, lc, evs)[i] == Step(Before(reg, lc, evs, i), lc, evs[i])
    ensures Before(reg, lc, evs, i + 1) == Trace(reg, lc, evs)[i].reg
    decreases i
  {
    if i > 0 {
      var o := Step(reg, lc, evs[0]);
      BeforeShift(reg, lc, evs, i);
      TraceAt(o.reg, lc, evs[1..], i - 1);
      assert evs[1..][i - 1] == evs[i];
    }
  }

  /** The table only grows along a run: every entry, once made, stays as it is. */
  lemma {:induction false} AppendOnly(reg: Registry, lc: Chan, evs: seq<RecvOutcome>, i: nat, j: nat)
    requires Valid(reg) && Admissible(reg, lc, evs) && i <= j <= |evs|
    ensures Before(reg, lc, evs, i).clients <= Before(reg, lc, evs, j).clients
    ensures Before(reg, lc, evs, i).numConns <= Before(reg, lc, evs, j).numConns
    decreases j - i
  {
    if i < j {
      TraceAt(reg, lc, evs, i);
      AppendOnly(reg, lc, evs, i + 1, j);
    }
  }

  /** A run of handshakes never names a client, so the handler accepts it whole. */
  lemma {:induction false} HandshakesAdmissible(reg: Registry, lc: Chan, evs: seq<RecvOutcome>)
    requires Valid(reg)
    requires forall i | 0 <= i < |evs| :: IsHandshake(evs[i])
    ensures Admissible(reg, lc, evs)
    decreases |evs|
  {
    if |evs| > 0 {
      var rest := evs[1..];
      assert forall i | 0 <= i < |rest| :: rest[i] == evs[i + 1];
      HandshakesAdmissible(Step(reg, lc, evs[0]).reg, lc, rest);
    }
  }

  /** After the first `i` calls of a run of handshakes the count has grown by `i`. */
  lemma {:induction false} HandshakeCountAt(reg: Registry, lc: Chan, evs: seq<RecvOutcome>, i: nat)
    requires Valid(reg) && Admissible(reg, lc, evs) && i <= |evs|
    requires forall j | 0 <= j < |evs| :: IsHandshake(evs[j])
    ensures Before(reg, lc, evs, i).numConns == reg.numConns + i
  {
    if i > 0 {
      HandshakeCountAt(reg, lc, evs, i - 1);
      TraceAt(reg, lc, evs, i - 1);
      assert IsHandshake(evs[i - 1]);
    }
  }

  /** After the first `i` calls of a run of handshakes the count has grown by
      `i` and the table by one entry per handshake, in order, each a copy of
      the receiving channel aimed at that client's endpoint. */
  lemma {:induction false} HandshakeRunAt(reg: Registry, lc: Chan, evs: seq<RecvOutcome>, i: nat)
    requires Valid(reg) && Admissible(reg, lc, evs) && i <= |evs|
    requires forall j | 0 <= j < |evs| :: IsHandshake(evs[j])
    ensures Before(reg, lc, evs, i).numConns == reg.numConns + i
    ensures reg.clients <= Before(reg, lc, evs, i).clients
    ensures forall j | 0 <= j < i :: Before(reg, lc, evs, i).clients[reg.numConns + j] == lc.(remote := evs[j].cap)
  {
    if i > 0 {
      HandshakeRunAt(reg, lc, evs, i - 1);
      TraceAt(reg, lc, evs, i - 1);
    }
  }

  /** The number of handshakes among the received messages `evs`. */
  function HandshakeCount(evs: seq<RecvOutcome>): (n: nat)
    ensures n <= |evs|
  {
    if |evs| == 0 then 0
    else HandshakeCount(evs[..|evs| - 1]) + (if IsHandshake(evs[|evs| - 1]) then 1 else 0)
  }

  /** In any run, whatever else it contains, the count before call `i` has
      grown by the number of handshakes among the first `i` messages. */
  lemma {:induction false} CountTracksHandshakes(reg: Registry, lc: Chan, evs: seq<RecvOutcome>, i: nat)
    requires Valid(reg) && Admissible(reg, lc, evs) && i <= |evs|
    ensures Before(reg, lc, evs, i).numConns == reg.numConns + HandshakeCount(evs[..i])
  {
    if i > 0 {
      CountTracksHandshakes(reg, lc, evs, i - 1);
      TraceAt(reg, lc, evs, i - 1);
      assert evs[..i][..i - 1] == evs[..i - 1];
    }
  }

  /** In any run, a handshake preceded by `j` other handshakes is acknowledged
      with the id `j` places after the starting count, on its own new channel. */
  lemma HandshakeIdCountsEarlierHandshakes(reg: Registry, lc: Chan, evs: seq<RecvOutcome>, i: nat)
    requires Valid(reg) && Admissible(reg, lc, evs) && i < |evs| && IsHandshake(evs[i])
    ensures Trace(reg, lc, evs)[i].send
            == Some(Handshake(lc.(remote := evs[i].cap), ToU32(reg.numConns + HandshakeCount(evs[..i]))))
  {
    var b := Before(reg, lc, evs, i);
    CountTracksHandshakes(reg, lc, evs, i);
    TraceAt(reg, lc, evs, i);
    HandshakeStep(b, lc, evs[i]);
    var n := b.numConns;
    assert n == reg.numConns + HandshakeCount(evs[..i]);
    assert Trace(reg, lc, evs)[i].send == Some(Handshake(lc.(remote := evs[i].cap), ToU32(n)));
  }

  /** A handshake names no client and registers its acknowledgement on the
      new table entry. */
  lemma HandshakeStep(reg: Registry, lc: Chan, recv: RecvOutcome)
    requires Valid(reg) && IsHandshake(recv)
    ensures Accepts(reg, recv)
    ensures Step(reg, lc, recv).send == Some(Handshake(lc.(remote := recv.cap), ToU32(reg.numConns)))
  {
  }

  /** The `i`-th handshake of a run is acknowledged with the id `i` places
      after the count the run started from, on a copy of the receiving
      channel aimed at that client's endpoint. */
  lemma HandshakeAcknowledgedAt(reg: Registry, lc: Chan, evs: seq<RecvOutcome>, i: nat)
    requires Valid(reg) && Admissible(reg, lc, evs) && i < |evs|
    requires forall j | 0 <= j < |evs| :: IsHandshake(evs[j])
    ensures Trace(reg, lc, evs)[i].send == Some(Handshake(lc.(remote := evs[i].cap), ToU32(reg.numConns + i)))
  {
    var b := Before(reg, lc, evs, i);
    HandshakeCountAt(reg, lc, evs, i);
    TraceAt(reg, lc, evs, i);
    HandshakeStep(b, lc, evs[i]);
    var n := b.numConns;
    assert n == reg.numConns + i;
    assert Trace(reg, lc, evs)[i].send == Some(Handshake(lc.(remote := evs[i].cap), ToU32(n)));
  }

  /** A run of handshakes numbers the clients consecutively from the count it
      starts with (as `uint32_t`), acknowledges each on its own new channel and
      leaves one table entry per handshake, in order. */
  lemma HandshakesNumberConsecutively(reg: Registry, lc: Chan, evs: seq<RecvOutcome>)
    requires Valid(reg)
    requires forall i | 0 <= i < |evs| :: IsHandshake(evs[i])
    ensures Admissible(reg, lc, evs)
    ensures forall i | 0 <= i < |evs| ::
              Trace(reg, lc, evs)[i].send == Some(Handshake(lc.(remote := evs[i].cap), ToU32(reg.numConns + i)))
    ensures Final(reg, lc, evs).numConns == reg.numConns + |evs|
    ensures reg.clients <= Final(reg, lc, evs).clients
    ensures forall i | 0 <= i < |evs| :: Final(reg, lc, evs).clients[reg.numConns + i] == lc.(remote := evs[i].cap)
  {
    HandshakesAdmissible(reg, lc, evs);
    forall i | 0 <= i < |evs|
      ensures Trace(reg, lc, evs)[i].send == Some(Handshake(lc.(remote := evs[i].cap), ToU32(reg.numConns + i)))
    {
      HandshakeAcknowledgedAt(reg, lc, evs, i);
    }
    HandshakeRunAt(reg, lc, evs, |evs|);
  }

  /** Started from the empty table, `N` handshakes receive the ids 0, 1, ..., N-1
      in order (while they fit in 32 bits) and the table length always equals
      the client count. */
  lemma HandshakeIdsDenseFromStart(lc: Chan, evs: seq<RecvOutcome>)
    requires forall i | 0 <= i < |evs| :: IsHandshake(evs[i])
    requires |evs| <= U32_LIMIT
    ensures Admissible(EmptyRegistry, lc, evs)
    ensures forall i | 0 <= i < |evs| ::
              && Trace(EmptyRegistry, lc, evs)[i].send == Some(Handshake(lc.(remote := evs[i].cap), i))
              && Trace(EmptyRegistry, lc, evs)[i].reg.numConns == |Trace(EmptyRegistry, lc, evs)[i].reg.clients| == i + 1
    ensures Final(EmptyRegistry, lc, evs).numConns == |Final(EmptyRegistry, lc, evs).clients| == |evs|
  {
    HandshakesNumberConsecutively(EmptyRegistry, lc, evs);
    forall i | 0 <= i < |evs|
      ensures Trace(EmptyRegistry, lc, evs)[i].reg.numConns == i + 1
    {
      HandshakeRunAt(EmptyRegistry, lc, evs, i + 1);
    }
  }

  /** Once client `k` has handshaken, a later memory request naming its id is
      answered on the channel registered for it, never on another client's. */
  lemma MemoryRequestRoutedToRegisteredChannel(reg: Registry, lc: Chan, evs: seq<RecvOutcome>, k: nat, req: RecvOutcome)
    requires Valid(reg) && Admissible(reg, lc, evs)
    requires k < |evs| && IsHandshake(evs[k])
    requires IsMemoryRequest(req) && ClientId(req.msg) == Before(reg, lc, evs, k).numConns
    ensures Accepts(Final(reg, lc, evs), req)
    ensures Step(Final(reg, lc, evs), lc, req).send
         == Some(MemoryGrant(lc.(remote := evs[k].cap), ClientId(req.msg), req.cap, RequestedSize(req.msg)))
  {
    TraceAt(reg, lc, evs, k);
    AppendOnly(reg, lc, evs, k + 1, |evs|);
    var id := ClientId(req.msg);
    assert Before(reg, lc, evs, k + 1).clients[id] == lc.(remote := evs[k].cap);
  }

  /** A handshake is acknowledged with `AOS_RPC_OK` and the id it was given,
      with no capability, on the table entry it created. */
  lemma HandshakeAcknowledged(reg: Registry, lc: Chan, recv: RecvOutcome, frameAlloc: FrameAlloc)
    requires Valid(reg) && IsHandshake(recv)
    ensures var o := Step(reg, lc, recv);
            && o.send.Some?
            && Fire(o.send.value, frameAlloc)
               == Outgoing(o.reg.clients[reg.numConns], NullCap, [AOS_RPC_OK, ToU32(reg.numConns)])
  {
  }

  /** A memory request leaves the table alone and is answered on the named
      client's channel; the answer reports failure exactly when the allocator
      failed on the slot and size the request carried. */
  lemma MemoryGranted(reg: Registry, lc: Chan, recv: RecvOutcome, frameAlloc: FrameAlloc)
    requires Valid(reg) && Accepts(reg, recv) && IsMemoryRequest(recv)
    ensures var o := Step(reg, lc, recv);
            var a := frameAlloc(recv.cap, RequestedSize(recv.msg));
            var out := Fire(o.send.value, frameAlloc);
            && o.reg == reg
            && out.chan == reg.clients[ClientId(recv.msg)]
            && out.cap == a.frame
            && out.words == [if ErrIsFail(a.err) then AOS_RPC_FAILED else AOS_RPC_OK, a.err, a.retsize]
  {
  }

  /** A receive that failed and left the buffer as initialised runs no handler
      and changes nothing, but receive is re-armed; after a transient failure
      the handler is registered twice, once at once and once at the end. */
  lemma FailedReceiveSkipped(reg: Registry, lc: Chan, recv: RecvOutcome)
    requires Valid(reg) && ErrIsFail(recv.err) && recv.msg == EmptyMsg
    ensures var o := Step(reg, lc, recv);
            && o.reg == reg
            && o.ret == recv.err
            && o.send == None
            && Actions(lc, o) == (if recv.transient then [RegisterRecv(lc)] else []) + [AllocRecvSlot(lc), RegisterRecv(lc)]
  {
  }

  /** An opcode the handler does not know returns 1 at once: the table is left
      alone, nothing is registered for sending and receive is not re-armed
      (only the early re-registration after a transient failure happened). */
  lemma UnknownOpcodeRejected(reg: Registry, lc: Chan, recv: RecvOutcome)
    requires Valid(reg) && recv.msg.msglen > 0
    requires recv.msg.words[0] != AOS_RPC_HANDSHAKE && recv.msg.words[0] != AOS_RPC_MEMORY
    ensures Accepts(reg, recv)
    ensures var o := Step(reg, lc, recv);
            && o.reg == reg
            && o.ret == UNKNOWN_OPERATION
            && Actions(lc, o) == if ErrIsFail(recv.err) && recv.transient then [RegisterRecv(lc)] else []
  {
  }

  /** A handshake request as a client sends it: one word, the opcode. */
  function HandshakeRequest(endpoint: Cap): (r: RecvOutcome)
    ensures IsHandshake(r) && r.cap == endpoint && r.err == SYS_ERR_OK && !r.transient
  {
    RecvOutcome(SYS_ERR_OK, false, RecvMsg(1, seq(LMP_MSG_LENGTH, j => if j == 0 then AOS_RPC_HANDSHAKE else 0)), endpoint)
  }

  /** A memory request as a client sends it: opcode, client id, size. */
  function MemoryRequest(id: U32, size: Word, slot: Cap): (r: RecvOutcome)
    ensures IsMemoryRequest(r) && ClientId(r.msg) == id && RequestedSize(r.msg) == size && r.cap == slot
    ensures r.err == SYS_ERR_OK && !r.transient
  {
    RecvOutcome(SYS_ERR_OK, false,
                RecvMsg(3, seq(LMP_MSG_LENGTH, j => if j == 0 then AOS_RPC_MEMORY else if j == 1 then id else if j == 2 then size else 0)),
                slot)
  }

  /** A well-formed handshake request is appended to the table, acknowledged
      with the old count, and the handler returns success. */
  lemma HandshakeRequestStep(reg: Registry, lc: Chan, endpoint: Cap)
    requires Valid(reg) && reg.numConns < U32_LIMIT
    ensures var c := lc.(remote := endpoint);
            Step(reg, lc, HandshakeRequest(endpoint))
            == Outcome(Registry(reg.clients + [c], reg.numConns + 1), SYS_ERR_OK, false, Some(Handshake(c, reg.numConns)), true)
  {
    var recv := HandshakeRequest(endpoint);
    assert !ErrIsFail(recv.err) && !IsUnknownOp(recv);
  }

  /** A well-formed memory request naming a registered client leaves the
      table alone, registers a grant for that client and returns success. */
  lemma MemoryRequestStep(reg: Registry, lc: Chan, id: U32, size: Word, slot: Cap)
    requires Valid(reg) && id < reg.numConns
    ensures Accepts(reg, MemoryRequest(id, size, slot))
    ensures Step(reg, lc, MemoryRequest(id, size, slot))
            == Outcome(reg, SYS_ERR_OK, false, Some(MemoryGrant(reg.clients[id], id, slot, size)), true)
  {
    var recv := MemoryRequest(id, size, slot);
    assert !ErrIsFail(recv.err) && !IsUnknownOp(recv) && !IsHandshake(recv);
  }

  /** Two clients each handshake and then ask for 4096 bytes. */
  function TwoClients(e1: Cap, e2: Cap, s1: Cap, s2: Cap): seq<RecvOutcome>
  {
    [HandshakeRequest(e1), MemoryRequest(0, 4096, s1), HandshakeRequest(e2), MemoryRequest(1, 4096, s2)]
  }

  /** A client joining a table of `reg.numConns` clients and then asking for
      `size` bytes: it is given the next id and its grant goes to its own entry. */
  lemma JoinThenRequestTrace(reg: Registry, lc: Chan, endpoint: Cap, size: Word, slot: Cap)
    requires Valid(reg) && reg.numConns < U32_LIMIT
    ensures Admissible(reg, lc, [HandshakeRequest(endpoint), MemoryRequest(reg.numConns, size, slot)])
    ensures var c := lc.(remote := endpoint);
            var r := Registry(reg.clients + [c], reg.numConns + 1);
            Trace(reg, lc, [HandshakeRequest(endpoint), MemoryRequest(reg.numConns, size, slot)])
            == [Outcome(r, SYS_ERR_OK, false, Some(Handshake(c, reg.numConns)), true),
                Outcome(r, SYS_ERR_OK, false, Some(MemoryGrant(c, reg.numConns, slot, size)), true)]
  {
    var h, m := HandshakeRequest(endpoint), MemoryRequest(reg.numConns, size, slot);
    var c := lc.(remote := endpoint);
    var r := Registry(reg.clients + [c], reg.numConns + 1);
    HandshakeRequestStep(reg, lc, endpoint);
    MemoryRequestStep(r, lc, reg.numConns, size, slot);
    TraceCons(r, lc, m, []);
    assert [m] + [] == [m];
    TraceCons(reg, lc, h, [m]);
    assert [h] + [m] == [h, m];
  }

  /** Running one run after another is running their concatenation: the
      calls of the second see the registry the first left behind. */
  lemma {:induction false} TraceAppend(reg: Registry, lc: Chan, xs: seq<RecvOutcome>, ys: seq<RecvOutcome>)
    requires Valid(reg) && Admissible(reg, lc, xs) && Admissible(Final(reg, lc, xs), lc, ys)
    ensures Admissible(reg, lc, xs + ys)
    ensures Trace(reg, lc, xs + ys) == Trace(reg, lc, xs) + Trace(Final(reg, lc, xs), lc, ys)
    decreases |xs|
  {
    if |xs| == 0 {
      assert xs + ys == ys;
    } else {
      var o := Step(reg, lc, xs[0]);
      BeforeShift(reg, lc, xs, |xs|);
      TraceAppend(o.reg, lc, xs[1..], ys);
      assert (xs + ys)[0] == xs[0] && (xs + ys)[1..] == xs[1..] + ys;
      assert Admissible(reg, lc, xs + ys);
      assert Trace(reg, lc, xs) == [o] + Trace(o.reg, lc, xs[1..]);
      assert Trace(reg, lc, xs + ys) == [o] + Trace(o.reg, lc, xs[1..] + ys);
    }
  }

  /** The registry after a concatenation is the one the second run leaves
      when started from where the first run ended. */
  lemma FinalAppend(reg: Registry, lc: Chan, xs: seq<RecvOutcome>, ys: seq<RecvOutcome>)
    requires Valid(reg) && Admissible(reg, lc, xs) && Admissible(Final(reg, lc, xs), lc, ys)
    ensures Admissible(reg, lc, xs + ys)
    ensures Final(reg, lc, xs + ys) == Final(Final(reg, lc, xs), lc, ys)
  {
    TraceAppend(reg, lc, xs, ys);
    if |ys| == 0 {
      assert xs + ys == xs;
    } else {
      var mid := Final(reg, lc, xs);
      assert Trace(reg, lc, xs + ys)[|xs + ys| - 1] == Trace(mid, lc, ys)[|ys| - 1];
    }
  }

  /** In that run the clients are told ids 0 and 1, and each memory grant is
      registered for the asking client's own channel with its own slot and size. */
  lemma TwoClientsScenario(lc: Chan, e1: Cap, e2: Cap, s1: Cap, s2: Cap)
    ensures Admissible(EmptyRegistry, lc, TwoClients(e1, e2, s1, s2))
    ensures Trace(EmptyRegistry, lc, TwoClients(e1, e2, s1, s2))[0].send == Some(Handshake(lc.(remote := e1), 0))
    ensures Trace(EmptyRegistry, lc, TwoClients(e1, e2, s1, s2))[1].send == Some(MemoryGrant(lc.(remote := e1), 0, s1, 4096))
    ensures Trace(EmptyRegistry, lc, TwoClients(e1, e2, s1, s2))[2].send == Some(Handshake(lc.(remote := e2), 1))
    ensures Trace(EmptyRegistry, lc, TwoClients(e1, e2, s1, s2))[3].send == Some(MemoryGrant(lc.(remote := e2), 1, s2, 4096))
    ensures Final(EmptyRegistry, lc, TwoClients(e1, e2, s1, s2)) == Registry([lc.(remote := e1), lc.(remote := e2)], 2)
  {
    var c1, c2 := lc.(remote := e1), lc.(remote := e2);
    var first := [HandshakeRequest(e1), MemoryRequest(0, 4096, s1)];
    var second := [HandshakeRequest(e2), MemoryRequest(1, 4096, s2)];
    JoinThenRequestTrace(EmptyRegistry, lc, e1, 4096, s1);
    assert EmptyRegistry.clients + [c1] == [c1];
    assert Final(EmptyRegistry, lc, first) == Registry([c1], 1);
    JoinThenRequestTrace(Registry([c1], 1), lc, e2, 4096, s2);
    assert [c1] + [c2] == [c1, c2];
    TraceAppend(EmptyRegistry, lc, first, second);
    FinalAppend(EmptyRegistry, lc, first, second);
    assert first + second == TwoClients(e1, e2, s1, s2);
  }
}
