/**
 The hardware-operation dispatch of an IPMI interface (`ipmi_do_hw_op`).

 The dispatcher maps an `ipmi_op` and a check-only flag to a completion code
 and to the calls it makes into the host machine. Those calls are foreign to
 this model; they are recorded, in order, as a trace of `HostEffect`s. A
 small host semantics (`Run`) gives the trace a meaning independent of the
 dispatcher: how many reset, power-down and NMI requests reached the host,
 and whether the iothread lock was taken and released correctly.
 */
module HwOp {
  import opened IpmiTypes

  /**
   The operations of `enum ipmi_op`. `OtherOp` stands for any value outside
   the seven named enumerators, which the `default:` label of the switch
   catches.
   */
  datatype IpmiOp =
    | ResetChassis
    | PowerOffChassis
    | PowerOnChassis
    | PowerCycleChassis
    | PulseDiagIrq
    | ShutdownViaAcpiOvertemp
    | SendNmi
    | OtherOp(value: int)

  /**
   The completion codes the dispatcher returns: 0 for success (00h in
   section 5.2 of the IPMI v2.0 specification) and the header's
   `IPMI_CC_COMMAND_NOT_SUPPORTED`, whose numeric value is not part of this
   model; it is only known to differ from 0.
   */
  datatype CompletionCode = Success | CommandNotSupported

  /** A call the dispatcher makes into the host machine. */
  datatype HostEffect =
    | SystemResetRequest      // qemu_system_reset_request()
    | SystemPowerdownRequest  // qemu_system_powerdown_request()
    | LockIothread            // qemu_mutex_lock_iothread()
    | InjectNmi               // qmp_inject_nmi(NULL)
    | UnlockIothread          // qemu_mutex_unlock_iothread()

  /** What one dispatch returns and which host calls it made. */
  datatype HwOpResult = HwOpResult(code: CompletionCode, trace: seq<HostEffect>)

  /** The operations this interface implements. */
  predicate Supported(op: IpmiOp) {
    op == ResetChassis || op == PowerOffChassis || op == SendNmi
  }

  /**
   `ipmi_do_hw_op`. A supported operation answers 0; unless `checkOnly` is
   set it first makes exactly one host request, and the NMI request is
   bracketed by the iothread lock. Every other operation answers
   "command not supported" and touches nothing.
   */
  function DoHwOp(op: IpmiOp, checkOnly: bool): (r: HwOpResult)
    ensures r.code == Success <==> Supported(op)
    ensures r.code == CommandNotSupported <==> !Supported(op)
    ensures !Supported(op) ==> r.trace == []
    ensures checkOnly ==> r.trace == []
    ensures op == ResetChassis && !checkOnly ==> r.trace == [SystemResetRequest]
    ensures op == PowerOffChassis && !checkOnly ==> r.trace == [SystemPowerdownRequest]
    ensures op == SendNmi && !checkOnly ==> r.trace == [LockIothread, InjectNmi, UnlockIothread]
  {
    match op
    case ResetChassis =>
      if checkOnly then HwOpResult(Success, [])
      else HwOpResult(Success, [SystemResetRequest])
    case PowerOffChassis =>
      if checkOnly then HwOpResult(Success, [])
      else HwOpResult(Success, [SystemPowerdownRequest])
    case SendNmi =>
      if checkOnly then HwOpResult(Success, [])
      else HwOpResult(Success, [LockIothread, InjectNmi, UnlockIothread])
    case _ =>
      HwOpResult(CommandNotSupported, [])
  }

  /**
   A check-only call is a faithful probe: it answers what the real call
   would answer, and makes no host call.
   */
  lemma CheckOnlyPredictsOutcome(op: IpmiOp)
    ensures DoHwOp(op, true).code == DoHwOp(op, false).code
    ensures DoHwOp(op, true).trace == []
  {
  }

  /**
   The operations the switch lists explicitly as unsupported answer
   "not supported" in both modes, with no host call.
   */
  lemma ListedUnsupportedOps(op: IpmiOp, checkOnly: bool)
    requires op in {PowerCycleChassis, PulseDiagIrq, ShutdownViaAcpiOvertemp, PowerOnChassis}
    ensures DoHwOp(op, checkOnly) == HwOpResult(CommandNotSupported, [])
  {
  }

  // ---------------------------------------------------------------------
  // Host semantics of effect traces

  /**
   What the host machine has received: counters of the three requests and
   whether the (non-recursive) iothread lock is held.
   */
  datatype Host = Host(resets: nat, powerdowns: nat, nmis: nat, iothreadLocked: bool)

  /**
   One host call. Taking the iothread lock while it is held, releasing it
   while it is free, or injecting an NMI without holding it is a fault
   (`None`).
   */
  function Step(h: Host, e: HostEffect): (r: Option<Host>)
    ensures e == LockIothread ==> (r.Some? <==> !h.iothreadLocked)
    ensures e == UnlockIothread || e == InjectNmi ==> (r.Some? <==> h.iothreadLocked)
    ensures r.Some? && e != LockIothread && e != UnlockIothread ==>
              r.value.iothreadLocked == h.iothreadLocked
  {
    match e
    case SystemResetRequest => Some(h.(resets := h.resets + 1))
    case SystemPowerdownRequest => Some(h.(powerdowns := h.powerdowns + 1))
    case LockIothread => if h.iothreadLocked then None else Some(h.(iothreadLocked := true))
    case InjectNmi => if h.iothreadLocked then Some(h.(nmis := h.nmis + 1)) else None
    case UnlockIothread => if h.iothreadLocked then Some(h.(iothreadLocked := false)) else None
  }

  /** The host after a whole trace, or `None` if some call faulted. */
  function Run(h: Host, trace: seq<HostEffect>): Option<Host>
    decreases |trace|
  {
    if trace == [] then Some(h)
    else match Step(h, trace[0])
      case None => None
      case Some(h') => Run(h', trace[1..])
  }

  /** Running two traces one after the other is running their concatenation. */
  lemma {:induction false} RunAppend(h: Host, a: seq<HostEffect>, b: seq<HostEffect>)
    ensures Run(h, a + b) ==
              match Run(h, a)
              case None => None
              case Some(h') => Run(h', b)
    decreases |a|
  {
    if a == [] {
      assert a + b == b;
    } else {
      assert (a + b)[0] == a[0];
      assert (a + b)[1..] == a[1..] + b;
      match Step(h, a[0])
      case None =>
      case Some(h') => RunAppend(h', a[1..], b);
    }
  }

  /** The host after a request is served: the counter of that request goes up by one. */
  function Served(h: Host, op: IpmiOp): Host {
    match op
    case ResetChassis => h.(resets := h.resets + 1)
    case PowerOffChassis => h.(powerdowns := h.powerdowns + 1)
    case SendNmi => h.(nmis := h.nmis + 1)
    case _ => h
  }

  /**
   Called while the host does not hold the iothread lock, one dispatch never
   faults; it serves exactly the requested operation when that operation is
   supported and `checkOnly` is clear, and leaves the host untouched
   otherwise; and it leaves the iothread lock free.
   */
  lemma DispatchOnHost(h: Host, op: IpmiOp, checkOnly: bool)
    requires !h.iothreadLocked
    ensures Run(h, DoHwOp(op, checkOnly).trace) ==
              Some(if Supported(op) && !checkOnly then Served(h, op) else h)
    ensures Run(h, DoHwOp(op, checkOnly).trace).value.iothreadLocked == false
  {
  }

  /**
   Called while the host already holds the iothread lock, a real NMI request
   faults, because the iothread mutex is not recursive and the dispatcher
   takes it again; every other dispatch is served as usual and the lock
   stays held. Serving NMIs thus obliges callers not to hold the lock.
   */
  lemma DispatchOnLockedHost(h: Host, op: IpmiOp, checkOnly: bool)
    requires h.iothreadLocked
    ensures op == SendNmi && !checkOnly ==> Run(h, DoHwOp(op, checkOnly).trace) == None
    ensures !(op == SendNmi && !checkOnly) ==>
              Run(h, DoHwOp(op, checkOnly).trace) ==
                Some(if Supported(op) && !checkOnly then Served(h, op) else h)
    ensures !(op == SendNmi && !checkOnly) ==>
              Run(h, DoHwOp(op, checkOnly).trace).value.iothreadLocked
  {
  }

  /** A dispatch request: the operation and the value of the check-only flag. */
  datatype Request = Request(op: IpmiOp, checkOnly: bool)

  /** The host calls of a series of dispatches, in call order. */
  function TraceOf(reqs: seq<Request>): seq<HostEffect>
  {
    if reqs == [] then []
    else DoHwOp(reqs[0].op, reqs[0].checkOnly).trace + TraceOf(reqs[1..])
  }

  /** Number of requests in `reqs` that ask, not only probe, for `op`. */
  function Performed(reqs: seq<Request>, op: IpmiOp): nat
  {
    if reqs == [] then 0
    else (if reqs[0].op == op && !reqs[0].checkOnly then 1 else 0) + Performed(reqs[1..], op)
  }

  /**
   Any series of dispatches, started while the iothread lock is free, never
   faults, leaves the lock free, and delivers to the host exactly one reset,
   power-down or NMI request per non-check-only request for that operation.
   */
  lemma {:induction false} SeriesOnHost(h: Host, reqs: seq<Request>)
    requires !h.iothreadLocked
    ensures Run(h, TraceOf(reqs)) ==
              Some(Host(h.resets + Performed(reqs, ResetChassis),
                        h.powerdowns + Performed(reqs, PowerOffChassis),
                        h.nmis + Performed(reqs, SendNmi),
                        false))
    decreases |reqs|
  {
    if reqs != [] {
      var r := reqs[0];
      var first := DoHwOp(r.op, r.checkOnly).trace;
      DispatchOnHost(h, r.op, r.checkOnly);
      RunAppend(h, first, TraceOf(reqs[1..]));
      var h' := if Supported(r.op) && !r.checkOnly then Served(h, r.op) else h;
      SeriesOnHost(h', reqs[1..]);
    }
  }
}
