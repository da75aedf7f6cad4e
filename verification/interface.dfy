/**
 The life cycle of an IPMI interface: `ipmi_interface_init`,
 `ipmi_interface_reset`, `ipmi_set_irq_enable` and `ipmi_bmc_init`.

 The interface record holds the protocol state the guest drives and the
 configuration read at init. The class hooks that subclasses supply (the
 interface's `init`, the BMC's `init` and `handle_reset`) are optional
 function values; a hook that reports an error returns it beside the object
 it leaves behind. Creating the lock, the condition variable and the worker
 thread is recorded as three markers; the worker itself is not modelled.
 */
module IpmiInterface {
  import opened IpmiTypes
  import opened HwOp

  /** The slave address an interface gets when none is configured. */
  const DefaultSlaveAddr: uint8 := 0x20

  /** The fields of `IPMIInterface` that this file reads or writes. */
  datatype InterfaceState = InterfaceState(
    slaveAddr: uint8,
    threadedBmc: bool,
    obfIrqSet: bool,
    atnIrqSet: bool,
    useIrq: bool,
    irqsEnabled: bool,
    outPos: uint32,
    outLen: uint32,
    inMsg: seq<uint8>,  // the inbound buffer; its length is the buffer's capacity
    inLen: uint32,
    writeEnd: bool)

  /** Which of the worker's synchronisation objects have been created. */
  datatype SyncObjects = SyncObjects(lockCreated: bool, wakerCreated: bool, threadStarted: bool)

  const NoWorker := SyncObjects(false, false, false)
  const WorkerRunning := SyncObjects(true, true, true)

  /** An interface instance: its state and its worker markers. */
  datatype Interface = Interface(state: InterfaceState, sync: SyncObjects)

  /**
   An interface whose worker markers agree with its mode: the worker, its
   lock and its condition variable exist exactly when the BMC is threaded.
   */
  predicate WorkerMatchesMode(iface: Interface) {
    iface.sync == (if iface.state.threadedBmc then WorkerRunning else NoWorker)
  }

  // ---------------------------------------------------------------------
  // ipmi_set_irq_enable

  /**
   `ipmi_set_irq_enable`. The C argument is an `int` stored into a `bool`
   field, so any non-zero value enables interrupts. Nothing else changes.
   */
  function SetIrqEnable(s: InterfaceState, val: int): (r: InterfaceState)
    ensures r.irqsEnabled <==> val != 0
    ensures r.(irqsEnabled := s.irqsEnabled) == s
  {
    s.(irqsEnabled := val != 0)
  }

  /** Of two consecutive calls only the second one matters. */
  lemma SetIrqEnableLastWins(s: InterfaceState, a: int, b: int)
    ensures SetIrqEnable(SetIrqEnable(s, a), b) == SetIrqEnable(s, b)
  {
  }

  /** Enabling then disabling leaves interrupts off and every other field as it was. */
  lemma EnableThenDisable(s: InterfaceState)
    ensures SetIrqEnable(SetIrqEnable(s, 1), 0) == s.(irqsEnabled := false)
  {
  }

  // ---------------------------------------------------------------------
  // ipmi_interface_init

  /** The interface class's optional `init` hook. */
  type InterfaceInitHook = InterfaceState -> HookResult<InterfaceState>

  /** The state and error after the optional hook; an absent hook changes nothing. */
  function RunInitHook(s: InterfaceState, hook: Option<InterfaceInitHook>): HookResult<InterfaceState>
  {
    match hook
    case None => HookResult(s, None)
    case Some(f) => f(s)
  }

  datatype InitResult = InitResult(iface: Interface, err: Option<Error>)

  /**
   `ipmi_interface_init`. The class hook runs first; if it reports an error,
   init returns at once with that error and adds nothing to what the hook
   did. Otherwise an unset (zero) slave address becomes 0x20, a set one is
   kept, and the lock, condition variable and worker thread are created
   exactly when the BMC is threaded. No other field changes.
   */
  function Init(iface: Interface, hook: Option<InterfaceInitHook>): (r: InitResult)
    ensures var h := RunInitHook(iface.state, hook);
            r.err == h.err
    ensures var h := RunInitHook(iface.state, hook);
            h.err.Some? ==> r.iface == Interface(h.state, iface.sync)
    ensures var h := RunInitHook(iface.state, hook);
            h.err.None? ==>
              && r.iface.state.slaveAddr != 0
              && (h.state.slaveAddr == 0 ==> r.iface.state.slaveAddr == DefaultSlaveAddr)
              && (h.state.slaveAddr != 0 ==> r.iface.state.slaveAddr == h.state.slaveAddr)
              && r.iface.state.(slaveAddr := h.state.slaveAddr) == h.state
    ensures var h := RunInitHook(iface.state, hook);
            h.err.None? ==>
              && (h.state.threadedBmc ==> r.iface.sync == WorkerRunning)
              && (!h.state.threadedBmc ==> r.iface.sync == iface.sync)
  {
    var h := RunInitHook(iface.state, hook);
    if h.err.Some? then
      InitResult(Interface(h.state, iface.sync), h.err)
    else
      var s := if h.state.slaveAddr == 0 then h.state.(slaveAddr := DefaultSlaveAddr) else h.state;
      var sync := if s.threadedBmc then WorkerRunning else iface.sync;
      InitResult(Interface(s, sync), None)
  }

  /** Without a class hook, init cannot fail. */
  lemma InitWithoutHookSucceeds(iface: Interface)
    ensures Init(iface, None).err == None
    ensures Init(iface, None).iface.state.threadedBmc == iface.state.threadedBmc
  {
  }

  /**
   Init of a newly created interface (no worker yet): on success the worker
   markers agree with the mode; on failure no worker, lock or condition
   variable exists.
   */
  lemma InitFromFresh(iface: Interface, hook: Option<InterfaceInitHook>)
    requires iface.sync == NoWorker
    ensures Init(iface, hook).err.None? ==> WorkerMatchesMode(Init(iface, hook).iface)
    ensures Init(iface, hook).err.Some? ==> Init(iface, hook).iface.sync == NoWorker
  {
  }

  /**
   Without a hook, a second init keeps the slave address the first one
   chose: the default is applied only to an unset address.
   */
  lemma InitSlaveAddrStable(iface: Interface)
    ensures var once := Init(iface, None).iface;
            Init(once, None).iface.state.slaveAddr == once.state.slaveAddr
  {
  }

  // ---------------------------------------------------------------------
  // do_hw_op as bound into the interface class

  datatype DispatchResult = DispatchResult(iface: Interface, result: HwOpResult)

  /**
   The class's `do_hw_op` entry: `ipmi_do_hw_op` is handed the interface
   but neither reads nor writes it, so the interface comes back unchanged
   whatever the operation.
   */
  function InterfaceDoHwOp(iface: Interface, op: IpmiOp, checkOnly: bool): (r: DispatchResult)
    ensures r.iface == iface
    ensures r.result.code == Success <==> Supported(op)
    ensures checkOnly || !Supported(op) ==> r.result.trace == []
    ensures op == ResetChassis && !checkOnly ==> r.result.trace == [SystemResetRequest]
    ensures op == PowerOffChassis && !checkOnly ==> r.result.trace == [SystemPowerdownRequest]
    ensures op == SendNmi && !checkOnly ==>
              r.result.trace == [LockIothread, InjectNmi, UnlockIothread]
  {
    DispatchResult(iface, DoHwOp(op, checkOnly))
  }

  /**
   A threaded interface with no class hook, initialised and then asked to
   reset the chassis: init succeeds and starts the worker, the dispatch
   answers success, leaves the interface as init left it, and delivers
   exactly one system reset request to the host.
   */
  lemma ThreadedInitThenChassisReset(iface: Interface, h: Host)
    requires iface.sync == NoWorker && iface.state.threadedBmc
    requires !h.iothreadLocked
    ensures var i := Init(iface, None);
            var d := InterfaceDoHwOp(i.iface, ResetChassis, false);
            && i.err == None
            && i.iface.sync == WorkerRunning
            && d.result.code == Success
            && d.iface == i.iface
            && Run(h, d.result.trace) == Some(h.(resets := h.resets + 1))
  {
    DispatchOnHost(h, ResetChassis, false);
  }

  // ---------------------------------------------------------------------
  // ipmi_interface_reset and ipmi_bmc_init

  /** A call from the interface into its BMC's class hooks. */
  datatype BmcCall = HandleResetCall | BmcInitCall

  /** An interface together with the state of the BMC it is bound to. */
  datatype Machine<B> = Machine(iface: Interface, bmc: B)

  datatype ResetResult<B> = ResetResult(machine: Machine<B>, calls: seq<BmcCall>)

  /**
   The BMC class's optional `handle_reset` hook. It is handed the BMC, and a
   BMC can reach the interface it is bound to, so the hook may change both:
   what survives a reset is the backend's decision.
   */
  type ResetHook<!B> = Machine<B> -> Machine<B>

  /**
   `ipmi_interface_reset`. The BMC's `handle_reset` hook runs exactly once if
   the BMC class has one, and the machine is then whatever the hook made
   of it; without the hook nothing happens. The function adds no change of
   its own to the interface.
   */
  function InterfaceReset<B>(m: Machine<B>, handleReset: Option<ResetHook<B>>): (r: ResetResult<B>)
    ensures handleReset.Some? ==>
              r.calls == [HandleResetCall] && r.machine == handleReset.value(m)
    ensures handleReset.None? ==> r.calls == [] && r.machine == m
  {
    match handleReset
    case None => ResetResult(m, [])
    case Some(f) => ResetResult(f(m), [HandleResetCall])
  }

  /**
   The configuration a reset must not disturb: the slave address, the
   threaded flag and the worker's synchronisation objects.
   */
  predicate KeepsConfiguration<B>(before: Machine<B>, after: Machine<B>) {
    && after.iface.state.slaveAddr == before.iface.state.slaveAddr
    && after.iface.state.threadedBmc == before.iface.state.threadedBmc
    && after.iface.sync == before.iface.sync
  }

  /**
   For a backend whose reset keeps the configuration (as the slave address
   is meant to survive a hardware reset), a reset keeps the slave address
   and the agreement between the worker and the mode, whether or not the
   backend has a `handle_reset` hook.
   */
  lemma ResetKeepsConfiguration<B>(m: Machine<B>, handleReset: Option<ResetHook<B>>)
    requires WorkerMatchesMode(m.iface)
    requires handleReset.Some? ==> KeepsConfiguration(m, handleReset.value(m))
    ensures KeepsConfiguration(m, InterfaceReset(m, handleReset).machine)
    ensures WorkerMatchesMode(InterfaceReset(m, handleReset).machine.iface)
    ensures InterfaceReset(m, handleReset).machine.iface.state.slaveAddr == m.iface.state.slaveAddr
  {
  }

  /**
   Two resets in a row apply the hook twice and call it twice: no reset is
   skipped or merged with another.
   */
  lemma ResetTwice<B>(m: Machine<B>, handleReset: Option<ResetHook<B>>)
    ensures var once := InterfaceReset(m, handleReset);
            var twice := InterfaceReset(once.machine, handleReset);
            && |once.calls + twice.calls| == (if handleReset.Some? then 2 else 0)
            && (handleReset.Some? ==> twice.machine == handleReset.value(handleReset.value(m)))
            && (handleReset.None? ==> twice.machine == m)
  {
  }

  /** The BMC class's optional `init` hook. */
  type BmcInitHook<!B> = B -> HookResult<B>

  datatype BmcInitResult<B> = BmcInitResult(bmc: B, err: Option<Error>, calls: seq<BmcCall>)

  /**
   `ipmi_bmc_init`. The BMC class's `init` hook runs exactly once if there
   is one, and its error, if any, is passed on; otherwise the BMC is left as
   it is and no error is reported.
   */
  function BmcInit<B>(bmc: B, hook: Option<BmcInitHook<B>>): (r: BmcInitResult<B>)
    ensures hook.None? ==> r.bmc == bmc && r.err == None && r.calls == []
    ensures hook.Some? ==>
              && r.calls == [BmcInitCall]
              && r.bmc == hook.value(bmc).state
              && r.err == hook.value(bmc).err
  {
    match hook
    case None => BmcInitResult(bmc, None, [])
    case Some(f) =>
      var h := f(bmc);
      BmcInitResult(h.state, h.err, [BmcInitCall])
  }

  /**
   Only the hook can make BMC init fail, and only a present hook is called:
   an error implies the hook exists and reported that very error, and a
   call-free init leaves the BMC exactly as it was.
   */
  lemma BmcInitErrorsComeFromHook<B>(bmc: B, hook: Option<BmcInitHook<B>>)
    ensures var r := BmcInit(bmc, hook);
            r.err.Some? ==> hook.Some? && hook.value(bmc).err == r.err
    ensures var r := BmcInit(bmc, hook);
            r.calls == [] <==> hook.None?
    ensures var r := BmcInit(bmc, hook);
            r.calls == [] ==> r.bmc == bmc && r.err.None?
  {
  }
}
