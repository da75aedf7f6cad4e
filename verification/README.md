# IPMI interface core — a Dafny model

This project models the generic part of QEMU's emulated IPMI interface in
`hw/ipmi/ipmi.c`. That code couples a guest-facing interface (KCS, BT, …) to
a baseboard management controller (BMC) backend. The model covers three
pieces:

- **Hardware-operation dispatch** (`ipmi_do_hw_op`, module `HwOp`). This is
  a total function from an `ipmi_op` and a check-only flag to a completion
  code and a trace of host-machine calls. The calls are: system reset
  request, power-down request, and NMI injection bracketed by the iothread
  lock. A small host semantics (`HwOp.Run`) reads a trace as request
  counters plus a non-recursive iothread lock. It is the independent
  reference the dispatcher is proved against: single calls, and any series
  of calls.
- **Interface life cycle** (module `IpmiInterface`):
  - `ipmi_set_irq_enable` is a one-field record update.
  - `ipmi_interface_init` runs the optional class hook, returns early when
    that hook reports an error, sets the 0x20 default slave address, and
    creates the lock, condition variable and worker thread for a threaded
    BMC. The thread is recorded as creation markers only.
  - `ipmi_interface_reset` and `ipmi_bmc_init` call an optional BMC hook.
    They record each call in a call log.
- **Snapshot schema** (`vmstate_IPMIInterface`, module `Snapshot`). This is
  the version-1, eight-entry, order-significant field list. The model gives
  the values a snapshot captures from an interface record, and proves that
  those values determine exactly the listed fields.

Class hooks are modelled as optional function values. A hook returns the
object as it left it, plus the error it stored through `errp`, if any.
Calls into the host machine and into BMC hooks become trace entries.

## Model

| member | source | states |
|---|---|---|
| `HwOp.DoHwOp` | hw/ipmi/ipmi.c:51-84 | Answers success exactly for chassis reset, chassis power-off and NMI, and "command not supported" for everything else. A check-only call makes no host call. Otherwise reset makes exactly one system-reset request, power-off exactly one power-down request, and NMI exactly lock iothread, inject NMI, unlock iothread, in that order. |
| `HwOp.CheckOnlyPredictsOutcome` | hw/ipmi/ipmi.c:53-75 | For every op, the check-only call answers the same code as the real call and makes no host call. |
| `HwOp.ListedUnsupportedOps` | hw/ipmi/ipmi.c:77-82 | Power-cycle, diag-interrupt pulse, ACPI over-temperature shutdown and power-on answer "not supported" in both modes, with an empty trace. |
| `HwOp.DispatchOnHost` | hw/ipmi/ipmi.c:51-84 | Starting from a host that does not hold the iothread lock, one dispatch never faults. The requested counter goes up by exactly one when the op is supported and not check-only; otherwise the host is unchanged. The lock is free again afterwards. |
| `HwOp.DispatchOnLockedHost` | hw/ipmi/ipmi.c:68-75 | Take a host that already holds the iothread lock. A real NMI request faults, because the non-recursive iothread mutex is taken a second time. Every other dispatch is served as from a free lock, and the lock stays held. |
| `HwOp.RunAppend` | hw/ipmi/ipmi.c:72-74 | Host calls compose: running two traces one after the other gives the same host as running their concatenation. This is what lets the lock discipline of one dispatch carry over to the next. |
| `HwOp.SeriesOnHost` | hw/ipmi/ipmi.c:51-84 | Any series of dispatches, started with the iothread lock free, never faults and ends with the lock free. The host receives exactly one reset, power-down or NMI request per non-check-only request for that op. |
| `IpmiInterface.SetIrqEnable` | hw/ipmi/ipmi.c:86-89 | `irqsEnabled` becomes true exactly when the C `int` argument is non-zero. Every other field is unchanged. |
| `IpmiInterface.SetIrqEnableLastWins` | hw/ipmi/ipmi.c:86-89 | Of two successive calls, only the second one determines the state. |
| `IpmiInterface.EnableThenDisable` | hw/ipmi/ipmi.c:86-89 | Enabling then disabling leaves interrupts off and every other field as it was. |
| `IpmiInterface.Init` | hw/ipmi/ipmi.c:100-120 | Passes on the class hook's error. On error, the result is exactly what the hook left, with no default address and no worker added. On success, a zero slave address becomes 0x20 and a non-zero one is kept. The lock, condition variable and thread are created when the BMC is threaded, and are left as they were otherwise. No other field changes. |
| `IpmiInterface.InitWithoutHookSucceeds` | hw/ipmi/ipmi.c:104-109 | Without a class hook, init reports no error and keeps the threaded flag. |
| `IpmiInterface.InitFromFresh` | hw/ipmi/ipmi.c:104-119 | Start from an interface with no worker. After a successful init, a worker, lock and condition variable exist if and only if the BMC is threaded. After a failed init, none of them exists. |
| `IpmiInterface.InitSlaveAddrStable` | hw/ipmi/ipmi.c:111-113 | A second hook-less init keeps the slave address the first one chose. |
| `IpmiInterface.InterfaceDoHwOp` | hw/ipmi/ipmi.c:126 | The class's `do_hw_op` entry returns the interface unchanged for every op. It answers success exactly for supported ops. It makes no host call when check-only or unsupported. Otherwise it makes exactly the dispatcher's host calls: one system-reset request, one power-down request, or lock / inject NMI / unlock. |
| `IpmiInterface.ThreadedInitThenChassisReset` | hw/ipmi/ipmi.c:100-120 | Take a fresh threaded interface without a class hook. Init succeeds and starts the worker. A chassis-reset dispatch then answers success, leaves the interface untouched, and delivers exactly one system reset request to the host. |
| `IpmiInterface.InterfaceReset` | hw/ipmi/ipmi.c:91-98 | If the BMC class has `handle_reset`, it is called exactly once and the machine (interface and BMC) is exactly what the hook makes of it. Otherwise there is no call and nothing changes. The function adds no change of its own. |
| `IpmiInterface.ResetKeepsConfiguration` | hw/ipmi/ipmi.c:91-98 | For a backend whose reset hook keeps the slave address, the threaded flag and the worker objects, a reset keeps the slave address and the agreement between worker and mode, with or without a hook. |
| `IpmiInterface.ResetTwice` | hw/ipmi/ipmi.c:91-98 | Two resets call the hook twice and apply it twice; without a hook they call nothing and change nothing. |
| `IpmiInterface.BmcInit` | hw/ipmi/ipmi.c:139-146 | If the BMC class has an `init` hook, it is called exactly once, and its resulting state and error are passed on. Otherwise there is no call, no error, and the BMC is unchanged. |
| `IpmiInterface.BmcInitErrorsComeFromHook` | hw/ipmi/ipmi.c:139-146 | An error from BMC init is always the present hook's own error. The hook is called if and only if it exists, and an init without a call leaves the BMC as it was, without error. |
| `Snapshot.Read` | hw/ipmi/ipmi.c:153-160 | A `bool` or `uint32` entry captures that field's own value, and fails when the record has no field of that type under that name. A variable buffer entry succeeds exactly when the buffer holds `start` plus the size field's value in bytes. It then captures exactly those bytes, starting at `start`. |
| `Snapshot.Capture` | hw/ipmi/ipmi.c:152-162 | A field list captures one value per entry, in list order, each the entry's own value. Capture succeeds if and only if every entry fits the record. |
| `Snapshot.SchemaReads` | hw/ipmi/ipmi.c:153-160 | Every entry of the schema fits any interface whose buffer holds `inLen` bytes. Each entry reads its own field, and inmsg reads exactly its first `inLen` bytes. |
| `Snapshot.CaptureContents` | hw/ipmi/ipmi.c:152-162 | The schema captures, in order: obf_irq_set, atn_irq_set, use_irq, irqs_enabled, outpos, outlen, the first `inLen` bytes of inmsg, and write_end. |
| `Snapshot.CaptureDeterminesFields` | hw/ipmi/ipmi.c:152-162 | Two interfaces capture the same values if and only if they agree on the eight listed fields. For inmsg, agreement means its first `inLen` bytes. Equal captures also imply equal `inLen`. |
| `Snapshot.SchemaOrder` | hw/ipmi/ipmi.c:150-160 | `version_id` and `minimum_version_id` are both 1. The entries are named obf_irq_set, atn_irq_set, use_irq, irqs_enabled, outpos, outlen, inmsg, write_end, in that order. |
| `Snapshot.SchemaDistinct` | hw/ipmi/ipmi.c:153-161 | No field is listed twice, and `inlen` is not itself an entry. |
| `Snapshot.SchemaVersions` | hw/ipmi/ipmi.c:157-160 | inmsg is a variable buffer starting at offset 0, sized by `inlen`, and introduced at version 1. No entry is newer than the schema's version. |

## Left out

- The worker loop `ipmi_thread` (hw/ipmi/ipmi.c:35-49) is left out. Its point is concurrency, it never terminates, and the model is sequential. Init records only that the lock, condition variable and thread were created. Wake coalescing and the serialisation of `handle_if_event` are therefore not modelled.
- The bodies of `qemu_system_reset_request`, `qemu_system_powerdown_request`, `qmp_inject_nmi` and the iothread lock are foreign host calls. They appear only as trace entries. `HwOp.Run` gives those entries a minimal meaning: counters and a non-recursive lock.
- The class hooks `init`, `handle_reset` and `handle_if_event` are defined by subclasses that are not part of this model. The first two are arbitrary function values; `handle_reset` acts on the whole machine, because a BMC can reach its interface. `handle_if_event` is called only from the worker loop, so it is left out with the loop.
- QOM type registration and class wiring (hw/ipmi/ipmi.c:122-137, 165-179) are object-system plumbing. The exception is the `do_hw_op` binding, which `InterfaceDoHwOp` models.
- The byte encoding and loading of snapshots belong to the migration framework, which is not part of this model. This covers endianness, whether a length prefix is written, and rejection of foreign versions on load. The model stops at the captured values, so there is no encode/decode round trip.
- The schema's `name` (`TYPE_IPMI_INTERFACE`) is defined in `ipmi.h`, which is not part of this model, so it is left out.
- `IPMI_CC_COMMAND_NOT_SUPPORTED` is defined in `ipmi.h`. It is modelled as a completion-code constructor distinct from success, with no numeric value.
- The C `int checkonly` is used only as a truth value, so it is modelled as `bool`.
- `ipmi_do_hw_op` receives the interface (`IPMIInterface *s`) but never uses it. `HwOp.DoHwOp` therefore takes no state, and `InterfaceDoHwOp` shows that the interface is unchanged.
- `Init` assumes `*errp` is clear on entry, as QEMU's error convention requires. A null `errp` is not modelled.
- `ipmi_interface_init` does not set `irqs_enabled`; `Init` leaves it as the class hook left it.
- On a hook error `ipmi_interface_init` returns with whatever the hook left; `Init` models that.
- `Init`: the lock, condition variable and thread are boolean markers, so a second `Init` of a threaded interface is idempotent in the model. In C a second call re-initialises the mutex and condition variable and starts a second `ipmi-bmc` thread (hw/ipmi/ipmi.c:115-118). `InitSlaveAddrStable`, which runs `Init` twice, speaks only of the slave address.
