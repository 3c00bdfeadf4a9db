# Zephyr demo applications: start-up and event logic

This project models, in Dafny, the self-contained sequential logic of three
Zephyr demo applications:

- **RPC demo** (`RpcDemo`, `rpc_demo.dfy`). This covers the static callset
  table with TestRpc as callset 1 and SystemRpc as callset 2. `rpc_init` scans
  the table for the largest encoded size. It then asks the kernel heap for four
  buffers in a fixed order: the call frame and the reply frame, each of header
  size plus that maximum, then the callset call and reply scratch buffers of the
  maximum. It stops with `-ENOMEM` at the first refusal. Only on success does it
  fill in the `ProtoRpc` object. `main` then starts the RPC server with that
  object.
- **serialnet and usbnet** (`NetMonitor`, `Serialnet`, `Usbnet`). Both
  applications carry the same network-management event handler. It drives a
  `connected` flag and the `run_app` semaphore (initial count 0, limit 1).
  CONNECTED sets the flag and gives the semaphore. DISCONNECTED clears both.
  Every other event changes nothing. The two applications differ in `init_app`.
  serialnet refuses with -1 when the connection manager is not configured.
  usbnet registers the handler only when it is configured, and carries on
  either way.
- **qtpy demo** (`QtpyDemo`, `qtpy_demo.dfy`). A one-pixel LED strip is driven
  from a static pixel buffer. In each round a cursor walks the pixels. For each
  cursor position the buffer is cleared, the pixel under the cursor is set to
  the current palette colour, and the buffer is sent to the strip. After the
  walk, the colour index moves to the next of red, green and blue.

Stateful code is modelled as classes whose methods update fields. The static
`rpc` object, the buffer pointers, the `connected` flag, the semaphore and the
pixel buffer are fields of these classes. The methods with loops or several
steps are proved against pure functions:
- `MaxCallsetSize` against `MaxSize`;
- `AllocateBuffers` and `RpcInit` against `RequestCount`, `PlannedSizes` and
  `BuffersAfter`, and `RpcInit` also against `RpcSetUp`;
- `Monitor.EventHandler` against `Step`, and `Semaphore.Give` against
  `SemGive`;
- `ShowCursor` against `Frame`, `Round` against `RoundFrames` and
  `NextColor`, and `RunRounds` against `Shown` and `ColorAfter`.

`Run` is the subject of the lemmas about sequences of events. The remaining
methods (`KernelHeap.Malloc`, `LedStrip.UpdateRgb`, `ClearPixels`, both
`InitApp`s and `InitUsb`) are stated directly by expressions over their inputs
and the old state.

Three collaborators are given to the model as inputs:
- The kernel heap behind `k_malloc` gets a script of answers, one per request,
  where `true` grants and `false` returns NULL. It logs every request size.
- The LED strip driver gets a script of return codes and logs every buffer it
  is sent.
- The configuration flag and the results of `NvParms_init`, `usb_enable` and
  `net_config_init_app` are parameters.

Allocation failure is meant to be fatal at start-up, but `main` in
rpc_demo/src/main.c ignores the result of `rpc_init`. It starts the RPC server
with the `rpc` object even when that object was left zeroed. The model follows
the code, and `RpcDemo.RpcDemoApp.Start` states this behaviour.

## Model

| member | source | states |
|---|---|---|
| `RpcDemo.MaxCallsetSize` | rpc_demo/src/main.c:71-80 | The result is at least the `size` of every table entry. It is 0 for an empty table and otherwise equals the size of some entry. It equals the left fold `MaxSize` of the table. |
| `RpcDemo.MaxSizeIsUpperBound` | rpc_demo/src/main.c:74-80 | No table entry is larger than `MaxSize` of the table. |
| `RpcDemo.MaxSizeIsAttained` | rpc_demo/src/main.c:72-80 | `MaxSize` is 0 for the empty table. Otherwise it is the size of some entry. |
| `RpcDemo.CallsetTableMax` | rpc_demo/src/main.c:24-27 | For the two-entry table (ids 1 and 2), the maximum is the larger of the two generated sizes. |
| `RpcDemo.RequestCount` | rpc_demo/src/main.c:84-110 | rpc_init makes between 1 and 4 requests. Every request before the last one made was granted. If fewer than 4 were made, the last one was refused. All 4 are made and granted exactly when the heap grants all four. |
| `RpcDemo.KernelHeap.Malloc` | rpc_demo/src/main.c:84 | `k_malloc` logs the requested size and consumes one answer. It returns a fresh buffer of exactly that size when granted and null when refused. |
| `RpcDemo.ProtoRpc.constructor` | rpc_demo/src/main.c:34 | The static rpc object starts with every pointer null and every size and count 0. |
| `RpcDemo.RpcDemoApp.constructor` | rpc_demo/src/main.c:24-34 | The table holds `(1, test size)` and `(2, system size)`. The four buffer pointers are null, the rpc object is zeroed and no server has been started. |
| `RpcDemo.RpcDemoApp.AllocateBuffers` | rpc_demo/src/main.c:84-110 | The request sizes are, in order, header+max, header+max, max and max, cut off after the first refusal. The refused pointer becomes null and the later pointers keep their values. The result is true exactly when all four are granted. |
| `RpcDemo.RpcDemoApp.RpcInit` | rpc_demo/src/main.c:68-123 | The heap sees the fixed request order, cut at the first refusal. The result is 0 exactly when every request is granted and -ENOMEM otherwise. On failure the rpc object is unchanged. On success `RpcSetUp` holds: the rpc object holds the four buffers, the table and `num_callsets` equal to the table length (2), and both scratch sizes equal the maximum. Every callset's payload fits both scratch buffers, and payload plus header fits both frames. The table is never modified. |
| `RpcDemo.RpcDemoApp.Start` | rpc_demo/src/main.c:125-149 | If `NvParms_init` fails, nothing is allocated, no server is started and the application stays as it booted. Otherwise rpc_init runs and the server is given the rpc object. That object is zeroed exactly when an allocation was refused, so the server is started with it either way. When every allocation is granted, the server gets the rpc object set up as `RpcSetUp` states. |
| `NetMonitor.Initial` | serialnet/src/main.c:23-25 | Before any event, `connected` is false and the run_app count is 0, which is within its limit. |
| `NetMonitor.SemGive` | usbnet/src/main.c:88 | `k_sem_give` with no waiter raises the count by one below the limit, keeps it at the limit, and never takes it past the limit. |
| `NetMonitor.Step` | serialnet/src/main.c:70-102 | CONNECTED gives `(true, 1)` from any state within the limit. DISCONNECTED gives `(false, 0)` from any state. The IPv4 and IPv6 events and every other event leave the state unchanged. The count stays within the limit. |
| `NetMonitor.RunStaysValid` | usbnet/src/main.c:28 | The run_app count stays in [0, 1] over any sequence of events. |
| `NetMonitor.RunKeepsFlagWithCount` | usbnet/src/main.c:85-99 | From the initial state, after any sequence of events, `connected` holds exactly when run_app holds its one count, while no thread waits on run_app. |
| `NetMonitor.LastL4EventDecides` | serialnet/src/main.c:72-86 | After any sequence of events, the state is `(true, 1)` or `(false, 0)` according to the last CONNECTED or DISCONNECTED event. Events after it change nothing. |
| `NetMonitor.OtherEventsChangeNothing` | usbnet/src/main.c:100-114 | Any sequence made only of events other than CONNECTED and DISCONNECTED leaves the state as it was. |
| `NetMonitor.RepeatedConnectedStaysAtLimit` | serialnet/src/main.c:72-76 | Any positive number of CONNECTED events in a row ends in `(true, 1)`: repeated gives do not push the count past the limit of 1. |
| `NetMonitor.ConnectedIdempotent` | usbnet/src/main.c:85-89 | Delivering CONNECTED twice gives the same state as delivering it once. |
| `NetMonitor.DisconnectedIdempotent` | serialnet/src/main.c:77-86 | Delivering DISCONNECTED twice gives the same state as delivering it once. |
| `NetMonitor.Semaphore.constructor` | serialnet/src/main.c:25 | `K_SEM_DEFINE` sets the given initial count and limit, with the count within the limit. |
| `NetMonitor.Semaphore.Give` | serialnet/src/main.c:75 | The count becomes `SemGive` of the old count and stays within the limit. |
| `NetMonitor.Semaphore.Reset` | serialnet/src/main.c:85 | The count becomes 0. |
| `NetMonitor.Monitor.constructor` | usbnet/src/main.c:25-28 | The flag is false, the run_app count is 0 with limit 1, and no callback is registered. |
| `NetMonitor.Monitor.EventHandler` | usbnet/src/main.c:71-117 | The new flag and count are `Step` of the old ones for the delivered event. The code is identical to serialnet/src/main.c:58-104. |
| `Serialnet.InitApp` | serialnet/src/main.c:106-131 | Without the connection manager the result is -1 and no callback is registered. With it, the callback is registered and the result is that of `net_config_init_app`. |
| `Usbnet.InitUsb` | usbnet/src/main.c:36-51 | The result is exactly `usb_enable`'s result: its nonzero code on failure and 0 on success. |
| `Usbnet.InitApp` | usbnet/src/main.c:119-145 | The callback is registered exactly when the connection manager is configured, or when it already was. The result is that of `net_config_init_app` either way, whatever `usb_enable` returned. |
| `QtpyDemo.PaletteColorsAreLit` | qtpy_demo/src/main.c:22-26 | No palette colour equals a cleared pixel. |
| `QtpyDemo.NextColor` | qtpy_demo/src/main.c:78 | The next colour index is within the palette. It is one more than the current index, except that blue (2) wraps to red (0). |
| `QtpyDemo.ColorAfterRounds` | qtpy_demo/src/main.c:35 | After k rounds from index c, the colour index is `(c + k) mod 3` and stays in 0..2. |
| `QtpyDemo.ColorCycleOfThree` | qtpy_demo/src/main.c:62-79 | Three more rounds come back to the same colour. |
| `QtpyDemo.RoundLightsEachPixelOnce` | qtpy_demo/src/main.c:64-67 | One round sends n buffers of n pixels. In the k-th buffer, pixel i is lit exactly when i = k, and the lit pixel has the round's colour. So the cursor visits each pixel once, in increasing order. |
| `QtpyDemo.ShownRound` | qtpy_demo/src/main.c:62-79 | Round r sends one full cursor walk in palette colour `(c + r) mod 3`, appended after the earlier rounds. |
| `QtpyDemo.ShownLength` | qtpy_demo/src/main.c:64-76 | Over k rounds the strip is sent k·n buffers. |
| `QtpyDemo.LedStrip.UpdateRgb` | qtpy_demo/src/main.c:69 | The strip records a copy of the pixel buffer. It returns the next scripted code, or 0 once the script is used up. |
| `QtpyDemo.QtpyApp.constructor` | qtpy_demo/src/main.c:29-35 | The pixel buffer holds one cleared pixel and the colour index is 0. |
| `QtpyDemo.QtpyApp.ClearPixels` | qtpy_demo/src/main.c:66 | Every pixel is cleared. |
| `QtpyDemo.QtpyApp.ShowCursor` | qtpy_demo/src/main.c:66-73 | Before the update, the buffer has the cursor pixel in the current colour and every other pixel cleared. That buffer is what the strip receives. The colour index does not change, whatever the strip returns. |
| `QtpyDemo.QtpyApp.Start` | qtpy_demo/src/main.c:44-56 | If the strip is not ready, nothing is shown. Otherwise the first buffer shown is red in pixel 0 with the rest cleared. |
| `QtpyDemo.QtpyApp.Round` | qtpy_demo/src/main.c:62-79 | One pass sends the strip the buffers of a cursor walk in increasing order, in the colour current at the start of the pass. The colour index then becomes `NextColor` of the old one, whatever codes the strip returned. |
| `QtpyDemo.QtpyApp.RunRounds` | qtpy_demo/src/main.c:62-79 | After k passes, the colour index is `ColorAfter(c, k)` and the strip has been sent `Shown(n, c, k)`. |

## Left out

- The RPC runtime is not part of this model: `TcpRpcServer`, the `ProtoRpc` dispatcher, the frame header codec and the nanopb schemas. The applications only include their headers.
- The callset table's resolver functions and field descriptors are left out. Each row keeps only its id and its size.
- `ProtoRpcHeader_size` and the generated `*_size` constants are left abstract. They are the `headerSize`, `testSize` and `systemSize` parameters of `RpcDemo.RpcDemoApp`.
- RpcDemo.RpcDemoApp.RpcInit: sizes are unbounded naturals. The 32-bit wrap-around of `max_callset_size` and of `ProtoRpcHeader_size + max_callset_size` is not modelled, because these are small compile-time constants.
- The heap's allocation policy is replaced by the script of answers. That policy covers fragmentation, alignment and zero-byte requests. Freshly allocated buffers are zero in the model but uninitialised in C.
- The buffers allocated before a refusal are never freed in C. The model keeps them as well but proves nothing about the leak.
- `init_wifi`, the `NvParms` settings store and `WifiConnect` are foreign calls and are left out. Only the result of `NvParms_init` is an input, to `RpcDemo.RpcDemoApp.Start`.
- `TcpRpcServer_init` is modelled only as the rpc object it is given. Its return value, its port, stack size and worker count are left out. So is the idle loop of `main`.
- All logging is left out.
- The waiting side of `run_app` is left out: `k_sem_take` in `main`, and the hand-off in `k_sem_give` when a thread is waiting. `NetMonitor.SemGive` is the no-waiter case.
- Event delivery by the network-management layer is left out. That covers the event mask, delivery only after registration, and `conn_mgr_mon_resend_status`. The model calls the handler directly.
- `init_ip`, `net_config_init_app` and `usb_enable` are network and device bring-up in foreign code. Only their results are inputs.
- The GPIO power pin of the qtpy demo is left out. So are the `k_sleep` delays and the result codes of `gpio_pin_configure_dt` and of the first strip update.
- `device_is_ready` is an input to `QtpyDemo.QtpyApp.Start`.
- The endless loop of the qtpy `main` is modelled as one pass (`Round`) and any finite number of passes (`RunRounds`).
