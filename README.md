# sd-login bindings: monitor, sessions and return codes

A Dafny model of the sequential logic in the Rust bindings for systemd's
sd-login API (seats, sessions, users and machines). The foreign calls, the
background thread and epoll cannot be verified, so they appear here as
parameters and recorded actions. What remains is modelled and proved:

- `Systemd` (`src/lib.rs`): `to_result`, which turns a C return code into an
  `io::Result`, and the `ffi_try!` macro that hands a foreign call's return
  code to it. The macro is used on the foreign calls whose return code is
  checked; `write`, `close`, `clock_gettime`, `sd_login_monitor_unref` and
  `free` are called without it.
- `LoginMonitor` (`src/login/monitor.rs`):
  - the category keyword;
  - `get_timeout`, the wake-up timeout in milliseconds;
  - the watch loop that the spawned thread runs;
  - the `Monitor` handle's lifecycle through `new`, `init` and `drop`.

  The watch loop runs over a script of `Round`s. Each round holds what the
  OS and sd-login report in one pass: the timeout query, the results of
  successive `epoll::wait` calls, and the event array. The loop's visible
  effects are recorded as a trace of `Callback`, `Flush` and `Unref`
  actions. `Monitor` is a class. Its ghost effect log records, in the
  order they happen, the threads spawned, the writes to the self-pipe, the
  joins and the descriptors closed.
- `LoginSession` (`src/login/session.rs`):
  - the `State`, `Type` and `Class` parsers;
  - equality and `Display` of `Session`;
  - `get_session`;
  - the list-building loop of `get_sessions`.

A Rust panic is a value in the model. `Outcome.Panic` stands for an
`unwrap` of an `Err`, a failed `try_into` or a `u64` overflow. `None`
stands for the panic of `Type::from` and `Class::from` on an unknown string.

## Model

| member | source | states |
|---|---|---|
| `Systemd.ToResult` | src/lib.rs:5-11 | a code below 0 gives an error carrying errno `-result`, which is at least 1; any other code is `Ok` of itself, so every `Ok` value is non-negative |
| `Systemd.ToResultRoundTrip` | src/lib.rs:5-11 | the return code can be recovered from the result, so the function has exactly two outcomes split at 0 and loses nothing |
| `Systemd.ToResultInjective` | src/lib.rs:5-11 | two codes give the same result exactly when they are equal |
| `Systemd.FfiTry` | src/lib.rs:13-18 | `ffi_try!(e)` is `to_result` applied to the value of `e`, with nothing else done |
| `Systemd.FfiTryLibc` | src/login/monitor.rs:59 | `ffi_try!` applied to a libc call as written: an error exactly when the call returned -1, and that error is always errno 1 (EPERM); otherwise `Ok` of the return value |
| `Systemd.FfiTryLibcReportsEperm` | src/login/monitor.rs:59 | as written, `ffi_try!` on a failing `pipe2` (-1, errno in `errno`) reports errno 1 whatever the cause; for EMFILE this differs from the real error |
| `Systemd.LibcResult` | src/login/monitor.rs:59 | corrected reading of a libc result: an error exactly when the call returned -1, carrying the errno it left |
| `LoginMonitor.AsStr` | src/login/monitor.rs:20-30 | `All` selects nothing (a null selector); every other category selects one of the keywords "seat", "session", "uid" and "machine" |
| `LoginMonitor.AsStrInjective` | src/login/monitor.rs:20-30 | the five categories give five different selectors, so with `AsStr`'s contract the four keyword categories map one-to-one onto the four keywords |
| `LoginMonitor.GetTimeout` | src/login/monitor.rs:148-177 | a failed query passes its errno on; a successful one never gives an error; the result is -1 exactly when the deadline is `u64::MAX` (a successful query with that deadline always gives -1), otherwise non-negative and an `i32`; a deadline not after now gives 0 |
| `LoginMonitor.GetTimeoutCeiling` | src/login/monitor.rs:168-170 | for `n < t < u64::MAX` within range, the result `m` is the ceiling of `(t-n)/1000`: `(m-1)*1000 < t-n <= m*1000` and `m >= 1` |
| `LoginMonitor.GetTimeoutPanics` | src/login/monitor.rs:168-172 | `get_timeout` panics exactly when the query succeeds and the deadline is more than `i32::MAX` milliseconds ahead, the only case where the `u64` add overflows or the `i32` conversion fails (the thread's other panics, on a failed query or wait, are in `Pass`) |
| `LoginMonitor.Handled` | src/login/monitor.rs:122-127 | the scan reaches a prefix of the batch that holds no self-pipe entry and stops at the first self-pipe entry |
| `LoginMonitor.HandledIsPrefix` | src/login/monitor.rs:122-127 | any prefix free of the self-pipe that ends at a self-pipe entry (or at the end of the batch) is exactly the scanned part |
| `LoginMonitor.CallbacksBeforeCounts` | src/login/monitor.rs:122-131 | the callback count of a batch equals the number of directory-fd entries strictly before the first self-pipe entry |
| `LoginMonitor.CallbackFlushAt` | src/login/monitor.rs:128-131 | in the actions of a batch, every callback is followed at once by one flush |
| `LoginMonitor.ScanBatch` | src/login/monitor.rs:122-132 | shutdown is marked iff the self-pipe occurs among the first `num_fds` entries; the actions are one callback and one flush per directory-fd entry before it; other descriptors cause nothing |
| `LoginMonitor.FirstSettled` | src/login/monitor.rs:111-120 | the retry loop ends at the first wait that was not interrupted by EINTR |
| `LoginMonitor.WaitRetrying` | src/login/monitor.rs:111-120 | every call gets the same timeout; EINTR failures are retried; the first success yields the ready count; any other failure panics |
| `LoginMonitor.RunPass` | src/login/monitor.rs:107-132 | one pass (timeout, wait, scan) does what `Pass` describes, panicking when the timeout query or a wait fails; every `epoll::wait` call of the pass, retries included, is given `get_timeout`'s result, once per call up to the first wait not interrupted, and no wait happens when `get_timeout` fails |
| `LoginMonitor.WatchLoop` | src/login/monitor.rs:106-141 | the outer loop runs passes until one sees the self-pipe, then releases the sd-login monitor; the whole run equals `Watch` |
| `LoginMonitor.WatchTrace` | src/login/monitor.rs:106-141 | over a whole run, the actions are callback/flush pairs, then one final `Unref` exactly when the loop shut down |
| `LoginMonitor.WatchUnrefOnce` | src/login/monitor.rs:134-141 | `sd_login_monitor_unref` is called iff the loop exits through the self-pipe, and then exactly once, as the last action |
| `LoginMonitor.WatchShutdownIff` | src/login/monitor.rs:122-137 | the loop exits iff some pass sees the self-pipe and every earlier pass finished without a panic and without seeing it |
| `LoginMonitor.OpenFds` | src/login/monitor.rs:46-52 | the descriptors `drop` closes are exactly those greater than -1, no more of them than the array holds |
| `LoginMonitor.Monitor.constructor` | src/login/monitor.rs:61-64 | a new handle holds the given descriptors, no join handle and an empty effect log |
| `LoginMonitor.Monitor.New` | src/login/monitor.rs:57-65 | an error exactly when `pipe2` returned -1, and as written that error is always errno 1 (EPERM), whatever `errno` holds; on success a fresh handle holds the two pipe ends, an empty slot and an empty effect log |
| `LoginMonitor.Monitor.Init` | src/login/monitor.rs:67-73 | always returns `Ok`; stores a fresh thread handle for the category and the read end, replacing any old handle without joining it; the only new effect is that spawn |
| `LoginMonitor.Monitor.Drop` | src/login/monitor.rs:37-53 | leaves the slot empty; the new effects are, in this order: a write of the wake byte to the write end and a join of the stored thread (both only when a handle was stored), then a close of each pipe descriptor greater than -1, in array order |
| `LoginSession.StateFrom` | src/login/session.rs:24-35 | "online", "active" and "closing" give their state, every other string gives `Unknown`, so parsing never fails |
| `LoginSession.StateRoundTrip` | src/login/session.rs:24-35 | each known state is parsed back from its name |
| `LoginSession.TypeFrom` | src/login/session.rs:47-57 | exactly "x11", "wayland", "tty", "mir" and "unspecified" are accepted, each as the variant of that name; anything else panics |
| `LoginSession.TypeRoundTrip` | src/login/session.rs:47-57 | every type is parsed back from its name, and different types have different names |
| `LoginSession.ClassFrom` | src/login/session.rs:68-77 | exactly "user", "greeter", "lock-screen" and "background" are accepted, each as the variant of that name; anything else panics |
| `LoginSession.ClassRoundTrip` | src/login/session.rs:68-77 | every class is parsed back from its name, and different classes have different names |
| `LoginSession.Eq` | src/login/session.rs:93-97 | two sessions are equal when their identifiers are; the uid is not compared |
| `LoginSession.EqIsIdentifierEquivalence` | src/login/session.rs:93-97 | session equality holds iff the identifiers match, whatever the uids, and is reflexive, symmetric and transitive |
| `LoginSession.Decimal` | src/login/session.rs:87-90 | the uid's text is a non-empty run of decimal digits that starts with `0` only for the uid 0, which is written "0" |
| `LoginSession.DecimalUnique` | src/login/session.rs:87-90 | every digit string without a leading zero is the text of its own value, so each uid has exactly one text |
| `LoginSession.DecimalRoundTrip` | src/login/session.rs:87-90 | the decimal text of a uid reads back as that uid |
| `LoginSession.Display` | src/login/session.rs:87-90 | the text is "(", the identifier, ", ", the uid in decimal digits without leading zeros and ")", and each part can be read back |
| `LoginSession.Find` | src/login/session.rs:224-228 | `None` iff no session has the identifier; otherwise the first session in list order that has it |
| `LoginSession.GetSession` | src/login/session.rs:224-228 | a listing error is passed on; otherwise the first session with the identifier, if any |
| `LoginSession.LookedUp` | src/login/session.rs:248-258 | the positions whose uid lookup succeeded, strictly ascending, each below `num_sessions` |
| `LoginSession.GetSessions` | src/login/session.rs:230-269 | a failed listing gives its errno. With a uid array, exactly `num_sessions` entries in order, entry `i` carrying `uids[i]`. Without one, entries whose uid lookup failed are skipped, the rest keep their order, and there are at most `num_sessions` |

## Left out

- Thread spawning and joining, epoll, `pipe2`, `write`, `close` and every sd-login call are not executed. They appear as parameters or as ghost records: a `Round` script, the `Monitor` ghost fields and the action trace. No timing, blocking or concurrency property is modelled. That includes bounded shutdown and the guarantee that callbacks never run concurrently.
- `LoginMonitor.Monitor.Init`: the spawned thread's behaviour is `WatchLoop`, but the model does not connect the handle to a run of it.
- `LoginMonitor.Monitor.Drop`: the join's waiting for the thread to finish is not modelled. Rust's run-once `drop` is a precondition. The byte written is taken to be 0x0A: the source writes the first byte of the `i32` literal `[0x0A]`, which is 0x0A only on a little-endian target (0x00 on a big-endian one), and any byte wakes the loop.
- The watch loop's setup (`sd_login_monitor_new`, `epoll::create`, both `epoll::ctl` calls, `get_events`, `get_fd`, the `try_into` conversions at src/login/monitor.rs:84-104) is assumed to succeed. Each `unwrap` there would panic on failure.
- `LoginMonitor.ScanBatch`: `sd_login_monitor_flush` is assumed to succeed. Its `unwrap` at src/login/monitor.rs:130 would panic otherwise.
- `LoginMonitor.WatchLoop`: a finite script stands for the OS. The `Running` end means the script ran out while the real loop would keep waiting.
- Each script round promises that a ready count is at most the 1024 entries of the event array, which is epoll's guarantee for `maxevents`. It also promises that some wait is not interrupted: this is an assumption about signal delivery, not an epoll guarantee. The retry loop at src/login/monitor.rs:111-120 has no bound and spins for as long as `epoll_wait` keeps failing with EINTR; the model does not describe that endless run.
- `LoginMonitor.WatchLoop`: its contract speaks of the actions only; the timeouts each pass's waits receive are stated by `RunPass`, whose timeouts `WatchLoop` does not collect.
- `LoginMonitor.GetTimeout`: `clock_gettime` and the timespec-to-microseconds conversion are not modelled; the clock reading `n` is a parameter. A `u64` overflow of `t-n+999` counts as a panic, as with overflow checks. A build without overflow checks would wrap instead: the wrapped `t-n+999` is below 999, so the timeout becomes 0 ms, a busy poll rather than a panic. The overflow needs `t-n` above `u64::MAX - 999`, a deadline far beyond the `i32` range; the model gives `Panic` there, as a build with overflow checks does.
- `Systemd.ToResult`: requires the code to be above `i32::MIN`. Negating `i32::MIN` overflows: a panic with overflow checks, a wrap without. The model does not describe that case.
- The `Events` bit-flag handling and `EPOLLET` (src/login/monitor.rs:98-99) go through a foreign bit-flags library.
- `Session::from_process_id`, `get_active_session`, `get_state`, `get_type`, `get_class` and `get_display` (src/login/session.rs:110-222) only sequence foreign calls. Only the parsing they hand strings to is modelled.
- C strings are `seq<char>`: `CStr`/`CString`, `to_string_lossy` and `libc::free` are not modelled. So the skipped `free` of an entry whose uid lookup fails (src/login/session.rs:252, 260) is not captured either.
- `trace!` logging.
- `systemd-sys/src/login.rs` holds only foreign declarations.

## Findings

| source | as written | input that shows it | evidently intended | confidence | as-written member | corrected member |
|---|---|---|---|---|---|---|
| src/login/monitor.rs:59 | `ffi_try!` wraps `libc::pipe2`, which returns -1 and reports the cause in `errno`; `to_result(-1)` makes that os error 1 (EPERM) | `pipe2` fails with EMFILE: returns -1, `errno` 24; `Monitor::new` reports errno 1 | the error carries the errno `pipe2` left, as `io::Error::last_os_error()` gives | high; not executed | `Systemd.FfiTryLibcReportsEperm` | `Systemd.LibcResult` |

`LoginMonitor.Monitor.New` follows the code as written and reports errno 1. `Systemd.LibcResult` states the intended reading, which keeps the errno that `pipe2` left.
