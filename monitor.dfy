/** The change monitor of sd-login: the category keyword, the wake-up timeout,
    the background watch loop (over a script of what the OS reports), and the
    `Monitor` handle that starts the loop and shuts it down. */
module LoginMonitor {
  import opened Systemd

  // ---------------------------------------------------------------------------
  // Category
  // ---------------------------------------------------------------------------

  datatype Category = All | Seats | Sessions | Uids | Machines

  /** The selector handed to `sd_login_monitor_new`: no filter for `All`,
      otherwise one of the four keywords sd-login accepts. */
  function AsStr(c: Category): (r: Option<string>)
    ensures r.None? <==> c == All
    ensures r.Some? ==> r.value in {"seat", "session", "uid", "machine"}
  {
    match c
    case All => None
    case Seats => Some("seat")
    case Sessions => Some("session")
    case Uids => Some("uid")
    case Machines => Some("machine")
  }

  /** Every category selects something different. */
  lemma AsStrInjective(a: Category, b: Category)
    ensures AsStr(a) == AsStr(b) <==> a == b
  {
  }

  // ---------------------------------------------------------------------------
  // Wake-up timeout
  // ---------------------------------------------------------------------------

  /** `get_timeout`: `status` is what `sd_login_monitor_get_timeout` returned,
      `t` the deadline it reported (microseconds, `U64_MAX` for none) and `n`
      the monotonic clock in microseconds. The result is the epoll timeout in
      milliseconds, `-1` meaning "wait forever". The millisecond count is
      computed in `u64` and then converted to `i32` with `unwrap`, so a
      deadline further away than `I32_MAX` milliseconds panics. */
  function GetTimeout(status: int, t: int, n: int): (r: Outcome<IoResult<int>>)
    requires IsReturnCode(status) && IsU64(t) && IsU64(n)
    ensures status < 0 ==> r == Value(Err(-status))
    ensures 0 <= status && r.Value? ==> r.value.Ok?
    ensures 0 <= status && t == U64_MAX ==> r == Value(Ok(-1))
    ensures r.Value? && r.value.Ok? ==> IsI32(r.value.value)
    ensures r.Value? && r.value.Ok? ==> (r.value.value == -1 <==> t == U64_MAX)
    ensures r.Value? && r.value.Ok? && t != U64_MAX ==> r.value.value >= 0
    ensures 0 <= status && t != U64_MAX && t <= n ==> r == Value(Ok(0))
  {
    match FfiTry(status)
    case Err(e) => Value(Err(e))
    case Ok(_) =>
      if t == U64_MAX then Value(Ok(-1))
      else if t > n then
        if t - n + 999 > U64_MAX then Panic  // u64 overflow
        else
          var msec := (t - n + 999) / 1000;
          if msec > I32_MAX then Panic else Value(Ok(msec))
      else Value(Ok(0))
  }

  /** A future deadline gives the number of milliseconds rounded up: the
      smallest `m` with `m * 1000 >= t - n`, at least 1. */
  lemma GetTimeoutCeiling(status: int, t: int, n: int)
    requires IsReturnCode(status) && IsU64(t) && IsU64(n)
    requires 0 <= status && n < t < U64_MAX && t - n <= I32_MAX * 1000
    ensures GetTimeout(status, t, n).Value? && GetTimeout(status, t, n).value.Ok?
    ensures var m := GetTimeout(status, t, n).value.value;
      1 <= m && t - n <= m * 1000 && (m - 1) * 1000 < t - n
  {
  }

  /** The only panic: a deadline more than `I32_MAX` milliseconds away, whose
      millisecond count does not fit the `i32` timeout. */
  lemma GetTimeoutPanics(status: int, t: int, n: int)
    requires IsReturnCode(status) && IsU64(t) && IsU64(n)
    ensures GetTimeout(status, t, n).Panic? <==> 0 <= status && n < t < U64_MAX && t - n > I32_MAX * 1000
  {
  }

  // ---------------------------------------------------------------------------
  // One batch of ready descriptors
  // ---------------------------------------------------------------------------

  /** What the watch loop does that is visible outside it: call the user's
      callback, flush the sd-login monitor, release the sd-login monitor. */
  datatype Action = Callback | Flush | Unref

  /** The entries of a batch that the scan reaches: everything before the
      first entry of the self-pipe's read end. */
  function Handled(events: seq<int>, readFd: int): (r: seq<int>)
    ensures r <= events
    ensures readFd !in r
    ensures |r| < |events| ==> events[|r|] == readFd
  {
    if events == [] || events[0] == readFd then []
    else [events[0]] + Handled(events[1..], readFd)
  }

  /** A prefix free of `readFd` that stops at `readFd` (or at the end) is the
      handled part. */
  lemma HandledIsPrefix(events: seq<int>, readFd: int, i: nat)
    requires i <= |events|
    requires readFd !in events[..i]
    requires i == |events| || events[i] == readFd
    ensures Handled(events, readFd) == events[..i]
  {
  }

  /** A reference count of the callbacks a batch causes: the entries of
      `monitorFd` met before the first entry of `readFd`. */
  function CallbacksBefore(events: seq<int>, readFd: int, monitorFd: int): nat
  {
    if events == [] || events[0] == readFd then 0
    else (if events[0] == monitorFd then 1 else 0) + CallbacksBefore(events[1..], readFd, monitorFd)
  }

  lemma {:induction false} CallbacksBeforeCounts(events: seq<int>, readFd: int, monitorFd: int)
    ensures CallbacksBefore(events, readFd, monitorFd) == multiset(Handled(events, readFd))[monitorFd]
  {
    if events != [] && events[0] != readFd {
      CallbacksBeforeCounts(events[1..], readFd, monitorFd);
      assert Handled(events, readFd) == [events[0]] + Handled(events[1..], readFd);
    }
  }

  /** `k` callbacks, each followed at once by one flush. */
  function CallbackFlush(k: nat): (r: seq<Action>)
    ensures |r| == 2 * k
  {
    if k == 0 then [] else CallbackFlush(k - 1) + [Callback, Flush]
  }

  /** The `i`-th pair is a callback and then its flush. */
  lemma {:induction false} CallbackFlushAt(k: nat, i: nat)
    requires i < k
    ensures CallbackFlush(k)[2 * i] == Callback && CallbackFlush(k)[2 * i + 1] == Flush
  {
    if i < k - 1 {
      CallbackFlushAt(k - 1, i);
    }
  }

  lemma {:induction false} CallbackFlushAdd(a: nat, b: nat)
    ensures CallbackFlush(a) + CallbackFlush(b) == CallbackFlush(a + b)
  {
    if b > 0 {
      CallbackFlushAdd(a, b - 1);
      assert CallbackFlush(a) + CallbackFlush(b)
          == (CallbackFlush(a) + CallbackFlush(b - 1)) + [Callback, Flush];
    }
  }

  lemma {:induction false} CallbackFlushNoUnref(k: nat)
    ensures Unref !in CallbackFlush(k)
  {
    if k > 0 {
      CallbackFlushNoUnref(k - 1);
    }
  }

  /** The scan of the first `numFds` entries of the event array
      (src/login/monitor.rs, the `for` loop of the watch loop). */
  method ScanBatch(events: seq<int>, numFds: nat, readFd: int, monitorFd: int)
    returns (signalled: bool, trace: seq<Action>)
    requires numFds <= |events|
    ensures signalled <==> readFd in events[..numFds]
    ensures trace == CallbackFlush(multiset(Handled(events[..numFds], readFd))[monitorFd])
  {
    signalled := false;
    trace := [];
    var i := 0;
    while i < numFds
      invariant i <= numFds
      invariant readFd !in events[..i]
      invariant trace == CallbackFlush(multiset(events[..i])[monitorFd])
    {
      var fd := events[i];
      if fd == readFd {
        signalled := true;
        break;
      } else if fd == monitorFd {
        trace := trace + [Callback, Flush];
      }
      assert events[..i + 1] == events[..i] + [fd];
      i := i + 1;
    }
    assert events[..numFds][..i] == events[..i];
    HandledIsPrefix(events[..numFds], readFd, i);
  }

  // ---------------------------------------------------------------------------
  // Waiting, retried on EINTR
  // ---------------------------------------------------------------------------

  /** One call of `epoll::wait`: the number of ready entries, or a failure. */
  datatype WaitResult = Ready(count: nat) | Failed(errno: int)

  /** A wait the loop retries: one interrupted by a signal. */
  predicate Interrupted(w: WaitResult) { w.Failed? && w.errno == EINTR }

  predicate Settles(waits: seq<WaitResult>)
  {
    exists i :: 0 <= i < |waits| && !Interrupted(waits[i])
  }

  /** The wait that ends the retry loop: the first one not interrupted. */
  function FirstSettled(waits: seq<WaitResult>): (k: nat)
    requires Settles(waits)
    ensures k < |waits| && !Interrupted(waits[k])
    ensures forall j :: 0 <= j < k ==> Interrupted(waits[j])
  {
    if !Interrupted(waits[0]) then 0
    else
      assert Settles(waits[1..]) by {
        var i :| 0 <= i < |waits| && !Interrupted(waits[i]);
        assert waits[1..][i - 1] == waits[i];
      }
      FirstSettled(waits[1..]) + 1
  }

  /** The inner retry loop: `waits` are the results of successive calls of
      `epoll::wait`; `timeouts` records the timeout each call was given. */
  method WaitRetrying(waits: seq<WaitResult>, timeout: int) returns (r: Outcome<nat>, timeouts: seq<int>)
    requires Settles(waits)
    ensures 1 <= |timeouts| <= |waits|
    ensures forall j :: 0 <= j < |timeouts| ==> timeouts[j] == timeout
    ensures forall j :: 0 <= j < |timeouts| - 1 ==> Interrupted(waits[j])
    ensures !Interrupted(waits[|timeouts| - 1])
    ensures r.Value? <==> waits[|timeouts| - 1].Ready?
    ensures r.Value? ==> r.value == waits[|timeouts| - 1].count
    ensures |timeouts| == FirstSettled(waits) + 1
  {
    var i := 0;
    timeouts := [];
    while true
      invariant i <= FirstSettled(waits)
      invariant |timeouts| == i
      invariant forall j :: 0 <= j < i ==> timeouts[j] == timeout
      decreases FirstSettled(waits) - i
    {
      var w := waits[i];
      timeouts := timeouts + [timeout];
      if w.Ready? {
        r := Value(w.count);
        return;
      } else if w.errno != EINTR {
        r := Panic;
        return;
      }
      i := i + 1;
    }
  }

  // ---------------------------------------------------------------------------
  // The watch loop
  // ---------------------------------------------------------------------------

  /** Size of the event array the loop hands to `epoll::wait`. */
  const MAX_EVENTS: nat := 1024

  /** What the environment reports during one pass of the outer loop: the
      timeout query (`status`, `deadline`, and the clock `now`), the results of
      the successive waits, and the event array as the last wait filled it. */
  datatype Round = Round(status: int, deadline: int, now: int, waits: seq<WaitResult>, events: seq<int>)

  predicate ValidRound(r: Round)
  {
    && IsReturnCode(r.status) && IsU64(r.deadline) && IsU64(r.now)
    && Settles(r.waits)
    && |r.events| == MAX_EVENTS
    && forall i :: 0 <= i < |r.waits| && r.waits[i].Ready? ==> r.waits[i].count <= MAX_EVENTS
  }

  predicate ValidRounds(rounds: seq<Round>)
  {
    forall i :: 0 <= i < |rounds| ==> ValidRound(rounds[i])
  }

  /** How a run of the loop ends: shut down through the self-pipe, died on a
      panic, or still running when the environment's script is exhausted. */
  datatype LoopEnd = Shutdown | Panicked | Running

  /** One pass: `Panic`, or whether shutdown was seen and what was done. */
  function Pass(r: Round, readFd: int, monitorFd: int): Outcome<(bool, seq<Action>)>
    requires ValidRound(r)
  {
    var timeout := GetTimeout(r.status, r.deadline, r.now);
    if timeout.Panic? || timeout.value.Err? then Panic
    else
      var w := r.waits[FirstSettled(r.waits)];
      if w.Failed? then Panic
      else
        var ready := r.events[..w.count];
        Value((readFd in ready, CallbackFlush(CallbacksBefore(ready, readFd, monitorFd))))
  }

  /** The whole run of the loop over a script of rounds. */
  function Watch(rounds: seq<Round>, readFd: int, monitorFd: int): (LoopEnd, seq<Action>)
    requires ValidRounds(rounds)
  {
    if rounds == [] then (Running, [])
    else
      var p := Pass(rounds[0], readFd, monitorFd);
      if p.Panic? then (Panicked, [])
      else if p.value.0 then (Shutdown, p.value.1 + [Unref])
      else
        var rest := Watch(rounds[1..], readFd, monitorFd);
        (rest.0, p.value.1 + rest.1)
  }

  /** One pass of the outer loop: compute the timeout, wait (retrying on
      EINTR), scan the batch. `timeouts` records the timeout each call of
      `epoll::wait` was given: `get_timeout`'s result, on every retry. */
  method RunPass(round: Round, readFd: int, monitorFd: int) returns (p: Outcome<(bool, seq<Action>)>, timeouts: seq<int>)
    requires ValidRound(round)
    ensures p == Pass(round, readFd, monitorFd)
    ensures var t := GetTimeout(round.status, round.deadline, round.now);
      if t.Value? && t.value.Ok? then
        && |timeouts| == FirstSettled(round.waits) + 1
        && forall j :: 0 <= j < |timeouts| ==> timeouts[j] == t.value.value
      else timeouts == []
  {
    timeouts := [];
    var timeout := GetTimeout(round.status, round.deadline, round.now);
    if timeout.Panic? || timeout.value.Err? {
      return Panic, timeouts;
    }
    var ready;
    ready, timeouts := WaitRetrying(round.waits, timeout.value.value);
    if ready.Panic? {
      return Panic, timeouts;
    }
    var signalled, acts := ScanBatch(round.events, ready.value, readFd, monitorFd);
    CallbacksBeforeCounts(round.events[..ready.value], readFd, monitorFd);
    p := Value((signalled, acts));
  }

  /** A run that has already done `done` and continues as `rest`. */
  function After(done: seq<Action>, rest: (LoopEnd, seq<Action>)): (LoopEnd, seq<Action>)
  {
    (rest.0, done + rest.1)
  }

  /** The run from round `i` on, after `done`, with round `i` unfolded. */
  lemma WatchStep(rounds: seq<Round>, i: nat, done: seq<Action>, readFd: int, monitorFd: int)
    requires ValidRounds(rounds) && i < |rounds|
    ensures ValidRounds(rounds[i..]) && ValidRounds(rounds[i + 1..])
    ensures var p := Pass(rounds[i], readFd, monitorFd);
      After(done, Watch(rounds[i..], readFd, monitorFd))
        == if p.Panic? then (Panicked, done)
           else if p.value.0 then (Shutdown, done + p.value.1 + [Unref])
           else After(done + p.value.1, Watch(rounds[i + 1..], readFd, monitorFd))
  {
    assert rounds[i..][0] == rounds[i] && rounds[i..][1..] == rounds[i + 1..];
    var p := Pass(rounds[i], readFd, monitorFd);
    if p.Value? {
      var rest := Watch(rounds[i + 1..], readFd, monitorFd).1;
      assert done + (p.value.1 + [Unref]) == done + p.value.1 + [Unref];
      assert done + (p.value.1 + rest) == done + p.value.1 + rest;
    } else {
      assert done + [] == done;
    }
  }

  /** The watch loop of the thread `init` spawns, from the first
      `get_timeout` to `sd_login_monitor_unref`. */
  method WatchLoop(rounds: seq<Round>, readFd: int, monitorFd: int) returns (end: LoopEnd, trace: seq<Action>)
    requires ValidRounds(rounds)
    ensures (end, trace) == Watch(rounds, readFd, monitorFd)
  {
    trace := [];
    var signalled := false;
    var i := 0;
    assert rounds[i..] == rounds;
    assert trace + Watch(rounds, readFd, monitorFd).1 == Watch(rounds, readFd, monitorFd).1;
    while i < |rounds|
      invariant i <= |rounds|
      invariant ValidRounds(rounds[i..])
      invariant Watch(rounds, readFd, monitorFd) == After(trace, Watch(rounds[i..], readFd, monitorFd))
    {
      WatchStep(rounds, i, trace, readFd, monitorFd);
      var p, _ := RunPass(rounds[i], readFd, monitorFd);
      if p.Panic? {
        return Panicked, trace;
      }
      trace := trace + p.value.1;
      signalled := p.value.0;
      if signalled {
        break;
      }
      i := i + 1;
    }
    if signalled {
      trace := trace + [Unref];
      end := Shutdown;
    } else {
      assert rounds[i..] == [];
      assert trace + [] == trace;
      end := Running;
    }
  }

  /** A pass makes `a` callbacks, each followed by its flush. */
  lemma PassActs(r: Round, readFd: int, monitorFd: int) returns (a: nat)
    requires ValidRound(r)
    ensures Pass(r, readFd, monitorFd).Value? ==> Pass(r, readFd, monitorFd).value.1 == CallbackFlush(a)
  {
    var w := r.waits[FirstSettled(r.waits)];
    var n := if w.Ready? then w.count else 0;
    a := CallbacksBefore(r.events[..n], readFd, monitorFd);
  }

  /** Every callback is followed at once by exactly one flush, and the
      monitor is released once, as the last action, exactly when the loop
      shut down. */
  lemma {:induction false} WatchTrace(rounds: seq<Round>, readFd: int, monitorFd: int) returns (k: nat)
    requires ValidRounds(rounds)
    ensures Watch(rounds, readFd, monitorFd).1
         == CallbackFlush(k) + (if Watch(rounds, readFd, monitorFd).0 == Shutdown then [Unref] else [])
  {
    if rounds == [] {
      k := 0;
    } else {
      var a := PassActs(rounds[0], readFd, monitorFd);
      var p := Pass(rounds[0], readFd, monitorFd);
      assert ValidRounds(rounds[1..]) by {
        forall i | 0 <= i < |rounds[1..]| ensures ValidRound(rounds[1..][i]) {
          assert rounds[1..][i] == rounds[i + 1];
        }
      }
      var w := Watch(rounds, readFd, monitorFd);
      if p.Panic? {
        assert w == (Panicked, []);
        k := 0;
      } else if p.value.0 {
        assert w == (Shutdown, p.value.1 + [Unref]);
        k := a;
      } else {
        var b := WatchTrace(rounds[1..], readFd, monitorFd);
        var rest := Watch(rounds[1..], readFd, monitorFd);
        assert w == (rest.0, p.value.1 + rest.1);
        CallbackFlushAdd(a, b);
        k := a + b;
      }
    }
  }

  lemma WatchUnrefOnce(rounds: seq<Round>, readFd: int, monitorFd: int)
    requires ValidRounds(rounds)
    ensures var (end, trace) := Watch(rounds, readFd, monitorFd);
      && (Unref in trace <==> end == Shutdown)
      && (end == Shutdown ==> trace[|trace| - 1] == Unref && Unref !in trace[..|trace| - 1])
  {
    var k := WatchTrace(rounds, readFd, monitorFd);
    CallbackFlushNoUnref(k);
    var trace := Watch(rounds, readFd, monitorFd).1;
    if Watch(rounds, readFd, monitorFd).0 == Shutdown {
      assert trace[..|trace| - 1] == CallbackFlush(k);
    }
  }

  /** Whether the pass over round `r` sees the self-pipe. */
  predicate PassSignalled(r: Round, readFd: int, monitorFd: int)
    requires ValidRound(r)
  {
    Pass(r, readFd, monitorFd).Value? && Pass(r, readFd, monitorFd).value.0
  }

  /** Whether the pass over round `r` completes without seeing the self-pipe. */
  predicate PassContinues(r: Round, readFd: int, monitorFd: int)
    requires ValidRound(r)
  {
    Pass(r, readFd, monitorFd).Value? && !Pass(r, readFd, monitorFd).value.0
  }

  /** Round `i` sees the self-pipe and every round before it completes
      without seeing it. */
  predicate ShutsDownAt(rounds: seq<Round>, i: nat, readFd: int, monitorFd: int)
    requires ValidRounds(rounds)
  {
    && i < |rounds|
    && PassSignalled(rounds[i], readFd, monitorFd)
    && forall j :: 0 <= j < i ==> PassContinues(rounds[j], readFd, monitorFd)
  }

  lemma ShutsDownAtTail(rounds: seq<Round>, i: nat, readFd: int, monitorFd: int)
    requires ValidRounds(rounds) && 0 < i && rounds != []
    ensures ValidRounds(rounds[1..])
    ensures ShutsDownAt(rounds, i, readFd, monitorFd)
        <==> PassContinues(rounds[0], readFd, monitorFd) && ShutsDownAt(rounds[1..], i - 1, readFd, monitorFd)
  {
  }

  /** The loop shuts down exactly when some round sees the self-pipe and every
      round before it completed without panicking and without seeing it. */
  lemma {:induction false} WatchShutdownIff(rounds: seq<Round>, readFd: int, monitorFd: int)
    requires ValidRounds(rounds)
    ensures Watch(rounds, readFd, monitorFd).0 == Shutdown <==>
      exists i :: ShutsDownAt(rounds, i, readFd, monitorFd)
  {
    if rounds != [] {
      WatchStep(rounds, 0, [], readFd, monitorFd);
      assert rounds[0..] == rounds;
      WatchShutdownIff(rounds[1..], readFd, monitorFd);
      if Watch(rounds, readFd, monitorFd).0 == Shutdown {
        if !PassSignalled(rounds[0], readFd, monitorFd) {
          var i: nat :| ShutsDownAt(rounds[1..], i, readFd, monitorFd);
          ShutsDownAtTail(rounds, i + 1, readFd, monitorFd);
        } else {
          assert ShutsDownAt(rounds, 0, readFd, monitorFd);
        }
      } else {
        forall i | ShutsDownAt(rounds, i, readFd, monitorFd)
          ensures false
        {
          if i > 0 {
            ShutsDownAtTail(rounds, i, readFd, monitorFd);
          }
        }
      }
    }
  }

  // ---------------------------------------------------------------------------
  // The Monitor handle
  // ---------------------------------------------------------------------------

  /** The byte `drop` writes to the self-pipe. The source writes one byte of
      the untyped literal `[0x0A]`, an `[i32; 1]`, so the byte is 0x0A on a
      little-endian target (0x00 on a big-endian one); any byte wakes the
      loop. */
  const WAKE_BYTE: int := 0x0A

  /** The `JoinHandle` of a spawned watch-loop thread, with what `init`
      moved into the thread; a fresh object per `thread::spawn`. */
  class JoinHandle {
    const category: Category
    const readFd: int

    constructor (category: Category, readFd: int)
      ensures this.category == category && this.readFd == readFd
    {
      this.category := category;
      this.readFd := readFd;
    }
  }

  /** What the handle does to the outside world, in the order it happens:
      spawn a watch-loop thread, write bytes to a descriptor, join a thread,
      close a descriptor. */
  datatype Effect = Spawn(thread: JoinHandle) | Write(fd: int, byte: int) | Join(joined: JoinHandle) | Close(closed: int)

  /** The descriptors of `fds` that `drop` closes: those greater than `-1`,
      in array order. */
  function OpenFds(fds: seq<int>): (r: seq<int>)
    ensures |r| <= |fds|
    ensures forall fd :: fd in r <==> fd in fds && fd > -1
  {
    if fds == [] then []
    else OpenFds(fds[..|fds| - 1]) + (if fds[|fds| - 1] > -1 then [fds[|fds| - 1]] else [])
  }

  /** A `close` of each of `fds`, in order. */
  function Closes(fds: seq<int>): (r: seq<Effect>)
    ensures |r| == |fds|
    ensures forall i :: 0 <= i < |fds| ==> r[i] == Close(fds[i])
  {
    if fds == [] then [] else Closes(fds[..|fds| - 1]) + [Close(fds[|fds| - 1])]
  }

  /** One more array entry closes one more descriptor when it is set. */
  lemma ClosesStep(fds: seq<int>, i: nat)
    requires i < |fds|
    ensures Closes(OpenFds(fds[..i + 1]))
         == Closes(OpenFds(fds[..i])) + (if fds[i] > -1 then [Close(fds[i])] else [])
  {
    assert fds[..i + 1][..i] == fds[..i];
    var open := OpenFds(fds[..i]);
    assert OpenFds(fds[..i + 1]) == open + (if fds[i] > -1 then [fds[i]] else []);
    if fds[i] > -1 {
      var grown := open + [fds[i]];
      assert grown[..|grown| - 1] == open;
      assert Closes(grown) == Closes(open) + [Close(fds[i])];
    } else {
      assert open + [] == open;
    }
  }

  /** What `drop` does with a stored handle before closing anything: wake
      the loop through the write end `fd`, then join the thread. */
  function WakeAndJoin(h: Option<JoinHandle>, fd: int): (r: seq<Effect>)
    ensures h.None? <==> r == []
  {
    if h.Some? then [Write(fd, WAKE_BYTE), Join(h.value)] else []
  }

  class Monitor {
    /** The `Cell` holding the join handle of the watch loop. */
    var handle: Option<JoinHandle>
    /** The self-pipe: read end at 0, write end at 1; `-1` while unset. */
    const pipeFds: array<int>

    /** Everything the handle has done, in order. */
    ghost var effects: seq<Effect>
    /** Set once the handle has been dropped; Rust drops a value once. */
    ghost var dropped: bool

    ghost predicate Valid()
      reads this
    {
      && pipeFds.Length == 2
      && (handle.Some? ==> Spawn(handle.value) in effects)
    }

    constructor (fds: array<int>)
      requires fds.Length == 2
      ensures Valid() && !dropped
      ensures pipeFds == fds && handle == None && effects == []
    {
      pipeFds := fds;
      handle := None;
      effects := [];
      dropped := false;
    }

    /** `Monitor::new`: both descriptors start at `-1` and `pipe2` fills them.
        `ret` and `errno` are what `pipe2` returned and left in `errno`;
        `readFd` and `writeFd` what it stored on success. As written, the
        return code goes through `ffi_try!`, so a failure reads as errno
        `EPERM` whatever `errno` holds (`Systemd.FfiTryLibc`;
        `Systemd.LibcResult` is the reading that keeps `errno`). */
    static method New(ret: int, errno: int, readFd: int, writeFd: int) returns (r: IoResult<Monitor>)
      requires ret == -1 || ret == 0
      requires ret == 0 ==> 0 <= readFd && 0 <= writeFd
      ensures ret == -1 <==> r.Err?
      ensures r.Err? ==> r.errno == EPERM
      ensures r.Ok? ==> fresh(r.value) && fresh(r.value.pipeFds)
      ensures r.Ok? ==> r.value.Valid() && !r.value.dropped
      ensures r.Ok? ==> r.value.pipeFds[..] == [readFd, writeFd] && r.value.handle == None
      ensures r.Ok? ==> r.value.effects == []
    {
      var fds := new int[2](_ => -1);
      if ret == 0 {
        fds[0], fds[1] := readFd, writeFd;
      }
      var status := FfiTryLibc(ret, errno);
      if status.Err? {
        return Err(status.errno);
      }
      var m := new Monitor(fds);
      r := Ok(m);
    }

    /** `Monitor::init`: spawns a watch loop for `category` reading the
        self-pipe's read end, and stores its handle, replacing (and so
        detaching, not joining) any handle already there. */
    method Init(category: Category) returns (r: IoResult<()>)
      requires Valid() && !dropped
      modifies this`handle, this`effects
      ensures Valid() && !dropped
      ensures r == Ok(())
      ensures handle.Some? && fresh(handle.value)
      ensures handle.value.category == category && handle.value.readFd == pipeFds[0]
      ensures effects == old(effects) + [Spawn(handle.value)]
    {
      var thread := new JoinHandle(category, pipeFds[0]);
      effects := effects + [Spawn(thread)];
      handle := Some(thread);
      r := Ok(());
    }

    /** `Drop for Monitor`: if a handle is stored, take it, write the wake
        byte to the write end and join; then close each descriptor that is
        set. */
    method Drop()
      requires Valid() && !dropped
      modifies this`handle, this`effects, this`dropped
      ensures Valid() && dropped
      ensures handle == None
      ensures effects == old(effects) + WakeAndJoin(old(handle), pipeFds[1]) + Closes(OpenFds(pipeFds[..]))
    {
      var h := handle;
      handle := None;
      if h.Some? {
        effects := effects + [Write(pipeFds[1], WAKE_BYTE)];
        effects := effects + [Join(h.value)];
      }
      ghost var woken := effects;
      assert woken == old(effects) + WakeAndJoin(h, pipeFds[1]);
      ghost var fds := pipeFds[..];
      ghost var closed: seq<Effect> := [];
      assert fds[..0] == [];
      var i := 0;
      while i < 2
        invariant i <= 2
        invariant handle == None && effects == woken && dropped == old(dropped)
        invariant closed == Closes(OpenFds(fds[..i]))
      {
        ClosesStep(fds, i);
        if pipeFds[i] > -1 {
          closed := closed + [Close(pipeFds[i])];
        }
        i := i + 1;
      }
      assert fds[..i] == fds;
      effects := effects + closed;
      dropped := true;
    }
  }
}
