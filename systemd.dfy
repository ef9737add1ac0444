/** The crate root: the wrapper types every binding returns, and the
    conversion of a foreign return code into an `io::Result`. */
module Systemd {

  const I32_MIN: int := -0x8000_0000
  const I32_MAX: int := 0x7fff_ffff
  const U64_MAX: int := 0xffff_ffff_ffff_ffff

  /** errno value of "Operation not permitted". */
  const EPERM: int := 1
  /** errno value of "Interrupted system call". */
  const EINTR: int := 4
  /** errno value of "Too many open files". */
  const EMFILE: int := 24

  predicate IsI32(x: int) { I32_MIN <= x <= I32_MAX }
  predicate IsU64(x: int) { 0 <= x <= U64_MAX }

  /** A C `int` return code whose negation is again a C `int`. */
  predicate IsReturnCode(x: int) { I32_MIN < x <= I32_MAX }

  datatype Option<+T> = None | Some(value: T)

  /** `std::io::Result`: a value, or an OS error carrying its errno. */
  datatype IoResult<+T> = Ok(value: T) | Err(errno: int)

  /** What a Rust computation that may panic produces: a value, or a panic
      (an `unwrap` of an `Err`, a failed conversion, an arithmetic overflow). */
  datatype Outcome<+T> = Value(value: T) | Panic

  /** `to_result`: the sd-* convention of returning `-errno` on failure. */
  function ToResult(result: int): (r: IoResult<int>)
    requires IsReturnCode(result)
    ensures r.Err? <==> result < 0
    ensures r.Err? ==> r.errno == -result && 0 < r.errno <= I32_MAX
    ensures r.Ok? ==> r.value == result && 0 <= r.value <= I32_MAX
  {
    if result < 0 then Err(-result) else Ok(result)
  }

  /** The return code a result stands for: the inverse of `ToResult`. */
  function ReturnCode(r: IoResult<int>): int
  {
    match r
    case Ok(v) => v
    case Err(e) => -e
  }

  lemma ToResultRoundTrip(result: int)
    requires IsReturnCode(result)
    ensures ReturnCode(ToResult(result)) == result
    ensures ToResult(ReturnCode(ToResult(result))) == ToResult(result)
  {
  }

  /** Two distinct return codes never give the same result, so no error
      code is confused with another and no success value with an error. */
  lemma ToResultInjective(a: int, b: int)
    requires IsReturnCode(a) && IsReturnCode(b)
    ensures ToResult(a) == ToResult(b) <==> a == b
  {
  }

  /** `ffi_try!(e)`: the value of the (unsafe) foreign call `e`, handed to
      `to_result` with nothing else done to it. */
  function FfiTry(call: int): (r: IoResult<int>)
    requires IsReturnCode(call)
    ensures r == ToResult(call)
  {
    ToResult(call)
  }

  /** What `ffi_try!` makes of a libc call that follows the POSIX convention
      (return `-1`, report the cause in `errno`): the cause is lost, and the
      error always reads as errno 1. */
  function FfiTryLibc(ret: int, errno: int): (r: IoResult<int>)
    requires ret == -1 || 0 <= ret <= I32_MAX
    ensures r.Err? <==> ret == -1
    ensures r.Err? ==> r.errno == EPERM
    ensures r.Ok? ==> r.value == ret
  {
    FfiTry(ret)
  }

  lemma FfiTryLibcReportsEperm(errno: int)
    ensures FfiTryLibc(-1, errno) == Err(EPERM)
    ensures FfiTryLibc(-1, EMFILE) != LibcResult(-1, EMFILE)
  {
  }

  /** A libc call's outcome as `io::Error::last_os_error` would report it:
      the errno the call left behind. */
  function LibcResult(ret: int, errno: int): (r: IoResult<int>)
    requires ret == -1 || 0 <= ret <= I32_MAX
    ensures r.Err? <==> ret == -1
    ensures r.Err? ==> r.errno == errno
    ensures r.Ok? ==> r.value == ret
  {
    if ret < 0 then Err(errno) else Ok(ret)
  }
}
