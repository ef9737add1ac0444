/** Sessions of sd-login: the string-valued properties parsed into enums,
    the `Session` value with its equality and display, and the listing of the
    sessions on seat0 together with the lookup of one session by identifier. */
module LoginSession {
  import opened Systemd

  // ---------------------------------------------------------------------------
  // State: unknown strings degrade to Unknown
  // ---------------------------------------------------------------------------

  datatype State = Unknown | Online | Active | Closing

  /** The string sd-login reports for a known state. */
  function StateName(st: State): string
    requires st != Unknown
  {
    match st
    case Online => "online"
    case Active => "active"
    case Closing => "closing"
  }

  /** `From<&str> for State`: total, anything unrecognised is `Unknown`. */
  function StateFrom(s: string): (r: State)
    ensures r == Unknown <==> s !in {"online", "active", "closing"}
    ensures r != Unknown ==> StateName(r) == s
  {
    match s
    case "online" => Online
    case "active" => Active
    case "closing" => Closing
    case _ => Unknown
  }

  lemma StateRoundTrip(st: State)
    requires st != Unknown
    ensures StateFrom(StateName(st)) == st
  {
  }

  // ---------------------------------------------------------------------------
  // Type and Class: unknown strings panic (None)
  // ---------------------------------------------------------------------------

  datatype Type = Unspecified | X11 | Wayland | Tty | Mir

  /** The string sd-login reports for a session type. */
  function TypeName(t: Type): string
  {
    match t
    case X11 => "x11"
    case Wayland => "wayland"
    case Tty => "tty"
    case Mir => "mir"
    case Unspecified => "unspecified"
  }

  /** `From<&str> for Type`; `None` stands for its panic on any other string. */
  function TypeFrom(s: string): (r: Option<Type>)
    ensures r.Some? <==> s in {"x11", "wayland", "tty", "mir", "unspecified"}
    ensures r.Some? ==> TypeName(r.value) == s
  {
    match s
    case "x11" => Some(X11)
    case "wayland" => Some(Wayland)
    case "tty" => Some(Tty)
    case "mir" => Some(Mir)
    case "unspecified" => Some(Unspecified)
    case _ => None
  }

  /** Each accepted string names its own variant, and every variant has one. */
  lemma TypeRoundTrip(t: Type, u: Type)
    ensures TypeFrom(TypeName(t)) == Some(t)
    ensures TypeName(t) == TypeName(u) ==> t == u
  {
  }

  datatype Class = User | Greeter | LockScreen | Background

  /** The string sd-login reports for a session class. */
  function ClassName(c: Class): string
  {
    match c
    case User => "user"
    case Greeter => "greeter"
    case LockScreen => "lock-screen"
    case Background => "background"
  }

  /** `From<&str> for Class`; `None` stands for its panic on any other string. */
  function ClassFrom(s: string): (r: Option<Class>)
    ensures r.Some? <==> s in {"user", "greeter", "lock-screen", "background"}
    ensures r.Some? ==> ClassName(r.value) == s
  {
    match s
    case "user" => Some(User)
    case "greeter" => Some(Greeter)
    case "lock-screen" => Some(LockScreen)
    case "background" => Some(Background)
    case _ => None
  }

  lemma ClassRoundTrip(c: Class, d: Class)
    ensures ClassFrom(ClassName(c)) == Some(c)
    ensures ClassName(c) == ClassName(d) ==> c == d
  {
  }

  // ---------------------------------------------------------------------------
  // Session
  // ---------------------------------------------------------------------------

  /** A session: its identifier (the C string, decoded) and its user's uid. */
  datatype Session = Session(identifier: string, uid: nat)

  /** `PartialEq for Session`. */
  predicate Eq(a: Session, b: Session)
  {
    a.identifier == b.identifier
  }

  /** Equality looks at the identifier alone, and is an equivalence. */
  lemma EqIsIdentifierEquivalence(a: Session, b: Session, c: Session)
    ensures Eq(a, b) <==> a.identifier == b.identifier
    ensures Eq(a, Session(a.identifier, b.uid))
    ensures Eq(a, a)
    ensures Eq(a, b) ==> Eq(b, a)
    ensures Eq(a, b) && Eq(b, c) ==> Eq(a, c)
  {
  }

  predicate IsDigit(c: char) { '0' <= c <= '9' }

  predicate IsDecimal(s: string)
  {
    |s| > 0 && forall i :: 0 <= i < |s| ==> IsDigit(s[i])
  }

  function DigitChar(d: nat): (c: char)
    requires d < 10
    ensures IsDigit(c) && c as int - '0' as int == d
  {
    ('0' as int + d) as char
  }

  /** `n` written in decimal, as `Display for u32` writes it. */
  function Decimal(n: nat): (r: string)
    ensures IsDecimal(r)
    ensures r[0] == '0' ==> n == 0 && r == "0"
    decreases n
  {
    if n < 10 then [DigitChar(n)] else Decimal(n / 10) + [DigitChar(n % 10)]
  }

  /** The number a string of decimal digits stands for. */
  function DecimalValue(s: string): nat
    requires forall i :: 0 <= i < |s| ==> IsDigit(s[i])
  {
    if s == [] then 0
    else
      assert IsDigit(s[|s| - 1]);
      DecimalValue(s[..|s| - 1]) * 10 + (s[|s| - 1] as int - '0' as int)
  }

  lemma {:induction false} DecimalRoundTrip(n: nat)
    ensures DecimalValue(Decimal(n)) == n
    decreases n
  {
    if n >= 10 {
      DecimalRoundTrip(n / 10);
      var s := Decimal(n);
      assert s[..|s| - 1] == Decimal(n / 10);
    }
  }

  /** Digits without a leading zero are the decimal text of their value:
      each uid has exactly one such text. */
  lemma {:induction false} DecimalUnique(s: string)
    requires IsDecimal(s)
    requires s[0] == '0' ==> s == "0"
    ensures s == Decimal(DecimalValue(s))
    decreases |s|
  {
    var d := s[|s| - 1] as int - '0' as int;
    if |s| == 1 {
      assert s == [DigitChar(d)];
    } else {
      var front := s[..|s| - 1];
      assert IsDecimal(front);
      DecimalUnique(front);
      var v := DecimalValue(front);
      assert v != 0;
      var n := v * 10 + d;
      assert n / 10 == v && n % 10 == d;
      assert s == front + [DigitChar(d)];
    }
  }

  /** `Display for Session`: "(identifier, uid)". The identifier, the
      separator and the decimal uid can be read back off the text. */
  function Display(s: Session): (r: string)
    ensures |r| >= |s.identifier| + 4
    ensures r[0] == '(' && r[|r| - 1] == ')'
    ensures r[1..|s.identifier| + 1] == s.identifier
    ensures r[|s.identifier| + 1..|s.identifier| + 3] == ", "
    ensures IsDecimal(r[|s.identifier| + 3..|r| - 1])
    ensures DecimalValue(r[|s.identifier| + 3..|r| - 1]) == s.uid
    ensures r[|s.identifier| + 3] == '0' ==> r[|s.identifier| + 3..|r| - 1] == "0"
  {
    DecimalRoundTrip(s.uid);
    var r := "(" + s.identifier + ", " + Decimal(s.uid) + ")";
    assert r[|s.identifier| + 3..|r| - 1] == Decimal(s.uid);
    r
  }

  // ---------------------------------------------------------------------------
  // Lookup by identifier
  // ---------------------------------------------------------------------------

  /** `Iterator::find` on the identifier: the first session in list order
      whose identifier is `identifier`. */
  function Find(sessions: seq<Session>, identifier: string): (r: Option<Session>)
    ensures r.None? <==> forall i :: 0 <= i < |sessions| ==> sessions[i].identifier != identifier
    ensures r.Some? ==>
      exists i :: (0 <= i < |sessions| && sessions[i] == r.value && r.value.identifier == identifier
        && forall j :: 0 <= j < i ==> sessions[j].identifier != identifier)
  {
    if sessions == [] then None
    else if sessions[0].identifier == identifier then Some(sessions[0])
    else
      var r := Find(sessions[1..], identifier);
      assert forall i :: 0 < i < |sessions| ==> sessions[i] == sessions[1..][i - 1];
      r
  }

  /** `get_session`: the listing's error is passed on, otherwise the first
      session carrying `identifier`, if any. */
  function GetSession(listing: IoResult<seq<Session>>, identifier: string): (r: IoResult<Option<Session>>)
    ensures listing.Err? ==> r == Err(listing.errno)
    ensures listing.Ok? ==> r.Ok? && r.value == Find(listing.value, identifier)
  {
    match listing
    case Err(e) => Err(e)
    case Ok(sessions) => Ok(Find(sessions, identifier))
  }

  // ---------------------------------------------------------------------------
  // Listing the sessions of seat0
  // ---------------------------------------------------------------------------

  /** One `sd_session_get_uid` call: its return code and the uid it stored. */
  datatype UidLookup = UidLookup(status: int, uid: nat)

  /** The positions below `n` whose uid lookup succeeded, ascending. */
  function LookedUp(lookups: seq<UidLookup>, n: nat): (r: seq<nat>)
    requires n <= |lookups|
    ensures |r| <= n
    ensures forall k :: 0 <= k < |r| ==> r[k] < n && lookups[r[k]].status >= 0
    ensures forall i :: 0 <= i < n && lookups[i].status >= 0 ==> i in r
    ensures forall j, k :: 0 <= j < k < |r| ==> r[j] < r[k]
  {
    if n == 0 then []
    else LookedUp(lookups, n - 1) + (if lookups[n - 1].status >= 0 then [n - 1] else [])
  }

  /** `get_sessions`. `status` is what `sd_seat_get_sessions` returned, `names`
      the identifiers it listed, `uids` its uid array (`None` when the
      array is null) and `lookups` the per-session `sd_session_get_uid` calls made
      when the array is null. */
  method GetSessions(status: int, names: seq<string>, uids: Option<seq<nat>>, lookups: seq<UidLookup>)
    returns (r: IoResult<seq<Session>>)
    requires IsReturnCode(status)
    requires 0 <= status ==> |names| == status
    requires 0 <= status && uids.Some? ==> |uids.value| >= status
    requires 0 <= status && uids.None? ==> |lookups| >= status
    requires forall i :: 0 <= i < |lookups| ==> IsReturnCode(lookups[i].status)
    ensures status < 0 <==> r.Err?
    ensures r.Err? ==> r.errno == -status
    ensures r.Ok? && uids.Some? ==>
      && |r.value| == status
      && forall i :: 0 <= i < status ==> r.value[i] == Session(names[i], uids.value[i])
    ensures r.Ok? && uids.None? ==>
      var kept := LookedUp(lookups, status);
      && |r.value| == |kept| <= status
      && forall k :: 0 <= k < |kept| ==> r.value[k] == Session(names[kept[k]], lookups[kept[k]].uid)
  {
    var res := FfiTry(status);
    if res.Err? {
      return Err(res.errno);
    }
    var numSessions := res.value;
    var sessions: seq<Session> := [];
    for i := 0 to numSessions
      invariant uids.Some? ==>
        && |sessions| == i
        && forall j :: 0 <= j < i ==> sessions[j] == Session(names[j], uids.value[j])
      invariant uids.None? ==>
        && |sessions| == |LookedUp(lookups, i)|
        && forall k :: 0 <= k < |sessions| ==>
             sessions[k] == Session(names[LookedUp(lookups, i)[k]], lookups[LookedUp(lookups, i)[k]].uid)
    {
      var uid := 0;
      if uids.None? {
        var lookup := FfiTry(lookups[i].status);
        if lookup.Err? {
          continue;
        }
        uid := lookups[i].uid;
      } else {
        uid := uids.value[i];
      }
      sessions := sessions + [Session(names[i], uid)];
    }
    r := Ok(sessions);
  }
}
