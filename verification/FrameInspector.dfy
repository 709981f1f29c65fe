/**
 The WebSocket frame inspector: size caps, opcode rules, a message rate and streaming UTF-8 validation,
 kept per direction.

 `Utf8` is the validator as a fold over bytes, `WellGrouped` what it accepts, `Rfc3629` what section 4
 of RFC 3629 allows.  A legal stream is one fragmented as section 5.4 of RFC 6455 says.
 */
module FrameInspector {
  import opened Prelude

  type Bytes = seq<bv8>

  // ---------------------------------------------------------------- the validator

  /** One byte, with `rem` continuation bytes still expected; None is malformed. */
  function Utf8Byte(rem: nat, b: bv8): Option<nat> {
    if rem > 0 then (if b & 0xC0 != 0x80 then None else Some(rem - 1))
    else if b < 0x80 then Some(0)
    else if b & 0xE0 == 0xC0 then (if b < 0xC2 then None else Some(1))
    else if b & 0xF0 == 0xE0 then Some(2)
    else if b & 0xF8 == 0xF0 then (if b > 0xF4 then None else Some(3))
    else None
  }

  function Utf8(rem: nat, bytes: Bytes): Option<nat>
    decreases |bytes|
  {
    if bytes == [] then Some(rem)
    else
      match Utf8Byte(rem, bytes[0])
      case None => None
      case Some(r) => Utf8(r, bytes[1..])
  }

  method ValidateChunk(bytes: Bytes, remaining: nat) returns (ok: bool, pending: nat)
    ensures ok <==> Utf8(remaining, bytes).Some?
    ensures ok ==> Utf8(remaining, bytes) == Some(pending)
    ensures !ok ==> pending == 0
  {
    var rem, i := remaining, 0;
    while i < |bytes|
      invariant 0 <= i <= |bytes| && Utf8(remaining, bytes) == Utf8(rem, bytes[i..])
    {
      var b := bytes[i];
      assert bytes[i..][0] == b && bytes[i..][1..] == bytes[i + 1..];
      if rem > 0 {
        if b & 0xC0 != 0x80 {
          return false, 0;
        }
        rem := rem - 1;
      } else if b >= 0x80 {
        if b & 0xE0 == 0xC0 {
          if b < 0xC2 {
            return false, 0;
          }
          rem := 1;
        } else if b & 0xF0 == 0xE0 {
          rem := 2;
        } else if b & 0xF8 == 0xF0 {
          if b > 0xF4 {
            return false, 0;
          }
          rem := 3;
        } else {
          return false, 0;
        }
      }
      i := i + 1;
    }
    return true, rem;
  }

  /** Validating piece by piece, with the pending count carried over, is validating the whole. */
  lemma {:induction false} SplitInvariant(rem: nat, a: Bytes, b: Bytes)
    ensures Utf8(rem, a + b) == if Utf8(rem, a) == None then None else Utf8(Utf8(rem, a).value, b)
    decreases |a|
  {
    if a == [] {
      assert a + b == b;
    } else {
      assert (a + b)[0] == a[0] && (a + b)[1..] == a[1..] + b;
      match Utf8Byte(rem, a[0]) {
        case None =>
        case Some(r) => SplitInvariant(r, a[1..], b);
      }
    }
  }

  /** How many continuation bytes an accepted lead byte asks for. */
  function Lead(b: bv8): Option<nat> {
    if b < 0x80 then Some(0)
    else if 0xC2 <= b <= 0xDF then Some(1)
    else if 0xE0 <= b <= 0xEF then Some(2)
    else if 0xF0 <= b <= 0xF4 then Some(3)
    else None
  }

  predicate Tail(b: bv8) {
    0x80 <= b <= 0xBF
  }

  predicate Tails(bytes: Bytes, n: nat) {
    n <= |bytes| && forall i :: 0 <= i < n ==> Tail(bytes[i])
  }

  /** Accepted lead bytes, each followed by exactly the continuation bytes it asks for. */
  predicate WellGrouped(bytes: Bytes)
    decreases |bytes|
  {
    if bytes == [] then true
    else
      Lead(bytes[0]).Some? && Tails(bytes[1..], Lead(bytes[0]).value) &&
      WellGrouped(bytes[1 + Lead(bytes[0]).value..])
  }

  lemma ByteFacts(b: bv8)
    ensures (b & 0xC0 == 0x80) == Tail(b)
    ensures Utf8Byte(0, b) == Lead(b)
  {
  }

  lemma {:induction false} TailsThenRest(n: nat, bytes: Bytes)
    ensures Utf8(n, bytes) == Some(0) <==> Tails(bytes, n) && Utf8(0, bytes[n..]) == Some(0)
    decreases n
  {
    if n == 0 {
      assert bytes[0..] == bytes;
    } else if bytes != [] {
      ByteFacts(bytes[0]);
      if Tail(bytes[0]) {
        TailsThenRest(n - 1, bytes[1..]);
        assert Tails(bytes, n) <==> Tails(bytes[1..], n - 1) by {
          if Tails(bytes[1..], n - 1) {
            assert forall i :: 0 < i < n ==> bytes[i] == bytes[1..][i - 1];
          }
        }
        if |bytes| >= n {
          assert bytes[1..][n - 1..] == bytes[n..];
        }
      }
    }
  }

  /** The validator accepts a complete text exactly when it is well grouped. */
  lemma {:induction false} AcceptedIsWellGrouped(bytes: Bytes)
    ensures Utf8(0, bytes) == Some(0) <==> WellGrouped(bytes)
    decreases |bytes|
  {
    if bytes != [] {
      ByteFacts(bytes[0]);
      if Lead(bytes[0]).Some? {
        var n := Lead(bytes[0]).value;
        TailsThenRest(n, bytes[1..]);
        if Tails(bytes[1..], n) {
          assert bytes[1..][n..] == bytes[1 + n..];
          AcceptedIsWellGrouped(bytes[1 + n..]);
        }
      }
    }
  }

  /** No beginning of a well-grouped text is ever refused. */
  lemma {:induction false} PrefixIsNotRefused(a: Bytes, b: Bytes)
    requires WellGrouped(a + b)
    ensures Utf8(0, a).Some?
  {
    AcceptedIsWellGrouped(a + b);
    SplitInvariant(0, a, b);
  }

  /** The length of the character that section 4 of RFC 3629 allows at the front. */
  function CharLength(bytes: Bytes): Option<nat>
    requires bytes != []
  {
    var b := bytes[0];
    if b <= 0x7F then Some(1)
    else if 0xC2 <= b <= 0xDF && |bytes| >= 2 && Tail(bytes[1]) then Some(2)
    else if |bytes| >= 3 && Tail(bytes[2]) &&
            ((b == 0xE0 && 0xA0 <= bytes[1] <= 0xBF) || (0xE1 <= b <= 0xEC && Tail(bytes[1])) ||
             (b == 0xED && 0x80 <= bytes[1] <= 0x9F) || (0xEE <= b <= 0xEF && Tail(bytes[1]))) then Some(3)
    else if |bytes| >= 4 && Tail(bytes[2]) && Tail(bytes[3]) &&
            ((b == 0xF0 && 0x90 <= bytes[1] <= 0xBF) || (0xF1 <= b <= 0xF3 && Tail(bytes[1])) ||
             (b == 0xF4 && 0x80 <= bytes[1] <= 0x8F)) then Some(4)
    else None
  }

  predicate Rfc3629(bytes: Bytes) {
    bytes == [] || (CharLength(bytes).Some? && Rfc3629(bytes[CharLength(bytes).value..]))
  }

  /** A lead byte whose next byte makes an overlong form, a surrogate, or a code point above U+10FFFF. */
  predicate BadSecond(lead: bv8, second: bv8) {
    (lead == 0xE0 && second < 0xA0) || (lead == 0xED && second > 0x9F) ||
    (lead == 0xF0 && second < 0x90) || (lead == 0xF4 && second > 0x8F)
  }

  predicate NoBadSecond(bytes: Bytes)
    requires WellGrouped(bytes)
  {
    bytes == [] ||
    ((Lead(bytes[0]).value > 0 ==> !BadSecond(bytes[0], bytes[1])) && NoBadSecond(bytes[1 + Lead(bytes[0]).value..]))
  }

  lemma CharIsGroup(bytes: Bytes)
    requires bytes != []
    ensures CharLength(bytes).Some? <==>
            Lead(bytes[0]).Some? && Tails(bytes[1..], Lead(bytes[0]).value) &&
            (Lead(bytes[0]).value > 0 ==> !BadSecond(bytes[0], bytes[1]))
    ensures CharLength(bytes).Some? ==> CharLength(bytes).value == 1 + Lead(bytes[0]).value
  {
    if Lead(bytes[0]).Some? {
      var n, rest := Lead(bytes[0]).value, bytes[1..];
      assert Tails(rest, n) <==>
             n < |bytes| && (n > 0 ==> Tail(bytes[1])) && (n > 1 ==> Tail(bytes[2])) && (n > 2 ==> Tail(bytes[3])) by {
        if n < |bytes| && (n > 0 ==> Tail(bytes[1])) && (n > 1 ==> Tail(bytes[2])) && (n > 2 ==> Tail(bytes[3])) {
          forall i | 0 <= i < n ensures Tail(rest[i]) {
            assert rest[i] == bytes[i + 1];
          }
        }
      }
    }
  }

  /** The validator lets through everything section 4 of RFC 3629 allows, and only the four bad pairs beyond it. */
  lemma {:induction false} RfcIsWellGroupedAndStrict(bytes: Bytes)
    ensures Rfc3629(bytes) <==> WellGrouped(bytes) && NoBadSecond(bytes)
    decreases |bytes|
  {
    if bytes != [] {
      CharIsGroup(bytes);
      if Lead(bytes[0]).Some? && Tails(bytes[1..], Lead(bytes[0]).value) {
        RfcIsWellGroupedAndStrict(bytes[1 + Lead(bytes[0]).value..]);
      }
    }
  }

  /** An overlong slash, a lone surrogate, and a code point above U+10FFFF are accepted. */
  lemma AcceptedBeyondRfc()
    ensures WellGrouped([0xE0, 0x80, 0xAF]) && !Rfc3629([0xE0, 0x80, 0xAF])
    ensures WellGrouped([0xED, 0xA0, 0x80]) && !Rfc3629([0xED, 0xA0, 0x80])
    ensures WellGrouped([0xF4, 0x90, 0x80, 0x80]) && !Rfc3629([0xF4, 0x90, 0x80, 0x80])
  {
    var overlong: Bytes, surrogate: Bytes, beyond: Bytes := [0xE0, 0x80, 0xAF], [0xED, 0xA0, 0x80],
      [0xF4, 0x90, 0x80, 0x80];
    assert Tails(overlong[1..], 2) && Tails(surrogate[1..], 2) && Tails(beyond[1..], 3);
    assert overlong[3..] == [] && surrogate[3..] == [] && beyond[4..] == [];
  }

  // ---------------------------------------------------------------- the inspector

  const CONTINUATION := 0
  const TEXT := 1
  const BINARY := 2

  predicate Control(opcode: int) {
    opcode == 8 || opcode == 9 || opcode == 10
  }

  datatype Frame = Frame(fin: bool, opcode: int, payload: Bytes)

  /** Zero means unlimited for the three limits. */
  datatype Policy = Policy(
    maxMessageBytes: int, maxFrameBytes: int, allowed: seq<int>, maxMessagesPerSecond: real, validateUtf8: bool)

  datatype Verdict = Pass | Drop | Close(code: int)

  /** One direction as a value. */
  datatype Side = Side(fragOpcode: Option<int>, fragBytes: int, utf8Pending: nat, tokens: real, lastRefill: int)

  function Effective(s: Side, f: Frame): Option<int> {
    if f.opcode == CONTINUATION then s.fragOpcode else Some(f.opcode)
  }

  /** The close code the frame earns before its payload is looked at. */
  function Refusal(p: Policy, s: Side, f: Frame): Option<int> {
    if p.maxFrameBytes > 0 && |f.payload| > p.maxFrameBytes then Some(1009)
    else if f.opcode != CONTINUATION && f.opcode !in p.allowed then Some(1003)
    else if f.opcode == CONTINUATION && s.fragOpcode == None then Some(1002)
    else if f.opcode != CONTINUATION && !f.fin && s.fragOpcode.Some? then Some(1002)
    else None
  }

  /** The message the frame belongs to, counted in. */
  function Counted(s: Side, f: Frame): Side {
    var t := if f.opcode != CONTINUATION && !f.fin then s.(fragOpcode := Some(f.opcode), fragBytes := 0) else s;
    t.(fragBytes := t.fragBytes + |f.payload|)
  }

  function Checked(p: Policy, s: Side, f: Frame, op: Option<int>): (Side, bool) {
    if !(p.validateUtf8 && op == Some(TEXT)) then (s, true)
    else
      match Utf8(s.utf8Pending, f.payload)
      case None => (s.(utf8Pending := 0), false)
      case Some(r) => if f.fin && r != 0 then (s.(utf8Pending := 0), false) else (s.(utf8Pending := r), true)
  }

  function Min(x: real, y: real): real {
    if x <= y then x else y
  }

  /** What the message rate gives in a time. */
  function Gained(p: Policy, ms: int): real {
    ms as real / 1000.0 * p.maxMessagesPerSecond
  }

  /** The tokens there would be after a refill. */
  function Balance(p: Policy, s: Side, now: int): real {
    Min(p.maxMessagesPerSecond, s.tokens + Gained(p, now - s.lastRefill))
  }

  /** The end of a message: the fragment state is cleared and the message rate is charged. */
  function Ended(p: Policy, s: Side, f: Frame, op: Option<int>, now: int): (Side, Verdict) {
    var t := s.(fragOpcode := None, fragBytes := 0,
                utf8Pending := if op != Some(TEXT) || f.opcode != CONTINUATION then 0 else s.utf8Pending);
    if p.maxMessagesPerSecond > 0.0 then
      var u := t.(tokens := Balance(p, s, now), lastRefill := now);
      if u.tokens < 1.0 then (u, Drop) else (u.(tokens := u.tokens - 1.0), Pass)
    else (t, Pass)
  }

  function Inspected(p: Policy, s: Side, f: Frame, now: int): (Side, Verdict) {
    if Control(f.opcode) then (s, Pass)
    else if Refusal(p, s, f).Some? then (s, Close(Refusal(p, s, f).value))
    else
      var op, t := Effective(s, f), Counted(s, f);
      if p.maxMessageBytes > 0 && t.fragBytes > p.maxMessageBytes then
        (t.(fragOpcode := None, fragBytes := 0), Close(1009))
      else
        var (u, ok) := Checked(p, t, f, op);
        if !ok then (u, Close(1007))
        else if f.fin then Ended(p, u, f, op, now)
        else (u, Pass)
  }

  class DirectionState {
    var fragOpcode: Option<int>
    var fragBytes: int
    var utf8Pending: nat
    var tokens: real
    var lastRefill: int

    constructor (tokens: real, now: int)
      ensures Value() == Side(None, 0, 0, tokens, now)
    {
      fragOpcode, fragBytes, utf8Pending := None, 0, 0;
      this.tokens, lastRefill := tokens, now;
    }

    function Value(): Side
      reads this
    {
      Side(fragOpcode, fragBytes, utf8Pending, tokens, lastRefill)
    }

    method CheckText(p: Policy, f: Frame, op: Option<int>) returns (ok: bool)
      modifies this`utf8Pending
      ensures (Value(), ok) == Checked(p, old(Value()), f, op)
    {
      if p.validateUtf8 && op == Some(TEXT) {
        var valid, pending := ValidateChunk(f.payload, utf8Pending);
        utf8Pending := pending;
        if !valid {
          return false;
        }
        if f.fin && pending != 0 {
          utf8Pending := 0;
          return false;
        }
      }
      return true;
    }

    method EndMessage(p: Policy, f: Frame, op: Option<int>, now: int) returns (v: Verdict)
      modifies this
      ensures (Value(), v) == Ended(p, old(Value()), f, op, now)
    {
      fragOpcode, fragBytes := None, 0;
      if op != Some(TEXT) {
        utf8Pending := 0;
      } else if f.opcode != CONTINUATION {
        utf8Pending := 0;
      }
      if p.maxMessagesPerSecond > 0.0 {
        var elapsed := (now - lastRefill) as real / 1000.0;
        tokens := Min(p.maxMessagesPerSecond, tokens + elapsed * p.maxMessagesPerSecond);
        lastRefill := now;
        if tokens < 1.0 {
          return Drop;
        }
        tokens := tokens - 1.0;
      }
      return Pass;
    }
  }

  datatype Direction = ToUpstream | ToClient

  class FrameInspector {
    const policy: Policy
    const client: DirectionState
    const upstream: DirectionState

    constructor (policy: Policy, now: int)
      ensures this.policy == policy && fresh(client) && fresh(upstream) && client != upstream
      ensures client.Value() == upstream.Value() == Side(None, 0, 0, policy.maxMessagesPerSecond, now)
    {
      this.policy := policy;
      client := new DirectionState(policy.maxMessagesPerSecond, now);
      upstream := new DirectionState(policy.maxMessagesPerSecond, now);
    }

    function Of(d: Direction): DirectionState {
      if d == ToUpstream then client else upstream
    }

    /** Inspects one frame; only the state of its own direction changes. */
    method Inspect(f: Frame, d: Direction, now: int) returns (v: Verdict)
      modifies Of(d)
      ensures (Of(d).Value(), v) == Inspected(policy, old(Of(d).Value()), f, now)
    {
      var s := Of(d);
      if Control(f.opcode) {
        return Pass;
      }
      if policy.maxFrameBytes > 0 && |f.payload| > policy.maxFrameBytes {
        return Close(1009);
      }
      var op := if f.opcode == CONTINUATION then s.fragOpcode else Some(f.opcode);
      if f.opcode != CONTINUATION && op.Some? {
        if op.value !in policy.allowed {
          return Close(1003);
        }
      }
      if f.opcode == CONTINUATION {
        if s.fragOpcode == None {
          return Close(1002);
        }
      } else if !f.fin {
        if s.fragOpcode.Some? {
          return Close(1002);
        }
        s.fragOpcode := Some(f.opcode);
        s.fragBytes := 0;
      }
      s.fragBytes := s.fragBytes + |f.payload|;
      if policy.maxMessageBytes > 0 && s.fragBytes > policy.maxMessageBytes {
        s.fragOpcode := None;
        s.fragBytes := 0;
        return Close(1009);
      }
      var ok := s.CheckText(policy, f, op);
      if !ok {
        return Close(1007);
      }
      if f.fin {
        v := s.EndMessage(policy, f, op, now);
      } else {
        v := Pass;
      }
    }
  }

  // ---------------------------------------------------------------- whole streams in one direction

  datatype Arrival = Arrival(frame: Frame, now: int)

  function Start(p: Policy, now: int): Side {
    Side(None, 0, 0, p.maxMessagesPerSecond, now)
  }

  function Run(p: Policy, start: int, fs: seq<Arrival>): Side {
    if fs == [] then Start(p, start)
    else Inspected(p, Run(p, start, fs[..|fs| - 1]), fs[|fs| - 1].frame, fs[|fs| - 1].now).0
  }

  function VerdictOn(p: Policy, start: int, fs: seq<Arrival>): Verdict
    requires fs != []
  {
    Inspected(p, Run(p, start, fs[..|fs| - 1]), fs[|fs| - 1].frame, fs[|fs| - 1].now).1
  }

  datatype Message = Message(opcode: int, bytes: Bytes)

  /** The message still open after a stream, put together from its fragments. */
  function OpenMessage(fs: seq<Arrival>): Option<Message> {
    if fs == [] then None
    else
      var f, before := fs[|fs| - 1].frame, OpenMessage(fs[..|fs| - 1]);
      if Control(f.opcode) then before else if f.fin then None else Some(Extended(before, f))
  }

  /** The message so far, with this frame. */
  function Extended(before: Option<Message>, f: Frame): Message {
    if f.opcode == CONTINUATION && before.Some? then Message(before.value.opcode, before.value.bytes + f.payload)
    else Message(f.opcode, f.payload)
  }

  /** Section 5.4 of RFC 6455: a continuation continues an open message, a data frame starts one when none is open. */
  predicate Fits(before: Option<Message>, f: Frame) {
    Control(f.opcode) || (f.opcode == CONTINUATION <==> before.Some?)
  }

  predicate Legal(fs: seq<Arrival>) {
    fs == [] || (Legal(fs[..|fs| - 1]) && Fits(OpenMessage(fs[..|fs| - 1]), fs[|fs| - 1].frame))
  }

  predicate NoClose(p: Policy, start: int, fs: seq<Arrival>) {
    fs == [] || (NoClose(p, start, fs[..|fs| - 1]) && !VerdictOn(p, start, fs).Close?)
  }

  /** The state stands for the open message: its opcode, its size, and how far into a character its text is. */
  predicate Mirrors(p: Policy, s: Side, open: Option<Message>) {
    match open
    case None => s.fragOpcode == None && s.fragBytes == 0 && s.utf8Pending == 0
    case Some(m) =>
      s.fragOpcode == Some(m.opcode) && s.fragBytes == |m.bytes| && m.opcode != CONTINUATION &&
      if p.validateUtf8 && m.opcode == TEXT then Utf8(0, m.bytes) == Some(s.utf8Pending) else s.utf8Pending == 0
  }

  /** What the verdict on a fitting frame says about the message so far. */
  function Judged(p: Policy, m: Message, f: Frame): Option<int> {
    if p.maxFrameBytes > 0 && |f.payload| > p.maxFrameBytes then Some(1009)
    else if f.opcode != CONTINUATION && f.opcode !in p.allowed then Some(1003)
    else if p.maxMessageBytes > 0 && |m.bytes| > p.maxMessageBytes then Some(1009)
    else if p.validateUtf8 && m.opcode == TEXT && !(if f.fin then WellGrouped(m.bytes) else Utf8(0, m.bytes).Some?) then
      Some(1007)
    else None
  }

  lemma InspectMirrors(p: Policy, s: Side, open: Option<Message>, f: Frame, now: int)
    requires Mirrors(p, s, open) && Fits(open, f) && !Control(f.opcode)
    ensures var (t, v) := Inspected(p, s, f, now); var m := Extended(open, f);
            (if Judged(p, m, f).Some? then v == Close(Judged(p, m, f).value) else v == Pass || (v == Drop && f.fin)) &&
            (!v.Close? ==> Mirrors(p, t, if f.fin then None else Some(m)))
  {
    var m := Extended(open, f);
    AcceptedIsWellGrouped(m.bytes);
    if open.Some? {
      SplitInvariant(0, open.value.bytes, f.payload);
    }
  }

  lemma {:induction false} RunMirrors(p: Policy, start: int, fs: seq<Arrival>)
    requires Legal(fs) && NoClose(p, start, fs)
    ensures Mirrors(p, Run(p, start, fs), OpenMessage(fs))
  {
    if fs != [] {
      var front, last := fs[..|fs| - 1], fs[|fs| - 1];
      RunMirrors(p, start, front);
      if !Control(last.frame.opcode) {
        InspectMirrors(p, Run(p, start, front), OpenMessage(front), last.frame, last.now);
      }
    }
  }

  /**
   However a legal stream is cut into fragments, with control frames between, and as long as it has not been
   closed: the next frame is closed with the code that the message so far deserves, and with no other.
   */
  lemma {:induction false} VerdictOfMessage(p: Policy, start: int, fs: seq<Arrival>)
    requires fs != [] && Legal(fs) && NoClose(p, start, fs[..|fs| - 1])
    ensures var f, open := fs[|fs| - 1].frame, OpenMessage(fs[..|fs| - 1]);
            if Control(f.opcode) then VerdictOn(p, start, fs) == Pass
            else if Judged(p, Extended(open, f), f).Some? then
              VerdictOn(p, start, fs) == Close(Judged(p, Extended(open, f), f).value)
            else !VerdictOn(p, start, fs).Close?
  {
    var front, last := fs[..|fs| - 1], fs[|fs| - 1];
    RunMirrors(p, start, front);
    if !Control(last.frame.opcode) {
      InspectMirrors(p, Run(p, start, front), OpenMessage(front), last.frame, last.now);
    }
  }

  /**
   Every text message of the stream, as far as it has come, is the beginning of a text RFC 3629 allows, or
   all of one.
   */
  ghost predicate TextsAllowed(fs: seq<Arrival>) {
    fs == [] ||
    (TextsAllowed(fs[..|fs| - 1]) &&
     var f, open := fs[|fs| - 1].frame, OpenMessage(fs[..|fs| - 1]);
     var m := Extended(open, f);
     !Control(f.opcode) && m.opcode == TEXT ==>
       if f.fin then Rfc3629(m.bytes) else exists more: Bytes :: Rfc3629(m.bytes + more))
  }

  /** Text that RFC 3629 allows, cut anyhow, is never closed with 1007. */
  lemma {:induction false} AllowedTextNever1007(p: Policy, start: int, fs: seq<Arrival>)
    requires fs != [] && Legal(fs) && NoClose(p, start, fs[..|fs| - 1]) && TextsAllowed(fs)
    ensures VerdictOn(p, start, fs) != Close(1007)
  {
    VerdictOfMessage(p, start, fs);
    var f, open := fs[|fs| - 1].frame, OpenMessage(fs[..|fs| - 1]);
    var m := Extended(open, f);
    if !Control(f.opcode) && m.opcode == TEXT {
      if f.fin {
        RfcIsWellGroupedAndStrict(m.bytes);
      } else {
        var more: Bytes :| Rfc3629(m.bytes + more);
        RfcIsWellGroupedAndStrict(m.bytes + more);
        PrefixIsNotRefused(m.bytes, more);
      }
    }
  }

  /** The frame is not turned away for its own size or its opcode. */
  predicate Welcome(p: Policy, f: Frame) {
    (p.maxFrameBytes > 0 ==> |f.payload| <= p.maxFrameBytes) && (f.opcode == CONTINUATION || f.opcode in p.allowed)
  }

  /**
   Of the frames that break section 5.4 of RFC 6455, exactly a continuation of nothing and the first part of
   a new message are closed for it; a whole message in the middle of another is not, and if it is not closed
   for anything else, the message it broke into is forgotten.
   */
  lemma MisfitRefusedExactly(p: Policy, s: Side, open: Option<Message>, f: Frame, now: int)
    requires Mirrors(p, s, open) && !Fits(open, f) && Welcome(p, f)
    ensures Inspected(p, s, f, now).1 == Close(1002) <==> f.opcode == CONTINUATION || !f.fin
    ensures !Inspected(p, s, f, now).1.Close? ==> open.Some? && Inspected(p, s, f, now).0.fragOpcode == None
  {
  }

  /** A message that fits but grows past the largest size is closed for that. */
  predicate Oversized(p: Policy, open: Option<Message>, f: Frame) {
    Fits(open, f) && !Control(f.opcode) && Welcome(p, f) && 0 < p.maxMessageBytes < |Extended(open, f).bytes|
  }

  /**
   The close for size forgets the message, but for how far into a character its text was: the state is
   that of no open message exactly when what came before the last frame ended between characters.
   */
  lemma OversizeForgetsExactly(p: Policy, s: Side, open: Option<Message>, f: Frame, now: int)
    requires Mirrors(p, s, open) && Oversized(p, open, f)
    ensures Inspected(p, s, f, now).1 == Close(1009)
    ensures Mirrors(p, Inspected(p, s, f, now).0, None) <==>
            open == None || !p.validateUtf8 || open.value.opcode != TEXT || WellGrouped(open.value.bytes)
  {
    if open.Some? {
      AcceptedIsWellGrouped(open.value.bytes);
    }
  }

  /**
   A whole text frame in the middle of a fragmented message breaks section 5.4 of RFC 6455 and passes; the
   message it broke into is lost.
   */
  lemma InterleavedTextPasses(start: int, now: int)
    ensures var p := Policy(0, 0, [TEXT, BINARY], 0.0, true);
            var first, whole, rest := Frame(false, TEXT, [0x61]), Frame(true, TEXT, [0x62]),
              Frame(true, CONTINUATION, [0x63]);
            var s := Inspected(p, Start(p, start), first, now).0;
            var (t, v) := Inspected(p, s, whole, now);
            !Fits(Some(Message(TEXT, [0x61])), whole) && Mirrors(p, s, Some(Message(TEXT, [0x61]))) &&
            v == Pass && Inspected(p, t, rest, now).1 == Close(1002)
  {
  }

  /** An oversized message cut inside a character leaves the pending count behind: plain text after it is refused. */
  lemma PendingOutlivesOversize(start: int, now: int)
    ensures var p := Policy(2, 0, [TEXT, BINARY], 0.0, true);
            var s := Inspected(p, Start(p, start), Frame(false, TEXT, [0xC3]), now).0;
            var (t, v) := Inspected(p, s, Frame(false, CONTINUATION, [0xA9, 0x61]), now);
            v == Close(1009) && Inspected(p, t, Frame(true, TEXT, [0x61]), now).1 == Close(1007) &&
            WellGrouped([0x61])
  {
    assert [0x61 as bv8][1..] == [];
  }

  // ---------------------------------------------------------------- the message rate

  /** What is dropped is the last frame of a message: the fragments before it have passed. */
  lemma OnlyLastFramesDrop(p: Policy, s: Side, f: Frame, now: int)
    requires Inspected(p, s, f, now).1 == Drop
    ensures f.fin && !Control(f.opcode) && p.maxMessagesPerSecond > 0.0 && Balance(p, s, now) < 1.0
  {
  }

  /**
   At one message a second, a second message at once, in two fragments: the first fragment passes, the last
   is dropped.
   */
  lemma FragmentPassesThenDrop(start: int)
    ensures var p := Policy(0, 0, [TEXT], 1.0, false);
            var whole, first, last := Frame(true, TEXT, []), Frame(false, TEXT, []), Frame(true, CONTINUATION, []);
            var s := Inspected(p, Start(p, start), whole, start).0;
            var (t, v) := Inspected(p, s, first, start);
            v == Pass && Inspected(p, t, last, start).1 == Drop
  {
  }

  predicate InTime(start: int, fs: seq<Arrival>) {
    forall i :: 0 <= i < |fs| ==> start <= fs[i].now && forall j :: i < j < |fs| ==> fs[i].now <= fs[j].now
  }

  /** The frame ends a message, and passes. */
  predicate Delivers(p: Policy, start: int, fs: seq<Arrival>)
    requires fs != []
  {
    var f := fs[|fs| - 1].frame;
    f.fin && !Control(f.opcode) && VerdictOn(p, start, fs) == Pass
  }

  /** The messages that pass among the arrivals from `i` on. */
  function Delivered(p: Policy, start: int, fs: seq<Arrival>, i: nat): nat
    requires i <= |fs|
    decreases |fs|
  {
    if i == |fs| then 0
    else Delivered(p, start, fs[..|fs| - 1], i) + if Delivers(p, start, fs) then 1 else 0
  }

  predicate Kept(p: Policy, s: Side, now: int) {
    s.tokens <= p.maxMessagesPerSecond && s.lastRefill <= now
  }

  /** A frame spends the token of the message it ends, and no frame mints any. */
  lemma FrameSpends(p: Policy, s: Side, f: Frame, now: int)
    requires p.maxMessagesPerSecond > 0.0 && Kept(p, s, now)
    ensures var (t, v) := Inspected(p, s, f, now);
            Kept(p, t, now) &&
            Balance(p, t, now) + (if f.fin && !Control(f.opcode) && v == Pass then 1.0 else 0.0) <= Balance(p, s, now)
  {
    assert Gained(p, 0) == 0.0;
  }

  lemma BalanceGrows(p: Policy, s: Side, now: int, later: int)
    requires p.maxMessagesPerSecond > 0.0 && now <= later
    ensures Balance(p, s, later) <= Balance(p, s, now) + Gained(p, later - now)
  {
    GainedAdds(p, now - s.lastRefill, later - now);
    GainedIsPositive(p, later - now);
  }

  lemma GainedAdds(p: Policy, a: int, b: int)
    ensures Gained(p, a + b) == Gained(p, a) + Gained(p, b)
  {
    var r := p.maxMessagesPerSecond;
    assert ((a as real) / 1000.0 + (b as real) / 1000.0) * r == (a as real) / 1000.0 * r + (b as real) / 1000.0 * r;
  }

  lemma GainedIsPositive(p: Policy, a: int)
    requires p.maxMessagesPerSecond > 0.0 && a >= 0
    ensures Gained(p, a) >= 0.0
  {
  }

  lemma {:induction false} RunKept(p: Policy, start: int, fs: seq<Arrival>, now: int)
    requires p.maxMessagesPerSecond > 0.0 && InTime(start, fs) && (if fs == [] then start else fs[|fs| - 1].now) <= now
    ensures Kept(p, Run(p, start, fs), now)
  {
    if fs != [] {
      var front, last := fs[..|fs| - 1], fs[|fs| - 1];
      RunKept(p, start, front, last.now);
      FrameSpends(p, Run(p, start, front), last.frame, last.now);
    }
  }

  /** What passed since arrival `i`, with what is left, is covered by what there was and what was gained. */
  lemma {:induction false} DeliveriesAreCovered(p: Policy, start: int, fs: seq<Arrival>, i: nat)
    requires p.maxMessagesPerSecond > 0.0 && InTime(start, fs) && i < |fs|
    ensures var now := fs[|fs| - 1].now;
            Delivered(p, start, fs, i) as real + Balance(p, Run(p, start, fs), now) <=
            p.maxMessagesPerSecond + Gained(p, now - fs[i].now)
    decreases |fs|
  {
    var front, last := fs[..|fs| - 1], fs[|fs| - 1];
    var s := Run(p, start, front);
    RunKept(p, start, front, last.now);
    FrameSpends(p, s, last.frame, last.now);
    if i < |front| {
      var before := front[|front| - 1].now;
      DeliveriesAreCovered(p, start, front, i);
      BalanceGrows(p, s, before, last.now);
      GainedAdds(p, before - fs[i].now, last.now - before);
    } else {
      GainedIsPositive(p, 0);
    }
  }

  lemma GainedIs(p: Policy, ms: int)
    ensures Gained(p, ms) == p.maxMessagesPerSecond * ms as real / 1000.0
  {
  }

  /**
   In any contiguous part of any stream in one direction, the messages that pass are within a second's worth
   and what the rate gives in that time.
   */
  lemma {:induction false} MessageRateBound(p: Policy, start: int, fs: seq<Arrival>, i: nat)
    requires p.maxMessagesPerSecond > 0.0 && InTime(start, fs) && i < |fs|
    ensures Delivered(p, start, fs, i) as real <=
            p.maxMessagesPerSecond + p.maxMessagesPerSecond * (fs[|fs| - 1].now - fs[i].now) as real / 1000.0
  {
    DeliveriesAreCovered(p, start, fs, i);
    BalanceStays(p, start, fs);
    GainedIs(p, fs[|fs| - 1].now - fs[i].now);
  }

  lemma {:induction false} BalanceStays(p: Policy, start: int, fs: seq<Arrival>)
    requires p.maxMessagesPerSecond > 0.0 && InTime(start, fs) && fs != []
    ensures Balance(p, Run(p, start, fs), fs[|fs| - 1].now) >= 0.0
  {
    TokensStay(p, start, fs);
    RunKept(p, start, fs, fs[|fs| - 1].now);
    GainedIsPositive(p, fs[|fs| - 1].now - Run(p, start, fs).lastRefill);
  }

  lemma {:induction false} TokensStay(p: Policy, start: int, fs: seq<Arrival>)
    requires p.maxMessagesPerSecond > 0.0 && InTime(start, fs)
    ensures Run(p, start, fs).tokens >= 0.0
  {
    if fs != [] {
      var front, last := fs[..|fs| - 1], fs[|fs| - 1];
      TokensStay(p, start, front);
      RunKept(p, start, front, last.now);
      GainedIsPositive(p, last.now - Run(p, start, front).lastRefill);
    }
  }
}
