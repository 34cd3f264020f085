/** Replaying a measured event log into a hash register, and what the register then vouches for. */
module EventLogs {
  import opened Wrappers
  import opened Bytes

  type Digest = d: seq<byte> | |d| == 48 witness seq(48, _ => 0)
  type Hash = seq<byte> -> Digest

  const RTMR3_INDEX := 3
  const DSTACK_EVENT_TYPE := 134217729
  const COLON: byte := 58
  const ZEROS: Digest := seq(48, _ => 0)

  /** A logged event; `payload` is the hex text of the payload. */
  datatype Event = Event(imr: nat, eventType: nat, digest: Digest, name: seq<byte>, payload: string)

  datatype Verdict = Accepted | InvalidEventType(eventType: nat) | EventDecoding(digest: Digest) | WrongEventDigest
      | WrongLogDigest

  // ----- Hex -----

  function HexValue(c: char): Option<nat> {
    if '0' <= c <= '9' then Some((c as int) - 48)
    else if 'a' <= c <= 'f' then Some((c as int) - 87)
    else if 'A' <= c <= 'F' then Some((c as int) - 55)
    else None
  }

  function HexDecode(s: string): Option<seq<byte>> {
    if s == "" then Some([])
    else if |s| == 1 then None
    else
      var hi, lo, rest := HexValue(s[0]), HexValue(s[1]), HexDecode(s[2..]);
      if hi.None? || lo.None? || rest.None? then None else Some([hi.value * 16 + lo.value] + rest.value)
  }

  function HexDigit(n: nat): (c: char)
    requires n < 16
    ensures HexValue(c) == Some(n) && c == "0123456789abcdef"[n]
  {
    if n < 10 then (48 + n) as char else (87 + n) as char
  }

  function HexEncode(bs: seq<byte>): string {
    if bs == [] then "" else [HexDigit(bs[0] / 16), HexDigit(bs[0] % 16)] + HexEncode(bs[1..])
  }

  /** Decoding gives back what was encoded. */
  lemma {:induction false} HexRoundTrip(bs: seq<byte>)
    ensures HexDecode(HexEncode(bs)) == Some(bs)
  {
    if bs != [] {
      HexRoundTrip(bs[1..]);
      var s := HexEncode(bs);
      assert s[2..] == HexEncode(bs[1..]);
      assert HexValue(s[0]) == Some(bs[0] / 16) && HexValue(s[1]) == Some(bs[0] % 16);
      assert [bs[0] / 16 * 16 + bs[0] % 16] + bs[1..] == bs;
    }
  }

  /** The two spellings of a hex digit. */
  predicate Spells(c: char, n: nat) {
    n < 16 && (c == "0123456789abcdef"[n] || c == "0123456789ABCDEF"[n])
  }

  /** Two digits for each byte, the high half first. */
  ghost predicate SpellsAll(s: string, bs: seq<byte>) {
    |s| == 2 * |bs| && forall i :: 0 <= i < |bs| ==> Spells(s[2 * i], bs[i] / 16) && Spells(s[2 * i + 1], bs[i] % 16)
  }

  lemma HexValueIff(c: char, n: nat)
    ensures HexValue(c) == Some(n) <==> Spells(c, n)
  {
    if n < 16 {
      assert "0123456789abcdef"[n] == HexDigit(n);
      assert "0123456789ABCDEF"[n] == if n < 10 then (48 + n) as char else (55 + n) as char;
    }
  }

  /** A text decodes to the bytes that it spells, in digits of either case, and to nothing else. */
  lemma {:induction false} HexDecodeIff(s: string, bs: seq<byte>)
    ensures HexDecode(s) == Some(bs) <==> SpellsAll(s, bs)
    decreases |s|
  {
    if |s| >= 2 {
      if bs != [] {
        HexValueIff(s[0], bs[0] / 16);
        HexValueIff(s[1], bs[0] % 16);
        HexDecodeIff(s[2..], bs[1..]);
        SpellsStep(s, bs);
        DecodeStep(s, bs);
      }
    }
  }

  lemma SpellsStep(s: string, bs: seq<byte>)
    requires |s| >= 2 && bs != []
    ensures SpellsAll(s, bs) <==>
            Spells(s[0], bs[0] / 16) && Spells(s[1], bs[0] % 16) && SpellsAll(s[2..], bs[1..])
  {
    var t, cs := s[2..], bs[1..];
    forall i | 0 <= i < |cs| && |s| == 2 * |bs| ensures t[2 * i] == s[2 * (i + 1)] && t[2 * i + 1] == s[2 * (i + 1) + 1]
    {}
    if SpellsAll(s, bs) {
      assert Spells(s[2 * 0], bs[0] / 16);
      forall i | 0 <= i < |cs| ensures Spells(t[2 * i], cs[i] / 16) && Spells(t[2 * i + 1], cs[i] % 16) {
        assert cs[i] == bs[i + 1];
      }
    }
    if Spells(s[0], bs[0] / 16) && Spells(s[1], bs[0] % 16) && SpellsAll(t, cs) {
      forall i | 0 <= i < |bs| ensures Spells(s[2 * i], bs[i] / 16) && Spells(s[2 * i + 1], bs[i] % 16) {
        if i > 0 {
          assert bs[i] == cs[i - 1] && Spells(t[2 * (i - 1)], cs[i - 1] / 16);
        }
      }
    }
  }

  lemma DecodeStep(s: string, bs: seq<byte>)
    requires |s| >= 2 && bs != []
    ensures HexDecode(s) == Some(bs) <==>
            && HexValue(s[0]) == Some(bs[0] / 16) && HexValue(s[1]) == Some(bs[0] % 16)
            && HexDecode(s[2..]) == Some(bs[1..])
  {
    if HexDecode(s) == Some(bs) {
      assert bs == [HexValue(s[0]).value * 16 + HexValue(s[1]).value] + HexDecode(s[2..]).value;
    }
    assert bs == [bs[0] / 16 * 16 + bs[0] % 16] + bs[1..];
  }

  // ----- The replay -----

  function NativeBytes(v: nat): seq<byte> {
    [v % 256, v / 256 % 256, v / 65536 % 256, v / 16777216 % 256]
  }

  function EventInput(eventType: nat, name: seq<byte>, payload: seq<byte>): seq<byte> {
    NativeBytes(eventType) + [COLON] + name + [COLON] + payload
  }

  function EventDigest(H: Hash, eventType: nat, name: seq<byte>, payload: seq<byte>): Digest {
    H(EventInput(eventType, name, payload))
  }

  function Measured(log: seq<Event>): seq<Event> {
    if log == [] then []
    else Measured(log[..|log| - 1]) + if log[|log| - 1].imr == RTMR3_INDEX then [log[|log| - 1]] else []
  }

  /** The checks on one event; `None` means it passes. */
  function Fault(H: Hash, e: Event): Option<Verdict> {
    if e.eventType != DSTACK_EVENT_TYPE then Some(InvalidEventType(e.eventType))
    else if HexDecode(e.payload).None? then Some(EventDecoding(e.digest))
    else if e.digest != EventDigest(H, e.eventType, e.name, HexDecode(e.payload).value) then Some(WrongEventDigest)
    else None
  }

  function Register(H: Hash, events: seq<Event>): Digest {
    if events == [] then ZEROS else H(Register(H, events[..|events| - 1]) + events[|events| - 1].digest)
  }

  ghost predicate Sound(H: Hash, events: seq<Event>) {
    forall i :: 0 <= i < |events| ==> Fault(H, events[i]).None?
  }

  /** Position of the first faulty event. */
  ghost predicate FirstFault(H: Hash, events: seq<Event>, i: nat) {
    i < |events| && Fault(H, events[i]).Some? && forall j :: 0 <= j < i ==> Fault(H, events[j]).None?
  }

  /** The verdict on the measured events: the first fault, or whether the replay ends in the expected digest. */
  ghost predicate IsVerdict(H: Hash, events: seq<Event>, expected: Digest, v: Verdict) {
    if Sound(H, events) then v == (if Register(H, events) == expected then Accepted else WrongLogDigest)
    else exists i: nat :: FirstFault(H, events, i) && Fault(H, events[i]) == Some(v)
  }

  /** The measured events and the expected digest leave no choice of verdict. */
  lemma VerdictIsUnique(H: Hash, events: seq<Event>, expected: Digest, v: Verdict, w: Verdict)
    requires IsVerdict(H, events, expected, v) && IsVerdict(H, events, expected, w)
    ensures v == w
    ensures v == Accepted <==> Sound(H, events) && Register(H, events) == expected
  {}

  // ----- The verdict in terms of the log alone -----

  /** Of the right type, with a hex payload, and with the digest of its name and payload. */
  ghost predicate Genuine(H: Hash, e: Event) {
    && e.eventType == 134217729
    && HexDecode(e.payload).Some?
    && e.digest == H([1, 0, 0, 8, 58] + e.name + [58] + HexDecode(e.payload).value)
  }

  ghost predicate AllGenuine(H: Hash, log: seq<Event>) {
    forall i :: 0 <= i < |log| && log[i].imr == 3 ==> Genuine(H, log[i])
  }

  /** Extending the register with the digest of each register-3 event. */
  ghost function Replay(H: Hash, register: Digest, log: seq<Event>): Digest
    decreases |log|
  {
    if log == [] then register
    else Replay(H, if log[0].imr == 3 then H(register + log[0].digest) else register, log[1..])
  }

  /** Position of the first register-3 event that is not genuine. */
  ghost predicate FirstBad(H: Hash, log: seq<Event>, i: nat) {
    i < |log| && log[i].imr == 3 && !Genuine(H, log[i]) && AllGenuine(H, log[..i])
  }

  /** What is wrong with an event, the first check first. */
  ghost predicate Complains(e: Event, v: Verdict) {
    if e.eventType != 134217729 then v == InvalidEventType(e.eventType)
    else if HexDecode(e.payload).None? then v == EventDecoding(e.digest)
    else v == WrongEventDigest
  }

  /** All register-3 events are genuine and replay from zeros to the expected digest, or the first bad one decides. */
  ghost predicate Judged(H: Hash, log: seq<Event>, expected: Digest, v: Verdict) {
    if AllGenuine(H, log)
    then v == if Replay(H, seq(48, _ => 0), log) == expected then Accepted else WrongLogDigest
    else exists i: nat :: FirstBad(H, log, i) && Complains(log[i], v)
  }

  lemma FaultMeaning(H: Hash, e: Event)
    ensures Fault(H, e).None? <==> Genuine(H, e)
    ensures Fault(H, e).Some? ==> Complains(e, Fault(H, e).value)
  {
    assert NativeBytes(134217729) == [1, 0, 0, 8];
    assert NativeBytes(134217729) + [COLON] == [1, 0, 0, 8, 58];
  }

  lemma {:induction false} ReplayAppends(H: Hash, register: Digest, log: seq<Event>, e: Event)
    ensures var before := Replay(H, register, log);
            Replay(H, register, log + [e]) == if e.imr == 3 then H(before + e.digest) else before
    decreases |log|
  {
    if log == [] {
      assert ([e] + [])[1..] == [] && log + [e] == [e];
    } else {
      assert (log + [e])[1..] == log[1..] + [e];
      ReplayAppends(H, if log[0].imr == 3 then H(register + log[0].digest) else register, log[1..], e);
    }
  }

  lemma MeasuredLast(log: seq<Event>)
    requires log != []
    ensures var before, last := log[..|log| - 1], log[|log| - 1];
            Measured(log) == if last.imr == 3 then Measured(before) + [last] else Measured(before)
  {}

  /** The register of the measured events is the replay of the log from zeros. */
  lemma {:induction false} RegisterIsReplay(H: Hash, log: seq<Event>)
    ensures Register(H, Measured(log)) == Replay(H, seq(48, _ => 0), log)
  {
    if log != [] {
      var before, last := log[..|log| - 1], log[|log| - 1];
      RegisterIsReplay(H, before);
      MeasuredLast(log);
      ReplayAppends(H, seq(48, _ => 0), before, last);
      assert log == before + [last];
      assert (Measured(before) + [last])[..|Measured(before)|] == Measured(before);
    }
  }

  /** The measured events up to some position are sound exactly when the register-3 events up to there are genuine. */
  lemma {:induction false} SoundIff(H: Hash, log: seq<Event>)
    ensures Sound(H, Measured(log)) <==> AllGenuine(H, log)
  {
    if log != [] {
      var before, last := log[..|log| - 1], log[|log| - 1];
      SoundIff(H, before);
      MeasuredLast(log);
      FaultMeaning(H, last);
      SoundAppends(H, Measured(before), last);
      assert AllGenuine(H, log) <==> AllGenuine(H, before) && (last.imr == 3 ==> Genuine(H, last));
    }
  }

  lemma SoundAppends(H: Hash, events: seq<Event>, e: Event)
    ensures Sound(H, events + [e]) <==> Sound(H, events) && Fault(H, e).None?
  {
    var all := events + [e];
    assert all[|events|] == e && forall i :: 0 <= i < |events| ==> all[i] == events[i];
  }

  /** The first bad event of the log, when there is one, is the first fault among the measured events. */
  lemma {:induction false} FirstBadExists(H: Hash, log: seq<Event>) returns (i: nat)
    requires !AllGenuine(H, log)
    ensures FirstBad(H, log, i)
    ensures FirstFault(H, Measured(log), |Measured(log[..i])|) && Measured(log)[|Measured(log[..i])|] == log[i]
  {
    var before, last := log[..|log| - 1], log[|log| - 1];
    FaultMeaning(H, last);
    if AllGenuine(H, before) {
      i := |log| - 1;
      SoundIff(H, before);
      assert forall j :: 0 <= j < |Measured(before)| ==> Measured(log)[j] == Measured(before)[j];
    } else {
      i := FirstBadExists(H, before);
      assert before[..i] == log[..i];
      assert forall j :: 0 <= j < |Measured(before)| ==> Measured(log)[j] == Measured(before)[j];
    }
  }

  lemma OneFirstFault(H: Hash, events: seq<Event>, i: nat, j: nat)
    requires FirstFault(H, events, i) && FirstFault(H, events, j)
    ensures i == j
  {}

  /** The verdict on the measured events is the verdict on the log. */
  lemma VerdictMeaning(H: Hash, log: seq<Event>, expected: Digest, v: Verdict)
    requires IsVerdict(H, Measured(log), expected, v)
    ensures Judged(H, log, expected, v)
  {
    SoundIff(H, log);
    RegisterIsReplay(H, log);
    if !AllGenuine(H, log) {
      var i := FirstBadExists(H, log);
      var k: nat :| FirstFault(H, Measured(log), k) && Fault(H, Measured(log)[k]) == Some(v);
      OneFirstFault(H, Measured(log), k, |Measured(log[..i])|);
      FaultMeaning(H, log[i]);
    }
  }

  /** The checks on one event, in the order of the loop. */
  method CheckEvent(H: Hash, event: Event) returns (fault: Option<Verdict>)
    ensures fault == Fault(H, event)
  {
    if event.eventType != DSTACK_EVENT_TYPE {
      return Some(InvalidEventType(event.eventType));
    }
    var payload := HexDecode(event.payload);
    if payload.None? {
      return Some(EventDecoding(event.digest));
    }
    if event.digest != EventDigest(H, event.eventType, event.name, payload.value) {
      return Some(WrongEventDigest);
    }
    return None;
  }

  /**
   * `verify_event_log_rtmr3`: accepts exactly the logs whose register-3 events are all sound and replay to the
   * expected digest, and otherwise reports the first fault.
   */
  method VerifyEventLog(H: Hash, log: seq<Event>, expected: Digest) returns (v: Verdict)
    ensures IsVerdict(H, Measured(log), expected, v)
    ensures Judged(H, log, expected, v)
  {
    v := ReplayEvents(H, Measured(log), expected);
    VerdictMeaning(H, log, expected, v);
  }

  /** The loop over the events of the register. */
  method ReplayEvents(H: Hash, events: seq<Event>, expected: Digest) returns (v: Verdict)
    ensures IsVerdict(H, events, expected, v)
  {
    var digest := ZEROS;
    for n := 0 to |events|
      invariant Sound(H, events[..n]) && digest == Register(H, events[..n])
    {
      var fault := CheckEvent(H, events[n]);
      if fault.Some? {
        assert forall j :: 0 <= j < n ==> events[j] == events[..n][j];
        assert FirstFault(H, events, n);
        return fault.value;
      }
      digest := H(digest + events[n].digest);
      assert events[..n + 1][..n] == events[..n];
    }
    assert events[..|events|] == events;
    return if digest == expected then Accepted else WrongLogDigest;
  }

  lemma {:induction false} MeasuredConcat(a: seq<Event>, b: seq<Event>)
    ensures Measured(a + b) == Measured(a) + Measured(b)
  {
    if b == [] {
      assert a + b == a;
    } else {
      var c, last := b[..|b| - 1], b[|b| - 1];
      var tail := if last.imr == RTMR3_INDEX then [last] else [];
      MeasuredConcat(a, c);
      assert (a + b)[..|a + b| - 1] == a + c;
      assert (Measured(a) + Measured(c)) + tail == Measured(a) + (Measured(c) + tail);
    }
  }

  /** Inserting or removing an event of another register changes nothing that is measured. */
  lemma OtherRegistersDoNotMatter(x: seq<Event>, e: Event, y: seq<Event>)
    requires e.imr != RTMR3_INDEX
    ensures Measured(x + [e] + y) == Measured(x + y)
  {
    MeasuredConcat(x, y);
    MeasuredConcat(x + [e], y);
    MeasuredConcat(x, [e]);
  }

  /**
   * Neither does moving it past its neighbour, so a log can be reordered as long as measured events keep their order.
   */
  lemma OtherRegistersMoveFreely(x: seq<Event>, e: Event, f: Event, y: seq<Event>)
    requires e.imr != RTMR3_INDEX
    ensures Measured(x + [e] + ([f] + y)) == Measured((x + [f]) + [e] + y)
  {
    OtherRegistersDoNotMatter(x, e, [f] + y);
    OtherRegistersDoNotMatter(x + [f], e, y);
    assert x + ([f] + y) == (x + [f]) + y;
  }

  // ----- What the register determines -----

  /** What an event says: its name and its decoded payload. */
  datatype Content = Content(name: seq<byte>, payload: seq<byte>)

  function ContentOf(e: Event): Content {
    Content(e.name, if HexDecode(e.payload).Some? then HexDecode(e.payload).value else [])
  }

  function Contents(events: seq<Event>): seq<Content> {
    seq(|events|, i requires 0 <= i < |events| => ContentOf(events[i]))
  }

  /** Everything hashed while replaying: each event's own input and each extension of the register. */
  ghost function Hashed(H: Hash, events: seq<Event>): set<seq<byte>> {
    if events == [] then {} else
      var before, e := events[..|events| - 1], events[|events| - 1];
      Hashed(H, before) + {Register(H, before) + e.digest, EventInput(DSTACK_EVENT_TYPE, e.name, ContentOf(e).payload)}
  }

  /** No two of these inputs collide, and none hashes to the start value of the register. */
  ghost predicate CollisionFree(H: Hash, inputs: set<seq<byte>>) {
    && (forall x, y :: x in inputs && y in inputs && H(x) == H(y) ==> x == y)
    && (forall x :: x in inputs ==> H(x) != ZEROS)
  }

  /** Two different names can be told apart: neither goes on with a colon where the other ends. */
  predicate ToldApart(m: seq<byte>, n: seq<byte>) {
    !(m + [COLON] <= n) && !(n + [COLON] <= m)
  }

  lemma ColonFreeNamesAreToldApart(m: seq<byte>, n: seq<byte>)
    requires COLON !in m && COLON !in n
    ensures ToldApart(m, n)
  {
    assert (m + [COLON])[|m|] == COLON && (n + [COLON])[|n|] == COLON;
  }

  lemma SplitAtColon(m: seq<byte>, p: seq<byte>, n: seq<byte>, q: seq<byte>)
    requires m + [COLON] + p == n + [COLON] + q && |m| < |n|
    ensures m + [COLON] <= n
  {
    var s := m + [COLON] + p;
    assert s[..|m| + 1] == m + [COLON];
    assert s[..|n|] == n;
    assert n[..|m| + 1] == s[..|m| + 1];
  }

  lemma SameLengthSameName(m: seq<byte>, p: seq<byte>, n: seq<byte>, q: seq<byte>)
    requires m + [COLON] + p == n + [COLON] + q
    ensures |m| == |n| ==> m == n
  {
    if |m| == |n| {
      assert (m + [COLON] + p)[..|m|] == m && (n + [COLON] + q)[..|n|] == n;
    }
  }

  /** Different names have colliding inputs for some payloads exactly when they cannot be told apart. */
  lemma AmbiguousIff(m: seq<byte>, n: seq<byte>)
    requires m != n
    ensures (exists p, q :: EventInput(DSTACK_EVENT_TYPE, m, p) == EventInput(DSTACK_EVENT_TYPE, n, q)) <==>
            !ToldApart(m, n)
  {
    if p, q :| EventInput(DSTACK_EVENT_TYPE, m, p) == EventInput(DSTACK_EVENT_TYPE, n, q) {
      SameInput(m, p, n, q);
      if |m| < |n| { SplitAtColon(m, p, n, q); }
      if |n| < |m| { SplitAtColon(n, q, m, p); }
      SameLengthSameName(m, p, n, q);
    }
    if m + [COLON] <= n { Ambiguous(m, n); }
    if n + [COLON] <= m { Ambiguous(n, m); }
  }

  lemma Ambiguous(m: seq<byte>, n: seq<byte>)
    requires m + [COLON] <= n
    ensures EventInput(DSTACK_EVENT_TYPE, m, n[|m| + 1..] + [COLON]) == EventInput(DSTACK_EVENT_TYPE, n, [])
  {}

  lemma SameInput(m: seq<byte>, p: seq<byte>, n: seq<byte>, q: seq<byte>)
    requires EventInput(DSTACK_EVENT_TYPE, m, p) == EventInput(DSTACK_EVENT_TYPE, n, q)
    ensures m + [COLON] + p == n + [COLON] + q
  {
    var x, y := EventInput(DSTACK_EVENT_TYPE, m, p), EventInput(DSTACK_EVENT_TYPE, n, q);
    assert x[5..] == m + [COLON] + p && y[5..] == n + [COLON] + q;
  }

  lemma InputDetermines(m: seq<byte>, p: seq<byte>, n: seq<byte>, q: seq<byte>)
    requires ToldApart(m, n) && EventInput(DSTACK_EVENT_TYPE, m, p) == EventInput(DSTACK_EVENT_TYPE, n, q)
    ensures m == n && p == q
  {
    SameInput(m, p, n, q);
    if |m| < |n| { SplitAtColon(m, p, n, q); }
    if |n| < |m| { SplitAtColon(n, q, m, p); }
    assert (m + [COLON] + p)[..|m|] == m && (n + [COLON] + q)[..|n|] == n;
    assert (m + [COLON] + p)[|m| + 1..] == p && (n + [COLON] + q)[|n| + 1..] == q;
  }

  ghost predicate AllToldApart(a: seq<Event>, b: seq<Event>) {
    forall i, j :: 0 <= i < |a| && 0 <= j < |b| ==> ToldApart(a[i].name, b[j].name)
  }

  /** The register determines the measured log: its events in order, each with its name, payload and digest. */
  lemma {:induction false} RegisterDetermines(H: Hash, a: seq<Event>, b: seq<Event>)
    requires Sound(H, a) && Sound(H, b) && AllToldApart(a, b)
    requires CollisionFree(H, Hashed(H, a) + Hashed(H, b))
    requires Register(H, a) == Register(H, b)
    ensures Contents(a) == Contents(b)
    ensures forall i :: 0 <= i < |a| && i < |b| ==> a[i].digest == b[i].digest
    decreases |a|
  {
    if a == [] || b == [] {
      if a != [] { ExtendedRegister(H, a); }
      if b != [] { ExtendedRegister(H, b); }
    } else {
      var a', b' := a[..|a| - 1], b[..|b| - 1];
      LastDetermines(H, a, b);
      assert Hashed(H, a') + Hashed(H, b') <= Hashed(H, a) + Hashed(H, b);
      RegisterDetermines(H, a', b');
      SameBeforeAndLast(a, a', b, b');
    }
  }

  lemma ExtendedRegister(H: Hash, events: seq<Event>)
    requires events != [] && forall x :: x in Hashed(H, events) ==> H(x) != ZEROS
    ensures Register(H, events) != ZEROS
  {}

  lemma SameBeforeAndLast(a: seq<Event>, a': seq<Event>, b: seq<Event>, b': seq<Event>)
    requires a != [] && b != [] && a' == a[..|a| - 1] && b' == b[..|b| - 1] && Contents(a') == Contents(b')
    requires forall i :: 0 <= i < |a'| && i < |b'| ==> a'[i].digest == b'[i].digest
    requires ContentOf(a[|a| - 1]) == ContentOf(b[|b| - 1]) && a[|a| - 1].digest == b[|b| - 1].digest
    ensures Contents(a) == Contents(b)
    ensures forall i :: 0 <= i < |a| && i < |b| ==> a[i].digest == b[i].digest
  {
    assert |a'| == |Contents(a')| == |b'|;
    forall i | 0 <= i < |a| ensures ContentOf(a[i]) == ContentOf(b[i]) && a[i].digest == b[i].digest {
      if i < |a'| {
        assert Contents(a')[i] == Contents(b')[i];
        assert a'[i].digest == b'[i].digest;
      }
    }
  }

  lemma LastDetermines(H: Hash, a: seq<Event>, b: seq<Event>)
    requires a != [] && b != [] && Sound(H, a) && Sound(H, b) && AllToldApart(a, b)
    requires CollisionFree(H, Hashed(H, a) + Hashed(H, b))
    requires Register(H, a) == Register(H, b)
    ensures Register(H, a[..|a| - 1]) == Register(H, b[..|b| - 1])
    ensures ContentOf(a[|a| - 1]) == ContentOf(b[|b| - 1]) && a[|a| - 1].digest == b[|b| - 1].digest
  {
    var x, y := a[|a| - 1], b[|b| - 1];
    var p, q := Register(H, a[..|a| - 1]), Register(H, b[..|b| - 1]);
    assert p + x.digest in Hashed(H, a) && q + y.digest in Hashed(H, b);
    assert p + x.digest == q + y.digest;
    assert (p + x.digest)[..48] == p && (q + y.digest)[..48] == q;
    assert (p + x.digest)[48..] == x.digest && (q + y.digest)[48..] == y.digest;
    assert Fault(H, x).None? && Fault(H, y).None?;
    InputDetermines(x.name, ContentOf(x).payload, y.name, ContentOf(y).payload);
  }

  /** Why names matter: for every hash, two different logs with a colon in a name are accepted for one register. */
  lemma ColonInNameIsAmbiguous(H: Hash)
    ensures var digest := EventDigest(H, DSTACK_EVENT_TYPE, [97, COLON, 98], []);
            var a := [Event(RTMR3_INDEX, DSTACK_EVENT_TYPE, digest, [97], "623a")];
            var b := [Event(RTMR3_INDEX, DSTACK_EVENT_TYPE, digest, [97, COLON, 98], "")];
            && Sound(H, Measured(a)) && Sound(H, Measured(b))
            && Register(H, Measured(a)) == Register(H, Measured(b))
            && Contents(Measured(a)) != Contents(Measured(b))
  {
    var digest := EventDigest(H, DSTACK_EVENT_TYPE, [97, COLON, 98], []);
    var x := Event(RTMR3_INDEX, DSTACK_EVENT_TYPE, digest, [97], "623a");
    var y := Event(RTMR3_INDEX, DSTACK_EVENT_TYPE, digest, [97, COLON, 98], "");
    HexOfColon();
    assert EventInput(DSTACK_EVENT_TYPE, [97], [98, COLON]) == EventInput(DSTACK_EVENT_TYPE, [97, COLON, 98], []);
    OneMeasured(H, x);
    OneMeasured(H, y);
    assert Contents([x])[0].name != Contents([y])[0].name;
  }

  /** Sound events named `m` and `n` that make one register. */
  ghost predicate ShareRegister(H: Hash, m: seq<byte>, n: seq<byte>, x: Event, y: Event) {
    && x.imr == y.imr == RTMR3_INDEX && x.name == m && y.name == n
    && Sound(H, Measured([x])) && Sound(H, Measured([y]))
    && Register(H, Measured([x])) == Register(H, Measured([y]))
  }

  ghost function SoundEvent(H: Hash, name: seq<byte>, payload: seq<byte>): Event {
    Event(RTMR3_INDEX, DSTACK_EVENT_TYPE, EventDigest(H, DSTACK_EVENT_TYPE, name, payload), name, HexEncode(payload))
  }

  lemma SoundEventIsSound(H: Hash, name: seq<byte>, payload: seq<byte>)
    ensures Sound(H, Measured([SoundEvent(H, name, payload)]))
  {
    HexRoundTrip(payload);
    OneMeasured(H, SoundEvent(H, name, payload));
  }

  lemma SameInputShares(H: Hash, m: seq<byte>, p: seq<byte>, n: seq<byte>, q: seq<byte>)
    requires EventInput(DSTACK_EVENT_TYPE, m, p) == EventInput(DSTACK_EVENT_TYPE, n, q)
    ensures ShareRegister(H, m, n, SoundEvent(H, m, p), SoundEvent(H, n, q))
  {
    SoundEventIsSound(H, m, p);
    SoundEventIsSound(H, n, q);
    OneMeasured(H, SoundEvent(H, m, p));
    OneMeasured(H, SoundEvent(H, n, q));
  }

  /** Events whose names can be told apart make one register, without a collision, only under one name. */
  lemma OneRegisterOneName(H: Hash, x: Event, y: Event)
    requires Sound(H, [x]) && Sound(H, [y]) && ToldApart(x.name, y.name)
    requires CollisionFree(H, Hashed(H, [x]) + Hashed(H, [y])) && Register(H, [x]) == Register(H, [y])
    ensures x.name == y.name
  {
    RegisterDetermines(H, [x], [y]);
    assert Contents([x])[0] == Contents([y])[0];
  }

  /**
   * Different names that cannot be told apart share a register under every hash; those that can be told apart never do
   * without a collision.
   */
  lemma NamesShareRegisterIff(H: Hash, m: seq<byte>, n: seq<byte>)
    requires m != n
    ensures !ToldApart(m, n) ==> exists x, y :: ShareRegister(H, m, n, x, y)
    ensures ToldApart(m, n) ==>
            forall x, y :: ShareRegister(H, m, n, x, y) ==> !CollisionFree(H, Hashed(H, [x]) + Hashed(H, [y]))
  {
    if ToldApart(m, n) {
      forall x, y | ShareRegister(H, m, n, x, y) ensures !CollisionFree(H, Hashed(H, [x]) + Hashed(H, [y])) {
        OneMeasured(H, x);
        OneMeasured(H, y);
        if CollisionFree(H, Hashed(H, [x]) + Hashed(H, [y])) { OneRegisterOneName(H, x, y); }
      }
    } else {
      AmbiguousIff(m, n);
      var p, q :| EventInput(DSTACK_EVENT_TYPE, m, p) == EventInput(DSTACK_EVENT_TYPE, n, q);
      SameInputShares(H, m, p, n, q);
    }
  }

  lemma HexOfColon()
    ensures HexDecode("623a") == Some([98, COLON])
  {
    assert HexValue('6') == Some(6) && HexValue('2') == Some(2) && HexValue('3') == Some(3) &&
           HexValue('a') == Some(10);
    assert "3a"[2..] == "" && [3 * 16 + 10] + [] == [COLON];
    assert HexDecode("3a") == Some([COLON]);
    assert "623a"[2..] == "3a" && [6 * 16 + 2] + [COLON] == [98, COLON];
  }

  lemma OneMeasured(H: Hash, e: Event)
    requires e.imr == RTMR3_INDEX
    ensures Measured([e]) == [e] && Register(H, [e]) == H(ZEROS + e.digest)
  {}

  // ----- From the register to the application -----

  datatype Single = Missing | Duplicate | Found(event: Event)

  function Matching(log: seq<Event>, name: seq<byte>): seq<Event> {
    if log == [] then [] else
      var last := log[|log| - 1];
      Matching(log[..|log| - 1], name) + if last.name == name && last.imr == RTMR3_INDEX then [last] else []
  }

  /** `get_single_event`: the only register-3 event of that name. */
  function GetSingleEvent(log: seq<Event>, name: seq<byte>): Single {
    var found := Matching(log, name);
    if found == [] then Missing else if |found| > 1 then Duplicate else Found(found[0])
  }

  ghost predicate Named(e: Event, name: seq<byte>) {
    e.name == name && e.imr == 3
  }

  /** It is the only register-3 event of that name, or there is none, or there are two or more. */
  lemma {:induction false} SingleEventMeaning(log: seq<Event>, name: seq<byte>)
    ensures match GetSingleEvent(log, name)
            case Missing => forall i :: 0 <= i < |log| ==> !Named(log[i], name)
            case Found(e) =>
              exists i :: 0 <= i < |log| && log[i] == e && forall j :: 0 <= j < |log| ==>
                  (Named(log[j], name) <==> j == i)
            case Duplicate => exists i, j :: 0 <= i < j < |log| && Named(log[i], name) && Named(log[j], name)
  {
    if log != [] {
      var n := |log| - 1;
      var before, last := log[..n], log[n];
      SingleEventMeaning(before, name);
      assert forall i :: 0 <= i < n ==> before[i] == log[i];
      match GetSingleEvent(before, name) {
        case Missing =>
          assert Named(last, name) ==> Matching(log, name) == [last];
        case Found(e) =>
          var i :| 0 <= i < n && before[i] == e && forall j :: 0 <= j < n ==> (Named(before[j], name) <==> j == i);
          assert log[i] == e && Named(log[i], name);
        case Duplicate =>
          var i, j :| 0 <= i < j < n && Named(before[i], name) && Named(before[j], name);
          assert Named(log[i], name) && Named(log[j], name);
      }
    }
  }

  lemma {:induction false} MatchingIsMeasured(log: seq<Event>, name: seq<byte>)
    ensures Matching(log, name) == Matching(Measured(log), name)
  {
    if log != [] {
      var before, last := log[..|log| - 1], log[|log| - 1];
      MatchingIsMeasured(before, name);
      if last.imr == RTMR3_INDEX {
        var measured := Measured(before);
        assert Measured(log) == measured + [last];
        assert (measured + [last])[..|measured|] == measured;
      } else {
        assert Measured(log) == Measured(before);
      }
    }
  }

  /** Logs with the same measured events answer every query for a single event alike. */
  lemma SameMeasuredSameEvent(a: seq<Event>, b: seq<Event>, name: seq<byte>)
    requires Measured(a) == Measured(b)
    ensures GetSingleEvent(a, name) == GetSingleEvent(b, name)
  {
    MatchingIsMeasured(a, name);
    MatchingIsMeasured(b, name);
  }

  lemma {:induction false} MeasuredAreMeasured(log: seq<Event>)
    ensures forall i :: 0 <= i < |Measured(log)| ==> Measured(log)[i].imr == RTMR3_INDEX
  {
    if log != [] { MeasuredAreMeasured(log[..|log| - 1]); }
  }

  /** Logs of the same contents have the same contents up to the last event, and there. */
  lemma ContentsSplit(a: seq<Event>, b: seq<Event>)
    requires Contents(a) == Contents(b) && a != []
    ensures |a| == |b| && ContentOf(a[|a| - 1]) == ContentOf(b[|b| - 1])
    ensures Contents(a[..|a| - 1]) == Contents(b[..|b| - 1])
  {
    assert |a| == |Contents(a)| == |Contents(b)| == |b|;
    assert Contents(a)[|a| - 1] == Contents(b)[|a| - 1];
    var x, y := a[..|a| - 1], b[..|b| - 1];
    forall i | 0 <= i < |x| ensures ContentOf(x[i]) == ContentOf(y[i]) {
      assert Contents(a)[i] == Contents(b)[i];
    }
  }

  lemma {:induction false} MatchingContents(a: seq<Event>, b: seq<Event>, name: seq<byte>)
    requires Contents(a) == Contents(b)
    requires forall i :: 0 <= i < |a| ==> a[i].imr == RTMR3_INDEX
    requires forall i :: 0 <= i < |b| ==> b[i].imr == RTMR3_INDEX
    ensures Contents(Matching(a, name)) == Contents(Matching(b, name))
    decreases |a|
  {
    if a == [] {
      assert |b| == |Contents(b)| == |Contents(a)| == 0;
    } else {
      var n := |a| - 1;
      ContentsSplit(a, b);
      MatchingContents(a[..n], b[..n], name);
      ContentsConcat(Matching(a[..n], name), if a[n].name == name then [a[n]] else []);
      ContentsConcat(Matching(b[..n], name), if b[n].name == name then [b[n]] else []);
    }
  }

  lemma ContentsConcat(a: seq<Event>, b: seq<Event>)
    ensures Contents(a + b) == Contents(a) + Contents(b)
  {}

  /** What the verifier is given: the claimed register, the log, and the unmeasured application description. */
  datatype TcbInfo = TcbInfo(rtmr3: Digest, eventLog: seq<Event>, composeHash: seq<byte>, appCompose: seq<byte>)

  /** `verify_rtmr3` against the register of the signed report. */
  ghost predicate RegisterVerified(H: Hash, tcb: TcbInfo, reported: Digest) {
    tcb.rtmr3 == reported && Sound(H, Measured(tcb.eventLog)) && Register(H, Measured(tcb.eventLog)) == reported
  }

  /**
   * `verify_app_compose`: `name` is the compose-hash event's name, `H256` the 32-byte hash, `configOk` the policy
   * checks.
   */
  ghost predicate AppVerified(H256: seq<byte> -> seq<byte>, configOk: seq<byte> -> bool, name: seq<byte>,
        tcb: TcbInfo) {
    var e := GetSingleEvent(tcb.eventLog, name);
    && configOk(tcb.appCompose)
    && e.Found?
    && e.event.payload == HexEncode(tcb.composeHash)
    && HexDecode(e.event.payload).Some? && |HexDecode(e.event.payload).value| == 32
    && H256(tcb.appCompose) == HexDecode(e.event.payload).value
  }

  method VerifyRtmr3(H: Hash, tcb: TcbInfo, reported: Digest) returns (ok: bool)
    ensures ok <==> RegisterVerified(H, tcb, reported)
    ensures ok <==> tcb.rtmr3 == reported && AllGenuine(H, tcb.eventLog) &&
                    Replay(H, seq(48, _ => 0), tcb.eventLog) == reported
  {
    SoundIff(H, tcb.eventLog);
    RegisterIsReplay(H, tcb.eventLog);
    if tcb.rtmr3 != reported {
      return false;
    }
    var v := VerifyEventLog(H, tcb.eventLog, reported);
    VerdictIsUnique(H, Measured(tcb.eventLog), reported, v, v);
    return v == Accepted;
  }

  method VerifyAppCompose(H256: seq<byte> -> seq<byte>, configOk: seq<byte> -> bool, name: seq<byte>, tcb: TcbInfo)
    returns (ok: bool)
    ensures ok <==> AppVerified(H256, configOk, name, tcb)
  {
    if !configOk(tcb.appCompose) {
      return false;
    }
    var single := GetSingleEvent(tcb.eventLog, name);
    if !single.Found? || single.event.payload != HexEncode(tcb.composeHash) {
      return false;
    }
    HexRoundTrip(tcb.composeHash);
    var payload := HexDecode(single.event.payload);
    if |payload.value| != 32 {
      return false;
    }
    return H256(tcb.appCompose) == payload.value;
  }

  /** Two logs for one register give the same answer to every query for a single event, up to the payload's spelling. */
  lemma SingleEventDetermined(H: Hash, a: seq<Event>, b: seq<Event>, name: seq<byte>)
    requires Sound(H, Measured(a)) && Sound(H, Measured(b)) && AllToldApart(Measured(a), Measured(b))
    requires CollisionFree(H, Hashed(H, Measured(a)) + Hashed(H, Measured(b)))
    requires Register(H, Measured(a)) == Register(H, Measured(b))
    ensures match (GetSingleEvent(a, name), GetSingleEvent(b, name))
            case (Missing, Missing) => true
            case (Duplicate, Duplicate) => true
            case (Found(x), Found(y)) => ContentOf(x) == ContentOf(y)
            case _ => false
  {
    RegisterDetermines(H, Measured(a), Measured(b));
    MeasuredAreMeasured(a);
    MeasuredAreMeasured(b);
    MatchingContents(Measured(a), Measured(b), name);
    MatchingIsMeasured(a, name);
    MatchingIsMeasured(b, name);
    var x, y := Matching(a, name), Matching(b, name);
    assert |x| == |Contents(x)| == |Contents(y)| == |y|;
    if x != [] { assert Contents(x)[0] == Contents(y)[0]; }
  }

  /**
   * The point of the check: two accepted descriptions for one reported register have the same compose hash and,
   * unless their hashes collide, are the same application.
   */
  lemma RegisterVouchesForApplication(H: Hash, H256: seq<byte> -> seq<byte>, configOk: seq<byte> -> bool,
        name: seq<byte>,
                                      reported: Digest, a: TcbInfo, b: TcbInfo)
    requires RegisterVerified(H, a, reported) && RegisterVerified(H, b, reported)
    requires AppVerified(H256, configOk, name, a) && AppVerified(H256, configOk, name, b)
    requires AllToldApart(Measured(a.eventLog), Measured(b.eventLog))
    requires CollisionFree(H, Hashed(H, Measured(a.eventLog)) + Hashed(H, Measured(b.eventLog)))
    requires H256(a.appCompose) == H256(b.appCompose) ==> a.appCompose == b.appCompose
    ensures a.composeHash == b.composeHash && a.appCompose == b.appCompose
  {
    SingleEventDetermined(H, a.eventLog, b.eventLog, name);
    HexRoundTrip(a.composeHash);
    HexRoundTrip(b.composeHash);
  }
}
