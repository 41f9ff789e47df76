/** One proxied PostgreSQL connection as a state machine: four buffers, two write events, the flags
    that steer parsing, and the history of what was received, sent, dropped and answered locally. */
module ProxyMachine {
  import opened Frames

  /** What a socket accepts or delivers. A count may exceed what was offered; it is clipped. */
  datatype Send = Sent(n: nat) | WouldBlock | Failed

  datatype Recv = Data(bytes: seq<Byte>) | NoData | Hangup

  /** The outcomes one callback meets: of the write it was woken for, of the write towards the
      client and of the write towards the backend; and the verdict on its k-th checked query. */
  datatype Net = Net(writable: Send, reply: Send, push: Send, allow: nat -> bool)

  datatype Event =
    | ClientEvent(write: bool, read: bool, recv: Recv, net: Net)
    | BackendEvent(write: bool, read: bool, recv: Recv, net: Net)

  /** A piece of the stream towards the client: read from the backend, or a local reply. */
  datatype Segment = Segment(bytes: seq<Byte>, local: bool)

  /** The way from the client: the two buffers and the write event towards the backend; then
      history: all bytes received and where blocks of them were dropped, the bytes sent to the
      backend, the frames examined and how many bytes went before the first of them. */
  datatype Requests = Requests(
    input: seq<Byte>, output: seq<Byte>, armed: bool,
    received: seq<Byte>, probes: seq<nat>, sent: seq<Byte>, handed: seq<seq<Byte>>, startup: nat)

  /** The way to the client; then history: the stream in order of arrival, what of it was sent,
      and whether a reply was ever put behind bytes that waited to be parsed. */
  datatype Responses = Responses(
    input: seq<Byte>, output: seq<Byte>, armed: bool,
    bound: seq<Segment>, sent: seq<Byte>, split: bool)

  datatype State = State(
    req: Requests, resp: Responses,
    firstRequest: bool, firstResponse: bool, secondPacket: bool, open: bool)

  const PASSWORD: Byte := 0x70
  const QUERY: Byte := 0x51
  const PARSE: Byte := 0x50
  const SRV_PASSWORD: Byte := 0x52
  const SRV_ERROR: Byte := 0x45
  const CANCEL: seq<Byte> := [0x00, 0x00, 0x00, 0x0F, 0x04, 0xD2, 0x16, 0xDF]
  const PROBE_SIZE: nat := 8
  const NO_SSL: seq<Byte> := [78]
  const STARTUP_MIN: nat := 13

  // `blockResponse`: an empty row description, a completed SELECT, ready for query.
  const BLOCK_REPLY: seq<Byte> :=
    [84, 0, 0, 0, 6, 0, 0, 67, 0, 0, 0, 11, 83, 69, 76, 69, 67, 84, 0, 90, 0, 0, 0, 5, 73]

  function Initial(): State {
    State(Requests([], [], false, [], [], [], [], 0), Responses([], [], false, [], [], false), true, true, false, true)
  }

  // ---- writing ----

  function Accepted(out: seq<Byte>, r: Send): (k: nat)
    ensures k <= |out|
  {
    if r.Sent? then (if r.n < |out| then r.n else |out|) else 0
  }

  datatype Outcome = Outcome(st: State, ok: bool)

  function SendRequests(q: Requests, r: Send): Requests {
    var k := Accepted(q.output, r);
    q.(output := q.output[k..], sent := q.sent + q.output[..k], armed := |q.output| > k)
  }

  function SendResponses(p: Responses, r: Send): Responses {
    var k := Accepted(p.output, r);
    p.(output := p.output[k..], sent := p.sent + p.output[..k], armed := |p.output| > k)
  }

  function ProxyWrite(st: State, r: Send): Outcome {
    if |st.resp.output| == 0 then Outcome(st.(resp := st.resp.(armed := false)), true)
    else if r.Failed? then Outcome(st, false)
    else Outcome(st.(resp := SendResponses(st.resp, r)), true)
  }

  function BackendWrite(st: State, r: Send): Outcome {
    if |st.req.output| == 0 then Outcome(st.(req := st.req.(armed := false)), true)
    else if r.Failed? then
      if st.firstResponse then Outcome(st.(req := st.req.(armed := true)), true) else Outcome(st, false)
    else Outcome(st.(req := SendRequests(st.req, r)), true)
  }

  // ---- parsing requests ----

  // A local reply goes behind what waits to be parsed, or else straight to the client's queue.
  function Inject(p: Responses, reply: seq<Byte>): Responses {
    var logged := p.(bound := p.bound + [Segment(reply, true)]);
    if |p.input| > 0 then logged.(input := p.input + reply, split := true)
    else logged.(output := p.output + reply)
  }

  predicate Checked(frame: seq<Byte>)
    requires |frame| >= HEADER
  {
    frame[0] == QUERY || (frame[0] == PARSE && frame[1] == 0)
  }

  // Sixteen bytes that are not a cancel request end the examination early.
  predicate EarlyOut(frame: seq<Byte>) {
    |frame| == 16 && frame[..8] != CANCEL
  }

  predicate Blocked(frame: seq<Byte>, verdict: bool)
    requires |frame| >= HEADER
  {
    !EarlyOut(frame) && frame[0] != PASSWORD && Checked(frame) && !verdict
  }

  // What examining a frame does to the way to the client.
  function Answer(p: Responses, frame: seq<Byte>, verdict: bool): Responses
    requires |frame| >= HEADER
  {
    if Blocked(frame, verdict) then Inject(p, BLOCK_REPLY) else p
  }

  predicate IsPassword(frame: seq<Byte>)
    requires |frame| >= HEADER
  {
    !EarlyOut(frame) && frame[0] == PASSWORD
  }

  predicate AllFrames(frames: seq<seq<Byte>>) {
    forall i :: 0 <= i < |frames| ==> |frames[i]| >= HEADER
  }

  // The frames in order, the verdicts taken from number `k` on.
  function AnswerAll(p: Responses, frames: seq<seq<Byte>>, allow: nat -> bool, k: nat): Responses
    requires AllFrames(frames)
    decreases |frames|
  {
    if |frames| == 0 then p else AnswerAll(Answer(p, frames[0], allow(k)), frames[1..], allow, k + 1)
  }

  predicate AnyPassword(frames: seq<seq<Byte>>)
    requires AllFrames(frames)
  {
    |frames| > 0 && (IsPassword(frames[0]) || AnyPassword(frames[1..]))
  }

  predicate AnyBlocked(frames: seq<seq<Byte>>, allow: nat -> bool, k: nat)
    requires AllFrames(frames)
    decreases |frames|
  {
    |frames| > 0 && (Blocked(frames[0], allow(k)) || AnyBlocked(frames[1..], allow, k + 1))
  }

  lemma {:induction false} FramesAreFrames(s: seq<Byte>)
    ensures AllFrames(FramesOf(s))
    decreases |s|
  {
    if FrameReady(s) {
      FramesAreFrames(s[FrameSize(s)..]);
    }
  }

  datatype Parsed = Parsed(st: State, request: seq<Byte>, hasResponse: bool, ok: bool)

  function StartupSize(s: seq<Byte>): int
    requires |s| >= HEADER
  {
    Be32(s[0], s[1], s[2], s[3])
  }

  function DropProbe(q: Requests): Requests {
    q.(input := [], probes := q.probes + [Minus(|q.received|, PROBE_SIZE)])
  }

  function ParseRequest(st: State, allow: nat -> bool): Parsed {
    var q, s := st.req, st.req.input;
    if |s| < HEADER then Parsed(st, [], false, true)
    else if |s| == PROBE_SIZE then
      Parsed(st.(req := DropProbe(q), resp := Inject(st.resp, NO_SSL)), [], true, true)
    else if st.firstRequest then
      // a negative size converts to a huge one
      if StartupSize(s) < 0 || StartupSize(s) > |s| then Parsed(st, [], false, true)
      else if StartupSize(s) < STARTUP_MIN then Parsed(st, [], false, false)
      else Parsed(st.(req := q.(input := [], startup := |Kept(q)|), firstRequest := false), s, false, true)
    else
      FramesAreFrames(s);
      var frames := FramesOf(s);
      Parsed(st.(req := q.(input := Leftover(s), handed := q.handed + frames),
                 resp := AnswerAll(st.resp, frames, allow, 0),
                 secondPacket := st.secondPacket || AnyPassword(frames)),
             Front(s), AnyBlocked(frames, allow, 0), true)
  }

  function Minus(a: nat, b: nat): nat {
    if a < b then 0 else a - b
  }

  // ---- parsing responses ----

  // Whether the branch that only cuts frames is taken.
  predicate PassThrough(st: State)
    requires |st.resp.input| > 0
  {
    var first := st.resp.input[0];
    !(st.firstRequest || first == SRV_PASSWORD || first == SRV_ERROR || st.secondPacket)
  }

  // The other branch forwards all frames or, when a frame is unfinished, none; fewer than five
  // bytes after the last frame do not count as one.
  predicate AllOrNothing(s: seq<Byte>) {
    |s| >= 3 && |Leftover(s)| < HEADER
  }

  // Whether frames are cut off the front and forwarded.
  predicate Forwards(st: State)
    requires |st.resp.input| > 0
  {
    PassThrough(st) || AllOrNothing(st.resp.input)
  }

  // The whole frames move to the client's queue.
  function Forward(p: Responses): Responses {
    p.(input := Leftover(p.input), output := p.output + Front(p.input))
  }

  function Heard(st: State): State {
    st.(firstResponse := false, secondPacket := st.secondPacket && !AllOrNothing(st.resp.input))
  }

  function ParseResponse(st: State): State
    requires |st.resp.input| > 0
  {
    if Forwards(st) then Heard(st).(resp := Forward(st.resp)) else Heard(st)
  }

  function ValidateServerResponse(st: State, reply: Send): Outcome
    requires |st.resp.input| > 0
  {
    var parsed := ParseResponse(st);
    if Forwards(st) && |Front(st.resp.input)| > 0 then ProxyWrite(parsed, reply) else Outcome(parsed, true)
  }

  function ValidateClientRequest(st: State, net: Net): Outcome {
    var p := ParseRequest(st, net.allow);
    if !p.ok then Outcome(p.st, false)
    else
      var answered :=
        if p.hasResponse && |p.st.resp.input| > 0 then ValidateServerResponse(p.st, net.reply)
        // the result of this write is not looked at
        else if p.hasResponse && |p.st.resp.output| > 0 then Outcome(ProxyWrite(p.st, net.reply).st, true)
        else Outcome(p.st, true);
      if !answered.ok || |p.request| == 0 then answered
      else BackendWrite(answered.st.(req := Push(answered.st.req, p.request)), net.push)
  }

  function Push(q: Requests, request: seq<Byte>): Requests {
    q.(output := q.output + request)
  }

  // ---- callbacks ----

  function Closing(o: Outcome): State {
    if o.ok then o.st else o.st.(open := false)
  }

  function FromClient(q: Requests, bytes: seq<Byte>): Requests {
    q.(input := q.input + bytes, received := q.received + bytes)
  }

  function FromBackend(p: Responses, bytes: seq<Byte>): Responses {
    p.(input := p.input + bytes, bound := p.bound + [Segment(bytes, false)])
  }

  function ClientReads(st: State, recv: Recv, net: Net): State {
    match recv
    case Hangup => st.(open := false)
    case NoData => st
    case Data(bytes) =>
      if |bytes| == 0 then st else Closing(ValidateClientRequest(st.(req := FromClient(st.req, bytes)), net))
  }

  function BackendReads(st: State, recv: Recv, net: Net): State {
    match recv
    case Hangup => st.(open := false)
    case NoData => st
    case Data(bytes) =>
      if |bytes| == 0 then st else Closing(ValidateServerResponse(st.(resp := FromBackend(st.resp, bytes)), net.reply))
  }

  function Woken(st: State, ev: Event): Outcome {
    if !ev.write then Outcome(st, true)
    else if ev.ClientEvent? then ProxyWrite(st, ev.net.writable)
    else BackendWrite(st, ev.net.writable)
  }

  /** One callback. Nothing happens on a closed connection. */
  function Step(st: State, ev: Event): State {
    if !st.open then st
    else
      var woken := Woken(st, ev);
      if !woken.ok || !ev.read then Closing(woken)
      else if ev.ClientEvent? then ClientReads(woken.st, ev.recv, ev.net)
      else BackendReads(woken.st, ev.recv, ev.net)
  }

  /** No parse of the callback meets a malformed length field. */
  predicate WellFormedEvent(st: State, ev: Event) {
    st.open && ev.read && ev.recv.Data? && |ev.recv.bytes| > 0 ==>
      var woken := Woken(st, ev).st;
      if ev.ClientEvent? then RequestParseOk(woken.(req := FromClient(woken.req, ev.recv.bytes)), ev.net.allow)
      else WellFramed(woken.resp.input + ev.recv.bytes)
  }

  predicate RequestParseOk(st: State, allow: nat -> bool) {
    var s := st.req.input;
    (|s| < HEADER || |s| == PROBE_SIZE || st.firstRequest || WellFramed(s)) &&
    var p := ParseRequest(st, allow);
    p.hasResponse && |p.st.resp.input| > 0 ==> WellFramed(p.st.resp.input)
  }

  function Run(st: State, evs: seq<Event>): State
    decreases |evs|
  {
    if |evs| == 0 then st else Run(Step(st, evs[0]), evs[1..])
  }

  predicate WellFormedRun(st: State, evs: seq<Event>)
    decreases |evs|
  {
    |evs| > 0 ==> WellFormedEvent(st, evs[0]) && WellFormedRun(Step(st, evs[0]), evs[1..])
  }

  // ---- the two streams ----

  // What is left of `r` without the blocks of eight bytes that start at `probes`.
  function Without(r: seq<Byte>, probes: seq<nat>): seq<Byte>
    requires ProbesFit(r, probes)
    decreases |probes|
  {
    if |probes| == 0 then r
    else
      var p := probes[|probes| - 1];
      Without(r[..p], probes[..|probes| - 1]) + r[p + PROBE_SIZE..]
  }

  // The blocks lie in `r`, in order and apart.
  predicate ProbesFit(r: seq<Byte>, probes: seq<nat>)
    decreases |probes|
  {
    |probes| > 0 ==>
      var p := probes[|probes| - 1];
      p + PROBE_SIZE <= |r| && ProbesFit(r[..p], probes[..|probes| - 1])
  }

  // Bytes received after the last dropped block.
  function SinceProbe(q: Requests): int {
    |q.received| - if |q.probes| == 0 then 0 else q.probes[|q.probes| - 1] + PROBE_SIZE
  }

  // What the client sent and the proxy did not drop.
  function Kept(q: Requests): seq<Byte> {
    if ProbesFit(q.received, q.probes) then Without(q.received, q.probes) else []
  }

  function Bytes(segments: seq<Segment>): seq<Byte> {
    if |segments| == 0 then [] else Bytes(segments[..|segments| - 1]) + segments[|segments| - 1].bytes
  }

  // The part of the stream towards the client that the backend sent.
  function BackendBytes(segments: seq<Segment>): seq<Byte> {
    if |segments| == 0 then []
    else
      var last := segments[|segments| - 1];
      BackendBytes(segments[..|segments| - 1]) + (if last.local then [] else last.bytes)
  }

  /** Every byte the client sent, except the dropped blocks, was sent to the backend or waits in
      the output or the input buffer, in that order. */
  predicate RequestsKept(q: Requests) {
    ProbesFit(q.received, q.probes) && |q.input| <= SinceProbe(q) && Kept(q) == q.sent + q.output + q.input
  }

  /** The same towards the client, for the backend's bytes and the local replies together. */
  predicate ResponsesKept(p: Responses) {
    Bytes(p.bound) == p.sent + p.output + p.input
  }

  /** Nothing is lost, duplicated or reordered, in either direction. */
  predicate Conserved(st: State) {
    RequestsKept(st.req) && ResponsesKept(st.resp)
  }

  predicate ClientArmed(p: Responses) {
    p.armed <==> |p.output| > 0
  }

  predicate BackendArmed(q: Requests) {
    q.armed <==> |q.output| > 0
  }

  /** A write event is armed exactly when there is something to write. */
  predicate Armed(st: State) {
    ClientArmed(st.resp) && BackendArmed(st.req)
  }

  /** The backend's bytes that were sent on are whole frames; if all bytes read from it are, none
      of them waits. */
  predicate Aligned(p: Responses) {
    var all := BackendBytes(p.bound);
    var n := |all| - |p.input|;
    0 <= n && p.input == all[n..] && Whole(all[..n]) && (Whole(all) ==> |p.input| == 0)
  }

  /** The frames examined are those of the stream after the startup packet. */
  predicate InStep(st: State) {
    var q := st.req;
    if st.firstRequest then |q.handed| == 0
    else
      q.startup <= |Kept(q)| &&
      q.handed == FramesOf(Kept(q)[q.startup..]) && q.input == Leftover(Kept(q)[q.startup..])
  }
}
