/** Which messages the proxy answers itself, in bytes and verdicts. */
module Replies {
  import opened Frames
  import opened Messages
  import opened ProxyMachine
  import opened ProxyInvariants
  import opened ProxyRuns

  // An empty row description, the end of a SELECT, and ready for query.
  const REFUSAL: seq<Message> :=
    [Message(0x54, [0, 0]), Message(0x43, [83, 69, 76, 69, 67, 84, 0]), Message(0x5A, [73])]

  // A short message on the wire.
  lemma ShortWire(kind: Byte, payload: seq<Byte>)
    requires |payload| < 200
    ensures Wire(Message(kind, payload)) == [kind, 0, 0, 0, |payload| + 4] + payload
  {
    var n := |payload| + 4;
    EncodedFour(n);
    hide Encoded;
    assert n / 256 == 0 && n % 256 == n;
    assert [kind] + [0, 0, 0, n] == [kind, 0, 0, 0, n];
  }

  lemma StreamOfThree(a: Message, b: Message, c: Message)
    ensures Stream([a, b, c]) == Wire(a) + (Wire(b) + Wire(c))
  {
    hide Wire;
    assert [a, b, c][1..] == [b, c] && [b, c][1..] == [c] && [c][1..] == [];
    assert Stream([c]) == Wire(c) + [] == Wire(c);
    assert Stream([b, c]) == Wire(b) + Stream([c]);
  }

  lemma RefusalIsSent()
    ensures Stream(REFUSAL) == BLOCK_REPLY
  {
    hide Wire, Stream;
    ShortWire(0x54, [0, 0]);
    ShortWire(0x43, [83, 69, 76, 69, 67, 84, 0]);
    ShortWire(0x5A, [73]);
    StreamOfThree(REFUSAL[0], REFUSAL[1], REFUSAL[2]);
  }

  /** A query message, or a message that prepares a statement, its second byte being zero; but none
      of sixteen bytes. */
  predicate AsksQuery(frame: seq<Byte>)
    requires |frame| >= 5
  {
    |frame| != 16 && (frame[0] == 0x51 || (frame[0] == 0x50 && frame[1] == 0))
  }

  /** A query of ten characters and its terminator makes sixteen bytes, and is not asked about. */
  lemma SixteenBytesPass(text: seq<Byte>, allow: nat -> bool)
    requires |text| == 10
    ensures AllFrames([Wire(Message(0x51, text + [0]))])
    ensures Refusals([Wire(Message(0x51, text + [0]))], allow, 0) == []
  {
    ShortWire(0x51, text + [0]);
    hide Wire;
    assert [Wire(Message(0x51, text + [0]))][1..] == [];
  }

  // One refusal for each query the verdict is against, the verdicts taken from number `k` on.
  function Refusals(frames: seq<seq<Byte>>, allow: nat -> bool, k: nat): seq<seq<Byte>>
    requires AllFrames(frames)
    decreases |frames|
  {
    if |frames| == 0 then []
    else
      (if AsksQuery(frames[0]) && !allow(k) then [Stream(REFUSAL)] else []) + Refusals(frames[1..], allow, k + 1)
  }

  // The local replies in the stream towards the client, in order.
  function Locals(bound: seq<Segment>): seq<seq<Byte>> {
    if |bound| == 0 then []
    else
      var last := bound[|bound| - 1];
      Locals(bound[..|bound| - 1]) + if last.local then [last.bytes] else []
  }

  lemma LocalsGrow(bound: seq<Segment>, s: Segment)
    ensures Locals(bound + [s]) == Locals(bound) + if s.local then [s.bytes] else []
  {
    assert (bound + [s])[..|bound|] == bound;
  }

  lemma RefusedExactly(frame: seq<Byte>, verdict: bool)
    requires |frame| >= HEADER
    ensures Blocked(frame, verdict) <==> AsksQuery(frame) && !verdict
  {
  }

  lemma {:induction false} AnswersReply(p: Responses, frames: seq<seq<Byte>>, allow: nat -> bool, k: nat)
    requires AllFrames(frames)
    ensures Locals(AnswerAll(p, frames, allow, k).bound) == Locals(p.bound) + Refusals(frames, allow, k)
    decreases |frames|
  {
    hide Blocked, Locals, AsksQuery, Stream;
    if |frames| > 0 {
      RefusedExactly(frames[0], allow(k));
      RefusalIsSent();
      LocalsGrow(p.bound, Segment(BLOCK_REPLY, true));
      var q := Answer(p, frames[0], allow(k));
      var first := if AsksQuery(frames[0]) && !allow(k) then [Stream(REFUSAL)] else [];
      assert Locals(q.bound) == Locals(p.bound) + first;
      AnswersReply(q, frames[1..], allow, k + 1);
      Joined(Locals(p.bound), first, Refusals(frames[1..], allow, k + 1));
    } else {
      assert Locals(p.bound) + [] == Locals(p.bound);
    }
  }

  lemma Joined(a: seq<seq<Byte>>, b: seq<seq<Byte>>, c: seq<seq<Byte>>)
    ensures (a + b) + c == a + (b + c)
  {
  }

  // The frames a callback examines.
  function NewFrames(a: State, b: State): seq<seq<Byte>> {
    if |a.req.handed| <= |b.req.handed| then b.req.handed[|a.req.handed|..] else []
  }

  // Frames are added behind those examined before.
  predicate HandsOver(a: State, b: State) {
    |a.req.handed| <= |b.req.handed| && b.req.handed[..|a.req.handed|] == a.req.handed && AllFrames(NewFrames(a, b))
  }

  lemma ParseReplies(st: State, allow: nat -> bool)
    ensures var p := ParseRequest(st, allow).st;
            HandsOver(st, p) &&
            Locals(p.resp.bound) ==
            Locals(st.resp.bound) +
            if |st.req.input| == 8 then [[78]] else Refusals(NewFrames(st, p), allow, 0)
  {
    hide AnyBlocked, AnyPassword, AnswerAll, FramesOf, Leftover, Kept, Locals;
    var frames := FramesOf(st.req.input);
    FramesAreFrames(st.req.input);
    AnswersReply(st.resp, frames, allow, 0);
    LocalsGrow(st.resp.bound, Segment(NO_SSL, true));
    assert (st.req.handed + frames)[|st.req.handed|..] == frames;
    assert (st.req.handed + frames)[..|st.req.handed|] == st.req.handed;
    assert Locals(st.resp.bound) + [] == Locals(st.resp.bound);
    assert st.req.handed[|st.req.handed|..] == [] && Refusals([], allow, 0) == [];
  }

  // The rest of a callback adds nothing to either history.
  predicate SameStreams(a: State, b: State) {
    a.req.handed == b.req.handed && a.resp.bound == b.resp.bound
  }

  lemma ServerAddsNothing(st: State, reply: Send)
    requires |st.resp.input| > 0
    ensures SameStreams(st, ValidateServerResponse(st, reply).st)
  {
    hide Forwards, AllOrNothing, Leftover, Front, Accepted;
  }

  lemma ClientAddsNothing(st: State, net: Net)
    ensures SameStreams(ParseRequest(st, net.allow).st, ValidateClientRequest(st, net).st)
  {
    hide ParseRequest, ValidateServerResponse;
    var p := ParseRequest(st, net.allow);
    if |p.st.resp.input| > 0 {
      ServerAddsNothing(p.st, net.reply);
    }
  }

  // The replies a callback gives.
  function RepliesOf(st: State, ev: Event): seq<seq<Byte>> {
    var frames := NewFrames(st, Step(st, ev));
    if ReadsEight(st, ev) then [[78]]
    else if ev.ClientEvent? && AllFrames(frames) then Refusals(frames, ev.net.allow, 0)
    else []
  }

  /** What one callback answers itself: eight bytes with one byte; or else each query it examines
      and the verdict is against with one refusal, in order; and nothing more. */
  lemma {:induction false} StepReplies(st: State, ev: Event)
    ensures HandsOver(st, Step(st, ev))
    ensures Locals(Step(st, ev).resp.bound) == Locals(st.resp.bound) + RepliesOf(st, ev)
  {
    hide ParseRequest, ValidateClientRequest, ValidateServerResponse, Locals, Refusals;
    var woken := Woken(st, ev).st;
    NothingNew(st, ev.net.allow);
    WokenSame(st, ev);
    if st.open && Woken(st, ev).ok && ev.read && ev.recv.Data? && |ev.recv.bytes| > 0 {
      if ev.ClientEvent? {
        var read := woken.(req := FromClient(woken.req, ev.recv.bytes));
        ParseReplies(read, ev.net.allow);
        ClientAddsNothing(read, ev.net);
      } else {
        var read := woken.(resp := FromBackend(woken.resp, ev.recv.bytes));
        LocalsGrow(woken.resp.bound, Segment(ev.recv.bytes, false));
        ServerAddsNothing(read, ev.net.reply);
      }
    }
  }

  lemma WokenSame(st: State, ev: Event)
    ensures SameStreams(st, Woken(st, ev).st)
    ensures ev.ClientEvent? ==> Woken(st, ev).st.req == st.req
  {
  }

  lemma NothingNew(st: State, allow: nat -> bool)
    ensures NewFrames(st, st) == [] && Refusals([], allow, 0) == [] && HandsOver(st, st)
    ensures Locals(st.resp.bound) + [] == Locals(st.resp.bound)
  {
  }

  // ---- runs ----

  function RunReplies(st: State, evs: seq<Event>): seq<seq<Byte>>
    decreases |evs|
  {
    if |evs| == 0 then [] else RepliesOf(st, evs[0]) + RunReplies(Step(st, evs[0]), evs[1..])
  }

  /** Over every run the client gets exactly these replies, in order, besides the backend's bytes. */
  lemma {:induction false} RunGivesReplies(st: State, evs: seq<Event>)
    ensures Locals(Run(st, evs).resp.bound) == Locals(st.resp.bound) + RunReplies(st, evs)
    decreases |evs|
  {
    hide Step, Locals, RepliesOf;
    if |evs| > 0 {
      var next := Step(st, evs[0]);
      StepReplies(st, evs[0]);
      RunGivesReplies(next, evs[1..]);
      Joined(Locals(st.resp.bound), RepliesOf(st, evs[0]), RunReplies(next, evs[1..]));
    } else {
      assert Locals(st.resp.bound) + [] == Locals(st.resp.bound);
    }
  }

  ghost predicate AllAllowed(evs: seq<Event>) {
    forall i, k: nat :: 0 <= i < |evs| ==> evs[i].net.allow(k)
  }

  // How many callbacks have eight bytes to parse.
  function Eights(st: State, evs: seq<Event>): nat
    decreases |evs|
  {
    if |evs| == 0 then 0 else (if ReadsEight(st, evs[0]) then 1 else 0) + Eights(Step(st, evs[0]), evs[1..])
  }

  lemma {:induction false} NoRefusals(frames: seq<seq<Byte>>, allow: nat -> bool, k: nat)
    requires AllFrames(frames) && forall k :: allow(k)
    ensures Refusals(frames, allow, k) == []
    decreases |frames|
  {
    if |frames| > 0 {
      NoRefusals(frames[1..], allow, k + 1);
    }
  }

  /** If every verdict is favourable the proxy answers nothing but eight-byte blocks, each once. */
  lemma {:induction false} AllowedGetsNoReply(st: State, evs: seq<Event>)
    requires AllAllowed(evs)
    ensures RunReplies(st, evs) == seq(Eights(st, evs), _ => [78])
    decreases |evs|
  {
    hide Step, ReadsEight, Refusals;
    if |evs| > 0 {
      var frames := NewFrames(st, Step(st, evs[0]));
      if AllFrames(frames) {
        NoRefusals(frames, evs[0].net.allow, 0);
      }
      AllowedGetsNoReply(Step(st, evs[0]), evs[1..]);
    }
  }

  /** In every run from the start, with every verdict favourable. */
  lemma {:induction false} AllowedRuns(evs: seq<Event>)
    requires AllAllowed(evs)
    ensures Locals(Run(Initial(), evs).resp.bound) == seq(Eights(Initial(), evs), _ => [78])
  {
    RunGivesReplies(Initial(), evs);
    AllowedGetsNoReply(Initial(), evs);
    hide Run, RunReplies, Eights;
    assert Locals([]) == [];
  }
}
