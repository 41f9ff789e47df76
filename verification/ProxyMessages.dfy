/** The proxy in terms of the messages on the wire: what is examined, what the startup packet does,
    which responses wait, and what a write does. */
module ProxyMessages {
  import opened Frames
  import opened Messages
  import opened ProxyMachine
  import opened ProxyRuns

  /** In a run in which no callback had eight bytes to parse, if what the client sent after its
      startup packet is messages and the start of another, exactly those messages were examined,
      whole and in order, and the start is held back. */
  lemma {:induction false} MessagesExamined(evs: seq<Event>, ms: seq<Message>, rest: seq<Byte>)
    requires WellFormedRun(Initial(), evs) && Run(Initial(), evs).open && !SeesEight(Initial(), evs)
    requires AllSendable(ms) && Unfinished(rest)
    requires var q := Run(Initial(), evs).req;
             !Run(Initial(), evs).firstRequest && q.startup <= |q.received| &&
             q.received[q.startup..] == Stream(ms) + rest
    ensures var q := Run(Initial(), evs).req; q.handed == Wires(ms) && q.input == rest
  {
    hide Run, WellFormedRun, LosesReply, SeesEight, Unfinished;
    EveryRun(evs);
    RunDrops(Initial(), evs);
    CutMessages(ms, rest);
  }

  /** The startup packet: four bytes of length and the rest. Under five bytes and an unfinished
      packet wait, a declared length under thirteen closes the connection, and any other is passed
      on with all that came with it. */
  lemma {:induction false} StartupDecided(st: State, n: nat, body: seq<Byte>, allow: nat -> bool)
    requires st.firstRequest && st.req.input == Encoded(n, 4) + body && n < 0x8000_0000 && |st.req.input| != 8
    ensures var p := ParseRequest(st, allow);
            if |st.req.input| < 5 || n > |st.req.input| then p.ok && p.request == [] && p.st == st
            else if n < 13 then !p.ok
            else p.ok && p.request == st.req.input && p.st.req.input == [] && !p.st.firstRequest
  {
    hide Kept;
    ReadBack(n);
    var e := Encoded(n, 4);
    assert |st.req.input| >= 4 && forall i :: 0 <= i < 4 ==> st.req.input[i] == e[i];
  }

  /** Responses: messages and the start of another. During the startup exchange, for an
      authentication or an error message in front, and after a password, the whole waits while five
      bytes or more of another message have come, or less than three bytes in all; a wait after a
      password ends otherwise. In all other cases the messages go on and the start is held back. */
  lemma {:induction false} ResponsesDecided(st: State, ms: seq<Message>, rest: seq<Byte>)
    requires st.resp.input == Stream(ms) + rest && AllSendable(ms) && Unfinished(rest) && |st.resp.input| > 0
    ensures var p, first := ParseResponse(st), st.resp.input[0];
            var inspected := st.firstRequest || first == 82 || first == 69 || st.secondPacket;
            var short := |rest| < 5 && |st.resp.input| >= 3;
            (if inspected && !short then p.resp == st.resp
             else p.resp == st.resp.(input := rest, output := st.resp.output + Stream(ms))) &&
            !p.firstResponse && p.secondPacket == (st.secondPacket && !short)
  {
    hide Stream, Unfinished, Leftover, FramesOf, WellFramed, Front;
    CutMessages(ms, rest);
  }

  /** A password message, of type 112, puts the connection into the state that waits for its answer,
      unless it has sixteen bytes, eleven of them payload. */
  lemma {:induction false} PasswordsNoted(st: State, allow: nat -> bool, ms: seq<Message>, rest: seq<Byte>)
    requires !st.firstRequest && st.req.input == Stream(ms) + rest && AllSendable(ms) && Unfinished(rest)
    requires |st.req.input| >= 5 && |st.req.input| != 8
    ensures ParseRequest(st, allow).st.secondPacket <==>
            st.secondPacket ||
            exists i :: 0 <= i < |ms| && ms[i].kind == 112 && |ms[i].payload| != 11
    ensures ParseRequest(st, allow).st.firstResponse == st.firstResponse
  {
    hide Stream, Unfinished, Wire, AnswerAll, AnyBlocked, Kept, Inject;
    CutMessages(ms, rest);
    FramesAreFrames(st.req.input);
    WiresNoted(ms);
  }

  lemma {:induction false} WiresNoted(ms: seq<Message>)
    requires AllSendable(ms)
    ensures AllFrames(Wires(ms))
    ensures AnyPassword(Wires(ms)) <==>
            exists i :: 0 <= i < |ms| && ms[i].kind == 112 && |ms[i].payload| != 11
    decreases |ms|
  {
    forall i | 0 <= i < |ms|
      ensures |Wire(ms[i])| == |ms[i].payload| + 5 && Wire(ms[i])[0] == ms[i].kind
    {
      WireShape(ms[i], []);
    }
    hide Wire;
    if |ms| > 0 {
      var tail := ms[1..];
      assert Wires(ms) == [Wire(ms[0])] + Wires(tail);
      assert Wires(ms)[1..] == Wires(tail);
      assert forall i :: 0 <= i < |tail| ==> tail[i] == ms[i + 1];
      WiresNoted(tail);
    }
  }

  // ---- writes ----

  // What a socket takes of a queue; nothing when it would block.
  function TakenOf(queue: seq<Byte>, r: Send): nat {
    match r
    case Sent(n) => if n <= |queue| then n else |queue|
    case WouldBlock => 0
    case Failed => 0
  }

  /** A callback that only writes sends the front of its queue, as much as the socket takes, and
      nothing else changes but the event. */
  lemma {:induction false} WritesSend(st: State, ev: Event)
    requires st.open && ev.write && !ev.read && !ev.net.writable.Failed?
    ensures ev.ClientEvent? ==>
              var p, out := st.resp, st.resp.output;
              var k := TakenOf(out, ev.net.writable);
              Step(st, ev) == st.(resp := p.(output := out[k..], sent := p.sent + out[..k], armed := |out| > k))
    ensures ev.BackendEvent? ==>
              var q, out := st.req, st.req.output;
              var k := TakenOf(out, ev.net.writable);
              Step(st, ev) == st.(req := q.(output := out[k..], sent := q.sent + out[..k], armed := |out| > k))
  {
    assert st.resp.sent + [] == st.resp.sent && st.req.sent + [] == st.req.sent;
  }

  /** A failing write closes the connection, except that to the backend it is put off until the
      backend has answered once. */
  lemma {:induction false} FailedWrites(st: State, ev: Event)
    requires st.open && ev.write && !ev.read && ev.net.writable.Failed?
    ensures Step(st, ev).open <==>
            if ev.ClientEvent? then |st.resp.output| == 0 else |st.req.output| == 0 || st.firstResponse
    ensures ev.BackendEvent? && |st.req.output| > 0 && st.firstResponse ==>
              Step(st, ev) == st.(req := st.req.(armed := true))
  {
  }
}
