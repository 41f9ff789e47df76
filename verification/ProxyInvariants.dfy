/** What every callback keeps, and so what holds after every run of callbacks. */
module ProxyInvariants {
  import opened Frames
  import opened ProxyMachine

  // ---- the logs ----

  lemma LogGrows(log: seq<Segment>, s: Segment)
    ensures Bytes(log + [s]) == Bytes(log) + s.bytes
    ensures BackendBytes(log + [s]) == BackendBytes(log) + if s.local then [] else s.bytes
  {
    assert (log + [s])[..|log|] == log;
  }

  lemma WithoutGrows(r: seq<Byte>, probes: seq<nat>, bytes: seq<Byte>)
    requires ProbesFit(r, probes)
    ensures ProbesFit(r + bytes, probes) && Without(r + bytes, probes) == Without(r, probes) + bytes
  {
    if |probes| > 0 {
      var p := probes[|probes| - 1];
      DropJoin(r, bytes, p);
      DropJoin(r, bytes, p + PROBE_SIZE);
      Join3(Without(r[..p], probes[..|probes| - 1]), r[p + PROBE_SIZE..], bytes);
    }
  }

  // A new block at the end takes the last eight bytes away.
  lemma WithoutDrops(r: seq<Byte>, probes: seq<nat>)
    requires ProbesFit(r, probes) && PROBE_SIZE <= |r|
    requires |probes| > 0 ==> probes[|probes| - 1] + PROBE_SIZE <= |r| - PROBE_SIZE
    ensures var all := probes + [|r| - PROBE_SIZE];
            ProbesFit(r, all) && Without(r, probes) == Without(r, all) + r[|r| - PROBE_SIZE..]
  {
    var n := |r| - PROBE_SIZE;
    var all := probes + [n];
    assert all[..|all| - 1] == probes && r == r[..n] + r[n..] && r[n + PROBE_SIZE..] == [];
    if |probes| > 0 {
      var p := probes[|probes| - 1];
      assert r[..n][..p] == r[..p];
    }
    WithoutGrows(r[..n], probes, r[n..]);
  }

  lemma TailsAgree(a: seq<Byte>, b: seq<Byte>, c: seq<Byte>, d: seq<Byte>)
    requires a + b == c + d && |b| == |d|
    ensures a == c && b == d
  {
    assert a == (a + b)[..|a|] && c == (c + d)[..|c|];
    assert b == (a + b)[|a|..] && d == (c + d)[|c|..];
  }

  // ---- conservation, from the client ----

  // `pending` has left the input buffer and is not yet in the output buffer.
  predicate RequestsKeptWith(q: Requests, pending: seq<Byte>) {
    ProbesFit(q.received, q.probes) && |q.input| <= SinceProbe(q) &&
    Kept(q) == q.sent + q.output + (pending + q.input)
  }

  lemma MoveOut(sent: seq<Byte>, out: seq<Byte>, rest: seq<Byte>, k: nat)
    requires k <= |out|
    ensures sent + out + rest == (sent + out[..k]) + out[k..] + rest
  {
    assert out == out[..k] + out[k..];
    Join3(sent, out[..k], out[k..]);
  }

  lemma SendRequestsKeeps(q: Requests, r: Send)
    requires RequestsKept(q)
    ensures RequestsKept(SendRequests(q, r)) && BackendArmed(SendRequests(q, r))
  {
    hide Without, ProbesFit;
    MoveOut(q.sent, q.output, q.input, Accepted(q.output, r));
  }

  lemma FromClientKeeps(q: Requests, bytes: seq<Byte>)
    requires RequestsKept(q)
    ensures RequestsKept(FromClient(q, bytes)) && Kept(FromClient(q, bytes)) == Kept(q) + bytes
  {
    WithoutGrows(q.received, q.probes, bytes);
    Join3(q.sent + q.output, q.input, bytes);
  }

  lemma PushKeeps(q: Requests, pending: seq<Byte>)
    requires RequestsKeptWith(q, pending)
    ensures RequestsKept(Push(q, pending)) && (|pending| == 0 ==> RequestsKept(q))
  {
    hide Without, ProbesFit;
    Join3(q.sent, q.output, pending);
    Join3(q.sent + q.output, pending, q.input);
    assert |pending| == 0 ==> pending + q.input == q.input;
  }

  lemma DropProbeKeeps(q: Requests)
    requires RequestsKept(q) && |q.input| == PROBE_SIZE
    ensures RequestsKept(DropProbe(q)) && Kept(q) == Kept(DropProbe(q)) + q.input
  {
    WithoutDrops(q.received, q.probes);
    var d := DropProbe(q);
    TailsAgree(Kept(d), q.received[|q.received| - PROBE_SIZE..], q.sent + q.output, q.input);
    assert q.sent + q.output + [] == q.sent + q.output;
  }

  // The whole buffer, or the frames at its front, become the request.
  lemma TakenKeeps(q: Requests, taken: Requests, request: seq<Byte>)
    requires RequestsKept(q) && q.input == request + taken.input
    requires taken.received == q.received && taken.probes == q.probes
    requires taken.sent == q.sent && taken.output == q.output
    ensures RequestsKeptWith(taken, request) && Kept(taken) == Kept(q)
  {
  }

  // What parsing does to the requests, branch by branch.
  lemma ParseRequestKeeps(st: State, allow: nat -> bool)
    requires RequestsKept(st.req) && ParseRequest(st, allow).ok
    ensures var p := ParseRequest(st, allow); RequestsKeptWith(p.st.req, p.request)
  {
    hide Without, ProbesFit, AnswerAll, AnyBlocked, AnyPassword, Inject, FramesOf, Leftover, Kept;
    hide RequestsKept, RequestsKeptWith;
    var q, s, p := st.req, st.req.input, ParseRequest(st, allow);
    if |s| < HEADER {
      NothingTaken(q);
    } else if |s| == PROBE_SIZE {
      DropProbeKeeps(q);
      NothingTaken(DropProbe(q));
    } else if st.firstRequest {
      if StartupSize(s) < 0 || StartupSize(s) > |s| {
        NothingTaken(q);
      } else {
        TakenKeeps(q, p.st.req, s);
      }
    } else {
      CutParts(s);
      TakenKeeps(q, p.st.req, Front(s));
    }
  }

  lemma NothingTaken(q: Requests)
    requires RequestsKept(q)
    ensures RequestsKeptWith(q, [])
  {
    assert [] + q.input == q.input;
  }

  // ---- conservation, to the client ----

  lemma SendResponsesKeeps(p: Responses, r: Send)
    requires ResponsesKept(p)
    ensures ResponsesKept(SendResponses(p, r)) && ClientArmed(SendResponses(p, r))
  {
    MoveOut(p.sent, p.output, p.input, Accepted(p.output, r));
  }

  lemma FromBackendKeeps(p: Responses, bytes: seq<Byte>)
    requires ResponsesKept(p)
    ensures ResponsesKept(FromBackend(p, bytes))
  {
    LogGrows(p.bound, Segment(bytes, false));
    Join3(p.sent + p.output, p.input, bytes);
  }

  lemma InjectKeeps(p: Responses, reply: seq<Byte>)
    requires ResponsesKept(p)
    ensures ResponsesKept(Inject(p, reply))
  {
    LogGrows(p.bound, Segment(reply, true));
    if |p.input| > 0 {
      Join3(p.sent + p.output, p.input, reply);
    } else {
      Join3(p.sent, p.output, reply);
      assert p.input == [] && forall x: seq<Byte> :: x + p.input == x;
    }
  }

  lemma {:induction false} AnswersKeep(p: Responses, frames: seq<seq<Byte>>, allow: nat -> bool, k: nat)
    requires AllFrames(frames) && ResponsesKept(p)
    ensures ResponsesKept(AnswerAll(p, frames, allow, k))
    decreases |frames|
  {
    if |frames| > 0 {
      InjectKeeps(p, BLOCK_REPLY);
      AnswersKeep(Answer(p, frames[0], allow(k)), frames[1..], allow, k + 1);
    }
  }

  lemma ForwardKeeps(p: Responses)
    requires ResponsesKept(p)
    ensures ResponsesKept(Forward(p))
  {
    CutParts(p.input);
    Join3(p.sent + p.output, Front(p.input), Leftover(p.input));
    Join3(p.sent, p.output, Front(p.input));
  }

  lemma ValidateServerKeeps(st: State, reply: Send)
    requires ResponsesKept(st.resp) && |st.resp.input| > 0
    ensures ResponsesKept(ValidateServerResponse(st, reply).st.resp)
    ensures ValidateServerResponse(st, reply).st.req == st.req
  {
    ForwardKeeps(st.resp);
    SendResponsesKeeps(Forward(st.resp), reply);
  }

  // ---- conservation, step by step ----

  lemma ProxyWriteKeeps(st: State, r: Send)
    requires Conserved(st)
    ensures Conserved(ProxyWrite(st, r).st) && ProxyWrite(st, r).st.req == st.req
  {
    SendResponsesKeeps(st.resp, r);
  }

  lemma {:induction false} BackendWriteKeeps(st: State, r: Send)
    requires Conserved(st)
    ensures Conserved(BackendWrite(st, r).st)
  {
    SendRequestsKeeps(st.req, r);
  }

  lemma ParseAnswersKeep(st: State, allow: nat -> bool)
    requires ResponsesKept(st.resp)
    ensures ResponsesKept(ParseRequest(st, allow).st.resp)
  {
    hide ResponsesKept, Leftover, FramesOf, Kept, Inject, AnswerAll, AnyPassword, AnyBlocked, DropProbe;
    InjectKeeps(st.resp, NO_SSL);
    FramesAreFrames(st.req.input);
    AnswersKeep(st.resp, FramesOf(st.req.input), allow, 0);
  }

  lemma ValidateClientConserves(st: State, net: Net)
    requires Conserved(st) && ValidateClientRequest(st, net).ok
    ensures Conserved(ValidateClientRequest(st, net).st)
  {
    hide ParseRequest, ParseResponse, Forwards, Kept, RequestsKept, RequestsKeptWith;
    hide ResponsesKept, ValidateServerResponse, ProxyWrite, BackendWrite;
    var p := ParseRequest(st, net.allow);
    ParseRequestKeeps(st, net.allow);
    ParseAnswersKeep(st, net.allow);
    var answered := p.st;
    if p.hasResponse && |p.st.resp.input| > 0 {
      ValidateServerKeeps(p.st, net.reply);
      answered := ValidateServerResponse(p.st, net.reply).st;
    } else if p.hasResponse && |p.st.resp.output| > 0 {
      ReplyKeeps(p.st, net.reply);
      answered := ProxyWrite(p.st, net.reply).st;
    }
    PushKeeps(p.st.req, p.request);
    if |p.request| > 0 {
      BackendWriteKeeps(answered.(req := Push(answered.req, p.request)), net.push);
    }
  }

  lemma ReplyKeeps(st: State, r: Send)
    requires ResponsesKept(st.resp)
    ensures ResponsesKept(ProxyWrite(st, r).st.resp) && ProxyWrite(st, r).st.req == st.req
  {
    SendResponsesKeeps(st.resp, r);
  }

  /** Whatever a callback meets, if it leaves the connection open no byte is lost, duplicated or
      reordered. */
  lemma {:induction false} StepConserves(st: State, ev: Event)
    requires Conserved(st) && Step(st, ev).open
    ensures Conserved(Step(st, ev))
  {
    hide RequestsKept, ResponsesKept, ParseRequest, ParseResponse, ValidateClientRequest, ValidateServerResponse,
      ProxyWrite, BackendWrite, FromClient, FromBackend;
    if st.open {
      ProxyWriteKeeps(st, ev.net.writable);
      BackendWriteKeeps(st, ev.net.writable);
      var woken := Woken(st, ev).st;
      assert Conserved(woken);
      if Woken(st, ev).ok && ev.read && ev.recv.Data? && |ev.recv.bytes| > 0 {
        var bytes := ev.recv.bytes;
        if ev.ClientEvent? {
          FromClientKeeps(woken.req, bytes);
          ValidateClientConserves(woken.(req := FromClient(woken.req, bytes)), ev.net);
        } else {
          BackendReadKeeps(woken, bytes, ev.net.reply);
        }
      }
    }
  }

  lemma BackendReadKeeps(st: State, bytes: seq<Byte>, reply: Send)
    requires Conserved(st) && |bytes| > 0
    ensures Conserved(ValidateServerResponse(st.(resp := FromBackend(st.resp, bytes)), reply).st)
  {
    hide RequestsKept, ResponsesKept, ValidateServerResponse;
    FromBackendKeeps(st.resp, bytes);
    ValidateServerKeeps(st.(resp := FromBackend(st.resp, bytes)), reply);
  }
}
