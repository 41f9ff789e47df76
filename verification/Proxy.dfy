/** The proxy connection itself: callbacks that append to and chop its buffers, arm and disarm its
    write events, and parse in place. Each is proved to do what the state machine says. */
module Proxy {
  import opened Frames
  import opened ProxyMachine

  class Buffer {
    var bytes: seq<Byte>

    constructor ()
      ensures bytes == []
    {
      bytes := [];
    }

    method Append(data: seq<Byte>)
      modifies this
      ensures bytes == old(bytes) + data
    {
      if |data| <= 0 {
        return;
      }
      bytes := bytes + data;
    }

    // Removes bytes at the beginning.
    method ChopBack(size: int)
      modifies this
      ensures bytes == if size <= 0 then old(bytes)
                       else old(bytes)[if size < |old(bytes)| then size else |old(bytes)|..]
    {
      if size <= 0 {
        return;
      }
      bytes := bytes[if size < |bytes| then size else |bytes|..];
    }

    // Moves bytes from the beginning into the result.
    method Pop(size: nat) returns (res: seq<Byte>)
      modifies this
      ensures var k := if size < |old(bytes)| then size else |old(bytes)|;
              res == old(bytes)[..k] && bytes == old(bytes)[k..]
    {
      var k := if size < |bytes| then size else |bytes|;
      res := bytes[..k];
      bytes := bytes[k..];
    }
  }

  // One `send`: whether the socket is still usable and how many bytes it took.
  method SocketWrite(data: seq<Byte>, r: Send) returns (ok: bool, size: nat)
    ensures ok == !r.Failed? && size == Accepted(data, r)
  {
    match r
    case Failed => ok, size := false, 0;
    case WouldBlock => ok, size := true, 0;
    case Sent(n) => ok, size := true, if n < |data| then n else |data|;
  }

  class Connection {
    const requestIn: Buffer
    const requestOut: Buffer
    const responseIn: Buffer
    const responseOut: Buffer
    var proxyArmed: bool
    var backendArmed: bool
    var firstRequest: bool
    var firstResponse: bool
    var secondPacket: bool
    var open: bool

    ghost var received: seq<Byte>
    ghost var probes: seq<nat>
    ghost var sentBackend: seq<Byte>
    ghost var handed: seq<seq<Byte>>
    ghost var startup: nat
    ghost var bound: seq<Segment>
    ghost var sentClient: seq<Byte>
    ghost var split: bool

    ghost predicate Valid() {
      requestIn != requestOut && requestIn != responseIn && requestIn != responseOut &&
      requestOut != responseIn && requestOut != responseOut && responseIn != responseOut
    }

    ghost function Parts(): set<object> {
      {this, requestIn, requestOut, responseIn, responseOut}
    }

    ghost function Req(): Requests
      reads Parts()
    {
      Requests(requestIn.bytes, requestOut.bytes, backendArmed, received, probes, sentBackend, handed, startup)
    }

    ghost function Resp(): Responses
      reads Parts()
    {
      Responses(responseIn.bytes, responseOut.bytes, proxyArmed, bound, sentClient, split)
    }

    ghost function Abs(): State
      reads Parts()
    {
      State(Req(), Resp(), firstRequest, firstResponse, secondPacket, open)
    }

    constructor ()
      ensures Valid() && fresh(Parts()) && Abs() == Initial()
    {
      requestIn := new Buffer();
      requestOut := new Buffer();
      responseIn := new Buffer();
      responseOut := new Buffer();
      proxyArmed, backendArmed := false, false;
      firstRequest, firstResponse, secondPacket, open := true, true, false, true;
      received, probes, sentBackend, handed, startup := [], [], [], [], 0;
      bound, sentClient, split := [], [], false;
    }

    method EnableEventWriter(proxy: bool)
      modifies this`proxyArmed, this`backendArmed
      ensures proxyArmed == (proxy || old(proxyArmed)) && backendArmed == (!proxy || old(backendArmed))
    {
      if proxy {
        proxyArmed := true;
      } else {
        backendArmed := true;
      }
    }

    method DisableEventWriter(proxy: bool)
      modifies this`proxyArmed, this`backendArmed
      ensures proxyArmed == (!proxy && old(proxyArmed)) && backendArmed == (proxy && old(backendArmed))
    {
      if proxy {
        proxyArmed := false;
      } else {
        backendArmed := false;
      }
    }

    method ProxyWriteCb(r: Send) returns (ok: bool)
      requires Valid()
      modifies Parts()
      ensures Outcome(Abs(), ok) == ProxyWrite(old(Abs()), r)
    {
      var len := |responseOut.bytes|;
      if len == 0 {
        DisableEventWriter(true);
        return true;
      }
      var sent, size := SocketWrite(responseOut.bytes, r);
      if sent {
        ghost var out := responseOut.bytes;
        responseOut.ChopBack(size);
        sentClient := sentClient + out[..size];
      } else {
        return false;
      }
      if |responseOut.bytes| == 0 {
        DisableEventWriter(true);
      } else {
        EnableEventWriter(true);
      }
      ok := true;
    }

    method BackendWriteCb(r: Send) returns (ok: bool)
      requires Valid()
      modifies Parts()
      ensures Outcome(Abs(), ok) == BackendWrite(old(Abs()), r)
    {
      var len := |requestOut.bytes|;
      if len == 0 {
        DisableEventWriter(false);
        return true;
      }
      var sent, size := SocketWrite(requestOut.bytes, r);
      if sent {
        ghost var out := requestOut.bytes;
        requestOut.ChopBack(size);
        sentBackend := sentBackend + out[..size];
      } else {
        if firstResponse {
          EnableEventWriter(false);
          return true;
        }
        return false;
      }
      if |requestOut.bytes| == 0 {
        DisableEventWriter(false);
      } else {
        EnableEventWriter(false);
      }
      ok := true;
    }

    // A local reply is pushed to the response parsing queue or to the client.
    method PushReply(reply: seq<Byte>)
      requires Valid() && |reply| > 0
      modifies Parts()
      ensures Abs() == old(Abs()).(resp := Inject(old(Resp()), reply))
    {
      bound := bound + [Segment(reply, true)];
      if |responseIn.bytes| != 0 {
        responseIn.Append(reply);
        split := true;
      } else {
        responseOut.Append(reply);
      }
    }

    // `parse_request` on one frame; true when the query check blocked it.
    method ExamineFrame(frame: seq<Byte>, verdict: bool) returns (blocked: bool)
      requires Valid() && |frame| >= HEADER
      modifies Parts()
      ensures blocked == Blocked(frame, verdict)
      ensures Abs() == old(Abs()).(req := old(Req()).(handed := old(handed) + [frame]),
                                   resp := Answer(old(Resp()), frame, verdict),
                                   secondPacket := old(secondPacket) || IsPassword(frame))
    {
      handed := handed + [frame];
      if |frame| == 16 && frame[..8] != CANCEL {
        return false;
      }
      if frame[0] == PASSWORD {
        secondPacket := true;
        return false;
      }
      if frame[0] == QUERY || (frame[0] == PARSE && frame[1] == 0) {
        if !verdict {
          PushReply(BLOCK_REPLY);
          return true;
        }
      }
      blocked := false;
    }

    method ParseRequestBuffer(allow: nat -> bool) returns (request: seq<Byte>, hasResponse: bool, ok: bool)
      requires Valid()
      requires |requestIn.bytes| < HEADER || |requestIn.bytes| == PROBE_SIZE || firstRequest ||
               WellFramed(requestIn.bytes)
      modifies Parts()
      ensures Parsed(Abs(), request, hasResponse, ok) == ParseRequest(old(Abs()), allow)
    {
      request, hasResponse, ok := [], false, true;
      var data := requestIn.bytes;
      var fullSize := |data|;
      if fullSize < 5 {
        return;
      }
      if fullSize == 8 {
        PushReply(NO_SSL);
        hasResponse := true;
        probes := probes + [Minus(|received|, PROBE_SIZE)];
        request := requestIn.Pop(fullSize);
        request := [];
        return;
      }
      if firstRequest {
        var requestSize := Be32(data[0], data[1], data[2], data[3]);
        if requestSize < 0 || requestSize > fullSize {
          return;
        }
        if requestSize < STARTUP_MIN {
          ok := false;
          return;
        }
        firstRequest := false;
        startup := |Kept(Req())|;
        request := requestIn.Pop(fullSize);
        return;
      }
      var start;
      start, hasResponse := ExamineFrames(allow);
      EmptyFrames(Resp(), allow, 0);
      assert handed + [] == handed;
      request := requestIn.Pop(start);
      LeftoverIsSuffix(data);
    }

    // From state `was`, with the frames `all` in the buffer, those before `todo` are examined.
    ghost predicate Examined(was: State, all: seq<seq<Byte>>, todo: seq<seq<Byte>>, allow: nat -> bool, k: nat,
                             hasResponse: bool)
      requires AllFrames(all) && AllFrames(todo)
      reads Parts()
    {
      Abs() == was.(req := was.req.(handed := handed), resp := Resp(), secondPacket := secondPacket) &&
      handed + todo == was.req.handed + all &&
      AnswerAll(Resp(), todo, allow, k) == AnswerAll(was.resp, all, allow, 0) &&
      (hasResponse || AnyBlocked(todo, allow, k)) == AnyBlocked(all, allow, 0) &&
      (secondPacket || AnyPassword(todo)) == (was.secondPacket || AnyPassword(all))
    }

    lemma FirstExamined(all: seq<seq<Byte>>, allow: nat -> bool)
      requires AllFrames(all)
      ensures Examined(Abs(), all, all, allow, 0, false)
    {
    }

    method ExamineNext(ghost was: State, ghost all: seq<seq<Byte>>, ghost todo: seq<seq<Byte>>, allow: nat -> bool,
                       k: nat, hasResponse: bool, frame: seq<Byte>)
      returns (blocked: bool)
      requires Valid() && AllFrames(all) && AllFrames(todo) && |todo| > 0 && frame == todo[0]
      requires Examined(was, all, todo, allow, k, hasResponse)
      modifies Parts()
      ensures requestIn.bytes == old(requestIn.bytes)
      ensures Examined(was, all, todo[1..], allow, k + 1, hasResponse || blocked)
    {
      hide Answer, Blocked, IsPassword, Inject;
      JoinFrame(handed, todo);
      blocked := ExamineFrame(frame, allow(k));
      assert Req().input == old(Req()).input;
    }

    // The loop over the frames in the buffer; returns where the first unfinished one starts.
    method ExamineFrames(allow: nat -> bool) returns (start: nat, hasResponse: bool)
      requires Valid() && |requestIn.bytes| >= HEADER && WellFramed(requestIn.bytes)
      modifies Parts()
      ensures requestIn.bytes == old(requestIn.bytes)
      ensures start == |requestIn.bytes| - |Leftover(requestIn.bytes)|
      ensures AllFrames(FramesOf(requestIn.bytes))
      ensures Examined(old(Abs()), FramesOf(requestIn.bytes), [], allow, 0, hasResponse)
    {
      hide Answer, AnswerAll, AnyBlocked, AnyPassword, WellFramed, Leftover, FramesOf, Examined;
      var data := requestIn.bytes;
      var fullSize := |data|;
      start, hasResponse := 0, false;
      var k: nat := 0;
      var requestSize: int := Be32(data[1], data[2], data[3], data[4]) + 1;
      ghost var all := FramesOf(data);
      ghost var todo := all;
      FramesAreFrames(data);
      assert data[0..] == data;
      FirstExamined(all, allow);
      while start + requestSize <= fullSize
        invariant requestIn.bytes == data && Valid()
        invariant start + HEADER <= fullSize && WellFramed(data[start..]) && requestSize == FrameSize(data[start..])
        invariant todo == FramesOf(data[start..]) && AllFrames(todo) && Leftover(data[start..]) == Leftover(data)
        invariant Examined(old(Abs()), all, todo, allow, k, hasResponse)
        decreases fullSize - start
      {
        NextFrame(data, start);
        var blocked := ExamineNext(old(Abs()), all, todo, allow, k, hasResponse, data[start..start + requestSize]);
        hasResponse := hasResponse || blocked;
        start := start + requestSize;
        k := k + 1;
        todo := todo[1..];
        if start == fullSize {
          break;
        }
        if start + 5 > fullSize {
          break;
        }
        requestSize := Be32(data[start + 1], data[start + 2], data[start + 3], data[start + 4]) + 1;
      }
      NoMoreFrames(data, start);
      ExaminedAll(old(Abs()), all, allow, k, hasResponse);
    }

    lemma ExaminedAll(was: State, all: seq<seq<Byte>>, allow: nat -> bool, k: nat, hasResponse: bool)
      requires AllFrames(all) && Examined(was, all, [], allow, k, hasResponse)
      ensures Examined(was, all, [], allow, 0, hasResponse)
    {
    }

    // Returns the bytes to forward.
    method ParseResponseBuffer() returns (response: seq<Byte>)
      requires Valid() && |responseIn.bytes| > 0 && WellFramed(responseIn.bytes)
      modifies Parts()
      ensures response == Response(old(Abs()))
      ensures responseIn.bytes ==
              if Forwards(old(Abs())) then Leftover(old(responseIn.bytes)) else old(responseIn.bytes)
      ensures Abs() == Heard(old(Abs())).(resp := old(Resp()).(input := responseIn.bytes))
    {
      hide WellFramed, Leftover, FramesOf, Front;
      var first := responseIn.bytes[0];
      firstResponse := false;
      if !(firstRequest || first == SRV_PASSWORD || first == SRV_ERROR || secondPacket) {
        response := PassFrames();
      } else {
        response := InspectFrames();
      }
    }

    // Forwards all whole frames.
    method PassFrames() returns (response: seq<Byte>)
      requires Valid() && WellFramed(responseIn.bytes)
      modifies responseIn
      ensures response == Front(old(responseIn.bytes)) && responseIn.bytes == Leftover(old(responseIn.bytes))
    {
      hide WellFramed, Leftover, FramesOf;
      var data := responseIn.bytes;
      CutAt(data);
      if |data| < 5 {
        NoMoreFrames(data, 0);
        return [];
      }
      var start := CutFrames(data);
      response := responseIn.Pop(start);
    }

    // Forwards all whole frames if no other begins after them, and ends the wait for a password.
    method InspectFrames() returns (response: seq<Byte>)
      requires Valid() && WellFramed(responseIn.bytes)
      modifies responseIn, this`secondPacket
      ensures var s, all := old(responseIn.bytes), AllOrNothing(old(responseIn.bytes));
              response == (if all then Front(s) else []) && responseIn.bytes == (if all then Leftover(s) else s) &&
              secondPacket == (old(secondPacket) && !all)
    {
      hide WellFramed, Leftover, FramesOf;
      var data := responseIn.bytes;
      CutAt(data);
      var ok, used := WalkFrames(data);
      if !ok {
        return [];
      }
      secondPacket := false;
      response := responseIn.Pop(used);
    }

    method ValidateServer(reply: Send) returns (ok: bool)
      requires Valid() && |responseIn.bytes| > 0 && WellFramed(responseIn.bytes)
      modifies Parts()
      ensures Outcome(Abs(), ok) == ValidateServerResponse(old(Abs()), reply)
    {
      hide WellFramed, Leftover, FramesOf, Forwards, Heard;
      ghost var was := Abs();
      var response := ParseResponseBuffer();
      ForwardOne(was);
      if |response| == 0 {
        return true;
      }
      responseOut.Append(response);
      ok := ProxyWriteCb(reply);
    }

    method ValidateClient(net: Net) returns (ok: bool)
      requires Valid() && RequestParseOk(Abs(), net.allow)
      modifies Parts()
      ensures Outcome(Abs(), ok) == ValidateClientRequest(old(Abs()), net)
    {
      hide WellFramed, ValidateServerResponse, ProxyWrite, BackendWrite;
      var request, hasResponse, parsed := ParseRequestBuffer(net.allow);
      if !parsed {
        return false;
      }
      if hasResponse {
        // a reply waits to be parsed, or else to be sent
        if |responseIn.bytes| != 0 {
          var valid := ValidateServer(net.reply);
          if !valid {
            return false;
          }
        } else if |responseOut.bytes| != 0 {
          var _ := ProxyWriteCb(net.reply);
        }
      }
      if |request| <= 0 {
        return true;
      }
      requestOut.Append(request);
      ok := BackendWriteCb(net.push);
    }

    method Close()
      modifies this`open
      ensures !open
    {
      open := false;
    }

    /** The client's socket is readable or writable. */
    method ProxyCb(write: bool, read: bool, recv: Recv, net: Net)
      requires Valid() && open && WellFormedEvent(Abs(), ClientEvent(write, read, recv, net))
      modifies Parts()
      ensures Abs() == Step(old(Abs()), ClientEvent(write, read, recv, net))
    {
      hide ValidateClientRequest, ProxyWrite, RequestParseOk;
      if write {
        var written := ProxyWriteCb(net.writable);
        if !written {
          Close();
          return;
        }
      }
      if !read {
        return;
      }
      match recv
      case Hangup => Close();
      case NoData =>
      case Data(bytes) =>
        if |bytes| > 0 {
          requestIn.Append(bytes);
          received := received + bytes;
          var ok := ValidateClient(net);
          if !ok {
            Close();
          }
        }
    }

    /** The backend's socket is readable or writable. */
    method BackendCb(write: bool, read: bool, recv: Recv, net: Net)
      requires Valid() && open && WellFormedEvent(Abs(), BackendEvent(write, read, recv, net))
      modifies Parts()
      ensures Abs() == Step(old(Abs()), BackendEvent(write, read, recv, net))
    {
      hide ValidateServerResponse, BackendWrite, WellFramed;
      if write {
        var written := BackendWriteCb(net.writable);
        if !written {
          Close();
          return;
        }
      }
      if !read {
        return;
      }
      match recv
      case Hangup => Close();
      case NoData =>
      case Data(bytes) =>
        if |bytes| > 0 {
          responseIn.Append(bytes);
          bound := bound + [Segment(bytes, false)];
          var ok := ValidateServer(net.reply);
          if !ok {
            Close();
          }
        }
    }
  }

  // The other loop over a buffer, which only cuts frames.
  method CutFrames(data: seq<Byte>) returns (start: nat)
    requires |data| >= HEADER && WellFramed(data)
    ensures start == |data| - |Leftover(data)|
  {
    hide WellFramed, Leftover, FramesOf;
    start := 0;
    var fullSize := |data|;
    var responseSize: int := Be32(data[1], data[2], data[3], data[4]) + 1;
    assert data[0..] == data;
    while start + responseSize <= fullSize
      invariant start + HEADER <= fullSize && WellFramed(data[start..]) && responseSize == FrameSize(data[start..])
      invariant Leftover(data[start..]) == Leftover(data)
      decreases fullSize - start
    {
      NextFrame(data, start);
      start := start + responseSize;
      if start + 4 < fullSize {
        responseSize := Be32(data[start + 1], data[start + 2], data[start + 3], data[start + 4]) + 1;
      } else {
        break;
      }
    }
    NoMoreFrames(data, start);
  }

  // `parse_response`: walks over all frames and gives up on an unfinished one.
  method WalkFrames(data: seq<Byte>) returns (ok: bool, used: nat)
    requires WellFramed(data)
    ensures ok == AllOrNothing(data) && (ok ==> used == |data| - |Leftover(data)|)
  {
    hide WellFramed, Leftover, FramesOf;
    used := 0;
    if |data| < 3 {
      return false, 0;
    }
    var start: nat := 0;
    assert data[0..] == data;
    while start + 4 < |data|
      invariant start <= |data| && WellFramed(data[start..]) && Leftover(data[start..]) == Leftover(data)
      decreases |data| - start
    {
      var responseSize := Be32(data[start + 1], data[start + 2], data[start + 3], data[start + 4]);
      assert responseSize + 1 == FrameSize(data[start..]);
      SizeIsOk(data[start..]);
      if start + responseSize + 1 > |data| || responseSize == 0 {
        NoMoreFrames(data, start);
        return false, 0;
      }
      NextFrame(data, start);
      start := start + responseSize + 1;
    }
    NoMoreFrames(data, start);
    return true, start;
  }

  // The bytes a parse of the responses hands out.
  function Response(st: State): seq<Byte>
    requires |st.resp.input| > 0
  {
    if Forwards(st) then Front(st.resp.input) else []
  }

  // Handing them out and putting them into the queue is what the state machine does at once.
  lemma ForwardOne(st: State)
    requires |st.resp.input| > 0
    ensures var response := Response(st);
            var p := st.resp.(input := if Forwards(st) then Leftover(st.resp.input) else st.resp.input);
            ParseResponse(st) == Heard(st).(resp := p.(output := p.output + response)) &&
            (|response| == 0 ==> ParseResponse(st) == Heard(st).(resp := p))
  {
    hide Leftover, PassThrough, AllOrNothing;
    assert st.resp.output + [] == st.resp.output;
    assert |Response(st)| == 0 ==> Response(st) == [];
  }

  lemma CutAt(data: seq<Byte>)
    ensures data[..|data| - |Leftover(data)|] == Front(data) && data[|data| - |Leftover(data)|..] == Leftover(data)
    ensures |Leftover(data)| == |data| ==> Front(data) == []
    ensures data[0..] == data
  {
    LeftoverIsSuffix(data);
  }

  lemma SizeIsOk(s: seq<Byte>)
    requires |s| >= HEADER && WellFramed(s)
    ensures SizeOk(s)
  {
  }

  lemma EmptyFrames(p: Responses, allow: nat -> bool, k: nat)
    ensures AnswerAll(p, [], allow, k) == p && !AnyBlocked([], allow, k) && !AnyPassword([])
  {
  }

  lemma JoinFrame(done: seq<seq<Byte>>, todo: seq<seq<Byte>>)
    requires |todo| > 0
    ensures done + [todo[0]] + todo[1..] == done + todo
  {
  }

  lemma NoMoreFrames(data: seq<Byte>, start: nat)
    requires start <= |data| && (start + HEADER <= |data| ==> start + FrameSize(data[start..]) > |data|)
    ensures FramesOf(data[start..]) == [] && Leftover(data[start..]) == data[start..]
  {
  }

  // The frame at `start`, and the rest of the buffer after it.
  lemma NextFrame(data: seq<Byte>, start: nat)
    requires start + HEADER <= |data| && WellFramed(data[start..]) && start + FrameSize(data[start..]) <= |data|
    ensures FrameSize(data[start..]) >= HEADER
    ensures var n := FrameSize(data[start..]); var todo := FramesOf(data[start..]);
            n >= HEADER && |todo| > 0 && todo[0] == data[start..start + n] &&
            todo[1..] == FramesOf(data[start + n..]) &&
            Leftover(data[start..]) == Leftover(data[start + n..]) && WellFramed(data[start + n..])
  {
    var n := FrameSize(data[start..]);
    assert data[start..][n..] == data[start + n..] && data[start..][..n] == data[start..start + n];
  }
}
