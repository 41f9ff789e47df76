/** Armed write events, aligned frames, and what holds after every run. */
module ProxyRuns {
  import opened Frames
  import opened ProxyMachine
  import opened ProxyInvariants

  // ---- local replies ----

  /** A reply was added: to the client's queue, or behind what waits to be parsed. */
  predicate Answered(a: Responses, b: Responses) {
    b.armed == a.armed && BackendBytes(b.bound) == BackendBytes(a.bound) &&
    if |a.input| == 0 then |b.input| == 0 && |b.output| > |a.output| && b.split == a.split
    else |b.input| > 0 && b.output == a.output && b.split
  }

  lemma InjectAnswers(p: Responses, reply: seq<Byte>)
    requires |reply| > 0
    ensures Answered(p, Inject(p, reply))
  {
    LogGrows(p.bound, Segment(reply, true));
  }

  lemma {:induction false} AnswersAnswer(p: Responses, frames: seq<seq<Byte>>, allow: nat -> bool, k: nat)
    requires AllFrames(frames)
    ensures var r := AnswerAll(p, frames, allow, k);
            if AnyBlocked(frames, allow, k) then Answered(p, r) else r == p
    decreases |frames|
  {
    hide Inject, Blocked;
    if |frames| > 0 {
      InjectAnswers(p, BLOCK_REPLY);
      AnswersAnswer(Answer(p, frames[0], allow(k)), frames[1..], allow, k + 1);
    }
  }

  // What parsing does besides taking bytes off the input.
  lemma ParseAnswers(st: State, allow: nat -> bool)
    ensures var p := ParseRequest(st, allow);
            p.st.req.armed == st.req.armed && p.st.req.output == st.req.output &&
            if p.hasResponse then Answered(st.resp, p.st.resp) else p.st.resp == st.resp
  {
    hide Inject, AnswerAll, AnyBlocked, AnyPassword, Leftover, FramesOf, Kept, Answered;
    InjectAnswers(st.resp, NO_SSL);
    FramesAreFrames(st.req.input);
    AnswersAnswer(st.resp, FramesOf(st.req.input), allow, 0);
  }

  // ---- armed write events ----

  // The parse of the callback, when it gets that far.
  function ClientParse(st: State, ev: Event): Parsed
    requires ev.recv.Data?
  {
    var woken := Woken(st, ev).st;
    ParseRequest(woken.(req := FromClient(woken.req, ev.recv.bytes)), ev.net.allow)
  }

  /** A reply is put into the client's empty queue and the attempt to write it, whose result is
      not looked at, fails hard. */
  predicate LostReply(st: State, ev: Event) {
    ev.ClientEvent? && ev.read && ev.recv.Data? && |ev.recv.bytes| > 0 && Woken(st, ev).ok &&
    var resp := Woken(st, ev).st.resp;
    ClientParse(st, ev).ok && ClientParse(st, ev).hasResponse && |resp.input| == 0 && |resp.output| == 0 &&
    ev.net.reply.Failed?
  }

  lemma ServerArms(st: State, reply: Send)
    requires |st.resp.input| > 0 && ClientArmed(st.resp) && ValidateServerResponse(st, reply).ok
    ensures ClientArmed(ValidateServerResponse(st, reply).st.resp)
    ensures ValidateServerResponse(st, reply).st.req == st.req
  {
    hide Leftover, FramesOf, AllOrNothing, PassThrough;
    assert |Front(st.resp.input)| == 0 ==> st.resp.output + Front(st.resp.input) == st.resp.output;
  }

  lemma ClientArms(st: State, net: Net)
    requires Armed(st) && ValidateClientRequest(st, net).ok
    ensures var p := ParseRequest(st, net.allow);
            p.ok &&
            (Armed(ValidateClientRequest(st, net).st) <==>
            !(p.hasResponse && |st.resp.input| == 0 && |st.resp.output| == 0 && net.reply.Failed?))
  {
    hide ParseRequest, ValidateServerResponse, BackendBytes;
    var p := ParseRequest(st, net.allow);
    ParseAnswers(st, net.allow);
    if p.hasResponse && |p.st.resp.input| > 0 {
      ServerArms(p.st, net.reply);
    }
  }

  /** No stuck data: after a callback that leaves the connection open, each write event is armed
      exactly when its buffer is not empty, unless a reply was lost; and then one is not. */
  lemma {:induction false} StepArms(st: State, ev: Event)
    requires st.open && Armed(st) && Step(st, ev).open
    ensures Armed(Step(st, ev)) <==> !LostReply(st, ev)
  {
    hide ParseRequest, ValidateClientRequest, ValidateServerResponse;
    var woken := Woken(st, ev).st;
    if Woken(st, ev).ok {
      assert Armed(woken);
      if ev.read && ev.recv.Data? && |ev.recv.bytes| > 0 {
        if ev.ClientEvent? {
          ClientArms(woken.(req := FromClient(woken.req, ev.recv.bytes)), ev.net);
        } else {
          ServerArms(woken.(resp := FromBackend(woken.resp, ev.recv.bytes)), ev.net.reply);
        }
      }
    }
  }

  // ---- aligned responses ----

  // The input buffer starts at the border of a frame of the backend's stream.
  predicate AtBorder(p: Responses) {
    var all := BackendBytes(p.bound);
    var n := |all| - |p.input|;
    0 <= n && p.input == all[n..] && Whole(all[..n])
  }

  lemma FromBackendAtBorder(p: Responses, bytes: seq<Byte>)
    requires Aligned(p)
    ensures AtBorder(FromBackend(p, bytes))
  {
    hide Whole;
    LogGrows(p.bound, Segment(bytes, false));
    var all := BackendBytes(p.bound);
    DropJoin(all, bytes, |all| - |p.input|);
  }

  // Cutting what follows a border moves the border.
  lemma BorderMoves(all: seq<Byte>, n: nat)
    requires n <= |all| && Whole(all[..n])
    ensures var left := Leftover(all[n..]);
            left == all[|all| - |left|..] && Whole(all[..|all| - |left|]) && (Whole(all) ==> |left| == 0)
  {
    hide Whole, Leftover;
    var done, rest := all[..n], all[n..];
    var m := |rest| - |Leftover(rest)|;
    assert all == done + rest;
    Slices(all, n, m);
    LeftoverIsSuffix(rest);
    FrontIsWhole(rest);
    WholeContinues(done, Front(rest));
    WholeContinues(done, rest);
    WholeIsCut(rest);
  }

  lemma ForwardAligns(p: Responses)
    requires AtBorder(p)
    ensures Aligned(Forward(p))
  {
    hide Whole, Leftover, BackendBytes;
    var all := BackendBytes(p.bound);
    BorderMoves(all, |all| - |p.input|);
  }

  // Bytes that are whole frames are forwarded by either branch.
  lemma WholeForwards(st: State)
    requires |st.resp.input| > 0 && Whole(st.resp.input)
    ensures Forwards(st)
  {
    WholeIsCut(st.resp.input);
  }

  lemma ServerAligns(st: State, reply: Send)
    requires |st.resp.input| > 0 && AtBorder(st.resp)
    ensures Aligned(ValidateServerResponse(st, reply).st.resp)
    ensures ValidateServerResponse(st, reply).st.resp.split == st.resp.split
  {
    hide Whole, Leftover, FramesOf, BackendBytes, AllOrNothing, PassThrough;
    ForwardAligns(st.resp);
    if !Forwards(st) {
      var all := BackendBytes(st.resp.bound);
      var n := |all| - |st.resp.input|;
      WholeContinues(all[..n], all[n..]);
      assert all == all[..n] + all[n..];
      if Whole(st.resp.input) {
        WholeForwards(st);
      }
    }
  }

  lemma ServerKeepsSplit(st: State, reply: Send)
    requires |st.resp.input| > 0
    ensures ValidateServerResponse(st, reply).st.resp.split == st.resp.split
  {
    hide Leftover, FramesOf, AllOrNothing, PassThrough;
  }

  // A reply behind waiting bytes shows for ever; without one the parse adds to the queue only.
  lemma ClientAligns(st: State, net: Net)
    requires ValidateClientRequest(st, net).ok
    ensures var after := ValidateClientRequest(st, net).st.resp;
            (st.resp.split ==> after.split) &&
            (Aligned(st.resp) && !after.split ==> Aligned(after))
  {
    hide Whole, BackendBytes, ParseRequest, ValidateServerResponse;
    var p := ParseRequest(st, net.allow);
    ParseAnswers(st, net.allow);
    if |p.st.resp.input| > 0 {
      ServerKeepsSplit(p.st, net.reply);
    }
  }

  /** As long as no reply is put behind an unfinished frame, what is sent on is whole frames, and
      nothing waits when the backend's bytes so far are whole frames. */
  lemma StepAligns(st: State, ev: Event)
    requires Aligned(st.resp) && Step(st, ev).open && !Step(st, ev).resp.split
    ensures !st.resp.split && Aligned(Step(st, ev).resp)
  {
    hide Whole, BackendBytes, ParseRequest, ValidateClientRequest, ValidateServerResponse, FromBackend;
    var woken := Woken(st, ev).st;
    assert Aligned(woken.resp) && woken.resp.split == st.resp.split;
    if st.open && Woken(st, ev).ok && ev.read && ev.recv.Data? && |ev.recv.bytes| > 0 {
      if ev.ClientEvent? {
        ClientAligns(woken.(req := FromClient(woken.req, ev.recv.bytes)), ev.net);
      } else {
        BackendReadAligns(woken, ev.recv.bytes, ev.net.reply);
      }
    }
  }

  lemma BackendReadAligns(st: State, bytes: seq<Byte>, reply: Send)
    requires Aligned(st.resp) && |bytes| > 0
    ensures var o := ValidateServerResponse(st.(resp := FromBackend(st.resp, bytes)), reply);
            Aligned(o.st.resp) && o.st.resp.split == st.resp.split
  {
    hide Aligned, AtBorder, ValidateServerResponse;
    FromBackendAtBorder(st.resp, bytes);
    ServerAligns(st.(resp := FromBackend(st.resp, bytes)), reply);
  }

  /** Where a reply lands: between whole frames of the backend, or behind an unfinished one. */
  lemma ReplyLands(p: Responses)
    requires Aligned(p)
    ensures if |p.input| == 0 then Whole(BackendBytes(p.bound)) else !Whole(p.input)
  {
    var all := BackendBytes(p.bound);
    var n := |all| - |p.input|;
    assert all == all[..n] + all[n..];
    WholeContinues(all[..n], all[n..]);
    if n == |all| {
      assert all[..n] == all;
    }
  }

  // ---- the frames examined ----

  lemma FramesInStep(st: State, q: Requests, bytes: seq<Byte>)
    requires !st.firstRequest && InStep(st) && q == FromClient(st.req, bytes) && Kept(q) == Kept(st.req) + bytes
    ensures var s := Kept(q)[q.startup..];
            q.startup <= |Kept(q)| && s == Front(Kept(st.req)[q.startup..]) + q.input &&
            FramesOf(s) == q.handed + FramesOf(q.input) && Leftover(s) == Leftover(q.input)
  {
    hide Kept, FramesOf, Leftover;
    var s0 := Kept(st.req)[q.startup..];
    DropJoin(Kept(st.req), bytes, q.startup);
    CutContinues(s0, bytes);
    CutParts(s0);
    Join3(Front(s0), Leftover(s0), bytes);
  }

  lemma ProbeInStep(st: State, q: Requests, bytes: seq<Byte>)
    requires !st.firstRequest && InStep(st) && q == FromClient(st.req, bytes) && Kept(q) == Kept(st.req) + bytes
    requires Kept(q) == Kept(DropProbe(q)) + q.input
    ensures var d := DropProbe(q);
            q.startup <= |Kept(d)| && FramesOf(Kept(d)[q.startup..]) == q.handed && Leftover(Kept(d)[q.startup..]) == []
  {
    hide Kept, FramesOf, Leftover;
    var d := DropProbe(q);
    var s0 := Kept(st.req)[q.startup..];
    FramesInStep(st, q, bytes);
    FrontCut(s0);
    DropJoin(Kept(d), q.input, q.startup);
    TailsAgree(Kept(d)[q.startup..], q.input, Front(s0), q.input);
  }

  lemma ParseInStep(st: State, bytes: seq<Byte>, allow: nat -> bool)
    requires InStep(st) && RequestsKept(st.req)
    requires ParseRequest(st.(req := FromClient(st.req, bytes)), allow).ok
    ensures InStep(ParseRequest(st.(req := FromClient(st.req, bytes)), allow).st)
  {
    hide Without, ProbesFit, AnswerAll, AnyBlocked, AnyPassword, Inject, RequestsKept, Leftover, FramesOf;
    hide Kept, Answered;
    var q := FromClient(st.req, bytes);
    FromClientKeeps(st.req, bytes);
    var p := ParseRequest(st.(req := q), allow).st;
    if !st.firstRequest {
      FramesInStep(st, q, bytes);
      if |q.input| < HEADER {
        ShortInput(q.input, q.handed);
      } else if |q.input| == PROBE_SIZE {
        DropProbeKeeps(q);
        ProbeInStep(st, q, bytes);
      } else {
        SameStream(q, p.req);
      }
    } else if |q.input| == PROBE_SIZE {
    } else if !p.firstRequest {
      SameStream(q, p.req);
      ShortInput(Kept(p.req)[p.req.startup..], []);
    }
  }

  lemma ShortInput(s: seq<Byte>, handed: seq<seq<Byte>>)
    requires |s| < HEADER
    ensures FramesOf(s) == [] && Leftover(s) == s && handed + FramesOf(s) == handed
  {
  }

  lemma SameStream(a: Requests, b: Requests)
    requires a.received == b.received && a.probes == b.probes
    ensures Kept(a) == Kept(b)
  {
  }

  // The rest of a callback leaves the requests' history alone.
  predicate SameHistory(a: State, b: State) {
    a.firstRequest == b.firstRequest &&
    a.req.(output := b.req.output, sent := b.req.sent, armed := b.req.armed) == b.req
  }

  lemma RestInStep(a: State, b: State)
    requires InStep(a) && SameHistory(a, b)
    ensures InStep(b)
  {
    SameStream(a.req, b.req);
  }

  lemma ServerSameHistory(st: State, reply: Send)
    requires |st.resp.input| > 0
    ensures SameHistory(st, ValidateServerResponse(st, reply).st)
  {
    hide Forwards, Forward, AllOrNothing, SendResponses;
  }

  lemma {:induction false} ClientSameHistory(st: State, net: Net)
    requires ValidateClientRequest(st, net).ok
    ensures SameHistory(ParseRequest(st, net.allow).st, ValidateClientRequest(st, net).st)
  {
    hide ParseRequest, ValidateServerResponse, SendResponses;
    var p := ParseRequest(st, net.allow);
    if |p.st.resp.input| > 0 {
      ServerSameHistory(p.st, net.reply);
    }
  }

  lemma ClientInStep(st: State, bytes: seq<Byte>, net: Net)
    requires InStep(st) && RequestsKept(st.req)
    requires ValidateClientRequest(st.(req := FromClient(st.req, bytes)), net).ok
    ensures InStep(ValidateClientRequest(st.(req := FromClient(st.req, bytes)), net).st)
  {
    hide InStep, ParseRequest, RequestsKept, SameHistory, BackendWrite, ValidateServerResponse;
    var q := st.(req := FromClient(st.req, bytes));
    ParseInStep(st, bytes, net.allow);
    ClientSameHistory(q, net);
    RestInStep(ParseRequest(q, net.allow).st, ValidateClientRequest(q, net).st);
  }

  /** Every frame after the startup packet is examined once and in order. */
  lemma StepInStep(st: State, ev: Event)
    requires InStep(st) && RequestsKept(st.req) && Step(st, ev).open
    ensures InStep(Step(st, ev))
  {
    hide InStep, ValidateClientRequest, RequestsKept, ValidateServerResponse, SendResponses;
    if st.open {
      var woken := Woken(st, ev).st;
      RestInStep(st, woken);
      if Woken(st, ev).ok && ev.read && ev.recv.Data? && |ev.recv.bytes| > 0 {
        if ev.ClientEvent? {
          WokenKeeps(st, ev);
          ClientInStep(woken, ev.recv.bytes, ev.net);
        } else {
          var read := woken.(resp := FromBackend(woken.resp, ev.recv.bytes));
          ServerSameHistory(read, ev.net.reply);
          RestInStep(woken, Step(st, ev));
        }
      }
    }
  }

  lemma {:induction false} WokenKeeps(st: State, ev: Event)
    requires RequestsKept(st.req)
    ensures RequestsKept(Woken(st, ev).st.req)
  {
    SendRequestsKeeps(st.req, ev.net.writable);
  }

  // ---- runs ----

  // Whether some callback of the run loses a reply.
  predicate LosesReply(st: State, evs: seq<Event>)
    decreases |evs|
  {
    |evs| > 0 && (LostReply(st, evs[0]) || LosesReply(Step(st, evs[0]), evs[1..]))
  }

  lemma {:induction false} ClosedStays(st: State, evs: seq<Event>)
    requires !st.open
    ensures Run(st, evs) == st
    decreases |evs|
  {
    if |evs| > 0 {
      ClosedStays(st, evs[1..]);
    }
  }

  predicate Good(st: State) {
    Conserved(st) && InStep(st) && (!st.resp.split ==> Aligned(st.resp))
  }

  lemma {:induction false} RunKeeps(st: State, evs: seq<Event>)
    requires Good(st) && WellFormedRun(st, evs) && Run(st, evs).open
    ensures Good(Run(st, evs))
    ensures st.open && Armed(st) && !LosesReply(st, evs) ==> Armed(Run(st, evs))
    decreases |evs|
  {
    hide Step, Conserved, InStep, Aligned, Armed, LostReply, WellFormedEvent;
    if |evs| > 0 {
      var next := Step(st, evs[0]);
      if !next.open {
        ClosedStays(next, evs[1..]);
        assert false;
      }
      StepGood(st, evs[0]);
      if st.open && Armed(st) && !LostReply(st, evs[0]) {
        StepArms(st, evs[0]);
      }
      RunKeeps(next, evs[1..]);
    }
  }

  lemma {:induction false} StepGood(st: State, ev: Event)
    requires Good(st) && Step(st, ev).open
    ensures Good(Step(st, ev))
  {
    hide Step, InStep, Aligned, RequestsKept, ResponsesKept;
    StepConserves(st, ev);
    StepInStep(st, ev);
    if !Step(st, ev).resp.split {
      if st.resp.split {
        SplitStays(st, ev);
        assert false;
      }
      StepAligns(st, ev);
    }
  }

  lemma SplitStays(st: State, ev: Event)
    requires Step(st, ev).open && st.resp.split
    ensures Step(st, ev).resp.split
  {
    hide ValidateClientRequest, ValidateServerResponse;
    var woken := Woken(st, ev).st;
    if st.open && Woken(st, ev).ok && ev.read && ev.recv.Data? && |ev.recv.bytes| > 0 {
      if ev.ClientEvent? {
        ClientAligns(woken.(req := FromClient(woken.req, ev.recv.bytes)), ev.net);
      } else {
        ServerKeepsSplit(woken.(resp := FromBackend(woken.resp, ev.recv.bytes)), ev.net.reply);
      }
    }
  }

  /** Over every run of client reads, backend reads and writable events, with whole, partial,
      refused or failed writes and any verdicts: while the connection is open no byte is lost,
      the frames examined are those of the client's stream, and without a split frame the
      backend's frames go on whole. Write events stay armed exactly as needed. */
  lemma EveryRun(evs: seq<Event>)
    requires WellFormedRun(Initial(), evs) && Run(Initial(), evs).open
    ensures var st := Run(Initial(), evs);
            Conserved(st) && InStep(st) && (!st.resp.split ==> Aligned(st.resp)) &&
            (!LosesReply(Initial(), evs) ==> Armed(st))
  {
    RunKeeps(Initial(), evs);
  }

  lemma {:induction false} WithoutLength(r: seq<Byte>, probes: seq<nat>)
    requires ProbesFit(r, probes)
    ensures |Without(r, probes)| == |r| - PROBE_SIZE * |probes|
    decreases |probes|
  {
    if |probes| > 0 {
      var p := probes[|probes| - 1];
      WithoutLength(r[..p], probes[..|probes| - 1]);
    }
  }

  // ---- blocks of eight bytes ----

  /** The callback reads from the client and then has exactly eight bytes to parse. */
  predicate ReadsEight(st: State, ev: Event) {
    st.open && Woken(st, ev).ok && ev.ClientEvent? && ev.read && ev.recv.Data? && |ev.recv.bytes| > 0 &&
    |st.req.input| + |ev.recv.bytes| == PROBE_SIZE
  }

  predicate SeesEight(st: State, evs: seq<Event>)
    decreases |evs|
  {
    |evs| > 0 && (ReadsEight(st, evs[0]) || SeesEight(Step(st, evs[0]), evs[1..]))
  }

  lemma ParseDrops(st: State, allow: nat -> bool)
    ensures ParseRequest(st, allow).st.req.probes ==
            if |st.req.input| == PROBE_SIZE then DropProbe(st.req).probes else st.req.probes
  {
    hide AnswerAll, AnyBlocked, AnyPassword, Inject, FramesOf, Leftover, Kept;
  }

  lemma {:induction false} StepDrops(st: State, ev: Event)
    requires Step(st, ev).open
    ensures |Step(st, ev).req.probes| == |st.req.probes| + if ReadsEight(st, ev) then 1 else 0
  {
    hide ParseRequest, ValidateClientRequest, ValidateServerResponse, SendRequests, SendResponses;
    var woken := Woken(st, ev).st;
    WokenReads(st, ev);
    if st.open && Woken(st, ev).ok && ev.read && ev.recv.Data? && |ev.recv.bytes| > 0 {
      if ev.ClientEvent? {
        var read := woken.(req := FromClient(woken.req, ev.recv.bytes));
        ParseDrops(read, ev.net.allow);
        ClientSameHistory(read, ev.net);
      } else {
        ServerSameHistory(woken.(resp := FromBackend(woken.resp, ev.recv.bytes)), ev.net.reply);
      }
    }
  }

  lemma WokenReads(st: State, ev: Event)
    ensures Woken(st, ev).st.req.input == st.req.input && Woken(st, ev).st.req.probes == st.req.probes
  {
  }

  // A block is dropped in a run exactly when some callback of it has eight bytes to parse.
  lemma {:induction false} RunDrops(st: State, evs: seq<Event>)
    requires Run(st, evs).open
    ensures |Run(st, evs).req.probes| >= |st.req.probes|
    ensures |Run(st, evs).req.probes| == |st.req.probes| <==> !SeesEight(st, evs)
    decreases |evs|
  {
    hide Step, ReadsEight;
    if |evs| > 0 {
      var next := Step(st, evs[0]);
      if !next.open {
        ClosedStays(next, evs[1..]);
        assert false;
      }
      StepDrops(st, evs[0]);
      RunDrops(next, evs[1..]);
    }
  }

  /** The stream from the client is passed on in full exactly when no callback ever had eight bytes
      to parse. */
  lemma FullyKeptExactlyWhen(evs: seq<Event>)
    requires WellFormedRun(Initial(), evs) && Run(Initial(), evs).open
    ensures var q := Run(Initial(), evs).req;
            q.sent + q.output + q.input == q.received <==> !SeesEight(Initial(), evs)
  {
    hide Run, WellFormedRun, LosesReply, SeesEight;
    EveryRun(evs);
    RunDrops(Initial(), evs);
    var q := Run(Initial(), evs).req;
    WithoutLength(q.received, q.probes);
  }

  /** However the client's stream was split into reads, and whatever the writes did, the frames
      examined and the bytes held back are the same, unless eight bytes were once all there was
      to parse. */
  lemma ChunkingIndependent(evs: seq<Event>, evs': seq<Event>)
    requires WellFormedRun(Initial(), evs) && WellFormedRun(Initial(), evs')
    requires !SeesEight(Initial(), evs) && !SeesEight(Initial(), evs')
    requires var a, b := Run(Initial(), evs), Run(Initial(), evs');
             a.open && b.open && !a.firstRequest && !b.firstRequest &&
             a.req.received == b.req.received && a.req.startup == b.req.startup
    ensures var a, b := Run(Initial(), evs), Run(Initial(), evs');
            a.req.startup <= |a.req.received| &&
            a.req.handed == b.req.handed == FramesOf(a.req.received[a.req.startup..]) &&
            a.req.input == b.req.input
  {
    hide Run, WellFormedRun, LosesReply, SeesEight;
    EveryRun(evs);
    EveryRun(evs');
    RunDrops(Initial(), evs);
    RunDrops(Initial(), evs');
  }

  /** With a block of exactly eight bytes in the buffer it does depend on the split: an eight-byte
      frame is examined when the next frame comes with it, and dropped when it comes alone. */
  lemma SplitMatters(st: State, f: seq<Byte>, g: seq<Byte>, allow: nat -> bool)
    requires !st.firstRequest && |st.req.input| == 0 && |f| == PROBE_SIZE && |g| == HEADER
    requires FrameReady(f) && FrameSize(f) == |f| && FrameReady(g) && FrameSize(g) == |g|
    ensures var alone := ParseRequest(st.(req := FromClient(st.req, f)), allow);
            alone.request == [] && alone.st.req.handed == st.req.handed && alone.st.req.input == []
    ensures var together := ParseRequest(st.(req := FromClient(st.req, f + g)), allow);
            together.request == f + g && together.st.req.handed == st.req.handed + [f, g]
  {
    hide AnswerAll, AnyBlocked, AnyPassword, Inject, Kept;
    assert st.req.input + f == f && st.req.input + (f + g) == f + g;
    TwoFrames(f, g);
  }

  lemma OneFrame(g: seq<Byte>)
    requires FrameReady(g) && FrameSize(g) == |g|
    ensures FramesOf(g) == [g] && Leftover(g) == []
  {
    assert g[..|g|] == g && g[|g|..] == [];
    assert FramesOf([]) == [] && [g] + [] == [g];
  }

  lemma TwoFrames(f: seq<Byte>, g: seq<Byte>)
    requires FrameReady(f) && FrameSize(f) == |f| && FrameReady(g) && FrameSize(g) == |g|
    ensures FramesOf(f + g) == [f, g] && Front(f + g) == f + g
  {
    hide FramesOf, Leftover, FrameReady;
    OneFrame(f);
    OneFrame(g);
    CutContinues(f, g);
    assert [] + g == g && [f] + [g] == [f, g];
    assert (f + g)[..|f + g|] == f + g;
  }
}
