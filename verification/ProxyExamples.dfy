/** Runs from the start of a connection in which a property of the proxy fails. */
module ProxyExamples {
  import opened Frames
  import opened ProxyMachine
  import opened ProxyRuns
  import opened ProxyDelivery

  // A read from the client with sockets that accept nothing, and no query refused.
  const QUIET: Net := Net(WouldBlock, WouldBlock, WouldBlock, (k: nat) => true)

  function Reads(bytes: seq<Byte>): Event {
    ClientEvent(false, true, Data(bytes), QUIET)
  }

  const SSL_REQUEST: seq<Byte> := [0, 0, 0, 8, 4, 210, 22, 47]
  // A startup packet of thirteen bytes, protocol 3.0, without parameters.
  const STARTUP: seq<Byte> := [0, 0, 0, 13, 0, 3, 0, 0, 0, 0, 0, 0, 0]
  // A query of two characters, and a termination.
  const QUERY_AB: seq<Byte> := [81, 0, 0, 0, 7, 97, 98, 0]
  const TERMINATE: seq<Byte> := [88, 0, 0, 0, 4]

  /** The first bytes of a client that asks for encryption, answered while the client's socket
      fails: the connection stays open, the answer stays queued, and no event will send it. */
  lemma ReplyIsLost()
    ensures var net := Net(WouldBlock, Failed, WouldBlock, (k: nat) => true);
            var ev := ClientEvent(false, true, Data(SSL_REQUEST), net);
            LostReply(Initial(), ev) && WellFormedEvent(Initial(), ev) &&
            var st := Step(Initial(), ev); st.open && st.resp.output == NO_SSL && !st.resp.armed
  {
  }

  /** The answer to that request is a single byte, no frame. */
  lemma AnswerIsNoFrame()
    ensures var st := Step(Initial(), Reads(SSL_REQUEST));
            WellFormedEvent(Initial(), Reads(SSL_REQUEST)) && AnswersEight(Initial(), Reads(SSL_REQUEST)) &&
            st.open && !Delivered(st.resp)
  {
  }

  // What reading does to the requests once parsing works.
  lemma ReadStep(st: State, bytes: seq<Byte>)
    requires st.open && |bytes| > 0 && st.firstResponse
    requires ParseRequest(st.(req := FromClient(st.req, bytes)), QUIET.allow).ok
    requires |st.resp.input| == 0
    ensures var parsed := ParseRequest(st.(req := FromClient(st.req, bytes)), QUIET.allow);
            var next := Step(st, Reads(bytes));
            next.open && SameHistory(parsed.st, next) && next.firstResponse && |next.resp.input| == 0
  {
    hide ParseRequest;
    var read := st.(req := FromClient(st.req, bytes));
    ParseAnswers(read, QUIET.allow);
    ParseKeepsFirst(read);
    ClientSameHistory(read, QUIET);
  }

  lemma ParseKeepsFirst(st: State)
    ensures ParseRequest(st, QUIET.allow).st.firstResponse == st.firstResponse
    ensures ParseRequest(st, QUIET.allow).st.open == st.open
  {
    hide AnswerAll, AnyBlocked, AnyPassword, Inject, FramesOf, Leftover, Kept;
  }

  // A connection that has read its startup packet and nothing after it but `bytes`, of which it
  // handed over `frames` and holds nothing back.
  predicate Ready(st: State, bytes: seq<Byte>, frames: seq<seq<Byte>>) {
    st.open && !st.firstRequest && st.firstResponse && |st.req.input| == 0 && |st.resp.input| == 0 &&
    st.req.received == STARTUP + bytes && st.req.handed == frames && st.req.startup == |STARTUP|
  }

  lemma Started()
    ensures Ready(Step(Initial(), Reads(STARTUP)), [], [])
    ensures WellFormedEvent(Initial(), Reads(STARTUP)) && !ReadsEight(Initial(), Reads(STARTUP))
  {
    assert Initial().req.input + STARTUP == STARTUP && STARTUP + [] == STARTUP;
    ReadStep(Initial(), STARTUP);
  }

  // Parsing whole frames, which are examined, or dropped when there are eight bytes of them.
  lemma ParseAll(st: State, frames: seq<seq<Byte>>)
    requires !st.firstRequest && Whole(st.req.input) && |st.req.input| > 0
    requires frames == if |st.req.input| == PROBE_SIZE then [] else FramesOf(st.req.input)
    ensures var parsed := ParseRequest(st, QUIET.allow);
            var q := parsed.st.req;
            parsed.ok && !parsed.st.firstRequest && |q.input| == 0 && q.received == st.req.received &&
            q.startup == st.req.startup && q.handed == st.req.handed + frames
  {
    hide AnswerAll, AnyBlocked, AnyPassword, Inject, FramesOf, Leftover, Kept, Whole;
    WholeIsCut(st.req.input);
    WholeStarts(st.req.input);
    assert st.req.handed + [] == st.req.handed;
  }

  lemma {:induction false} ReadAll(st: State, before: seq<Byte>, handed: seq<seq<Byte>>, bytes: seq<Byte>,
                                   frames: seq<seq<Byte>>)
    requires Ready(st, before, handed) && Whole(bytes) && |bytes| > 0
    requires frames == if |bytes| == PROBE_SIZE then [] else FramesOf(bytes)
    ensures Ready(Step(st, Reads(bytes)), before + bytes, handed + frames) && WellFormedEvent(st, Reads(bytes))
    ensures ReadsEight(st, Reads(bytes)) <==> |bytes| == PROBE_SIZE
  {
    hide ParseRequest, FramesOf, Whole, WellFramed, Step;
    var read := st.(req := FromClient(st.req, bytes));
    assert st.req.input + bytes == bytes;
    Join3(STARTUP, before, bytes);
    WholeStarts(bytes);
    ParseAll(read, frames);
    ParseAnswersNothing(read);
    ReadStep(st, bytes);
  }

  lemma ParseAnswersNothing(st: State)
    requires |st.resp.input| == 0
    ensures |ParseRequest(st, QUIET.allow).st.resp.input| == 0
  {
    hide ParseRequest;
    ParseAnswers(st, QUIET.allow);
  }

  lemma WholeStarts(s: seq<Byte>)
    requires Whole(s) && |s| > 0
    ensures |s| >= HEADER && WellFramed(s)
  {
    WholeContinues(s, []);
    assert s + [] == s;
  }

  /** One client stream, read in two ways. Alone in the buffer the query is taken for a request for
      encryption and never examined; together with what follows it is. */
  lemma SameStreamTwoWays()
    ensures var apart := [Reads(STARTUP)] + ([Reads(QUERY_AB)] + [Reads(TERMINATE)]);
            var joined := [Reads(STARTUP)] + [Reads(QUERY_AB + TERMINATE)];
            var a, b := Run(Initial(), apart), Run(Initial(), joined);
            WellFormedRun(Initial(), apart) && WellFormedRun(Initial(), joined) && a.open && b.open &&
            a.req.received == b.req.received && a.req.startup == b.req.startup &&
            SeesEight(Initial(), apart) && !SeesEight(Initial(), joined) &&
            a.req.handed == [TERMINATE] && b.req.handed == [QUERY_AB, TERMINATE]
  {
    hide Step, WellFormedEvent, ReadsEight, FramesOf, Whole;
    Started();
    var st := Step(Initial(), Reads(STARTUP));
    var query := Step(st, Reads(QUERY_AB));
    OneFrame(QUERY_AB);
    OneFrame(TERMINATE);
    TwoFrames(QUERY_AB, TERMINATE);
    FramesAreWhole();
    ReadAll(st, [], [], QUERY_AB, []);
    ReadAll(query, [] + QUERY_AB, [] + [], TERMINATE, [TERMINATE]);
    ReadAll(st, [], [], QUERY_AB + TERMINATE, [QUERY_AB, TERMINATE]);
    RunOne(query, Reads(TERMINATE));
    RunCons(st, Reads(QUERY_AB), [Reads(TERMINATE)]);
    RunCons(Initial(), Reads(STARTUP), [Reads(QUERY_AB)] + [Reads(TERMINATE)]);
    RunOne(st, Reads(QUERY_AB + TERMINATE));
    RunCons(Initial(), Reads(STARTUP), [Reads(QUERY_AB + TERMINATE)]);
  }

  lemma RunOne(st: State, ev: Event)
    ensures Run(st, [ev]) == Step(st, ev)
    ensures WellFormedRun(st, [ev]) == WellFormedEvent(st, ev)
    ensures SeesEight(st, [ev]) == ReadsEight(st, ev)
  {
    hide Step, WellFormedEvent, ReadsEight;
    assert [ev][1..] == [];
  }

  lemma RunCons(st: State, ev: Event, evs: seq<Event>)
    ensures Run(st, [ev] + evs) == Run(Step(st, ev), evs)
    ensures WellFormedRun(st, [ev] + evs) == (WellFormedEvent(st, ev) && WellFormedRun(Step(st, ev), evs))
    ensures SeesEight(st, [ev] + evs) == (ReadsEight(st, ev) || SeesEight(Step(st, ev), evs))
  {
    hide Step, WellFormedEvent, ReadsEight;
    assert ([ev] + evs)[1..] == evs;
  }

  lemma FramesAreWhole()
    ensures Whole(QUERY_AB) && Whole(TERMINATE) && Whole(QUERY_AB + TERMINATE)
  {
    WholeContinues(QUERY_AB, TERMINATE);
  }
}
