/** What the client receives: whole frames, the backend's and the local replies. */
module ProxyDelivery {
  import opened Frames
  import opened ProxyMachine
  import opened ProxyInvariants
  import opened ProxyRuns

  /** What was sent to the client, or waits to be, is whole frames by their own length fields. */
  predicate Delivered(p: Responses) {
    Whole(p.sent + p.output)
  }

  lemma ReplyIsWhole()
    ensures Whole(BLOCK_REPLY)
  {
  }

  // The queue grows by whole frames.
  lemma QueueGrows(p: Responses, p': Responses, bytes: seq<Byte>)
    requires Delivered(p) && Whole(bytes) && p'.sent == p.sent && p'.output == p.output + bytes
    ensures Delivered(p')
  {
    hide Whole;
    Join3(p.sent, p.output, bytes);
    WholeContinues(p.sent + p.output, bytes);
  }

  lemma SendDelivers(p: Responses, r: Send)
    ensures Delivered(SendResponses(p, r)) == Delivered(p)
  {
    hide Whole;
    var k := Accepted(p.output, r);
    Join3(p.sent, p.output[..k], p.output[k..]);
    assert p.output[..k] + p.output[k..] == p.output;
  }

  lemma ProxyWriteDelivers(st: State, r: Send)
    ensures Delivered(ProxyWrite(st, r).st.resp) == Delivered(st.resp)
  {
    hide Whole;
    SendDelivers(st.resp, r);
  }

  lemma {:induction false} AnswersDeliver(p: Responses, frames: seq<seq<Byte>>, allow: nat -> bool, k: nat)
    requires AllFrames(frames) && Delivered(p)
    ensures Delivered(AnswerAll(p, frames, allow, k))
    decreases |frames|
  {
    hide Delivered, Blocked, Whole;
    if |frames| > 0 {
      var q := Answer(p, frames[0], allow(k));
      if |p.input| == 0 && q != p {
        ReplyIsWhole();
        QueueGrows(p, q, BLOCK_REPLY);
      } else {
        SameQueue(p, q);
      }
      AnswersDeliver(q, frames[1..], allow, k + 1);
    }
  }

  lemma SameQueue(p: Responses, q: Responses)
    requires p.sent == q.sent && p.output == q.output
    ensures Delivered(p) == Delivered(q)
  {
  }

  // The answer to eight bytes is no frame, so behind whole frames it breaks the framing.
  lemma AnswerBreaks(p: Responses)
    requires Delivered(p) && |p.input| == 0
    ensures !Delivered(Inject(p, NO_SSL))
  {
    Join3(p.sent, p.output, NO_SSL);
    WholeContinues(p.sent + p.output, NO_SSL);
    assert !FrameReady(NO_SSL);
  }

  lemma ParseDelivers(st: State, allow: nat -> bool)
    requires Delivered(st.resp)
    ensures Delivered(ParseRequest(st, allow).st.resp) <==> !(|st.req.input| == PROBE_SIZE && |st.resp.input| == 0)
  {
    hide Delivered, AnswerAll, AnyBlocked, AnyPassword, FramesOf, Leftover, Kept;
    FramesAreFrames(st.req.input);
    AnswersDeliver(st.resp, FramesOf(st.req.input), allow, 0);
    if |st.resp.input| == 0 {
      AnswerBreaks(st.resp);
    } else {
      SameQueue(st.resp, Inject(st.resp, NO_SSL));
    }
  }

  lemma ServerDelivers(st: State, reply: Send)
    requires |st.resp.input| > 0 && Delivered(st.resp)
    ensures Delivered(ValidateServerResponse(st, reply).st.resp)
  {
    hide Delivered, Whole, Leftover, FramesOf, AllOrNothing, PassThrough, Front, ProxyWrite;
    var parsed := ParseResponse(st);
    if Forwards(st) {
      FrontIsWhole(st.resp.input);
      QueueGrows(st.resp, parsed.resp, Front(st.resp.input));
    }
    ProxyWriteDelivers(parsed, reply);
  }

  lemma ClientDelivers(st: State, net: Net)
    requires Delivered(st.resp)
    ensures Delivered(ValidateClientRequest(st, net).st.resp) <==>
            !(|st.req.input| == PROBE_SIZE && |st.resp.input| == 0)
  {
    hide Delivered, ParseRequest, ValidateServerResponse, ProxyWrite, SendRequests;
    var p := ParseRequest(st, net.allow).st;
    ParseDelivers(st, net.allow);
    ParseAnswers(st, net.allow);
    ProxyWriteDelivers(p, net.reply);
    if |p.resp.input| > 0 {
      ServerDelivers(p, net.reply);
    }
  }

  /** The callback reads eight bytes from the client and answers them with nothing from the backend
      waiting to be parsed. */
  predicate AnswersEight(st: State, ev: Event) {
    ReadsEight(st, ev) && |st.resp.input| == 0
  }

  /** After whole frames the client is sent whole frames by a callback exactly when it does not
      answer eight bytes at once. An answer put behind waiting bytes is taken for part of a frame. */
  lemma {:induction false} StepDelivers(st: State, ev: Event)
    requires WellFormedEvent(st, ev) && Delivered(st.resp)
    ensures Delivered(Step(st, ev).resp) <==> !AnswersEight(st, ev)
  {
    hide Delivered, WellFormedEvent, ValidateClientRequest, ValidateServerResponse, ProxyWrite, SendRequests;
    var woken := Woken(st, ev).st;
    ProxyWriteDelivers(st, ev.net.writable);
    assert Delivered(woken.resp);
    if st.open && Woken(st, ev).ok && ev.read && ev.recv.Data? && |ev.recv.bytes| > 0 {
      if ev.ClientEvent? {
        WokenReads(st, ev);
        WokenKeepsInput(st, ev);
        ClientDelivers(woken.(req := FromClient(woken.req, ev.recv.bytes)), ev.net);
      } else {
        var read := woken.(resp := FromBackend(woken.resp, ev.recv.bytes));
        SameQueue(woken.resp, read.resp);
        ServerDelivers(read, ev.net.reply);
      }
    }
  }

  lemma WokenKeepsInput(st: State, ev: Event)
    ensures Woken(st, ev).st.resp.input == st.resp.input
  {
  }

  // ---- runs ----

  predicate AnyAnswersEight(st: State, evs: seq<Event>)
    decreases |evs|
  {
    |evs| > 0 && (AnswersEight(st, evs[0]) || AnyAnswersEight(Step(st, evs[0]), evs[1..]))
  }

  /** Before the run and after each of its callbacks the client was sent whole frames. */
  predicate AlwaysDelivered(st: State, evs: seq<Event>)
    decreases |evs|
  {
    Delivered(st.resp) && (|evs| > 0 ==> AlwaysDelivered(Step(st, evs[0]), evs[1..]))
  }

  lemma {:induction false} RunDelivers(st: State, evs: seq<Event>)
    requires WellFormedRun(st, evs) && Delivered(st.resp)
    ensures AlwaysDelivered(st, evs) <==> !AnyAnswersEight(st, evs)
    decreases |evs|
  {
    hide Delivered, WellFormedEvent, Step, AnswersEight;
    if |evs| > 0 {
      var next := Step(st, evs[0]);
      StepDelivers(st, evs[0]);
      if Delivered(next.resp) {
        RunDelivers(next, evs[1..]);
      } else {
        assert !AlwaysDelivered(next, evs[1..]);
      }
    }
  }

  // Every state of a run is the state after some of its callbacks.
  lemma {:induction false} AlwaysMeans(st: State, evs: seq<Event>)
    ensures AlwaysDelivered(st, evs) <==> forall k :: 0 <= k <= |evs| ==> Delivered(Run(st, evs[..k]).resp)
    decreases |evs|
  {
    hide Delivered, Step;
    assert Run(st, evs[..0]) == st;
    if |evs| > 0 {
      var next, rest := Step(st, evs[0]), evs[1..];
      AlwaysMeans(next, rest);
      forall k | 0 < k <= |evs|
        ensures Run(st, evs[..k]) == Run(next, rest[..k - 1])
      {
        assert evs[..k][1..] == rest[..k - 1];
      }
      if forall k :: 0 <= k <= |evs| ==> Delivered(Run(st, evs[..k]).resp) {
        forall k | 0 <= k <= |rest|
          ensures Delivered(Run(next, rest[..k]).resp)
        {
          assert Run(st, evs[..k + 1]) == Run(next, rest[..k]);
        }
      }
    }
  }

  /** At every moment of a run with well-formed lengths the client was sent whole frames, the
      backend's and the local replies, exactly when no callback of the run answered eight bytes
      with nothing waiting to be parsed. */
  lemma {:induction false} ClientReceivesFrames(evs: seq<Event>)
    requires WellFormedRun(Initial(), evs)
    ensures (forall k :: 0 <= k <= |evs| ==> var p := Run(Initial(), evs[..k]).resp; Whole(p.sent + p.output)) <==>
            !AnyAnswersEight(Initial(), evs)
  {
    RunDelivers(Initial(), evs);
    AlwaysMeans(Initial(), evs);
    assert forall k :: 0 <= k <= |evs| ==>
      (Delivered(Run(Initial(), evs[..k]).resp) <==> var p := Run(Initial(), evs[..k]).resp; Whole(p.sent + p.output));
  }
}
