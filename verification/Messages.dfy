/** PostgreSQL messages as a sender writes them, and that cutting a stream gives them back. Nothing
    here mentions how a length field is read. */
module Messages {
  import opened Frames

  // `n` in `k` bytes, the most significant first.
  function Encoded(n: nat, k: nat): seq<Byte> {
    if k == 0 then [] else Encoded(n / 256, k - 1) + [n % 256]
  }

  /** A message: a type and a payload. The length field counts itself and the payload. */
  datatype Message = Message(kind: Byte, payload: seq<Byte>)

  // Lengths from 4 up to 2^31 - 2.
  predicate Sendable(m: Message) {
    |m.payload| + 4 <= 0x7fff_fffe
  }

  function Wire(m: Message): seq<Byte> {
    [m.kind] + Encoded(|m.payload| + 4, 4) + m.payload
  }

  predicate AllSendable(ms: seq<Message>) {
    forall i :: 0 <= i < |ms| ==> Sendable(ms[i])
  }

  function Stream(ms: seq<Message>): seq<Byte> {
    if |ms| == 0 then [] else Wire(ms[0]) + Stream(ms[1..])
  }

  function Wires(ms: seq<Message>): seq<seq<Byte>> {
    seq(|ms|, i requires 0 <= i < |ms| => Wire(ms[i]))
  }

  // ---- the length field ----

  lemma EncodedFour(n: nat)
    ensures Encoded(n, 4) == [n / 256 / 256 / 256 % 256, n / 256 / 256 % 256, n / 256 % 256, n % 256]
  {
    var a, b, c := n / 256, n / 256 / 256, n / 256 / 256 / 256;
    assert Encoded(c, 1) == [] + [c % 256] == [c % 256];
    assert Encoded(b, 2) == [c % 256] + [b % 256];
    assert Encoded(a, 3) == [c % 256, b % 256] + [a % 256];
  }

  lemma Digits(n: nat)
    requires n < 0x1_0000_0000
    ensures n / 256 / 256 / 256 < 256
    ensures n == n / 256 / 256 / 256 * 0x100_0000 + n / 256 / 256 % 256 * 0x1_0000 + n / 256 % 256 * 0x100 + n % 256
  {
    var a, b, c := n / 256, n / 256 / 256, n / 256 / 256 / 256;
    assert n == a * 256 + n % 256 && a == b * 256 + a % 256 && b == c * 256 + b % 256;
  }

  /** Reading four bytes gives back the number that was written, or, from 2^31 on, the number less
      2^32. */
  lemma {:induction false} ReadBack(n: nat)
    requires n < 0x1_0000_0000
    ensures var e := Encoded(n, 4);
            |e| == 4 && Be32(e[0], e[1], e[2], e[3]) == if n < 0x8000_0000 then n else n - 0x1_0000_0000
  {
    EncodedFour(n);
    Digits(n);
  }

  lemma WireShape(m: Message, x: seq<Byte>)
    requires Sendable(m)
    ensures var s := Wire(m) + x;
            |Wire(m)| == |m.payload| + 5 && FrameReady(s) && FrameSize(s) == |Wire(m)| &&
            s[..|Wire(m)|] == Wire(m) && s[|Wire(m)|..] == x
  {
    var n := |m.payload| + 4;
    var s := Wire(m) + x;
    ReadBack(n);
    assert s[1] == Encoded(n, 4)[0] && s[2] == Encoded(n, 4)[1] && s[3] == Encoded(n, 4)[2] && s[4] == Encoded(n, 4)[3];
  }

  // ---- the stream ----

  /** The start of a message of which more is to come. */
  ghost predicate Unfinished(s: seq<Byte>) {
    exists m, k :: StartOf(s, m, k)
  }

  predicate StartOf(s: seq<Byte>, m: Message, k: nat) {
    Sendable(m) && k < |Wire(m)| && s == Wire(m)[..k]
  }

  lemma UnfinishedStays(s: seq<Byte>)
    requires Unfinished(s)
    ensures !FrameReady(s) && FramesOf(s) == [] && Leftover(s) == s && WellFramed(s)
  {
    var m, k :| StartOf(s, m, k);
    WireShape(m, []);
    assert Wire(m) + [] == Wire(m);
    if |s| >= HEADER {
      assert s[1] == Wire(m)[1] && s[2] == Wire(m)[2] && s[3] == Wire(m)[3] && s[4] == Wire(m)[4];
    }
  }

  /** Cutting a stream of messages, with the start of another behind them, gives exactly those
      messages, and the start is left. */
  lemma {:induction false} CutMessages(ms: seq<Message>, rest: seq<Byte>)
    requires AllSendable(ms) && Unfinished(rest)
    ensures FramesOf(Stream(ms) + rest) == Wires(ms) && Leftover(Stream(ms) + rest) == rest
    ensures Front(Stream(ms) + rest) == Stream(ms) && WellFramed(Stream(ms) + rest)
    decreases |ms|
  {
    hide FrameReady, Wire, Unfinished, Be32;
    if |ms| == 0 {
      UnfinishedStays(rest);
      assert [] + rest == rest;
    } else {
      var s := Stream(ms) + rest;
      Join3(Wire(ms[0]), Stream(ms[1..]), rest);
      ReadyWire(ms[0], Stream(ms[1..]) + rest);
      CutMessages(ms[1..], rest);
      assert Wires(ms) == [Wire(ms[0])] + Wires(ms[1..]);
    }
  }

  lemma ReadyWire(m: Message, x: seq<Byte>)
    requires Sendable(m)
    ensures var s := Wire(m) + x;
            |s| >= HEADER && SizeOk(s) && FrameReady(s) && FrameSize(s) == |Wire(m)| &&
            s[..FrameSize(s)] == Wire(m) && s[FrameSize(s)..] == x
  {
    WireShape(m, x);
  }

  lemma EmptyIsUnfinished()
    ensures Unfinished([])
  {
    var m := Message(0, []);
    WireShape(m, []);
    assert StartOf([], m, 0);
  }

  /** A whole stream leaves nothing. */
  lemma {:induction false} CutStream(ms: seq<Message>)
    requires AllSendable(ms)
    ensures FramesOf(Stream(ms)) == Wires(ms) && Leftover(Stream(ms)) == [] && Whole(Stream(ms))
  {
    EmptyIsUnfinished();
    CutMessages(ms, []);
    assert Stream(ms) + [] == Stream(ms);
    WholeIsCut(Stream(ms));
  }

  // ---- every frame is a message ----

  // The four bytes of a length field, written again.
  lemma WrittenAgain(a: Byte, b: Byte, c: Byte, d: Byte)
    requires a < 128
    ensures Be32(a, b, c, d) >= 0 && Encoded(Be32(a, b, c, d), 4) == [a, b, c, d]
  {
    var n := Be32(a, b, c, d);
    EncodedFour(n);
    assert n / 256 == a * 0x1_0000 + b * 0x100 + c;
    assert n / 256 / 256 == a * 0x100 + b;
  }

  /** Conversely, what is cut is a message as a sender writes it: there are no other frames. */
  lemma {:induction false} FrameIsMessage(s: seq<Byte>)
    requires FrameReady(s)
    ensures var m := Message(s[0], s[HEADER..FrameSize(s)]);
            Sendable(m) && s[..FrameSize(s)] == Wire(m)
  {
    var n := FrameSize(s);
    WrittenAgain(s[1], s[2], s[3], s[4]);
    assert s[..n] == [s[0]] + [s[1], s[2], s[3], s[4]] + s[HEADER..n];
  }
}
