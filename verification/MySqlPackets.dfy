/** MySQL server packets: a three-byte little-endian length, a sequence byte and the payload. The
    loops take whole packets off a buffer. */
module MySqlPackets {
  import opened Frames

  const PREFIX: nat := 4
  // `start + 5 < full_size`: the loops look for another packet only in more than this.
  const TAIL: nat := 5

  // The packet that `s` starts with, prefix included.
  function PacketSize(s: seq<Byte>): nat
    requires |s| >= PREFIX
  {
    s[2] * 0x1_0000 + s[1] * 0x100 + s[0] + PREFIX
  }

  /** `s` is a sequence of whole packets. */
  predicate Packets(s: seq<Byte>)
    decreases |s|
  {
    |s| > 0 ==> |s| >= PREFIX && PacketSize(s) <= |s| && Packets(s[PacketSize(s)..])
  }

  // What the loops take off a buffer.
  function Taken(s: seq<Byte>): (n: nat)
    requires |s| >= PREFIX
    ensures n <= |s|
    decreases |s|
  {
    var n := PacketSize(s);
    if n > |s| then 0
    else if |s| - n <= TAIL then n
    else n + Taken(s[n..])
  }

  // One round of the loops, at `start`.
  lemma TakenFrom(s: seq<Byte>, start: nat)
    requires start + PREFIX <= |s|
    ensures var next := start + PacketSize(s[start..]);
            Taken(s[start..]) ==
            if next > |s| then 0
            else if |s| - next <= TAIL then next - start
            else next - start + Taken(s[next..])
  {
    var n := PacketSize(s[start..]);
    if start + n <= |s| {
      assert s[start..][n..] == s[start + n..];
    }
  }

  lemma PrefixSize(s: seq<Byte>, n: nat)
    requires PREFIX <= n <= |s|
    ensures PacketSize(s[..n]) == PacketSize(s)
  {
  }

  // What is left is too short for the loop to look at, or an incomplete packet.
  predicate Rests(s: seq<Byte>) {
    |s| <= TAIL || PacketSize(s) > |s|
  }

  /** What is taken is whole packets, and as many as the loops can see. */
  lemma {:induction false} TakenIsPackets(s: seq<Byte>)
    requires |s| >= PREFIX
    ensures Packets(s[..Taken(s)])
    ensures Rests(s[Taken(s)..])
    decreases |s|
  {
    var n := PacketSize(s);
    if n > |s| {
      assert s[0..] == s;
    } else {
      var k := Taken(s);
      PrefixSize(s, k);
      assert s[..k][n..] == s[n..k];
      if |s| - n > TAIL {
        var rest := s[n..];
        TakenIsPackets(rest);
        assert s[n..k] == rest[..Taken(rest)] && s[k..] == rest[Taken(rest)..];
      }
    }
  }

  function LastSize(s: seq<Byte>): nat
    requires |s| > 0 && Packets(s)
    decreases |s|
  {
    var n := PacketSize(s);
    if n == |s| then n else LastSize(s[n..])
  }

  /** A buffer of whole packets is emptied exactly when it holds one packet or its last packet has
      more than one byte of payload. Otherwise that last packet stays until more bytes come. */
  lemma {:induction false} EmptiedExactlyWhen(s: seq<Byte>)
    requires |s| > 0 && Packets(s)
    ensures Taken(s) == |s| <==> PacketSize(s) == |s| || LastSize(s) > TAIL
    decreases |s|
  {
    var n := PacketSize(s);
    if n < |s| {
      var rest := s[n..];
      if |rest| > TAIL {
        EmptiedExactlyWhen(rest);
      } else {
        var m := PacketSize(rest);
        assert Packets(rest[m..]) && |rest[m..]| < PREFIX;
        assert m == |rest|;
      }
    }
  }

  lemma {:induction false} PacketsJoin(a: seq<Byte>, b: seq<Byte>)
    requires Packets(a) && Packets(b)
    ensures Packets(a + b)
    decreases |a|
  {
    if |a| == 0 {
      assert a + b == b;
    } else {
      var n := PacketSize(a);
      DropJoin(a, b, n);
      assert PacketSize(a + b) == n;
      PacketsJoin(a[n..], b);
    }
  }

  /** A one-byte packet and an old end-of-rows packet, five bytes each and both complete: the
      second one stays behind. */
  lemma LastPacketStays()
    ensures var s: seq<Byte> := [1, 0, 0, 0, 0, 1, 0, 0, 1, 254];
            Packets(s) && PassedOn(s, Pass) == s[..5] && HeldBack(s, Pass) == s[5..] && Packets(s[5..])
  {
    var s: seq<Byte> := [1, 0, 0, 0, 0, 1, 0, 0, 1, 254];
    var t := s[5..];
    assert t == [1, 0, 0, 1, 254];
    assert PacketSize(s) == 5 && PacketSize(t) == 5 && t[5..] == [];
    assert Taken(s) == 5;
  }

  // ---- chunks, outside the handshake ----

  /** How a call treats the buffer: it looks at nothing, it inspects packets, or it inspects them in
      the opening exchange: the server's greeting, or the answer to the client's first packet. */
  datatype Mode = Pass | Inspect | Opening

  datatype Call = Call(chunk: seq<Byte>, mode: Mode)

  // What is too little for the second loop.
  const INSPECTED: nat := 7

  // One call that finds `s` in the buffer: what it passes on.
  function PassedOn(s: seq<Byte>, mode: Mode): seq<Byte> {
    if |s| < HEADER then []
    else if mode.Pass? || |s| >= INSPECTED then s[..Taken(s)]
    else if mode.Opening? then s
    else []
  }

  function HeldBack(s: seq<Byte>, mode: Mode): seq<Byte> {
    s[|PassedOn(s, mode)|..]
  }

  // The bytes passed on by calls that each find one more chunk, and the bytes still held.
  function Forwarded(held: seq<Byte>, calls: seq<Call>): (seq<Byte>, seq<Byte>)
    decreases |calls|
  {
    if |calls| == 0 then ([], held)
    else
      var s := held + calls[0].chunk;
      var (out, left) := Forwarded(HeldBack(s, calls[0].mode), calls[1..]);
      (PassedOn(s, calls[0].mode) + out, left)
  }

  function Chunks(calls: seq<Call>): seq<Byte> {
    if |calls| == 0 then [] else calls[0].chunk + Chunks(calls[1..])
  }

  // In the opening exchange five or six bytes are passed on as they are.
  predicate Tears(s: seq<Byte>, mode: Mode) {
    mode.Opening? && 5 <= |s| <= 6 && !Packets(s)
  }

  predicate AnyTears(held: seq<Byte>, calls: seq<Call>)
    decreases |calls|
  {
    |calls| > 0 &&
    var s := held + calls[0].chunk;
    Tears(s, calls[0].mode) || AnyTears(HeldBack(s, calls[0].mode), calls[1..])
  }

  predicate AllPass(calls: seq<Call>) {
    forall i :: 0 <= i < |calls| ==> calls[i].mode.Pass?
  }

  lemma PassedOnSplits(s: seq<Byte>, mode: Mode)
    ensures PassedOn(s, mode) + HeldBack(s, mode) == s
    ensures Packets(PassedOn(s, mode)) <==> !Tears(s, mode)
    ensures var left := HeldBack(s, mode); |left| < INSPECTED || PacketSize(left) > |left|
    ensures mode.Pass? ==> Rests(HeldBack(s, mode))
  {
    if |s| >= HEADER {
      TakenIsPackets(s);
    }
  }

  /** However the stream is chunked and whatever the mode of each call, nothing is lost or reordered;
      and only whole packets are passed on, unless a call finds five or six bytes in the opening
      exchange. The one packet that is changed on the way is not among these calls. */
  lemma {:induction false} ForwardsPackets(held: seq<Byte>, calls: seq<Call>)
    ensures var (out, left) := Forwarded(held, calls);
            out + left == held + Chunks(calls) && (!AnyTears(held, calls) ==> Packets(out))
    decreases |calls|
  {
    hide Packets, PassedOn, HeldBack, Tears;
    if |calls| == 0 {
      EmptyIsPackets();
      assert held + [] == held && [] + held == held;
    } else {
      var mode, s, rest := calls[0].mode, held + calls[0].chunk, calls[1..];
      var (out, left) := Forwarded(HeldBack(s, mode), rest);
      PassedOnSplits(s, mode);
      ForwardsPackets(HeldBack(s, mode), rest);
      if !AnyTears(held, calls) {
        PacketsJoin(PassedOn(s, mode), out);
      }
      Join3(PassedOn(s, mode), out, left);
      Join3(PassedOn(s, mode), HeldBack(s, mode), Chunks(rest));
      Join3(held, calls[0].chunk, Chunks(rest));
    }
  }

  /** What calls hold back is under seven bytes or an incomplete packet; where nothing is to be
      inspected, at most five bytes or an incomplete packet, and no packet is torn. */
  lemma {:induction false} HoldsLittle(held: seq<Byte>, calls: seq<Call>)
    requires |calls| > 0
    ensures var (_, left) := Forwarded(held, calls);
            (|left| < INSPECTED || PacketSize(left) > |left|) && (AllPass(calls) ==> Rests(left))
    ensures AllPass(calls) ==> !AnyTears(held, calls)
    decreases |calls|
  {
    hide Packets, PassedOn, HeldBack, Rests;
    var mode, s, rest := calls[0].mode, held + calls[0].chunk, calls[1..];
    PassedOnSplits(s, mode);
    assert AllPass(calls) ==> mode.Pass? && AllPass(rest);
    if |rest| > 0 {
      HoldsLittle(HeldBack(s, mode), rest);
    }
  }

  /** The start of a packet, torn: it is passed on although the packet is not complete. */
  lemma OpeningTorn()
    ensures var s: seq<Byte> := [7, 0, 0, 2, 0];
            Forwarded([], [Call(s, Opening)]).0 == s && AnyTears([], [Call(s, Opening)]) && !Packets(s)
  {
    var s: seq<Byte> := [7, 0, 0, 2, 0];
    assert [] + s == s && PacketSize(s) == 11 && s + [] == s;
  }

  lemma EmptyIsPackets()
    ensures Packets([])
  {
  }

  // ---- packets as a sender writes them ----

  // `n` in `k` bytes, the least significant first.
  function LittleEndian(n: nat, k: nat): seq<Byte> {
    if k == 0 then [] else [n % 256] + LittleEndian(n / 256, k - 1)
  }

  datatype Packet = Packet(number: Byte, payload: seq<Byte>)

  predicate Sendable(p: Packet) {
    |p.payload| < 0x100_0000
  }

  function Wire(p: Packet): seq<Byte> {
    LittleEndian(|p.payload|, 3) + [p.number] + p.payload
  }

  function Stream(ps: seq<Packet>): seq<Byte> {
    if |ps| == 0 then [] else Wire(ps[0]) + Stream(ps[1..])
  }

  predicate AllSendable(ps: seq<Packet>) {
    forall i :: 0 <= i < |ps| ==> Sendable(ps[i])
  }

  lemma ThreeBytes(n: nat)
    requires n < 0x100_0000
    ensures LittleEndian(n, 3) == [n % 256, n / 256 % 256, n / 256 / 256]
    ensures n == n / 256 / 256 * 0x1_0000 + n / 256 % 256 * 0x100 + n % 256
  {
    var a, b := n / 256, n / 256 / 256;
    assert LittleEndian(b, 1) == [b % 256] + [] == [b];
    assert LittleEndian(a, 2) == [a % 256] + [b];
    assert n == a * 256 + n % 256 && a == b * 256 + a % 256;
  }

  /** The size that is read off a packet is the size it has. */
  lemma {:induction false} SizeRead(p: Packet, x: seq<Byte>)
    requires Sendable(p)
    ensures var s := Wire(p) + x;
            |Wire(p)| == |p.payload| + 4 && PacketSize(s) == |Wire(p)| &&
            s[..|Wire(p)|] == Wire(p) && s[|Wire(p)|..] == x
  {
    ThreeBytes(|p.payload|);
    var s, e := Wire(p) + x, LittleEndian(|p.payload|, 3);
    assert s[0] == e[0] && s[1] == e[1] && s[2] == e[2];
  }

  /** Conversely, what is cut off is a packet as a sender writes it. */
  lemma {:induction false} CutIsPacket(s: seq<Byte>)
    requires |s| >= PREFIX && PacketSize(s) <= |s|
    ensures var p := Packet(s[3], s[PREFIX..PacketSize(s)]); Sendable(p) && s[..PacketSize(s)] == Wire(p)
  {
    var n := PacketSize(s);
    var p := Packet(s[3], s[PREFIX..n]);
    ThreeBytes(n - PREFIX);
    var low: int, mid: int, high: int := s[0], s[1], s[2];
    assert n - PREFIX == (high * 0x100 + mid) * 0x100 + low;
    assert (n - PREFIX) % 256 == low && (n - PREFIX) / 256 == high * 0x100 + mid;
    assert s[..n] == [s[0], s[1], s[2]] + [s[3]] + s[PREFIX..n];
  }

  /** The start of a packet of which more is to come. */
  ghost predicate Unfinished(s: seq<Byte>) {
    exists p, k :: StartOf(s, p, k)
  }

  predicate StartOf(s: seq<Byte>, p: Packet, k: nat) {
    Sendable(p) && k < |Wire(p)| && s == Wire(p)[..k]
  }

  lemma UnfinishedSize(s: seq<Byte>)
    requires Unfinished(s) && |s| >= PREFIX
    ensures PacketSize(s) > |s|
  {
    var p, k :| StartOf(s, p, k);
    SizeRead(p, []);
    assert Wire(p) + [] == Wire(p);
    PrefixSize(Wire(p), k);
  }

  // The packets a loop can see: not a last one that ends the buffer within five bytes of another.
  function Seen(ps: seq<Packet>, rest: seq<Byte>): nat {
    var n := |ps|;
    if n > 1 && |Wire(ps[n - 1])| + |rest| <= 5 then n - 1 else n
  }

  /** From a buffer of packets and the start of another exactly the packets are taken, in order,
      except a last one that is not the first and ends, with that start, within five bytes. */
  lemma {:induction false} TakesPackets(ps: seq<Packet>, rest: seq<Byte>)
    requires AllSendable(ps) && Unfinished(rest) && |Stream(ps) + rest| >= PREFIX
    ensures var s := Stream(ps) + rest; s[..Taken(s)] == Stream(ps[..Seen(ps, rest)])
    decreases |ps|
  {
    hide Wire, Unfinished;
    var s := Stream(ps) + rest;
    if |ps| == 0 {
      assert s == rest;
      UnfinishedSize(rest);
    } else {
      var first, tail := Wire(ps[0]), ps[1..];
      var r := Stream(tail) + rest;
      Join3(first, Stream(tail), rest);
      SizeRead(ps[0], r);
      FirstOnly(ps[0]);
      if |r| > TAIL {
        TakesPackets(tail, rest);
        SeenTail(ps, rest);
        assert s[..Taken(s)] == first + r[..Taken(r)];
      } else {
        ShortTail(tail, rest);
        if |tail| > 0 {
          assert ps[1] == tail[0];
        }
        assert ps[..1] == [ps[0]] && (|ps| == 1 ==> ps[..|ps|] == [ps[0]]);
        assert s[..|first|] == first;
      }
    }
  }

  lemma FirstOnly(p: Packet)
    ensures Stream([p]) == Wire(p)
  {
    assert [p][1..] == [];
    assert Wire(p) + [] == Wire(p);
  }

  lemma SeenTail(ps: seq<Packet>, rest: seq<Byte>)
    requires |ps| > 0 && AllSendable(ps) && |Stream(ps[1..]) + rest| > TAIL
    ensures var tail := ps[1..];
            Seen(ps, rest) == 1 + Seen(tail, rest) &&
            Stream(ps[..Seen(ps, rest)]) == Wire(ps[0]) + Stream(tail[..Seen(tail, rest)])
  {
    var tail := ps[1..];
    hide Wire;
    if |tail| > 0 {
      assert tail[|tail| - 1] == ps[|ps| - 1];
    }
    if |tail| == 1 {
      FirstOnly(tail[0]);
      assert tail == [tail[0]];
    }
    var k := Seen(ps, rest);
    assert ps[..k][1..] == tail[..k - 1];
  }

  lemma ShortTail(tail: seq<Packet>, rest: seq<Byte>)
    requires AllSendable(tail) && |Stream(tail) + rest| <= TAIL
    ensures |tail| <= 1 && (|tail| == 1 ==> Stream(tail) == Wire(tail[0]))
  {
    FourEach(tail);
    if |tail| == 1 {
      assert tail == [tail[0]];
      FirstOnly(tail[0]);
    }
  }

  lemma {:induction false} FourEach(ps: seq<Packet>)
    requires AllSendable(ps)
    ensures |Stream(ps)| >= 4 * |ps|
  {
    if |ps| > 0 {
      SizeRead(ps[0], []);
      FourEach(ps[1..]);
    }
  }
}
