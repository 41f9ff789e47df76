/** The first server packet, in which the compression and SSL capabilities are cleared. */
module MySqlHandshake {
  import opened Frames
  import opened MySqlPackets

  // The numbers of the bits 0x20 and 0x800.
  const COMPRESS: nat := 5
  const SSL: nat := 11

  function Strlen(s: seq<Byte>): (n: nat)
    ensures n <= |s|
  {
    if |s| == 0 || s[0] == 0 then 0 else 1 + Strlen(s[1..])
  }

  function Bit(x: nat, k: nat): nat {
    if k == 0 then x % 2 else Bit(x / 2, k - 1)
  }

  // `x & ~(1 << j)`
  function ClearBit(x: nat, j: nat): nat {
    if j == 0 then x - x % 2 else 2 * ClearBit(x / 2, j - 1) + x % 2
  }

  // The length of the version string of a first packet.
  function VersionLength(p: seq<Byte>): nat
    requires |p| > 5
  {
    Strlen(p[5..])
  }

  function Version(p: seq<Byte>): seq<Byte>
    requires |p| > 5
  {
    p[5..5 + VersionLength(p)]
  }

  // The packet that is changed: complete, long enough, with the first flag byte inside.
  predicate Handshake(p: seq<Byte>) {
    |p| > 23 && VersionLength(p) + 20 <= |p|
  }

  // Both flag bytes are inside the packet.
  predicate BothFlags(p: seq<Byte>) {
    |p| > 23 && VersionLength(p) + 20 < |p|
  }

  function ByteAt(p: seq<Byte>, i: nat): Byte {
    if i < |p| then p[i] else 0
  }

  function Flags(p: seq<Byte>): nat
    requires |p| > 5
  {
    ByteAt(p, VersionLength(p) + 20) * 0x100 + ByteAt(p, VersionLength(p) + 19)
  }

  function Rewritten(p: seq<Byte>): seq<Byte>
    requires Handshake(p)
  {
    var low, flags := VersionLength(p) + 19, ClearBit(ClearBit(Flags(p), COMPRESS), SSL);
    var p' := p[low := flags % 0x100];
    if low + 1 < |p| then p'[low + 1 := flags / 0x100 % 0x100] else p'
  }

  lemma {:induction false} ClearsBit(x: nat, j: nat, k: nat)
    ensures Bit(ClearBit(x, j), k) == if k == j then 0 else Bit(x, k)
    ensures ClearBit(x, j) <= x
  {
    var y := ClearBit(x, j);
    if j == 0 {
      assert y / 2 == x / 2;
    } else {
      ClearsBit(x / 2, j - 1, if k > 0 then k - 1 else 0);
      assert y / 2 == ClearBit(x / 2, j - 1);
    }
  }

  // The powers of two up to a byte, each with its exponent.
  predicate Power(m: nat, n: nat) {
    (m == 2 && n == 1) || (m == 4 && n == 2) || (m == 8 && n == 3) || (m == 16 && n == 4) ||
    (m == 32 && n == 5) || (m == 64 && n == 6) || (m == 128 && n == 7) || (m == 256 && n == 8)
  }

  lemma Halved(h: nat, l: nat, m: nat, n: nat)
    requires Power(m, n)
    ensures (h * m + l) % 2 == l % 2
    ensures n == 1 ==> (h * m + l) / 2 == h + l / 2
    ensures n > 1 ==> (h * m + l) / 2 == h * (m / 2) + l / 2 && Power(m / 2, n - 1)
  {
    HalvedBy(h * (m / 2), l);
    assert m == 2 * (m / 2);
    if m == 2 {
    } else if m == 4 {
    } else if m == 8 {
    } else if m == 16 {
    } else if m == 32 {
    } else if m == 64 {
    } else if m == 128 {
    } else {
    }
  }

  lemma HalvedBy(a: nat, l: nat)
    ensures (2 * a + l) / 2 == a + l / 2 && (2 * a + l) % 2 == l % 2
  {
  }

  // The bits of two numbers side by side.
  lemma {:induction false} JoinedBits(h: nat, l: nat, m: nat, n: nat, k: nat)
    requires Power(m, n) && l < m
    ensures k < n ==> Bit(h * m + l, k) == Bit(l, k)
    ensures Bit(h * m + l, k + n) == Bit(h, k)
    decreases n
  {
    Halved(h, l, m, n);
    if n > 1 {
      JoinedBits(h, l / 2, m / 2, n - 1, k);
      if 0 < k < n {
        JoinedBits(h, l / 2, m / 2, n - 1, k - 1);
      }
    }
  }

  lemma TwoBytes(low: Byte, high: Byte)
    ensures var x := high * 0x100 + low; x < 0x1_0000 && x % 0x100 == low && x / 0x100 % 0x100 == high
  {
  }

  lemma Bytes(x: nat)
    requires x < 0x1_0000
    ensures x == x / 0x100 * 0x100 + x % 0x100 && x / 0x100 % 0x100 == x / 0x100
  {
  }

  // The bits of the two bytes of a number.
  lemma ByteBits(x: nat, k: nat)
    requires x < 0x1_0000 && k < 8
    ensures Bit(x % 0x100, k) == Bit(x, k) && Bit(x / 0x100 % 0x100, k) == Bit(x, k + 8)
  {
    hide Bit;
    var l, h := x % 0x100, x / 0x100;
    Bytes(x);
    JoinedBits(h, l, 0x100, 8, k);
  }

  lemma {:induction false} BothCleared(x: nat, k: nat)
    ensures var flags := ClearBit(ClearBit(x, COMPRESS), SSL);
            flags <= x && Bit(flags, k) == if k == COMPRESS || k == SSL then 0 else Bit(x, k)
  {
    hide Bit, ClearBit;
    ClearsBit(x, COMPRESS, k);
    ClearsBit(ClearBit(x, COMPRESS), SSL, k);
  }

  // The bits of the two flag bytes once both flags are cleared.
  lemma {:induction false} FlagsByBytes(low: Byte, high: Byte, k: nat)
    requires k < 8
    ensures var flags := ClearBit(ClearBit(high * 0x100 + low, COMPRESS), SSL);
            flags < 0x1_0000 &&
            Bit(flags % 0x100, k) == (if k == 5 then 0 else Bit(low, k)) &&
            Bit(flags / 0x100 % 0x100, k) == if k == 3 then 0 else Bit(high, k)
  {
    hide Bit, ClearBit;
    var x := high * 0x100 + low;
    var flags := ClearBit(ClearBit(x, COMPRESS), SSL);
    TwoBytes(low, high);
    BothCleared(x, k);
    BothCleared(x, k + 8);
    ByteBits(x, k);
    ByteBits(flags, k);
  }

  predicate Cleared(p: seq<Byte>, i: nat, k: nat)
    requires |p| > 5
  {
    (i == VersionLength(p) + 19 && k == 5) || (i == VersionLength(p) + 20 && k == 3)
  }

  /** The forwarded packet has the compression bit and the SSL bit cleared and is otherwise the
      same, bit for bit. */
  lemma {:induction false} RewrittenBits(p: seq<Byte>, i: nat, k: nat)
    requires BothFlags(p) && i < |p| && k < 8
    ensures |Rewritten(p)| == |p|
    ensures Bit(Rewritten(p)[i], k) == if Cleared(p, i, k) then 0 else Bit(p[i], k)
  {
    hide Bit, Strlen, ClearBit;
    var at := VersionLength(p) + 19;
    FlagsByBytes(p[at], p[at + 1], k);
  }

  /** If the packet ends between the flag bytes only the compression bit can be cleared. */
  lemma {:induction false} RewrittenAtEnd(p: seq<Byte>, i: nat, k: nat)
    requires Handshake(p) && !BothFlags(p) && i < |p| && k < 8
    ensures |Rewritten(p)| == |p|
    ensures Bit(Rewritten(p)[i], k) == if i == |p| - 1 && k == 5 then 0 else Bit(p[i], k)
  {
    hide Bit, Strlen, ClearBit;
    FlagsByBytes(p[|p| - 1], 0, k);
  }

  lemma {:induction false} StrlenMeans(s: seq<Byte>, n: nat)
    requires n <= |s|
    ensures Strlen(s) == n <==> (n < |s| ==> s[n] == 0) && forall i :: 0 <= i < n ==> s[i] != 0
  {
    if |s| > 0 && s[0] != 0 && n > 0 {
      StrlenMeans(s[1..], n - 1);
      assert forall i :: 0 <= i < n - 1 ==> s[1..][i] == s[i + 1];
    }
  }

  // The change lies behind the terminator of the version string.
  lemma VersionStays(p: seq<Byte>)
    requires BothFlags(p)
    ensures VersionLength(Rewritten(p)) == VersionLength(p) && BothFlags(Rewritten(p))
  {
    var n := VersionLength(p);
    var a, b := p[5..], Rewritten(p)[5..];
    assert |a| == |b| && forall i :: 0 <= i <= n ==> b[i] == a[i];
    StrlenMeans(a, n);
    StrlenMeans(b, n);
  }

  /** The client is offered neither capability, and all others are as the server offered them. */
  lemma {:induction false} OfferedFlags(p: seq<Byte>)
    requires BothFlags(p)
    ensures BothFlags(Rewritten(p)) && PacketSize(Rewritten(p)) == PacketSize(p)
    ensures Flags(Rewritten(p)) == ClearBit(ClearBit(Flags(p), COMPRESS), SSL)
    ensures Bit(Flags(Rewritten(p)), COMPRESS) == 0 && Bit(Flags(Rewritten(p)), SSL) == 0
  {
    VersionStays(p);
    hide Strlen, ClearBit, Bit;
    var at := VersionLength(p) + 19;
    var flags := ClearBit(ClearBit(Flags(p), COMPRESS), SSL);
    TwoBytes(p[at], p[at + 1]);
    BothCleared(Flags(p), COMPRESS);
    BothCleared(Flags(p), SSL);
    Bytes(flags);
  }

  // ---- the layout of a greeting ----

  /** What a server sends first, as the protocol lays it out: the packet's prefix, the protocol
      version, the version string and its terminator, four bytes of thread number, eight of scramble
      and a zero, two flag bytes, and the rest. */
  datatype Greeting = Greeting(prefix: seq<Byte>, protocol: Byte, version: seq<Byte>, thread: seq<Byte>,
                               scramble: seq<Byte>, low: Byte, high: Byte, rest: seq<Byte>)

  predicate LaidOut(g: Greeting) {
    |g.prefix| == 4 && 0 !in g.version && |g.thread| == 4 && |g.scramble| == 8
  }

  function Front(g: Greeting): seq<Byte> {
    g.prefix + [g.protocol] + g.version + [0] + g.thread + g.scramble + [0]
  }

  function Laid(g: Greeting): seq<Byte> {
    Front(g) + [g.low, g.high] + g.rest
  }

  lemma VersionFound(g: Greeting)
    requires LaidOut(g)
    ensures |Front(g)| == |g.version| + 19 && |Laid(g)| == |g.version| + 21 + |g.rest|
    ensures VersionLength(Laid(g)) == |g.version| && Version(Laid(g)) == g.version
    ensures Laid(g)[|g.version| + 19] == g.low && Laid(g)[|g.version| + 20] == g.high
  {
    var p, n := Laid(g), |g.version|;
    forall i | 0 <= i < n
      ensures p[5..][i] == g.version[i] && g.version[i] != 0
    {
      assert g.version[i] in g.version;
    }
    assert p[5..][n] == 0;
    StrlenMeans(p[5..], n);
    assert p[5..5 + n] == g.version;
  }

  /** A greeting is changed exactly when its version string and what follows the flags have more
      than two bytes together; and then only in the two flag bytes: bit 5 of the low one and bit 3
      of the high one are cleared. */
  lemma {:induction false} LaidOutRewritten(g: Greeting)
    requires LaidOut(g)
    ensures Handshake(Laid(g)) <==> |g.version| + |g.rest| > 2
    ensures Handshake(Laid(g)) ==>
              exists low, high :: Rewritten(Laid(g)) == Laid(g.(low := low, high := high)) && Tamed(g, low, high)
  {
    VersionFound(g);
    if Handshake(Laid(g)) {
      hide Bit, ClearBit, Strlen;
      var p, r := Laid(g), Rewritten(Laid(g));
      var at := |g.version| + 19;
      var low, high := r[at], r[at + 1];
      forall k | 0 <= k < 8
        ensures Bit(low, k) == (if k == 5 then 0 else Bit(g.low, k))
        ensures Bit(high, k) == (if k == 3 then 0 else Bit(g.high, k))
      {
        FlagsByBytes(g.low, g.high, k);
      }
      assert r == Laid(g.(low := low, high := high));
      assert Tamed(g, low, high);
    }
  }

  predicate Tamed(g: Greeting, low: Byte, high: Byte) {
    forall k :: 0 <= k < 8 ==>
      Bit(low, k) == (if k == 5 then 0 else Bit(g.low, k)) && Bit(high, k) == if k == 3 then 0 else Bit(g.high, k)
  }

  // ---- the greeting in chunks ----

  // What a call passes on before the client's first packet, when it finds `s`.
  function GreetingOut(s: seq<Byte>): seq<Byte> {
    if Handshake(s) && PacketSize(s) == |s| then Rewritten(s) else PassedOn(s, Opening)
  }

  function GreetingHeld(s: seq<Byte>): seq<Byte> {
    if Handshake(s) && PacketSize(s) == |s| then [] else HeldBack(s, Opening)
  }

  // The first bytes passed on by calls that each find one more chunk, and what is then held.
  function FirstOut(held: seq<Byte>, chunks: seq<seq<Byte>>): (seq<Byte>, seq<Byte>)
    decreases |chunks|
  {
    if |chunks| == 0 then ([], held)
    else
      var s := held + chunks[0];
      var out := GreetingOut(s);
      if |out| > 0 then (out, GreetingHeld(s)) else FirstOut(s, chunks[1..])
  }

  predicate FindsFiveOrSix(held: seq<Byte>, chunks: seq<seq<Byte>>)
    decreases |chunks|
  {
    |chunks| > 0 &&
    (5 <= |held| + |chunks[0]| <= 6 || FindsFiveOrSix(held + chunks[0], chunks[1..]))
  }

  predicate NoneEmpty(chunks: seq<seq<Byte>>) {
    forall i :: 0 <= i < |chunks| ==> |chunks[i]| > 0
  }

  // What calls find before the greeting is complete.
  lemma GreetingStart(g: seq<Byte>, n: nat)
    requires Handshake(g) && PacketSize(g) == |g| && n < |g|
    ensures GreetingOut(g[..n]) == if HEADER <= n < INSPECTED then g[..n] else []
    ensures HEADER <= n < INSPECTED ==> GreetingHeld(g[..n]) == []
    ensures n >= PREFIX ==> PacketSize(g[..n]) > n
  {
    if n >= PREFIX {
      PrefixSize(g, n);
    }
  }

  /** However the greeting is chunked, it comes out rewritten, at once and with nothing held, exactly
      when no call finds five or six bytes of it. Such a call passes them on unchanged, and the rest
      is no longer taken for a greeting. */
  lemma {:induction false} GreetingExactlyWhen(g: seq<Byte>, held: seq<Byte>, chunks: seq<seq<Byte>>)
    requires Handshake(g) && PacketSize(g) == |g| && NoneEmpty(chunks)
    requires held + Flatten(chunks) == g && |held| < |g|
    ensures var (out, left) := FirstOut(held, chunks);
            left == [] && (out == Rewritten(g) <==> !FindsFiveOrSix(held, chunks)) &&
            (FindsFiveOrSix(held, chunks) ==> 5 <= |out| <= 6 && out == g[..|out|])
    decreases |chunks|
  {
    hide Rewritten, Handshake, PassedOn, HeldBack, GreetingOut, GreetingHeld;
    LongGreeting(g);
    if |chunks| == 0 {
      assert false;
    }
    var s, rest := held + chunks[0], chunks[1..];
    Join3(held, chunks[0], Flatten(rest));
    assert g == s + Flatten(rest);
    if |s| < |g| {
      assert s == g[..|s|];
      GreetingStart(g, |s|);
      if GreetingOut(s) == [] {
        GreetingExactlyWhen(g, s, rest);
      }
    } else {
      assert s == g && |Flatten(rest)| == 0;
      AllTaken(rest);
    }
  }

  lemma LongGreeting(g: seq<Byte>)
    requires Handshake(g) && PacketSize(g) == |g|
    ensures |g| > 23 && |Rewritten(g)| == |g| && GreetingOut(g) == Rewritten(g) && GreetingHeld(g) == []
  {
  }

  lemma AllTaken(chunks: seq<seq<Byte>>)
    requires NoneEmpty(chunks) && |Flatten(chunks)| == 0
    ensures |chunks| == 0
  {
  }
}
