/** PostgreSQL message framing (Frontend/Backend Protocol 3.0, section 53.1.1): a type byte and a
    four-byte big-endian length that counts itself but not the type byte. */
module Frames {

  type Byte = b: int | 0 <= b < 256

  const HEADER: nat := 5

  // `data[0] << 24 | data[1] << 16 | data[2] << 8 | data[3]` on the 32-bit signed integers.
  function Be32(a: Byte, b: Byte, c: Byte, d: Byte): int {
    (if a < 128 then a else a - 256) * 0x100_0000 + b * 0x1_0000 + c * 0x100 + d
  }

  // The size of the frame that `s` starts with, type byte included.
  function FrameSize(s: seq<Byte>): int
    requires |s| >= HEADER
  {
    Be32(s[1], s[2], s[3], s[4]) + 1
  }

  // The length field is one the protocol allows, and adding one to it does not overflow.
  predicate SizeOk(s: seq<Byte>)
    requires |s| >= HEADER
  {
    HEADER <= FrameSize(s) < 0x8000_0000
  }

  predicate FrameReady(s: seq<Byte>) {
    |s| >= HEADER && SizeOk(s) && FrameSize(s) <= |s|
  }

  /** `s` can be continued to a sequence of frames: no length field in it is malformed. */
  predicate WellFramed(s: seq<Byte>)
    decreases |s|
  {
    |s| >= HEADER ==> SizeOk(s) && (FrameSize(s) <= |s| ==> WellFramed(s[FrameSize(s)..]))
  }

  /** `s` is a sequence of whole frames. */
  predicate Whole(s: seq<Byte>)
    decreases |s|
  {
    |s| > 0 ==> FrameReady(s) && Whole(s[FrameSize(s)..])
  }

  // The whole frames at the front of `s`, and what is left after them.
  function FramesOf(s: seq<Byte>): seq<seq<Byte>>
    decreases |s|
  {
    if FrameReady(s) then [s[..FrameSize(s)]] + FramesOf(s[FrameSize(s)..]) else []
  }

  function Leftover(s: seq<Byte>): (r: seq<Byte>)
    ensures |r| <= |s|
    decreases |s|
  {
    if FrameReady(s) then Leftover(s[FrameSize(s)..]) else s
  }

  function Front(s: seq<Byte>): seq<Byte> {
    s[..|s| - |Leftover(s)|]
  }

  function Flatten(frames: seq<seq<Byte>>): seq<Byte> {
    if |frames| == 0 then [] else frames[0] + Flatten(frames[1..])
  }

  // ---- sequences ----

  lemma DropJoin(a: seq<Byte>, b: seq<Byte>, n: nat)
    requires n <= |a|
    ensures (a + b)[n..] == a[n..] + b && (a + b)[..n] == a[..n]
  {
  }

  lemma Join3(a: seq<Byte>, b: seq<Byte>, c: seq<Byte>)
    ensures a + b + c == a + (b + c)
  {
  }

  // ---- cutting a stream ----

  lemma ReadyInLonger(a: seq<Byte>, b: seq<Byte>)
    requires FrameReady(a)
    ensures FrameReady(a + b) && FrameSize(a + b) == FrameSize(a)
  {
  }

  /** The frames of a stream do not depend on where it is split: cutting the first part, and then
      its leftover with the second part, gives the frames and the leftover of the whole. */
  lemma {:induction false} CutContinues(a: seq<Byte>, b: seq<Byte>)
    ensures FramesOf(a + b) == FramesOf(a) + FramesOf(Leftover(a) + b)
    ensures Leftover(a + b) == Leftover(Leftover(a) + b)
    decreases |a|
  {
    if FrameReady(a) {
      var n := FrameSize(a);
      ReadyInLonger(a, b);
      DropJoin(a, b, n);
      CutContinues(a[n..], b);
      CutJoin([a[..n]], FramesOf(a[n..]), FramesOf(Leftover(a) + b));
    } else {
      assert [] + FramesOf(a + b) == FramesOf(a + b);
    }
  }

  lemma CutJoin(a: seq<seq<Byte>>, b: seq<seq<Byte>>, c: seq<seq<Byte>>)
    ensures a + (b + c) == (a + b) + c
  {
  }

  lemma Slices(s: seq<Byte>, n: nat, m: nat)
    requires n + m <= |s|
    ensures s[n..][m..] == s[n + m..] && s[..n] + s[n..][..m] == s[..n + m]
  {
  }

  lemma {:induction false} LeftoverIsSuffix(s: seq<Byte>)
    ensures Leftover(s) == s[|s| - |Leftover(s)|..]
    decreases |s|
  {
    if FrameReady(s) {
      var tail := s[FrameSize(s)..];
      LeftoverIsSuffix(tail);
      Slices(s, FrameSize(s), |tail| - |Leftover(tail)|);
    }
  }

  // What precedes the leftover is the frames, flattened.
  lemma {:induction false} FrontIsFrames(s: seq<Byte>)
    ensures Flatten(FramesOf(s)) == Front(s)
    decreases |s|
  {
    if FrameReady(s) {
      var tail := s[FrameSize(s)..];
      FrontIsFrames(tail);
      Slices(s, FrameSize(s), |tail| - |Leftover(tail)|);
      FlattenCons(s[..FrameSize(s)], FramesOf(tail));
    }
  }

  lemma FlattenCons(frame: seq<Byte>, frames: seq<seq<Byte>>)
    ensures Flatten([frame] + frames) == frame + Flatten(frames)
  {
    assert ([frame] + frames)[1..] == frames;
  }

  lemma CutParts(s: seq<Byte>)
    ensures s == Front(s) + Leftover(s)
  {
    LeftoverIsSuffix(s);
  }

  /** The leftover is under five bytes or shorter than the size it declares. */
  lemma {:induction false} LeftoverIsShort(s: seq<Byte>)
    requires WellFramed(s)
    ensures |Leftover(s)| < HEADER || FrameSize(Leftover(s)) > |Leftover(s)|
    ensures WellFramed(Leftover(s))
    decreases |s|
  {
    if FrameReady(s) {
      LeftoverIsShort(s[FrameSize(s)..]);
    }
  }

  lemma {:induction false} FrontIsWhole(s: seq<Byte>)
    ensures Whole(Front(s))
    decreases |s|
  {
    if FrameReady(s) {
      var n := FrameSize(s);
      FrontIsWhole(s[n..]);
      var m := |s[n..]| - |Leftover(s[n..])|;
      Slices(s, n, m);
      DropJoin(s[..n], s[n..][..m], n);
      assert Front(s)[n..] == Front(s[n..]);
    }
  }

  lemma {:induction false} WholeIsCut(s: seq<Byte>)
    ensures Whole(s) <==> |Leftover(s)| == 0
    decreases |s|
  {
    if FrameReady(s) {
      WholeIsCut(s[FrameSize(s)..]);
    }
  }

  /** After whole frames a stream continues as on its own. */
  lemma {:induction false} WholeContinues(a: seq<Byte>, b: seq<Byte>)
    requires Whole(a)
    ensures Whole(a + b) <==> Whole(b)
    ensures WellFramed(a + b) <==> WellFramed(b)
    decreases |a|
  {
    if |a| == 0 {
      assert a + b == b;
    } else {
      var n := FrameSize(a);
      ReadyInLonger(a, b);
      DropJoin(a, b, n);
      WholeContinues(a[n..], b);
    }
  }

  lemma {:induction false} LeftoverNotReady(s: seq<Byte>)
    ensures !FrameReady(Leftover(s))
    decreases |s|
  {
    if FrameReady(s) {
      LeftoverNotReady(s[FrameSize(s)..]);
    }
  }

  // The whole frames at the front, cut on their own.
  lemma FrontCut(s: seq<Byte>)
    ensures FramesOf(Front(s)) == FramesOf(s) && Leftover(Front(s)) == []
  {
    FrontIsWhole(s);
    WholeIsCut(Front(s));
    CutContinues(Front(s), Leftover(s));
    CutParts(s);
    LeftoverNotReady(s);
    assert Leftover(Front(s)) + Leftover(s) == Leftover(s);
    assert FramesOf(Front(s)) + [] == FramesOf(Front(s));
  }
}
