/** Texts whose comments end inside them: the comment passes treat them on their own, and what a
    comment says does not matter. */
module CommentParts {
  import opened Text
  import opened Comments

  // ---- comments that end inside a text ----

  // The scan in the text after an opening marker stops at a closing one.
  predicate Closed(t: string) {
    var k := BlockStop(t); k + 1 < |t| && t[k] == '*' && t[k + 1] == '/'
  }

  predicate BlocksInside(p: string)
    decreases |p|
  {
    |p| < 2 ||
    if BlockOpening(p) then Closed(p[2..]) && BlocksInside(['*'] + AfterBlockOpening(p[2..]))
    else BlocksInside(p[1..])
  }

  predicate HashesInside(p: string)
    decreases |p|
  {
    |p| == 0 ||
    if p[0] == '#' then |AfterLine(p[1..])| > 0 && HashesInside(AfterLine(p[1..])) else HashesInside(p[1..])
  }

  predicate DashesInside(p: string)
    decreases |p|
  {
    |p| < 2 ||
    if DashMarker(p) then |AfterLine(p[2..])| > 0 && DashesInside(['-'] + AfterLine(p[2..])) else DashesInside(p[1..])
  }

  /** Every block is closed in `p`, and every line comment is followed by a line that is not empty. */
  predicate CommentsInside(p: string) {
    BlocksInside(p) && HashesInside(StripBlocks(p)) && DashesInside(StripHashes(StripBlocks(p)))
  }

  // No marker arises where `p` and `x` meet.
  predicate Apart(p: string, x: string) {
    |p| > 0 && |x| > 0 ==> !(p[|p| - 1] == '/' && x[0] == '*') && !(p[|p| - 1] == '-' && x[0] == '-')
  }

  // A text that starts and ends as another.
  predicate SameEnds(p: string, r: string) {
    if |p| == 0 then |r| == 0 else |r| > 0 && r[0] == p[0] && r[|r| - 1] == p[|p| - 1]
  }

  lemma {:induction false} StopInside(t: string, x: string)
    requires Closed(t)
    ensures BlockStop(t + x) == BlockStop(t)
  {
    assert (t + x)[0] == t[0] && (t + x)[1] == t[1];
    if t[0] != '*' && t[1] != '/' {
      assert (t + x)[1..] == t[1..] + x;
      StopInside(t[1..], x);
    }
  }

  lemma BlockSplit(t: string, x: string)
    requires Closed(t)
    ensures AfterBlockOpening(t + x) == AfterBlockOpening(t) + x
    ensures SameLast(t, AfterBlockOpening(t))
  {
    var k := BlockStop(t);
    StopInside(t, x);
    assert (t + x)[k] == t[k] && (t + x)[k + 1] == t[k + 1];
    assert (t + x)[k..] == t[k..] + x;
    assert [' '] + (t[k..] + x) == [' '] + t[k..] + x;
  }

  predicate SameLast(p: string, r: string) {
    |p| > 0 && |r| > 0 && p[|p| - 1] == r[|r| - 1]
  }

  lemma LineSplit(s: string, x: string)
    requires |AfterLine(s)| > 0
    ensures AfterLine(s + x) == AfterLine(s) + x
    ensures SameLast(s, AfterLine(s))
  {
    var n := LineLength(s);
    var m := NewlineRun(s[n..]);
    LineLengthSplit(s, x);
    NewlineRunSplit(s[n..], x);
    assert (s + x)[n..] == s[n..] + x;
    assert (s[n..] + x)[m..] == s[n..][m..] + x;
  }

  lemma {:induction false} LineLengthSplit(s: string, x: string)
    requires LineLength(s) < |s|
    ensures LineLength(s + x) == LineLength(s)
  {
    Uncons(s, x);
    if !Newline(s[0]) {
      LineLengthSplit(s[1..], x);
    }
  }

  lemma {:induction false} NewlineRunSplit(s: string, x: string)
    requires NewlineRun(s) < |s|
    ensures NewlineRun(s + x) == NewlineRun(s)
  {
    Uncons(s, x);
    if Newline(s[0]) {
      NewlineRunSplit(s[1..], x);
    }
  }

  // ---- the passes on their own part ----

  lemma Glued(c: char, r: string, y: string)
    ensures [c] + (r + y) == ([c] + r) + y
  {
  }

  // What follows the first one or two characters of a longer text.
  lemma Tails(p: string, x: string)
    requires |p| > 1
    ensures (p + x)[0] == p[0] && (p + x)[1] == p[1] && (p + x)[1..] == p[1..] + x && (p + x)[2..] == p[2..] + x
  {
  }

  lemma BlockStep(s: string)
    requires |s| > 0
    ensures StripBlocks(s) ==
            if BlockOpening(s) then ['/'] + StripBlocks(['*'] + AfterBlockOpening(s[2..]))
            else [s[0]] + StripBlocks(s[1..])
  {
    if |s| == 1 {
      assert s == [s[0]] + s[1..];
    }
  }

  lemma {:induction false} BlocksSplit(p: string, x: string)
    requires BlocksInside(p) && Apart(p, x)
    ensures StripBlocks(p + x) == StripBlocks(p) + StripBlocks(x)
    ensures SameEnds(p, StripBlocks(p))
    decreases |p|
  {
    if |p| == 0 {
      assert p + x == x;
    } else if |p| == 1 {
      BlockStep(p);
      BlockStep(p + x);
      OneLeft(p, x);
      assert StripBlocks(p[1..]) == [];
    } else {
      hide StripBlocks, Closed, AfterBlockOpening, SameEnds;
      if BlockOpening(p) {
        BlockSplit(p[2..], x);
        BlocksSplit(['*'] + AfterBlockOpening(p[2..]), x);
        BlocksSplitMarker(p, x);
      } else {
        BlocksSplit(p[1..], x);
        BlocksSplitPlain(p, x);
      }
    }
  }

  lemma {:induction false} BlocksSplitMarker(p: string, x: string)
    requires BlockOpening(p) && Closed(p[2..])
    requires var q := ['*'] + AfterBlockOpening(p[2..]);
             StripBlocks(q + x) == StripBlocks(q) + StripBlocks(x) && SameEnds(q, StripBlocks(q))
    ensures StripBlocks(p + x) == StripBlocks(p) + StripBlocks(x)
    ensures SameEnds(p, StripBlocks(p))
  {
    var r := AfterBlockOpening(p[2..]);
    BlockStep(p);
    BlockStep(p + x);
    Tails(p, x);
    BlockSplit(p[2..], x);
    hide StripBlocks, Closed, AfterBlockOpening;
    Glued('*', r, x);
    Glued('/', StripBlocks(['*'] + r), StripBlocks(x));
  }

  lemma BlocksSplitPlain(p: string, x: string)
    requires |p| > 1 && !BlockOpening(p)
    requires StripBlocks(p[1..] + x) == StripBlocks(p[1..]) + StripBlocks(x) && SameEnds(p[1..], StripBlocks(p[1..]))
    ensures StripBlocks(p + x) == StripBlocks(p) + StripBlocks(x)
    ensures SameEnds(p, StripBlocks(p))
  {
    BlockStep(p);
    BlockStep(p + x);
    Tails(p, x);
    hide StripBlocks;
    Glued(p[0], StripBlocks(p[1..]), StripBlocks(x));
  }

  lemma OneLeft(p: string, x: string)
    requires |p| == 1
    ensures (p + x)[0] == p[0] && (p + x)[1..] == x && |p[1..]| == 0 && [p[0]] + [] == p == [p[0]]
    ensures |x| > 0 ==> (p + x)[1] == x[0]
  {
  }

  lemma {:induction false} HashesSplit(p: string, x: string)
    requires HashesInside(p)
    ensures StripHashes(p + x) == StripHashes(p) + StripHashes(x)
    ensures SameEnds(p, StripHashes(p))
    decreases |p|
  {
    if |p| == 0 {
      assert p + x == x;
    } else {
      Uncons(p, x);
      var t := p[1..];
      if p[0] == '#' {
        LineSplit(t, x);
        HashesSplit(AfterLine(t), x);
        Glued('#', StripHashes(AfterLine(t)), StripHashes(x));
      } else {
        HashesSplit(t, x);
        Glued(p[0], StripHashes(t), StripHashes(x));
      }
    }
  }

  lemma DashStep(s: string)
    requires |s| > 0
    ensures StripDashes(s) ==
            if DashMarker(s) then ['-'] + StripDashes(['-'] + AfterLine(s[2..])) else [s[0]] + StripDashes(s[1..])
  {
    if |s| == 1 {
      assert s == [s[0]] + s[1..];
    }
  }

  lemma {:induction false} DashesSplit(p: string, x: string)
    requires DashesInside(p) && Apart(p, x)
    ensures StripDashes(p + x) == StripDashes(p) + StripDashes(x)
    ensures SameEnds(p, StripDashes(p))
    decreases |p|
  {
    if |p| == 0 {
      assert p + x == x;
    } else if |p| == 1 {
      DashStep(p);
      DashStep(p + x);
      OneLeft(p, x);
      assert StripDashes(p[1..]) == [];
    } else {
      hide StripDashes, AfterLine, SameEnds;
      if DashMarker(p) {
        LineSplit(p[2..], x);
        DashesSplit(['-'] + AfterLine(p[2..]), x);
        DashesSplitMarker(p, x);
      } else {
        DashesSplit(p[1..], x);
        DashesSplitPlain(p, x);
      }
    }
  }

  lemma {:induction false} DashesSplitMarker(p: string, x: string)
    requires DashMarker(p) && |AfterLine(p[2..])| > 0
    requires var q := ['-'] + AfterLine(p[2..]);
             StripDashes(q + x) == StripDashes(q) + StripDashes(x) && SameEnds(q, StripDashes(q))
    ensures StripDashes(p + x) == StripDashes(p) + StripDashes(x)
    ensures SameEnds(p, StripDashes(p))
  {
    var r := AfterLine(p[2..]);
    DashStep(p);
    DashStep(p + x);
    Tails(p, x);
    LineSplit(p[2..], x);
    hide StripDashes, AfterLine;
    Glued('-', r, x);
    Glued('-', StripDashes(['-'] + r), StripDashes(x));
  }

  lemma DashesSplitPlain(p: string, x: string)
    requires |p| > 1 && !DashMarker(p)
    requires StripDashes(p[1..] + x) == StripDashes(p[1..]) + StripDashes(x) && SameEnds(p[1..], StripDashes(p[1..]))
    ensures StripDashes(p + x) == StripDashes(p) + StripDashes(x)
    ensures SameEnds(p, StripDashes(p))
  {
    DashStep(p);
    DashStep(p + x);
    Tails(p, x);
    hide StripDashes;
    Glued(p[0], StripDashes(p[1..]), StripDashes(x));
  }

  lemma {:induction false} FirstKept(x: string)
    ensures |StripBlocks(x)| == 0 <==> |x| == 0
    ensures |x| > 0 ==> StripBlocks(x)[0] == x[0]
    ensures |StripHashes(x)| == 0 <==> |x| == 0
    ensures |x| > 0 ==> StripHashes(x)[0] == x[0]
    ensures |StripDashes(x)| == 0 <==> |x| == 0
    ensures |x| > 0 ==> StripDashes(x)[0] == x[0]
  {
  }

  /** The comment passes treat a text whose comments end in it on its own. */
  lemma {:induction false} CommentsSplit(p: string, x: string)
    requires CommentsInside(p) && Apart(p, x)
    ensures StripComments(p + x) == StripComments(p) + StripComments(x)
    ensures SameEnds(p, StripComments(p))
    ensures |StripComments(x)| == 0 <==> |x| == 0
    ensures |x| > 0 ==> StripComments(x)[0] == x[0]
  {
    hide StripBlocks, StripHashes, StripDashes, BlocksInside, HashesInside, DashesInside;
    var p1, x1 := StripBlocks(p), StripBlocks(x);
    var p2, x2 := StripHashes(p1), StripHashes(x1);
    BlocksSplit(p, x);
    HashesSplit(p1, x1);
    FirstKept(x);
    FirstKept(x1);
    FirstKept(x2);
    DashesSplit(p2, x2);
  }

  // ---- two such texts in a row ----

  lemma {:induction false} BlocksJoin(p: string, x: string)
    requires BlocksInside(p) && BlocksInside(x) && Apart(p, x)
    ensures BlocksInside(p + x)
    decreases |p|
  {
    if |p| == 0 {
      assert p + x == x;
    } else if |p| == 1 {
      OneLeft(p, x);
    } else {
      hide AfterBlockOpening;
      Tails(p, x);
      if BlockOpening(p) {
        var r := AfterBlockOpening(p[2..]);
        BlockSplit(p[2..], x);
        ClosedJoin(p[2..], x);
        hide Closed;
        BlocksJoin(['*'] + r, x);
        Glued('*', r, x);
      } else {
        BlocksJoin(p[1..], x);
      }
    }
  }

  lemma ClosedJoin(t: string, x: string)
    requires Closed(t)
    ensures Closed(t + x)
  {
    StopInside(t, x);
  }

  lemma {:induction false} HashesJoin(p: string, x: string)
    requires HashesInside(p) && HashesInside(x)
    ensures HashesInside(p + x)
    decreases |p|
  {
    if |p| == 0 {
      assert p + x == x;
    } else {
      Uncons(p, x);
      if p[0] == '#' {
        LineSplit(p[1..], x);
        HashesJoin(AfterLine(p[1..]), x);
      } else {
        HashesJoin(p[1..], x);
      }
    }
  }

  lemma {:induction false} DashesJoin(p: string, x: string)
    requires DashesInside(p) && DashesInside(x) && Apart(p, x)
    ensures DashesInside(p + x)
    decreases |p|
  {
    if |p| == 0 {
      assert p + x == x;
    } else if |p| == 1 {
      OneLeft(p, x);
    } else {
      hide AfterLine;
      Tails(p, x);
      if DashMarker(p) {
        var r := AfterLine(p[2..]);
        LineSplit(p[2..], x);
        DashesJoin(['-'] + r, x);
        Glued('-', r, x);
      } else {
        DashesJoin(p[1..], x);
      }
    }
  }

  lemma {:induction false} CommentsJoin(p: string, x: string)
    requires CommentsInside(p) && CommentsInside(x) && Apart(p, x)
    ensures CommentsInside(p + x)
  {
    hide StripBlocks, StripHashes, StripDashes, BlocksInside, HashesInside, DashesInside;
    var p1, x1 := StripBlocks(p), StripBlocks(x);
    var p2, x2 := StripHashes(p1), StripHashes(x1);
    BlocksSplit(p, x);
    HashesSplit(p1, x1);
    FirstKept(x);
    FirstKept(x1);
    BlocksJoin(p, x);
    HashesJoin(p1, x1);
    DashesJoin(p2, x2);
  }

  lemma {:induction false} UnmarkedInside(prev: char, p: string)
    requires Unmarked(prev, p)
    ensures CommentsInside(p)
    decreases |p|
  {
    UnmarkedParts3(prev, p);
    UnmarkedIsSettled(prev, p);
    BlocksSettledUnchanged(p);
    HashesSettledUnchanged(p);
  }

  lemma {:induction false} UnmarkedParts3(prev: char, p: string)
    requires Unmarked(prev, p)
    ensures BlocksInside(p) && HashesInside(p) && DashesInside(p)
    decreases |p|
  {
    if |p| > 0 {
      UnmarkedParts3(p[0], p[1..]);
    }
  }

  // ---- what a comment says does not matter ----

  predicate Line(body: string, breaks: string, rest: string) {
    (forall c :: c in body ==> !Newline(c)) && (forall c :: c in breaks ==> Newline(c)) && |breaks| > 0 &&
    (|rest| > 0 ==> !Newline(rest[0]))
  }

  /** A hash comment vanishes up to its marker, whatever it says and however many line breaks
      follow. */
  lemma HashCommentVanishes(p: string, body: string, breaks: string, rest: string)
    requires HashesInside(p) && Line(body, breaks, rest)
    ensures StripHashes(p + (['#'] + (body + breaks + rest))) == StripHashes(p) + (['#'] + StripHashes(rest))
  {
    var line := body + breaks + rest;
    HashesSplit(p, ['#'] + line);
    AfterLineSkips(body, breaks, rest);
    assert (['#'] + line)[1..] == line;
  }

  /** So does a dash comment up to its second dash, which stays in front of the next line. */
  lemma {:induction false} DashCommentVanishes(p: string, body: string, breaks: string, rest: string)
    requires DashesInside(p) && (|p| > 0 ==> p[|p| - 1] != '-') && Line(body, breaks, rest)
    ensures StripDashes(p + (['-', '-'] + (body + breaks + rest))) ==
            StripDashes(p) + (['-'] + StripDashes(['-'] + rest))
  {
    var line := body + breaks + rest;
    DashesSplit(p, ['-', '-'] + line);
    AfterLineSkips(body, breaks, rest);
    assert (['-', '-'] + line)[2..] == line;
  }

  /** A closed block keeps its markers and a space if it said anything. Its last slash may open
      another block with what follows. */
  lemma {:induction false} BlockBodyVanishes(p: string, body: string, rest: string)
    requires BlocksInside(p) && '*' !in body && (|body| > 0 ==> '/' !in body[1..])
    ensures StripBlocks(p + (['/', '*'] + (body + (['*', '/'] + rest)))) ==
            StripBlocks(p) + ((if |body| == 0 then "/**" else "/* *") + StripBlocks(['/'] + rest))
  {
    var tail := ['*', '/'] + rest;
    var s := ['/', '*'] + (body + tail);
    hide StripBlocks, BlocksInside, BlockStop, AfterBlockOpening;
    assert s[2..] == body + tail && s[0] == '/';
    BlocksSplit(p, s);
    BlockStep(s);
    BlockStopIs(body, tail);
    BodyCut(body, tail);
    StarsKept(rest);
    SlashKept(StripBlocks(['/'] + rest));
  }

  lemma SlashKept(slash: string)
    ensures ['/'] + ("**" + slash) == "/**" + slash && ['/'] + ("* *" + slash) == "/* *" + slash
  {
  }

  lemma BodyTail(body: string, tail: string)
    requires |tail| > 1
    ensures var t := body + tail;
            t[|body|..] == tail && t[|body|] == tail[0] && t[|body| + 1] == tail[1] && (|body| == 0 ==> t == tail)
  {
  }

  lemma BodyCut(body: string, tail: string)
    requires |tail| > 1 && tail[0] == '*' && tail[1] == '/' && BlockStop(body + tail) == |body|
    ensures AfterBlockOpening(body + tail) == if |body| == 0 then tail else [' '] + tail
  {
    hide BlockStop;
    BodyTail(body, tail);
  }

  lemma PlainStep(c: char, s: string)
    requires c != '/'
    ensures StripBlocks([c] + s) == [c] + StripBlocks(s)
  {
    BlockStep([c] + s);
    assert ([c] + s)[1..] == s;
  }

  lemma StarsKept(rest: string)
    ensures var slash, tail := StripBlocks(['/'] + rest), ['*', '/'] + rest;
            StripBlocks(['*'] + tail) == "**" + slash && StripBlocks(['*'] + ([' '] + tail)) == "* *" + slash
  {
    hide StripBlocks;
    var tail := ['*', '/'] + rest;
    assert tail == ['*'] + (['/'] + rest);
    PlainStep('*', ['/'] + rest);
    PlainStep('*', tail);
    PlainStep(' ', tail);
    PlainStep('*', [' '] + tail);
  }

  /** A block whose text has a slash before any star is cut there: the character in front of the
      slash, the slash, and two more go, and the rest of the comment stays as text. */
  lemma {:induction false} BlockCutAtSlash(body: string, c: char, rest: string)
    requires '*' !in body && c != '*' && (forall i :: 0 < i < |body| ==> body[i] != '/') && (|body| > 0 ==> c != '/')
    ensures StripBlocks(['/', '*'] + (body + ([c, '/'] + rest))) ==
            ['/'] + StripBlocks(['*'] + if |rest| > 2 then rest[2..] else [])
  {
    var tail := [c, '/'] + rest;
    var t, s := body + tail, ['/', '*'] + (body + tail);
    assert s[2..] == t && s[0] == '/' && s[1] == '*';
    hide StripBlocks;
    BlockStep(s);
    SlashStop(body, c, rest);
    BodyTail(body, tail);
    var k := |body|;
    assert t[k] == c && t[k + 1] == '/';
    assert AfterBlockOpening(t) == t[Least(k + 4, |t|)..];
    assert |rest| > 2 ==> t[k + 4..] == rest[2..];
  }

  lemma {:induction false} SlashStop(body: string, c: char, rest: string)
    requires '*' !in body && c != '*' && (forall i :: 0 < i < |body| ==> body[i] != '/') && (|body| > 0 ==> c != '/')
    ensures BlockStop(body + ([c, '/'] + rest)) == |body|
  {
    var tail := [c, '/'] + rest;
    if |body| == 0 {
      assert body + tail == tail;
    } else {
      Uncons(body, tail);
      assert (body + tail)[1] == if |body| > 1 then body[1] else c;
      SlashStop(body[1..], c, rest);
    }
  }

  /** A block that is never closed loses all its text. */
  lemma {:induction false} OpenBlockLost(body: string)
    requires '*' !in body && forall i :: 0 < i < |body| ==> body[i] != '/'
    ensures StripBlocks(['/', '*'] + body) == "/*"
  {
    var s := ['/', '*'] + body;
    assert s[2..] == body;
    hide StripBlocks;
    OpenStop(body);
    BlockStep(s);
    BlockStep("*");
  }

  lemma {:induction false} OpenStop(body: string)
    requires '*' !in body && forall i :: 0 < i < |body| ==> body[i] != '/'
    ensures BlockStop(body) == if |body| > 0 then |body| - 1 else 0
    ensures AfterBlockOpening(body) == []
  {
    if |body| > 1 {
      OpenStop(body[1..]);
    }
  }

  /** Blocks are handled before line comments: a hash inside a block is no marker. */
  lemma {:induction false} BlocksFirst()
    ensures StripComments("/*#*/a") == "/* */a"
  {
    hide StripBlocks, StripHashes, StripDashes;
    BlockBodyVanishes("", "#", "a");
    assert "/*#*/a" == "" + (['/', '*'] + ("#" + (['*', '/'] + "a")));
    SlashA();
    MarkersInBlock();
    HashesSettledUnchanged("/* */a");
    DashesSettledUnchanged("/* */a");
  }

  lemma SlashA()
    ensures StripBlocks("") == "" && StripBlocks(['/'] + "a") == "/a" && "" + ("/* *" + "/a") == "/* */a"
  {
    assert StripBlocks("a") == "a" && "/a"[1..] == "a";
  }

  lemma MarkersInBlock()
    ensures HashesSettled("/* */a") && DashesSettled("/* */a") && BlocksInside("")
  {
  }
}
