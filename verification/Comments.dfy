/** The three comment passes. None of them deletes the comment marker itself: a block keeps its
    two ends, a line comment keeps its marker and loses the rest of the line and the line break. */
module Comments {
  import opened Text

  // ---- block comments ----

  // Where the scan for the end of a block stops, in the text `t` after the opening marker.
  function BlockStop(t: string): (k: nat)
    ensures k <= |t| && (|t| > 0 ==> k < |t|)
  {
    if |t| <= 1 || t[0] == '*' || t[1] == '/' then 0 else 1 + BlockStop(t[1..])
  }

  // What becomes of the text `t` after an opening marker when the scan stops at `k`. A block whose
  // end was not found there loses its text up to four characters past the stopping point.
  function AfterBlock(t: string, k: nat): (rest: string)
    requires k < |t| || (|t| == 0 && k == 0)
    ensures |rest| <= |t|
  {
    if k + 1 < |t| && t[k] == '*' && t[k + 1] == '/' then
      if k > 0 then [' '] + t[k..] else t
    else
      t[Least(k + 4, |t|)..]
  }

  function AfterBlockOpening(t: string): (rest: string)
    ensures |rest| <= |t|
  {
    AfterBlock(t, BlockStop(t))
  }

  predicate BlockOpening(s: string) {
    |s| > 1 && s[0] == '/' && s[1] == '*'
  }

  function StripBlocks(s: string): string
    decreases |s|
  {
    if |s| < 2 then s
    else if BlockOpening(s) then ['/'] + StripBlocks(['*'] + AfterBlockOpening(s[2..]))
    else [s[0]] + StripBlocks(s[1..])
  }

  // ---- line comments ----

  function LineLength(s: string): (k: nat)
    ensures k <= |s|
  {
    if |s| == 0 || Newline(s[0]) then 0 else 1 + LineLength(s[1..])
  }

  function NewlineRun(s: string): (k: nat)
    ensures k <= |s|
  {
    if |s| == 0 || !Newline(s[0]) then 0 else 1 + NewlineRun(s[1..])
  }

  // What is left after the rest of the line and the line breaks that follow it.
  function AfterLine(s: string): (rest: string)
    ensures |rest| <= |s|
    ensures |s| > 0 ==> |rest| < |s|
  {
    s[LineLength(s)..][NewlineRun(s[LineLength(s)..])..]
  }

  function StripHashes(s: string): string
    decreases |s|
  {
    if |s| == 0 then []
    else if s[0] == '#' then ['#'] + StripHashes(AfterLine(s[1..]))
    else [s[0]] + StripHashes(s[1..])
  }

  predicate DashMarker(s: string) {
    |s| > 1 && s[0] == '-' && s[1] == '-'
  }

  // The second dash is looked at again: it may open another comment with what follows.
  function StripDashes(s: string): string
    decreases |s|
  {
    if |s| < 2 then s
    else if DashMarker(s) then ['-'] + StripDashes(['-'] + AfterLine(s[2..]))
    else [s[0]] + StripDashes(s[1..])
  }

  function StripComments(s: string): string {
    StripDashes(StripHashes(StripBlocks(s)))
  }

  // ---- normal forms ----

  // Every opening marker is followed by at most one space and the closing marker, or by nothing.
  predicate BlocksSettled(s: string) {
    |s| == 0 ||
    ((BlockOpening(s) ==> |s[2..]| == 0 || "*/" <= s[2..] || " */" <= s[2..]) && BlocksSettled(s[1..]))
  }

  predicate HashesSettled(s: string) {
    |s| == 0 || ((s[0] == '#' ==> |s| == 1) && HashesSettled(s[1..]))
  }

  predicate DashesSettled(s: string) {
    |s| == 0 || ((DashMarker(s) ==> |s| == 2) && DashesSettled(s[1..]))
  }

  /** No comment has any text left. */
  predicate NoCommentText(s: string) {
    BlocksSettled(s) && HashesSettled(s) && DashesSettled(s)
  }

  // White space, then the end of the block or of the text.
  predicate BlockEnds(s: string) {
    |s| == 0 || (if SqlSpace(s[0]) then BlockEnds(s[1..]) else "*/" <= s)
  }

  /** Every comment marker is bare: behind a line marker there is only white space, behind the
      opening of a block there is white space and then its end, or nothing. */
  predicate MarkersBare(s: string) {
    |s| == 0 || (FirstBare(s) && MarkersBare(s[1..]))
  }

  predicate FirstBare(s: string)
    requires |s| > 0
  {
    (s[0] == '#' ==> AllSpace(s[1..])) && (DashMarker(s) ==> AllSpace(s[2..])) &&
    (BlockOpening(s) ==> BlockEnds(s[2..]))
  }

  predicate MarkerChar(c: char) {
    c == '#' || c == '-' || c == '/' || c == '*'
  }

  // Two texts that start alike as far as markers can tell.
  predicate AlikeAtFront(s: string, t: string) {
    (|s| > 0 && MarkerChar(s[0])) || (|t| > 0 && MarkerChar(t[0])) ==> |s| > 0 && |t| > 0 && s[0] == t[0]
  }

  // The first character is bare or not, going by what follows it.
  lemma FirstBareAlike(c: char, s: string, t: string)
    requires MarkerChar(c) ==> AlikeAtFront(s, t) && AllSpace(s) == AllSpace(t)
    requires MarkerChar(c) && |s| > 0 && |t| > 0 && MarkerChar(s[0]) ==>
               AllSpace(s[1..]) == AllSpace(t[1..]) && BlockEnds(s[1..]) == BlockEnds(t[1..])
    ensures FirstBare([c] + s) == FirstBare([c] + t)
  {
    assert ([c] + s)[1..] == s && ([c] + t)[1..] == t;
    assert |s| > 0 ==> ([c] + s)[2..] == s[1..];
    assert |t| > 0 ==> ([c] + t)[2..] == t[1..];
  }

  lemma {:induction false} BlockEndsHere(c: char, s: string)
    requires !SqlSpace(c)
    ensures BlockEnds([c] + s) <==> c == '*' && |s| > 0 && s[0] == '/'
  {
    assert |s| > 0 ==> ([c] + s)[1] == s[0];
  }

  lemma BareCons(c: char, s: string)
    ensures MarkersBare([c] + s) <==> FirstBare([c] + s) && MarkersBare(s)
    ensures !MarkerChar(c) ==> FirstBare([c] + s)
  {
    assert ([c] + s)[1..] == s;
  }

  // Characters that are part of no marker do not matter.
  lemma {:induction false} BareSkip(s: string, k: nat)
    requires k <= |s| && forall i :: 0 <= i < k ==> !MarkerChar(s[i])
    ensures MarkersBare(s) <==> MarkersBare(s[k..])
    decreases k
  {
    if k > 0 {
      BareSkip(s[1..], k - 1);
      assert s[1..][k - 1..] == s[k..];
    } else {
      assert s[k..] == s;
    }
  }

  /** No comment marker at all, `prev` being the character before `s`. */
  predicate Unmarked(prev: char, s: string)
    decreases |s|
  {
    |s| == 0 ||
    (s[0] != '#' && !(prev == '-' && s[0] == '-') && !(prev == '/' && s[0] == '*') && Unmarked(s[0], s[1..]))
  }

  lemma {:induction false} StripBlocksWeight(s: string)
    ensures Weight(StripBlocks(s)) <= Weight(s)
    ensures Weight(StripBlocks(s)) == Weight(s) ==> StripBlocks(s) == s && BlocksSettled(s)
    decreases |s|
  {
    if |s| < 2 {
    } else if BlockOpening(s) {
      var t := s[2..];
      var next := ['*'] + AfterBlockOpening(t);
      StripBlocksWeight(next);
      assert s[1..][1..] == t;
      WeightCons('*', AfterBlockOpening(t));
      AfterBlockWeight(t, BlockStop(t));
      WeightCons('/', StripBlocks(next));
      if AfterBlockOpening(t) == t {
        assert next == s[1..];
      }
    } else {
      StripBlocksWeight(s[1..]);
      WeightCons(s[0], StripBlocks(s[1..]));
    }
  }

  lemma {:induction false} AfterBlockWeight(t: string, k: nat)
    requires k < |t| || (|t| == 0 && k == 0)
    ensures var rest := AfterBlock(t, k);
            Weight(rest) <= Weight(t) &&
            (Weight(rest) == Weight(t) ==> rest == t && (|t| == 0 || "*/" <= t || " */" <= t))
  {
    if k + 1 < |t| && t[k] == '*' && t[k + 1] == '/' {
      if k > 0 {
        ClosedBlockWeight(t, k);
      }
    } else {
      WeightSuffix(t, Least(k + 4, |t|));
    }
  }

  lemma {:induction false} ClosedBlockWeight(t: string, k: nat)
    requires 0 < k < |t| - 1 && t[k] == '*' && t[k + 1] == '/'
    ensures Weight([' '] + t[k..]) <= Weight(t)
    ensures Weight([' '] + t[k..]) == Weight(t) ==> " */" <= t && [' '] + t[k..] == t
  {
    WeightCons(' ', t[k..]);
    WeightSplit(t, k);
    WeightPositive(t[..k]);
    assert t[..k][0] == t[0];
    if k > 1 {
      WeightPositive(t[..k]);
    } else {
      assert t[..k] == [t[0]];
    }
  }

  lemma {:induction false} StripHashesWeight(s: string)
    ensures Weight(StripHashes(s)) <= Weight(s)
    ensures Weight(StripHashes(s)) == Weight(s) ==> StripHashes(s) == s && HashesSettled(s)
    decreases |s|
  {
    if |s| == 0 {
    } else if s[0] == '#' {
      StripHashesWeight(AfterLine(s[1..]));
      WeightCons('#', StripHashes(AfterLine(s[1..])));
      AfterLineWeight(s[1..]);
    } else {
      StripHashesWeight(s[1..]);
      WeightCons(s[0], StripHashes(s[1..]));
    }
  }

  lemma {:induction false} StripDashesWeight(s: string)
    ensures Weight(StripDashes(s)) <= Weight(s)
    ensures Weight(StripDashes(s)) == Weight(s) ==> StripDashes(s) == s && DashesSettled(s)
    decreases |s|
  {
    if |s| < 2 {
    } else if DashMarker(s) {
      var next := ['-'] + AfterLine(s[2..]);
      StripDashesWeight(next);
      assert s[1..][1..] == s[2..];
      WeightCons('-', AfterLine(s[2..]));
      AfterLineWeight(s[2..]);
      WeightCons('-', StripDashes(next));
    } else {
      StripDashesWeight(s[1..]);
      WeightCons(s[0], StripDashes(s[1..]));
    }
  }

  lemma {:induction false} AfterLineWeight(s: string)
    ensures Weight(AfterLine(s)) <= Weight(s)
    ensures |s| > 0 ==> Weight(AfterLine(s)) < Weight(s)
  {
    WeightSuffix(s, LineLength(s));
    WeightSuffix(s[LineLength(s)..], NewlineRun(s[LineLength(s)..]));
  }

  lemma {:induction false} BlocksSettledUnchanged(s: string)
    requires BlocksSettled(s)
    ensures StripBlocks(s) == s
  {
    if |s| > 0 {
      BlocksSettledUnchanged(s[1..]);
      if BlockOpening(s) {
        BlockSettledRest(s[2..]);
        StarAgain(s);
      }
    }
  }

  lemma {:induction false} HashesSettledUnchanged(s: string)
    requires HashesSettled(s)
    ensures StripHashes(s) == s
  {
    if |s| > 0 {
      HashesSettledUnchanged(s[1..]);
    }
  }

  lemma {:induction false} DashesSettledUnchanged(s: string)
    requires DashesSettled(s)
    ensures StripDashes(s) == s
  {
    if |s| > 0 {
      DashesSettledUnchanged(s[1..]);
    }
  }

  lemma StarAgain(s: string)
    requires BlockOpening(s)
    ensures ['*'] + s[2..] == s[1..]
  {
  }

  lemma BlockSettledRest(t: string)
    requires |t| == 0 || "*/" <= t || " */" <= t
    ensures AfterBlockOpening(t) == t
  {
    if " */" <= t {
      assert BlockStop(t[1..]) == 0;
      assert t == [' '] + t[1..];
    }
  }

  /** The comment passes change nothing exactly when no comment has text left. */
  lemma CommentsFixedPoint(s: string)
    ensures StripComments(s) == s <==> NoCommentText(s)
  {
    StripBlocksWeight(s);
    StripHashesWeight(StripBlocks(s));
    StripDashesWeight(StripHashes(StripBlocks(s)));
    if NoCommentText(s) {
      BlocksSettledUnchanged(s);
      HashesSettledUnchanged(s);
      DashesSettledUnchanged(s);
    }
  }

  lemma {:induction false} UnmarkedIsBare(prev: char, s: string)
    requires Unmarked(prev, s)
    ensures MarkersBare(s)
    decreases |s|
  {
    if |s| > 0 {
      UnmarkedIsBare(s[0], s[1..]);
    }
  }

  lemma {:induction false} UnmarkedIsSettled(prev: char, s: string)
    requires Unmarked(prev, s)
    ensures NoCommentText(s)
    decreases |s|
  {
    if |s| > 0 {
      UnmarkedIsSettled(s[0], s[1..]);
    }
  }

  lemma StripCommentsWeight(s: string)
    ensures Weight(StripComments(s)) <= Weight(s)
    ensures Weight(StripComments(s)) == Weight(s) ==> StripComments(s) == s
  {
    StripBlocksWeight(s);
    StripHashesWeight(StripBlocks(s));
    StripDashesWeight(StripHashes(StripBlocks(s)));
  }

  // ---- what a comment says does not matter ----

  // A line comment followed by more text vanishes up to its marker, whatever it says.
  lemma {:induction false} AfterLineSkips(body: string, breaks: string, rest: string)
    requires forall c :: c in body ==> !Newline(c)
    requires forall c :: c in breaks ==> Newline(c)
    requires |breaks| == 0 ==> |rest| == 0
    requires |rest| > 0 ==> !Newline(rest[0])
    ensures AfterLine(body + breaks + rest) == rest
  {
    LineLengthIs(body, breaks + rest);
    NewlineRunIs(breaks, rest);
    var s := body + breaks + rest;
    assert s == body + (breaks + rest);
    assert s[|body|..] == breaks + rest;
  }

  lemma {:induction false} LineLengthIs(body: string, tail: string)
    requires forall c :: c in body ==> !Newline(c)
    requires |tail| > 0 ==> Newline(tail[0])
    ensures LineLength(body + tail) == |body|
  {
    if |body| == 0 {
      assert body + tail == tail;
    } else {
      assert (body + tail)[1..] == body[1..] + tail;
      LineLengthIs(body[1..], tail);
    }
  }

  lemma {:induction false} NewlineRunIs(breaks: string, rest: string)
    requires forall c :: c in breaks ==> Newline(c)
    requires |rest| > 0 ==> !Newline(rest[0])
    ensures NewlineRun(breaks + rest) == |breaks|
  {
    if |breaks| == 0 {
      assert breaks + rest == rest;
    } else {
      assert (breaks + rest)[1..] == breaks[1..] + rest;
      NewlineRunIs(breaks[1..], rest);
    }
  }

  // The scan of a block whose text has neither a star nor, after its first byte, a slash.
  lemma {:induction false} BlockStopIs(body: string, tail: string)
    requires '*' !in body && (|body| > 0 ==> '/' !in body[1..])
    requires |tail| > 1 && tail[0] == '*'
    ensures BlockStop(body + tail) == |body|
  {
    if |body| == 0 {
      assert body + tail == tail;
    } else {
      Uncons(body, tail);
      BlockStopIs(body[1..], tail);
      assert |body| > 1 ==> (body + tail)[1] == body[1..][0];
    }
  }
}
