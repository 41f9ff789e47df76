/** The whitespace pass: runs become one space, space beside parentheses and commas goes, and
    so does one trailing space. It decides an equivalence of texts. */
module Spaces {
  import opened Text
  import opened QuotedText
  import opened Comments
  import opened Numbers
  import opened Signs

  // Space is dropped before these ...
  predicate Closes(c: char) {
    c == ')' || c == ','
  }

  // ... and after these.
  predicate Opens(c: char) {
    c == '(' || c == ','
  }

  // ---- the three loops of the pass ----

  function SpaceRun(s: string): (k: nat)
    ensures k <= |s|
  {
    if |s| == 0 || !SqlSpace(s[0]) then 0 else 1 + SpaceRun(s[1..])
  }

  lemma {:induction false} SpaceRunEnds(s: string)
    ensures var k := SpaceRun(s);
            (forall i :: 0 <= i < k ==> SqlSpace(s[i])) && (k < |s| ==> !SqlSpace(s[k]))
  {
    if |s| > 0 {
      SpaceRunEnds(s[1..]);
    }
  }

  function CollapseSpaces(s: string): string
    decreases |s|
  {
    if |s| == 0 then []
    else if SqlSpace(s[0]) then [' '] + CollapseSpaces(s[SpaceRun(s)..])
    else [s[0]] + CollapseSpaces(s[1..])
  }

  // One step of the second loop: the two erasures at the current position.
  function TightenHere(s: string): (t: string)
    requires |s| > 0
    ensures |t| > 0 && |t| <= |s|
  {
    var a := if s[0] == ' ' && |s| > 1 && Closes(s[1]) then s[1..] else s;
    if |a| > 1 && a[1] == ' ' && Opens(a[0]) then [a[0]] + a[2..] else a
  }

  function Tighten(s: string): string
    decreases |s|
  {
    if |s| == 0 then [] else var t := TightenHere(s); [t[0]] + Tighten(t[1..])
  }

  function TrimEnd(s: string): string {
    if |s| > 0 && s[|s| - 1] == ' ' then s[..|s| - 1] else s
  }

  function StripSpaces(s: string): string {
    TrimEnd(Tighten(CollapseSpaces(s)))
  }

  // ---- what the pass keeps of a text ----

  /** A non-space character and whether whitespace that counts stands before it. */
  datatype Mark = Mark(c: char, gap: bool)

  // `prev` is the last non-space character before `s`, `gap` whether whitespace followed it.
  function Shape(s: string, prev: char, gap: bool): seq<Mark>
    decreases |s|
  {
    if |s| == 0 then []
    else if SqlSpace(s[0]) then Shape(s[1..], prev, true)
    else [Mark(s[0], gap && !Closes(s[0]) && !Opens(prev))] + Shape(s[1..], s[0], false)
  }

  function Render(m: seq<Mark>): string {
    if |m| == 0 then [] else (if m[0].gap then [' ', m[0].c] else [m[0].c]) + Render(m[1..])
  }

  function Respaced(s: string, prev: char, gap: bool): string {
    Render(Shape(s, prev, gap))
  }

  lemma RespacedStep(s: string, prev: char, gap: bool)
    requires |s| > 0
    ensures SqlSpace(s[0]) ==> Respaced(s, prev, gap) == Respaced(s[1..], prev, true)
    ensures !SqlSpace(s[0]) ==>
              Respaced(s, prev, gap) ==
              (if gap && !Closes(s[0]) && !Opens(prev) then [' ', s[0]] else [s[0]]) + Respaced(s[1..], s[0], false)
  {
    if !SqlSpace(s[0]) {
      assert Shape(s, prev, gap)[1..] == Shape(s[1..], s[0], false);
    }
  }

  // The same, taking the respaced text apart.
  lemma RespacedParts(s: string, prev: char, gap: bool)
    requires |s| > 0 && !SqlSpace(s[0])
    ensures var r, tail := Respaced(s, prev, gap), Respaced(s[1..], s[0], false);
            if gap && !Closes(s[0]) && !Opens(prev)
            then |r| > 1 && r[0] == ' ' && r[1] == s[0] && r[1..] == [s[0]] + tail && r[1..][1..] == tail
            else |r| > 0 && r[0] == s[0] && r[1..] == tail
  {
    RespacedStep(s, prev, gap);
    Uncons(if gap && !Closes(s[0]) && !Opens(prev) then [' ', s[0]] else [s[0]], Respaced(s[1..], s[0], false));
  }

  lemma {:induction false} ShapeSkip(s: string, k: nat, prev: char, gap: bool)
    requires 0 < k <= |s| && forall i :: 0 <= i < k ==> SqlSpace(s[i])
    ensures Shape(s, prev, gap) == Shape(s[k..], prev, true)
    decreases k
  {
    if k > 1 {
      ShapeSkip(s[1..], k - 1, prev, true);
      assert s[1..][k - 1..] == s[k..];
    }
  }

  lemma {:induction false} ShapeOfCollapsed(s: string, prev: char, gap: bool)
    ensures Shape(CollapseSpaces(s), prev, gap) == Shape(s, prev, gap)
    decreases |s|
  {
    if |s| == 0 {
    } else if SqlSpace(s[0]) {
      var k := SpaceRun(s);
      SpaceRunEnds(s);
      ShapeSkip(s, k, prev, gap);
      ShapeOfCollapsed(s[k..], prev, true);
      assert CollapseSpaces(s)[1..] == CollapseSpaces(s[k..]);
    } else {
      ShapeOfCollapsed(s[1..], s[0], false);
      assert CollapseSpaces(s)[1..] == CollapseSpaces(s[1..]);
    }
  }

  predicate Collapsed(s: string) {
    |s| == 0 || ((SqlSpace(s[0]) ==> s[0] == ' ' && (|s| > 1 ==> !SqlSpace(s[1]))) && Collapsed(s[1..]))
  }

  lemma {:induction false} CollapseCollapses(s: string)
    ensures Collapsed(CollapseSpaces(s))
    ensures |s| > 0 && !SqlSpace(s[0]) ==> !SqlSpace(CollapseSpaces(s)[0])
    decreases |s|
  {
    if |s| == 0 {
    } else if SqlSpace(s[0]) {
      SpaceRunEnds(s);
      CollapseCollapses(s[SpaceRun(s)..]);
      assert CollapseSpaces(s)[1..] == CollapseSpaces(s[SpaceRun(s)..]);
    } else {
      CollapseCollapses(s[1..]);
      assert CollapseSpaces(s)[1..] == CollapseSpaces(s[1..]);
    }
  }

  // The second loop has already dropped the space at the front when it stands after `prev`.
  function AfterOpening(prev: char, s: string): string {
    if |s| > 0 && s[0] == ' ' && Opens(prev) then s[1..] else s
  }

  lemma TightenStep(s: string)
    requires |s| > 0 && s[0] != ' '
    ensures Tighten(s) == [s[0]] + Tighten(AfterOpening(s[0], s[1..]))
  {
    if |s| > 1 && s[1] == ' ' && Opens(s[0]) {
      assert TightenHere(s)[1..] == s[2..] == s[1..][1..];
    }
  }

  lemma TrimEndTail(p: string, s: string)
    requires |p| > 0 && p[|p| - 1] != ' '
    ensures TrimEnd(p + s) == p + TrimEnd(s)
  {
    if |s| > 0 && s[|s| - 1] == ' ' {
      assert (p + s)[..|p + s| - 1] == p + s[..|s| - 1];
    }
  }

  lemma {:induction false} TightenRenders(s: string, prev: char)
    requires Collapsed(s)
    ensures TrimEnd(Tighten(AfterOpening(prev, s))) == Respaced(s, prev, false)
    decreases |s|
  {
    if |s| == 0 {
    } else if s[0] != ' ' {
      TightenRenders(s[1..], s[0]);
      TightenStep(s);
      RespacedStep(s, prev, false);
      TrimEndTail([s[0]], Tighten(AfterOpening(s[0], s[1..])));
    } else if |s| == 1 {
      RespacedStep(s, prev, false);
      assert |s[1..]| == 0 && TightenHere(s) == s;
      assert Tighten(s) == [' '] + Tighten([]);
    } else {
      TightenRenders(s[1..][1..], s[1]);
      TightenSpace(s, prev);
    }
  }

  lemma TightenSpace(s: string, prev: char)
    requires |s| > 1 && s[0] == ' ' && !SqlSpace(s[1])
    requires TrimEnd(Tighten(AfterOpening(s[1], s[1..][1..]))) == Respaced(s[1..][1..], s[1], false)
    ensures TrimEnd(Tighten(AfterOpening(prev, s))) == Respaced(s, prev, false)
  {
    var tail := Tighten(AfterOpening(s[1], s[1..][1..]));
    RespacedStep(s, prev, false);
    RespacedStep(s[1..], prev, true);
    TightenStep(s[1..]);
    if Opens(prev) {
      TrimEndTail([s[1]], tail);
    } else if Closes(s[1]) {
      TightenHereCloses(s);
      TrimEndTail([s[1]], tail);
    } else {
      TightenHereKeeps(s);
      Uncons([' ', s[1]], tail);
      assert [' ', s[1]][1..] == [s[1]];
      TrimEndTail([' ', s[1]], tail);
    }
  }

  lemma TightenHereKeeps(s: string)
    requires |s| > 1 && s[0] == ' ' && !SqlSpace(s[1]) && !Closes(s[1])
    ensures Tighten(s) == [' '] + Tighten(s[1..])
  {
    assert TightenHere(s) == s;
  }

  lemma TightenHereCloses(s: string)
    requires |s| > 1 && s[0] == ' ' && Closes(s[1])
    ensures Tighten(s) == Tighten(s[1..])
  {
    assert TightenHere(s) == TightenHere(s[1..]);
  }

  /** The pass keeps exactly the shape of the text. */
  lemma SpacesRenderShape(s: string)
    ensures StripSpaces(s) == Respaced(s, '\0', false)
  {
    CollapseCollapses(s);
    TightenRenders(CollapseSpaces(s), '\0');
    ShapeOfCollapsed(s, '\0', false);
  }

  lemma {:induction false} ShapeOfRespaced(s: string, prev: char, gap: bool)
    ensures Shape(Respaced(s, prev, gap), prev, false) == Shape(s, prev, gap)
    decreases |s|
  {
    if |s| > 0 {
      RespacedStep(s, prev, gap);
      if SqlSpace(s[0]) {
        ShapeOfRespaced(s[1..], prev, true);
      } else {
        ShapeOfRespaced(s[1..], s[0], false);
        RespacedParts(s, prev, gap);
      }
    }
  }

  // ---- the equivalence, as edits of a text ----

  // Between `u` and `v` whitespace is optional.
  predicate SpaceOptional(u: string, v: string) {
    |v| == 0 || Closes(v[0]) || (|u| > 0 && Opens(u[|u| - 1]))
  }

  /** One edit: a whitespace run is resized; where space is optional, it may also come or go. */
  ghost predicate SpaceEdit(a: string, b: string) {
    exists u, x, y, v :: EditAt(a, b, u, x, y, v)
  }

  predicate EditAt(a: string, b: string, u: string, x: string, y: string, v: string) {
    a == u + x + v && b == u + y + v && AllSpace(x) && AllSpace(y) &&
    ((|x| > 0 && |y| > 0) || SpaceOptional(u, v))
  }

  ghost predicate SpaceEdits(a: string, b: string, n: nat)
    decreases n
  {
    if n == 0 then a == b else exists c :: SpaceEdit(a, c) && SpaceEdits(c, b, n - 1)
  }

  // The last non-space character of `u`, and whether whitespace ends it.
  function LastShown(u: string, prev: char): char
    decreases |u|
  {
    if |u| == 0 then prev else LastShown(u[1..], if SqlSpace(u[0]) then prev else u[0])
  }

  function GapAfter(u: string, gap: bool): bool {
    if |u| == 0 then gap else GapAfter(u[1..], SqlSpace(u[0]))
  }

  lemma {:induction false} ShapeSplit(u: string, v: string, prev: char, gap: bool)
    ensures Shape(u + v, prev, gap) == Shape(u, prev, gap) + Shape(v, LastShown(u, prev), GapAfter(u, gap))
    decreases |u|
  {
    if |u| == 0 {
      assert u + v == v;
    } else {
      Uncons(u, v);
      if SqlSpace(u[0]) {
        ShapeSplit(u[1..], v, prev, true);
      } else {
        ShapeSplit(u[1..], v, u[0], false);
        var head := Mark(u[0], gap && !Closes(u[0]) && !Opens(prev));
        Assoc([head], Shape(u[1..], u[0], false), Shape(v, LastShown(u, prev), GapAfter(u, gap)));
      }
    }
  }

  lemma {:induction false} LastShownIs(u: string, prev: char, gap: bool)
    requires |u| > 0 && !SqlSpace(u[|u| - 1])
    ensures LastShown(u, prev) == u[|u| - 1] && !GapAfter(u, gap)
    decreases |u|
  {
    if |u| > 1 {
      LastShownIs(u[1..], if SqlSpace(u[0]) then prev else u[0], SqlSpace(u[0]));
    }
  }

  lemma {:induction false} ShapeSpaces(x: string, v: string, prev: char, gap: bool)
    requires AllSpace(x)
    ensures Shape(x + v, prev, gap) == Shape(v, prev, gap || |x| > 0)
    decreases |x|
  {
    if |x| > 0 {
      Uncons(x, v);
      ShapeSpaces(x[1..], v, prev, true);
    } else {
      assert x + v == v;
    }
  }

  lemma OptionalGap(u: string, v: string)
    requires SpaceOptional(u, v)
    ensures var p := LastShown(u, '\0');
            Shape(v, p, true) == Shape(v, p, GapAfter(u, false))
  {
    if |v| > 0 && !Closes(v[0]) {
      LastShownIs(u, '\0', false);
    }
  }

  lemma EditKeepsShape(a: string, b: string, u: string, x: string, y: string, v: string)
    requires EditAt(a, b, u, x, y, v)
    ensures Shape(a, '\0', false) == Shape(b, '\0', false)
  {
    RunKeepsShape(u, x, v);
    RunKeepsShape(u, y, v);
    if |x| == 0 || |y| == 0 {
      OptionalGap(u, v);
    }
  }

  lemma RunKeepsShape(u: string, x: string, v: string)
    requires AllSpace(x)
    ensures Shape(u + x + v, '\0', false) ==
            Shape(u, '\0', false) + Shape(v, LastShown(u, '\0'), GapAfter(u, false) || |x| > 0)
  {
    assert u + x + v == u + (x + v);
    ShapeSplit(u, x + v, '\0', false);
    ShapeSpaces(x, v, LastShown(u, '\0'), GapAfter(u, false));
  }

  lemma {:induction false} EditsKeepShape(a: string, b: string, n: nat)
    requires SpaceEdits(a, b, n)
    ensures Shape(a, '\0', false) == Shape(b, '\0', false)
    decreases n
  {
    if n > 0 {
      var c :| SpaceEdit(a, c) && SpaceEdits(c, b, n - 1);
      var u, x, y, v :| EditAt(a, c, u, x, y, v);
      EditKeepsShape(a, c, u, x, y, v);
      EditsKeepShape(c, b, n - 1);
    }
  }

  lemma EditThen(a: string, b: string, c: string, n: nat)
    requires SpaceEdit(a, b) && SpaceEdits(b, c, n)
    ensures SpaceEdits(a, c, n + 1)
  {
  }

  lemma {:induction false} RunIsSpace(s: string)
    ensures AllSpace(s[..SpaceRun(s)])
  {
    if |s| > 0 && SqlSpace(s[0]) {
      RunIsSpace(s[1..]);
      assert s[..SpaceRun(s)][1..] == s[1..][..SpaceRun(s[1..])];
    }
  }

  lemma RunInFront(u: string, s: string, k: nat)
    requires k <= |s|
    ensures u + s == u + s[..k] + s[k..] && |s[..k]| == k
  {
  }

  // Resizing the run that `s` starts with, after a finished prefix `u`.
  lemma FirstRunEdit(u: string, s: string, k: nat, y: string)
    requires 0 < k <= |s| && AllSpace(s[..k]) && AllSpace(y)
    requires |y| > 0 || SpaceOptional(u, s[k..])
    ensures SpaceEdit(u + s, u + y + s[k..])
  {
    hide AllSpace, SpaceOptional;
    RunInFront(u, s, k);
    assert EditAt(u + s, u + y + s[k..], u, s[..k], y, s[k..]);
  }

  // After a finished prefix `u`, edits lead to the respaced text.
  lemma {:induction false} EditsReach(u: string, s: string, prev: char) returns (n: nat)
    requires if |u| == 0 then prev == '\0' else u[|u| - 1] == prev
    ensures SpaceEdits(u + s, u + Respaced(s, prev, false), n)
    decreases |s|, 1
  {
    if |s| == 0 {
      n := 0;
    } else if !SqlSpace(s[0]) {
      n := ReachAfter(u, [s[0]], s, prev, false);
      Assoc(u, [s[0]], s[1..]);
      assert [s[0]] + s[1..] == s;
    } else {
      n := ReachOverRun(u, s, prev);
    }
  }

  lemma {:induction false} ReachOverRun(u: string, s: string, prev: char) returns (n: nat)
    requires if |u| == 0 then prev == '\0' else u[|u| - 1] == prev
    requires |s| > 0 && SqlSpace(s[0])
    ensures SpaceEdits(u + s, u + Respaced(s, prev, false), n)
    decreases |s|, 0
  {
    hide Shape, Render, SpaceEdits, SpaceEdit;
    var k := SpaceRun(s);
    var v := s[k..];
    var y := if |v| == 0 || Closes(v[0]) || Opens(prev) then [] else [' '];
    SpaceRunEnds(s);
    RunIsSpace(s);
    FirstRunEdit(u, s, k, y);
    RunRespaced(s, prev);
    if |v| == 0 {
      assert u + y + v == u + Respaced(s, prev, false);
      n := NoEdits(u + y + v);
    } else {
      n := ReachAfter(u, y + [v[0]], v, prev, true);
      Regroup(u, y, v);
    }
    EditThen(u + s, u + y + v, u + Respaced(s, prev, false), n);
    n := n + 1;
  }

  lemma RunRespaced(s: string, prev: char)
    requires |s| > 0 && SqlSpace(s[0])
    ensures var v := s[SpaceRun(s)..];
            Respaced(s, prev, false) == Respaced(v, prev, true) && (|v| == 0 ==> Respaced(s, prev, false) == [])
  {
    SpaceRunEnds(s);
    ShapeSkip(s, SpaceRun(s), prev, false);
  }

  lemma Regroup(u: string, y: string, v: string)
    requires |v| > 0
    ensures u + (y + [v[0]]) + v[1..] == u + y + v
  {
  }

  lemma NoEdits(a: string) returns (n: nat)
    ensures SpaceEdits(a, a, n)
  {
    n := 0;
  }

  // The text `v` after `u` comes out as `front` and the rest respaced.
  lemma {:induction false} ReachAfter(u: string, front: string, v: string, prev: char, gap: bool)
    returns (n: nat)
    requires |v| > 0 && !SqlSpace(v[0])
    requires front == if gap && !Closes(v[0]) && !Opens(prev) then [' ', v[0]] else [v[0]]
    ensures SpaceEdits(u + front + v[1..], u + Respaced(v, prev, gap), n)
    decreases |v|, 0
  {
    n := EditsReach(u + front, v[1..], v[0]);
    RespacedStep(v, prev, gap);
    Assoc(u, front, Respaced(v[1..], v[0], false));
  }

  lemma {:induction false} EditsJoin(a: string, b: string, c: string, m: nat, n: nat)
    requires SpaceEdits(a, b, m) && SpaceEdits(b, c, n)
    ensures SpaceEdits(a, c, m + n)
    decreases m
  {
    if m > 0 {
      var d :| SpaceEdit(a, d) && SpaceEdits(d, b, m - 1);
      EditsJoin(d, b, c, m - 1, n);
    }
  }

  lemma {:induction false} EditsReverse(a: string, b: string, n: nat)
    requires SpaceEdits(a, b, n)
    ensures SpaceEdits(b, a, n)
    decreases n
  {
    if n > 0 {
      var c :| SpaceEdit(a, c) && SpaceEdits(c, b, n - 1);
      EditsReverse(c, b, n - 1);
      var u, x, y, v :| EditAt(a, c, u, x, y, v);
      assert EditAt(c, a, u, y, x, v);
      assert SpaceEdits(a, a, 0);
      EditThen(c, a, a, 0);
      EditsJoin(b, c, a, n - 1, 1);
    }
  }

  // Edits lead from every text to what the pass makes of it.
  lemma EditsToOutput(a: string) returns (n: nat)
    ensures SpaceEdits(a, StripSpaces(a), n)
  {
    n := EditsReach([], a, '\0');
    assert [] + a == a && [] + Respaced(a, '\0', false) == Respaced(a, '\0', false);
    SpacesRenderShape(a);
  }

  /** Two texts come out equal exactly when whitespace edits lead from one to the other. */
  lemma SpacesDecideEquivalence(a: string, b: string)
    ensures StripSpaces(a) == StripSpaces(b) <==> exists n: nat :: SpaceEdits(a, b, n)
  {
    if StripSpaces(a) == StripSpaces(b) {
      var m := EditsToOutput(a);
      var n := EditsToOutput(b);
      EditsReverse(b, StripSpaces(b), n);
      EditsJoin(a, StripSpaces(a), b, m, n);
      assert exists n: nat :: SpaceEdits(a, b, n);
    }
    if n: nat :| SpaceEdits(a, b, n) {
      EditsKeepShape(a, b, n);
      SpacesRenderShape(a);
      SpacesRenderShape(b);
    }
  }

  // ---- normal form ----

  /** Single spaces only, none at the end, before a closing or after an opening character. */
  predicate Tidy(prev: char, s: string)
    decreases |s|
  {
    |s| == 0 ||
    ((SqlSpace(s[0]) ==> s[0] == ' ' && |s| > 1 && !SqlSpace(s[1]) && !Closes(s[1]) && !Opens(prev)) &&
     Tidy(s[0], s[1..]))
  }

  lemma {:induction false} RespacedIsTidy(s: string, prev: char, gap: bool)
    ensures Tidy(prev, Respaced(s, prev, gap))
    ensures Respaced(s, prev, gap) != [] && Opens(prev) ==> !SqlSpace(Respaced(s, prev, gap)[0])
    decreases |s|
  {
    if |s| > 0 {
      RespacedStep(s, prev, gap);
      if SqlSpace(s[0]) {
        RespacedIsTidy(s[1..], prev, true);
      } else {
        RespacedIsTidy(s[1..], s[0], false);
        RespacedParts(s, prev, gap);
      }
    }
  }

  lemma {:induction false} TidyUnchanged(s: string, prev: char)
    requires Tidy(prev, s)
    ensures Respaced(s, prev, false) == s
    decreases |s|
  {
    if |s| > 0 {
      hide Respaced;
      var first, t := s[0], s[1..];
      RespacedStep(s, prev, false);
      if SqlSpace(first) {
        var second, u := t[0], t[1..];
        assert Tidy(second, u);
        RespacedStep(t, prev, true);
        TidyUnchanged(u, second);
        SplitTwo(s);
      } else {
        TidyUnchanged(t, first);
      }
    }
  }

  lemma SplitTwo(s: string)
    requires |s| > 1
    ensures [s[0], s[1]] + s[1..][1..] == s && s[1..][0] == s[1]
  {
  }

  /** The pass changes nothing exactly on tidy text; running it twice adds nothing. */
  lemma SpacesFixedPoint(s: string)
    ensures StripSpaces(s) == s <==> Tidy('\0', s)
    ensures StripSpaces(StripSpaces(s)) == StripSpaces(s)
  {
    SpacesRenderShape(s);
    RespacedIsTidy(s, '\0', false);
    SpacesRenderShape(StripSpaces(s));
    TidyUnchanged(StripSpaces(s), '\0');
    if Tidy('\0', s) {
      TidyUnchanged(s, '\0');
    }
  }

  lemma {:induction false} RespacedWeight(s: string, prev: char, gap: bool)
    ensures var r := Respaced(s, prev, gap);
            var pending := if gap then 1 else 0;
            Weight(r) <= pending + Weight(s) &&
            (Weight(r) == pending + Weight(s) ==> r == if gap then [' '] + s else s)
    decreases |s|
  {
    if |s| == 0 {
    } else if SqlSpace(s[0]) {
      RespacedStep(s, prev, gap);
      RespacedWeight(s[1..], prev, true);
    } else {
      RespacedStep(s, prev, gap);
      RespacedWeight(s[1..], s[0], false);
      var tail := Respaced(s[1..], s[0], false);
      WeightCons(s[0], tail);
      WeightCons(' ', [s[0]] + tail);
      Uncons([' ', s[0]], tail);
    }
  }

  lemma StripSpacesWeight(s: string)
    ensures Weight(StripSpaces(s)) <= Weight(s)
    ensures Weight(StripSpaces(s)) == Weight(s) ==> StripSpaces(s) == s
  {
    SpacesRenderShape(s);
    RespacedWeight(s, '\0', false);
  }

  // ---- the earlier normal forms survive ----

  // `escaped` is the state of the quote scan in `s`, `shown` the one in the respaced text,
  // which has not seen the space yet.
  lemma {:induction false} SpacesKeepQuotes(s: string, prev: char, gap: bool, escaped: bool, shown: bool)
    requires if gap then !escaped else shown == escaped
    requires shown ==> prev == '\\'
    ensures NoOpenQuote(Respaced(s, prev, gap), shown) <==> NoOpenQuote(s, escaped)
    decreases |s|
  {
    if |s| > 0 {
      RespacedStep(s, prev, gap);
      if SqlSpace(s[0]) {
        SpacesKeepQuotes(s[1..], prev, true, false, shown);
      } else {
        var next := !escaped && s[0] == '\\';
        SpacesKeepQuotes(s[1..], s[0], false, next, next);
        RespacedParts(s, prev, gap);
        var r := Respaced(s, prev, gap);
        assert r[0] == ' ' ==> NoOpenQuote(r, shown) == NoOpenQuote(r[1..], false);
      }
    }
  }

  lemma {:induction false} SpacesKeepEnds(s: string, prev: char, gap: bool)
    ensures AllSpace(Respaced(s, prev, gap)) == AllSpace(s)
    ensures BlockEnds(Respaced(s, prev, gap)) == BlockEnds(s)
    decreases |s|
  {
    if |s| > 0 {
      RespacedStep(s, prev, gap);
      if SqlSpace(s[0]) {
        SpacesKeepEnds(s[1..], prev, true);
      } else {
        var r, tail := Respaced(s, prev, gap), Respaced(s[1..], s[0], false);
        RespacedParts(s, prev, gap);
        SecondShown(s);
        BlockEndsHere(s[0], tail);
        BlockEndsHere(s[0], s[1..]);
        assert [s[0]] + s[1..] == s;
        assert r == [s[0]] + tail || (r[0] == ' ' && r[1..] == [s[0]] + tail);
      }
    }
  }

  // After a character that is part of a marker, the next one is seen as it was.
  lemma SecondShown(s: string)
    requires |s| > 0 && !SqlSpace(s[0])
    ensures MarkerChar(s[0]) ==> AlikeAtFront(Respaced(s[1..], s[0], false), s[1..])
  {
    if |s| > 1 && MarkerChar(s[0]) {
      RespacedStep(s[1..], s[0], false);
      if SqlSpace(s[1]) {
        GapShown(s[1..][1..], s[0]);
      }
    }
  }

  // Where a space was, a space, a parenthesis or a comma is shown.
  lemma {:induction false} GapShown(s: string, prev: char)
    requires !Opens(prev)
    ensures var r := Respaced(s, prev, true); |r| > 0 ==> r[0] == ' ' || Closes(r[0])
    decreases |s|
  {
    if |s| > 0 {
      RespacedStep(s, prev, true);
      if SqlSpace(s[0]) {
        GapShown(s[1..], prev);
      }
    }
  }

  /** After stripping spaces all comment markers are bare exactly when they were before. */
  lemma {:induction false} SpacesKeepBare(s: string, prev: char, gap: bool)
    ensures MarkersBare(Respaced(s, prev, gap)) <==> MarkersBare(s)
    decreases |s|
  {
    if |s| > 0 {
      hide Respaced, FirstBare;
      RespacedStep(s, prev, gap);
      if SqlSpace(s[0]) {
        SpacesKeepBare(s[1..], prev, true);
      } else {
        var tail := Respaced(s[1..], s[0], false);
        SpacesKeepBare(s[1..], s[0], false);
        FirstShown(s);
        BareCons(s[0], tail);
        BareCons(s[0], s[1..]);
        BareCons(' ', [s[0]] + tail);
        TwoInFront(' ', s[0], tail);
        assert [s[0]] + s[1..] == s;
      }
    }
  }

  lemma TwoInFront(c: char, d: char, s: string)
    ensures [c, d] + s == [c] + ([d] + s)
  {
  }

  lemma FirstShown(s: string)
    requires |s| > 0 && !SqlSpace(s[0])
    ensures FirstBare([s[0]] + Respaced(s[1..], s[0], false)) == FirstBare(s)
  {
    var t := s[1..];
    var tail := Respaced(t, s[0], false);
    SecondShown(s);
    SpacesKeepEnds(t, s[0], false);
    if |t| > 0 && !SqlSpace(t[0]) {
      RespacedStep(t, s[0], false);
      SpacesKeepEnds(t[1..], t[0], false);
      assert tail[1..] == Respaced(t[1..], t[0], false);
    }
    FirstBareAlike(s[0], tail, t);
    assert [s[0]] + t == s;
  }

  /** In tidy text bare markers are those the comment passes leave alone. */
  lemma {:induction false} TidyBareIsSettled(prev: char, s: string)
    requires Tidy(prev, s)
    ensures MarkersBare(s) <==> NoCommentText(s)
    decreases |s|
  {
    if |s| > 0 {
      TidyBareIsSettled(s[0], s[1..]);
      TidyEnds(s[0], s[1..]);
      if |s| > 1 {
        TidyEnds(s[1], s[2..]);
        assert s[1..][1..] == s[2..];
      }
    }
  }

  lemma TidyEnds(prev: char, s: string)
    requires Tidy(prev, s)
    ensures AllSpace(s) <==> |s| == 0
    ensures BlockEnds(s) <==> |s| == 0 || "*/" <= s || " */" <= s
  {
    if |s| > 0 && s[0] == ' ' {
      assert "*/" <= s[1..] <==> " */" <= s;
    }
  }

  lemma {:induction false} SpacesKeepNumbers(before: char, s: string, prev: char, gap: bool)
    requires NoNumber(before, s)
    requires if gap then SqlSpace(before) else before == prev
    ensures NoNumber(prev, Respaced(s, prev, gap))
    decreases |s|
  {
    if |s| > 0 {
      RespacedStep(s, prev, gap);
      if SqlSpace(s[0]) {
        SpacesKeepNumbers(s[0], s[1..], prev, true);
      } else {
        SpacesKeepNumbers(s[0], s[1..], s[0], false);
        RespacedParts(s, prev, gap);
      }
    }
  }

  // The sign pass, which comes last, keeps text tidy.
  lemma {:induction false} SignsKeepTidy(prev: char, tok: string, s: string)
    requires Tidy(prev, s)
    ensures Tidy(prev, FixSigns(tok, s))
    decreases |s|
  {
    if |s| == 0 {
    } else if Delimiter(s[0]) {
      var rest := DropSign(tok + [s[0]], s[1..]);
      if rest != s[1..] {
        var k := SignLength(s[1..]);
        assert s[1..][1..] == s[2..] && (k == 2 ==> s[2..][1..] == rest);
        assert Tidy(s[1], s[2..]);
        TidyAfter(if k == 1 then '-' else s[2], rest, s[0]);
      }
      SignsKeepTidy(s[0], [], rest);
      assert FixSigns(tok, s)[1..] == FixSigns([], rest);
    } else {
      SignsKeepTidy(s[0], tok + [s[0]], s[1..]);
      assert FixSigns(tok, s)[1..] == FixSigns(tok + [s[0]], s[1..]);
    }
  }

  lemma TidyAfter(prev: char, s: string, prev': char)
    requires Tidy(prev, s) && (|s| > 0 ==> !SqlSpace(s[0]))
    ensures Tidy(prev', s)
  {
  }
}
