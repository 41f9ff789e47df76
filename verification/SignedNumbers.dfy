/** The sign of a number in front of which the last pass drops signs has no influence on the
    pattern. */
module SignedNumbers {
  import opened Text
  import opened QuotedText
  import opened Comments
  import opened CommentParts
  import opened Numbers
  import opened Spaces
  import opened Signs
  import opened SignRule
  import opened NormalForm
  import opened Templates

  predicate Sign(s: string) {
    s == "" || s == "-" || s == "- "
  }

  // ---- the last pass ----

  // Once `a` was read, with `tok` before it, a sign is dropped.
  predicate ValueNext(tok: string, a: string)
    decreases |a|
  {
    |a| > 0 &&
    if Delimiter(a[0]) then
      if |a| == 1 then BeforeValue(tok + a) else ValueNext([], DropSign(tok + [a[0]], a[1..]))
    else ValueNext(tok + [a[0]], a[1..])
  }

  lemma MinusIsNoToken(t: string)
    requires |t| == 0 || (|t| == 1 && SqlSpace(t[0]))
    ensures !ValueNext(['-'], t)
  {
    if |t| == 1 {
      assert t[1..] == [] && ['-'] + t == ['-', t[0]];
      assert !ValueNext(['-', t[0]], []);
    }
  }

  // A sign that is dropped inside `a` does not reach what follows.
  lemma DropInside(tok: string, a: string, z: string)
    requires |tok| > 0 && |a| > 0 && ValueNext([], DropSign(tok, a))
    ensures DropSign(tok, a + z) == DropSign(tok, a) + z
  {
    if a[0] == '-' && (|a| == 1 || (|a| == 2 && SqlSpace(a[1]))) {
      assert DropSign(tok, a) == a && [] + [a[0]] == ['-'];
      MinusIsNoToken(a[1..]);
      assert false;
    }
    var k := SignLength(a);
    assert (a + z)[0] == a[0] && (|a| > 1 ==> (a + z)[1] == a[1]) && (|a| > 2 ==> (a + z)[2] == a[2]);
    assert (a + z)[k..] == a[k..] + z && (a + z)[0..] == a + z;
  }

  lemma {:induction false} DropsSign(tok: string, a: string, sign: string, x: string)
    requires ValueNext(tok, a) && Sign(sign)
    ensures FixSigns(tok, a + (sign + (['?'] + x))) == FixSigns(tok, a + (['?'] + x))
    decreases |a|
  {
    var y, z := ['?'] + x, sign + (['?'] + x);
    Uncons(a, y);
    Uncons(a, z);
    if !Delimiter(a[0]) {
      DropsSign(tok + [a[0]], a[1..], sign, x);
    } else if |a| > 1 {
      DropInside(tok + [a[0]], a[1..], y);
      DropInside(tok + [a[0]], a[1..], z);
      DropsSign([], DropSign(tok + [a[0]], a[1..]), sign, x);
    } else {
      assert tok + a == tok + [a[0]] && a[1..] + y == y && a[1..] + z == z;
      SignThenMark(sign, x);
    }
  }

  lemma SignThenMark(sign: string, x: string)
    requires Sign(sign)
    ensures var z := sign + (['?'] + x); z[SignLength(z)..] == ['?'] + x
  {
    var z := sign + (['?'] + x);
    assert sign == "- " ==> z[0] == '-' && z[1] == ' ' && z[2] == '?';
    assert sign == "-" ==> z[0] == '-' && z[1] == '?';
    assert sign == "" ==> z[0] == '?';
  }

  // ---- what stands in front of a value ----

  predicate EndsWith(a: string, c: char) {
    |a| > 0 && a[|a| - 1] == c
  }

  predicate AtToken(b: string) {
    |b| == 0 || Delimiter(b[|b| - 1])
  }

  lemma {:induction false} ValueNextOpens(tok: string, a: string)
    requires EndsWith(a, '(') || EndsWith(a, ',')
    ensures ValueNext(tok, a)
    decreases |a|
  {
    if Delimiter(a[0]) {
      if |a| > 1 {
        ValueNextOpens([], DropSign(tok + [a[0]], a[1..]));
      }
    } else {
      ValueNextOpens(tok + [a[0]], a[1..]);
    }
  }

  lemma KeywordParts(kw: string)
    requires kw in KEYWORDS
    ensures |kw| > 2 && kw[|kw| - 1] == ' ' && BeforeValue(kw)
    ensures forall i :: 0 <= i < |kw| - 1 ==> 'a' <= kw[i] <= 'z'
  {
  }

  lemma {:induction false} ValueNextKeyword(tok: string, b: string, kw: string)
    requires kw in KEYWORDS && AtToken(b) && (|b| == 0 ==> |tok| == 0)
    ensures ValueNext(tok, b + kw)
    decreases |b|
  {
    KeywordParts(kw);
    if |b| == 0 {
      assert b + kw == kw && [] + kw == kw;
      WholeToken([], kw);
    } else {
      Uncons(b, kw);
      var tok', t := tok + [b[0]], b[1..];
      if !Delimiter(b[0]) {
        ValueNextKeyword(tok', t, kw);
      } else {
        assert |t| > 0 ==> t[|t| - 1] == b[|b| - 1];
        assert t + kw != [];
        DropBefore(tok', t, kw);
        ValueNextKeyword([], DropSign(tok', t), kw);
      }
    }
  }

  lemma DropBefore(tok: string, t: string, kw: string)
    requires |tok| > 0 && kw in KEYWORDS && AtToken(t)
    ensures DropSign(tok, t + kw) == DropSign(tok, t) + kw && AtToken(DropSign(tok, t))
  {
    KeywordParts(kw);
    var s, k := t + kw, SignLength(t);
    assert |t| > 0 ==> s[0] == t[0];
    assert |t| > 1 ==> s[1] == t[1];
    assert |t| > 2 ==> s[2] == t[2];
    assert |t| < 3 ==> s[|t|] == kw[0];
    assert s[k..] == t[k..] + kw && s[0..] == s && t[0..] == t;
  }

  // No delimiter before the last character of `kw`.
  lemma {:induction false} WholeToken(tok: string, kw: string)
    requires |kw| > 0 && kw[|kw| - 1] == ' ' && BeforeValue(tok + kw)
    requires forall i :: 0 <= i < |kw| - 1 ==> !Delimiter(kw[i])
    ensures ValueNext(tok, kw)
    decreases |kw|
  {
    if |kw| > 1 {
      assert tok + [kw[0]] + kw[1..] == tok + kw;
      WholeToken(tok + [kw[0]], kw[1..]);
    }
  }

  // ---- the passes before it ----

  const WORDS: set<string> := {"select", "where", "and", "or", "not"}

  predicate AtBreak(b: string) {
    |b| == 0 || SqlSpace(b[|b| - 1]) || Opens(b[|b| - 1])
  }

  predicate KeywordEnds(p: string, b: string, word: string, spaces: string) {
    p == b + (word + spaces) && AtBreak(b) && word in WORDS && AllSpace(spaces) && |spaces| > 0
  }

  /** `p` ends in a parenthesis, a comma, or a keyword and white space. */
  ghost predicate BeforeNumber(p: string) {
    EndsWith(p, '(') || EndsWith(p, ',') || exists b, word, spaces :: KeywordEnds(p, b, word, spaces)
  }

  lemma {:induction false} RenderJoin(m: seq<Mark>, n: seq<Mark>)
    ensures Render(m + n) == Render(m) + Render(n)
  {
    if |m| == 0 {
      assert m + n == n;
    } else {
      var head := if m[0].gap then [' ', m[0].c] else [m[0].c];
      assert (m + n)[1..] == m[1..] + n;
      RenderJoin(m[1..], n);
      Assoc(head, Render(m[1..]), Render(n));
    }
  }

  lemma RespacedJoin(u: string, v: string, prev: char, gap: bool)
    ensures Respaced(u + v, prev, gap) == Respaced(u, prev, gap) + Respaced(v, LastShown(u, prev), GapAfter(u, gap))
  {
    ShapeSplit(u, v, prev, gap);
    RenderJoin(Shape(u, prev, gap), Shape(v, LastShown(u, prev), GapAfter(u, gap)));
  }

  // The last character shown is the last one that is no space.
  lemma {:induction false} RespacedLast(s: string, prev: char, gap: bool)
    ensures var r := Respaced(s, prev, gap);
            if AllSpace(s) then r == [] && LastShown(s, prev) == prev else EndsWith(r, LastShown(s, prev))
    decreases |s|
  {
    if |s| > 0 {
      RespacedStep(s, prev, gap);
      RespacedLast(s[1..], if SqlSpace(s[0]) then prev else s[0], SqlSpace(s[0]));
    }
  }

  lemma {:induction false} GapAfterSpaces(s: string, prev: char, gap: bool)
    requires AllSpace(s) && |s| > 0
    ensures GapAfter(s, gap) && LastShown(s, prev) == prev
    decreases |s|
  {
    if |s| > 1 {
      GapAfterSpaces(s[1..], prev, true);
    }
  }

  lemma {:induction false} GapAfterLast(u: string, gap: bool)
    requires |u| > 0
    ensures GapAfter(u, gap) <==> SqlSpace(u[|u| - 1])
    decreases |u|
  {
    if |u| > 1 {
      GapAfterLast(u[1..], SqlSpace(u[0]));
    }
  }

  // A character that is neither space nor bracket in front of a text.
  lemma PlainShown(c: char, x: string, prev: char, gap: bool)
    requires !SqlSpace(c) && !Closes(c) && (gap ==> !Opens(prev))
    ensures Respaced([c] + x, prev, gap) == (if gap then [' '] else []) + ([c] + Respaced(x, c, false))
  {
    assert ([c] + x)[1..] == x;
    RespacedStep([c] + x, prev, gap);
  }

  lemma SpaceShown(x: string, prev: char)
    ensures Respaced([' '] + x, prev, false) == Respaced(x, prev, true)
  {
    assert ([' '] + x)[1..] == x;
    RespacedStep([' '] + x, prev, false);
  }

  // A value with its sign is shown as it is, after a space where there is a gap.
  lemma SignShown(sign: string, x: string, prev: char, gap: bool)
    requires Sign(sign) && (gap ==> !Opens(prev))
    ensures var shown := sign + (['?'] + Respaced(x, '?', false));
            Respaced(sign + (['?'] + x), prev, gap) == if gap then [' '] + shown else shown
  {
    hide Respaced;
    assert [] + (sign + (['?'] + Respaced(x, '?', false))) == sign + (['?'] + Respaced(x, '?', false));
    var y, r := ['?'] + x, Respaced(x, '?', false);
    if sign == "" {
      PlainShown('?', x, prev, gap);
      assert sign + y == y && sign + (['?'] + r) == ['?'] + r;
    } else if sign == "-" {
      PlainShown('?', x, '-', false);
      PlainShown('-', y, prev, gap);
      assert [] + (['?'] + r) == ['?'] + r;
    } else {
      PlainShown('?', x, '-', true);
      SpaceShown(y, '-');
      PlainShown('-', [' '] + y, prev, gap);
      assert sign + y == ['-'] + ([' '] + y) && sign + (['?'] + r) == ['-'] + ([' '] + (['?'] + r));
    }
  }

  // White space and numbers handled, the text in front of the value ends where a sign is dropped.
  lemma FrontOpens(p: string)
    requires EndsWith(p, '(') || EndsWith(p, ',')
    ensures ValueNext([], Respaced(p, '\0', false)) && !GapAfter(p, false)
  {
    GapAfterLast(p, false);
    LastShownIs(p, '\0', false);
    LastNotSpace(p);
    RespacedLast(p, '\0', false);
    ValueNextOpens([], Respaced(p, '\0', false));
  }

  lemma {:induction false} LastNotSpace(p: string)
    requires |p| > 0 && !SqlSpace(p[|p| - 1])
    ensures !AllSpace(p)
  {
    if |p| > 1 {
      LastNotSpace(p[1..]);
    }
  }

  lemma FrontKeyword(p: string, b: string, word: string, spaces: string)
    requires KeywordEnds(p, b, word, spaces)
    ensures GapAfter(p, false) && !Opens(LastShown(p, '\0')) && ValueNext([], Respaced(p, '\0', false) + [' '])
  {
    var prev, gap := LastShown(b, '\0'), GapAfter(b, false);
    var front := Respaced(b, '\0', false);
    GapAfterJoin(b, word + spaces, '\0', false);
    WordShown(word, spaces, prev, gap);
    RespacedJoin(b, word + spaces, '\0', false);
    RespacedLast(b, '\0', false);
    if |b| > 0 {
      GapAfterLast(b, false);
      if !gap {
        LastShownIs(b, '\0', false);
        LastNotSpace(b);
      }
    }
    var lead := if gap && !Opens(prev) then [' '] else [];
    assert Respaced(p, '\0', false) + [' '] == (front + lead) + (word + [' ']);
    WordSpaced(word);
    ValueNextKeyword([], front + lead, word + [' ']);
  }

  lemma {:induction false} GapAfterJoin(u: string, v: string, prev: char, gap: bool)
    ensures GapAfter(u + v, gap) == GapAfter(v, GapAfter(u, gap))
    ensures LastShown(u + v, prev) == LastShown(v, LastShown(u, prev))
    decreases |u|
  {
    if |u| == 0 {
      assert u + v == v;
    } else {
      Uncons(u, v);
      GapAfterJoin(u[1..], v, if SqlSpace(u[0]) then prev else u[0], SqlSpace(u[0]));
    }
  }

  lemma WordShown(word: string, spaces: string, prev: char, gap: bool)
    requires word in WORDS && AllSpace(spaces) && |spaces| > 0
    ensures Respaced(word + spaces, prev, gap) == (if gap && !Opens(prev) then [' '] else []) + word
    ensures GapAfter(word + spaces, gap) && !Opens(LastShown(word + spaces, prev))
  {
    WordLetters(word);
    GapAfterJoin(word, spaces, prev, gap);
    GapAfterSpaces(spaces, LastShown(word, prev), GapAfter(word, gap));
    LastShownIs(word, prev, gap);
    RespacedJoin(word, spaces, prev, gap);
    RespacedLast(spaces, LastShown(word, prev), GapAfter(word, gap));
    LettersShown(word, prev, gap);
  }

  lemma WordSpaced(word: string)
    requires word in WORDS
    ensures word + [' '] in KEYWORDS
  {
    assert "select" + [' '] == "select " && "where" + [' '] == "where ";
    assert "and" + [' '] == "and " && "or" + [' '] == "or " && "not" + [' '] == "not ";
  }

  lemma WordLetters(word: string)
    requires word in WORDS
    ensures |word| > 1 && forall i :: 0 <= i < |word| ==> 'a' <= word[i] <= 'z'
  {
  }

  lemma {:induction false} LettersShown(word: string, prev: char, gap: bool)
    requires |word| > 0 && forall i :: 0 <= i < |word| ==> 'a' <= word[i] <= 'z'
    ensures Respaced(word, prev, gap) == (if gap && !Opens(prev) then [' '] else []) + word
    decreases |word|
  {
    RespacedStep(word, prev, gap);
    if |word| > 1 {
      LettersShown(word[1..], word[0], false);
    }
    assert [word[0]] + word[1..] == word;
  }

  // ---- numbers ----

  lemma {:induction false} NoDigits(prev: char, t: string)
    requires forall i :: 0 <= i < |t| ==> !Digit(t[i])
    ensures StripNumbers(prev, t) == t
    decreases |t|
  {
    if |t| > 0 {
      NoDigits(t[0], t[1..]);
      assert [t[0]] + t[1..] == t;
    }
  }

  // Removing numbers keeps a last character that is part of none.
  lemma {:induction false} LastKept(p: string)
    requires |p| > 0 && !NumberChar(p[|p| - 1])
    ensures EndsWith(StripNumbers('\0', p), p[|p| - 1])
  {
    var n := |p| - 1;
    var front, last := p[..n], [p[n]];
    assert p == front + last;
    StripNumbersSplit('\0', front, last);
    NoDigits(if n > 0 then front[n - 1] else '\0', last);
  }

  lemma {:induction false} SpacesNoNumber(s: string)
    requires AllSpace(s)
    ensures forall i :: 0 <= i < |s| ==> SqlSpace(s[i])
  {
    if |s| > 0 {
      SpacesNoNumber(s[1..]);
    }
  }

  lemma NumbersBeforeKeyword(p: string, b: string, word: string, spaces: string)
    requires KeywordEnds(p, b, word, spaces)
    ensures KeywordEnds(StripNumbers('\0', p), StripNumbers('\0', b), word, spaces)
  {
    var t := word + spaces;
    WordLetters(word);
    SpacesNoNumber(spaces);
    NoDigits(if |b| > 0 then b[|b| - 1] else '\0', t);
    if |b| == 0 {
      assert b + t == t;
    } else {
      StripNumbersSplit('\0', b, t);
      LastKept(b);
    }
  }

  // ---- the whole normaliser ----

  // Whatever sign stands before a value, the last two passes make the same of it.
  lemma SignsMeet(p: string, sign: string, x: string)
    requires BeforeNumber(p) && Sign(sign)
    ensures FixSigns([], StripSpaces(p + (sign + (['?'] + x)))) == FixSigns([], StripSpaces(p + (['?'] + x)))
  {
    var prev, gap, front := LastShown(p, '\0'), GapAfter(p, false), Respaced(p, '\0', false);
    var y, shown := ['?'] + x, ['?'] + Respaced(x, '?', false);
    SpacesRenderShape(p + (sign + y));
    SpacesRenderShape(p + y);
    RespacedJoin(p, sign + y, '\0', false);
    RespacedJoin(p, y, '\0', false);
    assert [] + y == y && [] + shown == shown;
    if EndsWith(p, '(') || EndsWith(p, ',') {
      FrontOpens(p);
      SignShown(sign, x, prev, gap);
      SignShown([], x, prev, gap);
      DropsSign([], front, sign, Respaced(x, '?', false));
    } else {
      var b, word, spaces :| KeywordEnds(p, b, word, spaces);
      FrontKeyword(p, b, word, spaces);
      SignShown(sign, x, prev, gap);
      SignShown([], x, prev, gap);
      Assoc(front, [' '], sign + shown);
      Assoc(front, [' '], shown);
      DropsSign([], front + [' '], sign, Respaced(x, '?', false));
    }
  }

  // Removing numbers leaves what stands in front of the value as it must be.
  lemma NumbersKeepBefore(p: string)
    requires BeforeNumber(p)
    ensures BeforeNumber(StripNumbers('\0', p))
  {
    BreaksAtEnd(p);
    if EndsWith(p, '(') || EndsWith(p, ',') {
      LastKept(p);
    } else {
      var b, word, spaces :| KeywordEnds(p, b, word, spaces);
      NumbersBeforeKeyword(p, b, word, spaces);
    }
  }

  lemma BreaksAtEnd(p: string)
    requires BeforeNumber(p)
    ensures |p| > 0 && Separator(p[|p| - 1]) && !NumberChar(p[|p| - 1]) && p[|p| - 1] != '-' && p[|p| - 1] != '/'
  {
    if !EndsWith(p, '(') && !EndsWith(p, ',') {
      var b, word, spaces :| KeywordEnds(p, b, word, spaces);
      SpacesNoNumber(spaces);
      assert p[|p| - 1] == spaces[|spaces| - 1];
    }
  }

  // ---- templates with signs ----

  // The template with a sign in front of some of its holes.
  function Signed(t: Template, g: seq<string>): (u: Template)
    requires |g| == HoleCount(t)
    ensures HoleCount(u) == HoleCount(t)
  {
    match t
    case End(_) => t
    case Then(p, hole, rest) => Then(p + g[0], hole, Signed(rest, g[1..]))
  }

  /** Signs stand where the last pass drops them, going by the text in front: at the start of the
      query, or behind the hole before, for which `lead` stands. */
  ghost predicate SignsFit(lead: string, t: Template, g: seq<string>)
    requires |g| == HoleCount(t)
    decreases t
  {
    t.Then? ==>
      Sign(g[0]) && (g[0] != "" ==> BeforeNumber(lead + t.text)) && SignsFit("?", t.rest, g[1..])
  }

  // The same, `before` being all the text in front.
  ghost predicate SignsReady(before: string, t: Template, g: seq<string>)
    requires |g| == HoleCount(t)
    decreases t
  {
    t.Then? ==>
      Sign(g[0]) && (g[0] != "" ==> BeforeNumber(before + t.text)) &&
      SignsReady(before + t.text + ['?'], t.rest, g[1..])
  }

  // ---- quotes and comments ----

  lemma {:induction false} FrontClosed(p: string, s: string, escaped: bool)
    requires NoOpenQuote(p + s, escaped)
    ensures NoOpenQuote(p, escaped)
  {
    if |p| > 0 {
      Uncons(p, s);
      FrontClosed(p[1..], s, !escaped && p[0] == '\\');
    }
  }

  lemma {:induction false} LastEscapes(p: string, escaped: bool)
    requires |p| > 0 && p[|p| - 1] != '\\'
    ensures !EscapedAfter(p, escaped)
  {
    if |p| > 1 {
      LastEscapes(p[1..], !escaped && p[0] == '\\');
    }
  }

  // A text that ends where a sign is dropped ends in a character that closes an escape, ends a
  // number and begins no marker.
  lemma BreaksBefore(lead: string, p: string)
    requires BeforeNumber(lead + p) && (lead == "" || lead == "?")
    ensures |p| > 0 && Separator(p[|p| - 1]) && !NumberChar(p[|p| - 1]) && p[|p| - 1] != '-' && p[|p| - 1] != '/'
  {
    BreaksAtEnd(lead + p);
    assert |p| == 0 ==> lead + p == lead;
    assert |p| > 0 ==> (lead + p)[|lead + p| - 1] == p[|p| - 1];
  }

  lemma SignIsPlain(sign: string)
    requires Sign(sign)
    ensures CommentsInside(sign) && StripComments(sign) == sign
    ensures |sign| > 0 ==> sign[0] == '-' && (sign[|sign| - 1] == '-' || sign[|sign| - 1] == ' ')
  {
    assert Unmarked('\0', sign);
    UnmarkedInside('\0', sign);
    UnmarkedIsSettled('\0', sign);
    CommentsFixedPoint(sign);
  }

  // A sign behind a text, as the comment passes see it.
  lemma SignUncommented(lead: string, p: string, sign: string)
    requires CommentsInside(p) && Sign(sign) && (lead == "" || lead == "?")
    requires sign != "" ==> BeforeNumber(lead + StripComments(p))
    ensures CommentsInside(p + sign) && StripComments(p + sign) == StripComments(p) + sign
    ensures sign != "" ==> |p| > 0 && p[|p| - 1] != '\\'
  {
    SignIsPlain(sign);
    hide StripComments, CommentsInside;
    CommentsSplit(p, []);
    if sign == "" {
      assert p + sign == p && StripComments(p) + sign == StripComments(p);
    } else {
      BreaksBefore(lead, StripComments(p));
      CommentsSplit(p, sign);
      CommentsJoin(p, sign);
    }
  }

  lemma {:induction false} SignedUncommented(lead: string, t: Template, g: seq<string>)
    requires |g| == HoleCount(t) && CommentsFit(t) && (lead == "" || lead == "?")
    requires SignsFit(lead, Uncommented(t), g)
    ensures CommentsFit(Signed(t, g)) && Uncommented(Signed(t, g)) == Signed(Uncommented(t), g)
    ensures AllClosed(Signed(t, g)) ==> AllClosed(t)
    decreases t
  {
    hide StripComments, CommentsInside, BeforeNumber;
    if t.Then? {
      SignUncommented(lead, t.text, g[0]);
      SignedUncommented("?", t.rest, g[1..]);
      if AllClosed(Signed(t, g)) {
        FrontClosed(t.text, g[0], false);
        if g[0] == "" {
          assert t.text + g[0] == t.text;
        } else {
          LastEscapes(t.text, false);
        }
      }
    }
  }

  // ---- numbers ----

  // The template whose texts have their numbers removed.
  function Numbered(prev: char, t: Template): (u: Template)
    ensures HoleCount(u) == HoleCount(t)
    decreases t
  {
    match t
    case End(p) => End(StripNumbers(prev, p))
    case Then(p, hole, rest) => Then(StripNumbers(prev, p), hole, Numbered('?', rest))
  }

  lemma {:induction false} MaskedNumbers(prev: char, t: Template)
    ensures StripNumbers(prev, Masked(t)) == Masked(Numbered(prev, t))
    decreases t
  {
    if t.Then? {
      MaskedNumbers('?', t.rest);
      MarkHole(prev, t.text, Masked(t.rest));
    }
  }

  lemma SignNumbered(lead: string, prev: char, p: string, sign: string)
    requires Sign(sign) && (lead == "" || lead == "?") && (sign != "" ==> BeforeNumber(lead + p))
    ensures StripNumbers(prev, p + sign) == StripNumbers(prev, p) + sign
  {
    if sign == "" {
      assert p + sign == p && StripNumbers(prev, p) + sign == StripNumbers(prev, p);
    } else {
      BreaksBefore(lead, p);
      StripNumbersSplit(prev, p, sign);
      NoDigits(p[|p| - 1], sign);
    }
  }

  lemma {:induction false} SignedNumbered(lead: string, prev: char, t: Template, g: seq<string>)
    requires |g| == HoleCount(t) && SignsFit(lead, t, g) && (lead == "" || lead == "?")
    ensures Numbered(prev, Signed(t, g)) == Signed(Numbered(prev, t), g)
    decreases t
  {
    hide BeforeNumber;
    if t.Then? {
      SignNumbered(lead, prev, t.text, g[0]);
      SignedNumbered("?", '?', t.rest, g[1..]);
    }
  }

  // What is in front of a hole mark does not matter.
  lemma LongerFront(front: string, p: string)
    requires BeforeNumber(['?'] + p)
    ensures BeforeNumber(front + ['?'] + p)
  {
    var q, r := ['?'] + p, front + ['?'] + p;
    BreaksAtEnd(q);
    assert r == front + q && r[|r| - 1] == q[|q| - 1];
    if !EndsWith(q, '(') && !EndsWith(q, ',') {
      var b, word, spaces :| KeywordEnds(q, b, word, spaces);
      WordLetters(word);
      assert q[0] == (b + (word + spaces))[0];
      assert |b| > 0 && (front + b)[|front + b| - 1] == b[|b| - 1];
      assert KeywordEnds(r, front + b, word, spaces);
    }
  }

  lemma NumberedLead(p: string)
    ensures StripNumbers('\0', ['?'] + p) == ['?'] + StripNumbers('?', p)
  {
    assert (['?'] + p)[1..] == p;
  }

  // Fitting signs are ready once numbers are removed.
  lemma {:induction false} FittingSigns(front: string, t: Template, g: seq<string>)
    requires |g| == HoleCount(t) && SignsFit("?", t, g)
    ensures SignsReady(front + ['?'], Numbered('?', t), g)
    decreases t
  {
    hide BeforeNumber;
    if t.Then? {
      var p := StripNumbers('?', t.text);
      if g[0] != "" {
        NumbersKeepBefore("?" + t.text);
        NumberedLead(t.text);
        LongerFront(front, p);
      }
      FittingSigns(front + ['?'] + p, t.rest, g[1..]);
    }
  }

  lemma {:induction false} FirstSigns(t: Template, g: seq<string>)
    requires |g| == HoleCount(t) && SignsFit("", t, g)
    ensures SignsReady([], Numbered('\0', t), g)
  {
    if t.Then? {
      var p := StripNumbers('\0', t.text);
      assert "" + t.text == t.text && [] + p == p;
      if g[0] != "" {
        NumbersKeepBefore(t.text);
      }
      FittingSigns(p, t.rest, g[1..]);
    }
  }

  // ---- the last two passes ----

  lemma Regrouped(before: string, p: string, sign: string, x: string)
    ensures before + ((p + sign) + (['?'] + x)) == (before + p) + (sign + (['?'] + x))
    ensures (before + p) + (['?'] + x) == (before + p + ['?']) + x
    ensures before + (p + (['?'] + x)) == (before + p) + (['?'] + x)
    ensures [] + (['?'] + x) == ['?'] + x
  {
  }

  lemma {:induction false} SignsGone(before: string, t: Template, g: seq<string>)
    requires |g| == HoleCount(t) && SignsReady(before, t, g)
    ensures FixSigns([], StripSpaces(before + Masked(Signed(t, g)))) == FixSigns([], StripSpaces(before + Masked(t)))
    decreases t
  {
    hide FixSigns, StripSpaces, BeforeNumber;
    if t.Then? {
      var after, mask := Masked(Signed(t.rest, g[1..])), Masked(t.rest);
      Regrouped(before, t.text, g[0], after);
      Regrouped(before, t.text, g[0], mask);
      if g[0] != "" {
        SignsMeet(before + t.text, g[0], after);
      }
      SignsGone(before + t.text + ['?'], t.rest, g[1..]);
    }
  }

  /** Sign blindness: behind an opening parenthesis, a comma or one of the keywords, it does not
      matter whether a number has a minus, a minus and a space, or none. So in a template with quoted
      and numeric holes, however filled, and with comments in its texts, with any signs that stand
      in such places, the pattern is that of the template without signs. */
  lemma {:induction false} SignBlind(t: Template, g: seq<string>, f: seq<string>)
    requires |f| == |g| == HoleCount(t) && Fits(Signed(t, g), f)
    requires CommentsFit(t) && SignsFit("", Uncommented(t), g)
    ensures Pattern(Fill(Signed(t, g), f)) == Pattern(Masked(t))
  {
    hide Pattern;
    FittingClosed(Signed(t, g), f);
    SignedUncommented("", t, g);
    ValueBlind(Signed(t, g), f);
    SignsMasked(t, g);
  }

  lemma {:induction false} SignsMasked(t: Template, g: seq<string>)
    requires |g| == HoleCount(t) && AllClosed(Signed(t, g))
    requires CommentsFit(t) && SignsFit("", Uncommented(t), g)
    ensures Pattern(Masked(Signed(t, g))) == Pattern(Masked(t))
  {
    hide StripQuoted, StripComments, StripNumbers, StripSpaces, FixSigns, CommentsFit, SignsFit, AllClosed;
    var u := Uncommented(t);
    var n := Numbered('\0', u);
    SignedUncommented("", t, g);
    MaskedHasNoOpenQuote(Signed(t, g));
    MaskedHasNoOpenQuote(t);
    MaskedUncommented(Signed(t, g));
    MaskedUncommented(t);
    MaskedNumbers('\0', Signed(u, g));
    MaskedNumbers('\0', u);
    SignedNumbered("", '\0', u, g);
    FirstSigns(u, g);
    SignsGone([], n, g);
    assert [] + Masked(Signed(n, g)) == Masked(Signed(n, g)) && [] + Masked(n) == Masked(n);
  }
}
