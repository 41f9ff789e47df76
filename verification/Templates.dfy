/** Queries that differ only in their literals. A template has holes for quoted strings and for
    numbers; whatever fills them, the pattern is that of the template with `?` in each hole. */
module Templates {
  import opened Text
  import opened QuotedText
  import opened Comments
  import opened CommentParts
  import opened Numbers
  import opened NormalForm

  datatype Hole = Quoted(delimiter: char) | Numeric

  datatype Template =
    | End(text: string)
    | Then(text: string, hole: Hole, rest: Template)

  function HoleCount(t: Template): nat {
    match t
    case End(_) => 0
    case Then(_, _, rest) => 1 + HoleCount(rest)
  }

  // The query: a quoted hole is filled with a body between its delimiters.
  function Fill(t: Template, f: seq<string>): string
    requires |f| == HoleCount(t)
  {
    match t
    case End(p) => p
    case Then(p, Quoted(d), rest) => p + ([d] + (f[0] + [d] + Fill(rest, f[1..])))
    case Then(p, Numeric, rest) => p + (f[0] + Fill(rest, f[1..]))
  }

  function Masked(t: Template): string {
    match t
    case End(p) => p
    case Then(p, _, rest) => p + (['?'] + Masked(rest))
  }

  // Only the quoted holes masked.
  function Unquoted(t: Template, f: seq<string>): string
    requires |f| == HoleCount(t)
  {
    match t
    case End(p) => p
    case Then(p, Quoted(_), rest) => p + (['?'] + Unquoted(rest, f[1..]))
    case Then(p, Numeric, rest) => p + (f[0] + Unquoted(rest, f[1..]))
  }

  // The fixed text has no quote of its own and does not end in an open backslash.
  predicate ClosedText(p: string) {
    NoOpenQuote(p, false) && !EscapedAfter(p, false)
  }

  /** The characters a number is masked behind: white space and fifteen others. */
  predicate FrontOfNumber(c: char) {
    SqlSpace(c) ||
    c == ',' || c == '!' || c == '(' || c == '+' || c == '-' || c == '*' || c == '/' || c == '=' || c == '~' ||
    c == '<' || c == '>' || c == '^' || c == '%' || c == '|' || c == '&'
  }

  lemma FrontSeparates(c: char)
    ensures FrontOfNumber(c) <==> Separator(c)
  {
  }

  /** The fillings are literals of their kind, and the text around each keeps it apart: it does
      not double the closing delimiter, a number follows a character that numbers are masked behind,
      and nothing extends it. */
  ghost predicate Fits(t: Template, f: seq<string>)
    requires |f| == HoleCount(t)
  {
    match t
    case End(p) => ClosedText(p)
    case Then(p, hole, rest) =>
      var after := Fill(rest, f[1..]);
      ClosedText(p) && Fits(rest, f[1..]) &&
      match hole
      case Quoted(d) => Quote(d) && WellFormedBody(f[0], d) && !StartsWith(after, d)
      case Numeric =>
        |p| > 0 && FrontOfNumber(p[|p| - 1]) && NumberLiteral(f[0]) && (|after| > 0 ==> !Extends(f[0], after[0]))
  }

  predicate OnlyQuoted(t: Template) {
    t.Then? ==> t.hole.Quoted? && OnlyQuoted(t.rest)
  }

  // ---- quoted holes ----

  lemma StripLiteral(d: char, body: string, after: string)
    requires Quote(d) && WellFormedBody(body, d) && !StartsWith(after, d)
    ensures StripQuoted([d] + (body + [d] + after), false) == ['?'] + StripQuoted(after, false)
  {
    var tail := body + [d] + after;
    CloseAtWellFormed(body, d, after);
    assert tail[|body| + 1..] == after;
    assert ([d] + tail)[1..] == tail;
  }

  lemma {:induction false} PlainChars(lit: string)
    requires forall c :: c in lit ==> !Quote(c) && c != '\\'
    ensures ClosedText(lit)
  {
    if |lit| > 0 {
      assert lit[0] in lit;
      PlainChars(lit[1..]);
    }
  }

  lemma LiteralChars(lit: string)
    requires NumberLiteral(lit)
    ensures |lit| > 0 && Digit(lit[0]) && forall c :: c in lit ==> NumberChar(c)
  {
    NumberLengthOfLiteral(lit, "");
    if Hexadecimal(lit) {
      assert forall i :: 2 <= i < |lit| ==> lit[i] == lit[2..][i - 2];
    } else {
      var point: nat :| Decimal(lit, point);
      assert forall i :: 0 <= i < point ==> lit[i] == lit[..point][i];
      assert forall i :: point < i < |lit| ==> lit[i] == lit[point + 1..][i - point - 1];
    }
  }

  /** Every quoted hole comes out as a question mark, whatever its body. */
  lemma {:induction false} QuotedHolesMasked(t: Template, f: seq<string>)
    requires |f| == HoleCount(t) && Fits(t, f)
    ensures StripQuoted(Fill(t, f), false) == Unquoted(t, f)
    decreases t
  {
    match t
    case End(p) =>
      StripFixedPoint(p, false);
    case Then(p, Quoted(d), rest) =>
      QuotedHolesMasked(rest, f[1..]);
      StripPrefix(p, [d] + (f[0] + [d] + Fill(rest, f[1..])), false);
      StripLiteral(d, f[0], Fill(rest, f[1..]));
    case Then(p, Numeric, rest) =>
      QuotedHolesMasked(rest, f[1..]);
      LiteralChars(f[0]);
      PlainChars(f[0]);
      StripPrefix(p, f[0] + Fill(rest, f[1..]), false);
      StripPrefix(f[0], Fill(rest, f[1..]), false);
  }

  lemma {:induction false} OnlyQuotedMasked(t: Template, f: seq<string>)
    requires |f| == HoleCount(t) && OnlyQuoted(t)
    ensures Unquoted(t, f) == Masked(t)
  {
    if t.Then? {
      OnlyQuotedMasked(t.rest, f[1..]);
    }
  }

  predicate AllClosed(t: Template) {
    ClosedText(t.text) && (t.Then? ==> AllClosed(t.rest))
  }

  lemma {:induction false} FittingClosed(t: Template, f: seq<string>)
    requires |f| == HoleCount(t) && Fits(t, f)
    ensures AllClosed(t)
  {
    if t.Then? {
      FittingClosed(t.rest, f[1..]);
    }
  }

  lemma {:induction false} MaskedHasNoOpenQuote(t: Template)
    requires AllClosed(t)
    ensures StripQuoted(Masked(t), false) == Masked(t)
  {
    match t
    case End(p) =>
      StripFixedPoint(p, false);
    case Then(p, _, rest) =>
      MaskedHasNoOpenQuote(rest);
      StripPrefix(p, ['?'] + Masked(rest), false);
      StripPrefix(['?'], Masked(rest), false);
      assert NoOpenQuote(['?'], false) && !EscapedAfter(['?'], false);
  }

  /** Literal blindness: queries that differ only in the bodies of quoted literals have the same
      pattern, with or without comments. */
  lemma {:induction false} LiteralBlind(t: Template, f: seq<string>)
    requires |f| == HoleCount(t) && Fits(t, f) && OnlyQuoted(t)
    ensures StripQuoted(Fill(t, f), false) == Masked(t)
    ensures Pattern(Fill(t, f)) == Pattern(Masked(t))
  {
    QuotedHolesMasked(t, f);
    OnlyQuotedMasked(t, f);
    FittingClosed(t, f);
    MaskedHasNoOpenQuote(t);
  }

  // ---- numeric holes ----

  // No number can run across the border between `p` and `x`.
  predicate Border(p: string, x: string) {
    |x| == 0 || !NumberChar(x[0]) || (|p| > 0 && !NumberChar(p[|p| - 1]))
  }

  lemma {:induction false} RunsStopAtBorder(p: string, x: string)
    requires Border(p, x)
    ensures DigitRun(p + x) == DigitRun(p) && HexRun(p + x) == HexRun(p)
  {
    if |p| == 0 {
      assert p + x == x;
    } else {
      Uncons(p, x);
      if |p| > 1 || NumberChar(p[0]) {
        RunsStopAtBorder(p[1..], x);
      }
    }
  }

  lemma HexStopsAtBorder(p: string, x: string)
    requires |p| > 0 && Digit(p[0]) && Border(p, x)
    ensures HexPrefix(p + x) == HexPrefix(p)
  {
    assert |p| > 1 ==> (p + x)[1] == p[1];
    assert |p| == 1 && |x| > 0 ==> (p + x)[1] == x[0];
  }

  lemma NumberStopsAtBorder(p: string, x: string)
    requires |p| > 0 && Digit(p[0]) && Border(p, x)
    ensures NumberLength(p + x) == NumberLength(p)
  {
    hide DigitRun, HexRun;
    HexStopsAtBorder(p, x);
    if HexPrefix(p) {
      DropFront(p, 2, x);
      RunsStopAtBorder(p[2..], x);
    } else {
      Uncons(p, x);
      RunsStopAtBorder(p[1..], x);
      var k := 1 + DigitRun(p[1..]);
      if k < |p| {
        DropFront(p, k + 1, x);
        if p[k] == '.' {
          RunsStopAtBorder(p[k + 1..], x);
        }
      } else {
        RunsAreDigits(p[1..]);
        assert k > 1 ==> p[k - 1] == p[1..][k - 2];
        assert |x| > 0 ==> (p + x)[k] == x[0];
      }
    }
  }

  // Before a border the text is handled on its own.
  lemma {:induction false} StripNumbersSplit(prev: char, p: string, x: string)
    requires Border(p, x)
    ensures StripNumbers(prev, p + x) ==
            StripNumbers(prev, p) + StripNumbers(if |p| > 0 then p[|p| - 1] else prev, x)
    decreases |p|
  {
    hide NumberLength, Separator, Digit, NumberChar;
    if |p| == 0 {
      assert p + x == x;
    } else if Separator(prev) && Digit(p[0]) {
      NumberSplit(prev, p, x);
    } else if |p| == 1 {
      Uncons(p, x);
      assert p[1..] + x == x && StripNumbers(prev, p) == p;
    } else {
      Uncons(p, x);
      StripNumbersSplit(p[0], p[1..], x);
      Assoc([p[0]], StripNumbers(p[0], p[1..]), StripNumbers(p[|p| - 1], x));
    }
  }

  lemma {:induction false} NumberSplit(prev: char, p: string, x: string)
    requires Border(p, x) && |p| > 0 && Separator(prev) && Digit(p[0])
    ensures StripNumbers(prev, p + x) == StripNumbers(prev, p) + StripNumbers(p[|p| - 1], x)
    decreases |p|, 0
  {
    hide StripNumbers, NumberLength;
    var k := NumberLength(p);
    NumberStopsAtBorder(p, x);
    DropFront(p, k, x);
    MeetNumber(prev, p);
    MeetNumber(prev, p + x);
    if k == |p| {
      LastIsNumberChar(p);
      PreviousIrrelevant('?', p[|p| - 1], x);
      EmptyStays('?', p[k..]);
    } else {
      StripNumbersSplit('?', p[k..], x);
      Assoc(['?'], StripNumbers('?', p[k..]), StripNumbers(p[|p| - 1], x));
    }
  }

  lemma MeetNumber(prev: char, s: string)
    requires |s| > 0 && Separator(prev) && Digit(s[0])
    ensures StripNumbers(prev, s) == ['?'] + StripNumbers('?', s[NumberLength(s)..])
  {
  }

  lemma PreviousIrrelevant(a: char, b: char, x: string)
    requires |x| == 0 || !Digit(x[0])
    ensures StripNumbers(a, x) == StripNumbers(b, x)
  {
  }

  lemma EmptyStays(prev: char, s: string)
    requires |s| == 0
    ensures StripNumbers(prev, s) == []
  {
  }

  lemma DropFront(p: string, k: nat, x: string)
    requires k <= |p|
    ensures (p + x)[k..] == p[k..] + x && (k == |p| ==> (p + x)[k..] == x)
    ensures |p| > 0 ==> (p + x)[0] == p[0]
  {
  }

  lemma LastIsNumberChar(p: string)
    requires |p| > 0 && Digit(p[0]) && NumberLength(p) == |p|
    ensures NumberChar(p[|p| - 1])
  {
    if HexPrefix(p) {
      RunsAreDigits(p[2..]);
      assert |p| > 2 ==> p[|p| - 1] == p[2..][|p| - 3];
    } else {
      RunsAreDigits(p[1..]);
      var k := 1 + DigitRun(p[1..]);
      if k == |p| {
        assert k > 1 ==> p[k - 1] == p[1..][k - 2];
      } else {
        RunsAreDigits(p[k + 1..]);
        assert k + 1 < |p| ==> p[|p| - 1] == p[k + 1..][|p| - k - 2];
      }
    }
  }

  lemma {:induction false} StripFilledNumber(prev: char, lit: string, after: string)
    requires Separator(prev) && NumberLiteral(lit)
    requires |after| > 0 ==> !Extends(lit, after[0])
    ensures StripNumbers(prev, lit + after) == ['?'] + StripNumbers('?', after)
  {
    LiteralChars(lit);
    NumberLengthOfLiteral(lit, after);
    assert (lit + after)[|lit|..] == after;
  }

  /** What the numeric holes need: such a character in front, and nothing behind that extends them. */
  ghost predicate NumbersFit(t: Template, f: seq<string>)
    requires |f| == HoleCount(t)
  {
    t.Then? ==>
      NumbersFit(t.rest, f[1..]) &&
      (t.hole.Numeric? ==>
         var after := Unquoted(t.rest, f[1..]);
         |t.text| > 0 && FrontOfNumber(t.text[|t.text| - 1]) && NumberLiteral(f[0]) &&
         (|after| > 0 ==> !Extends(f[0], after[0])))
  }

  lemma UnquotedFirst(t: Template, f: seq<string>, lit: string)
    requires |f| == HoleCount(t) && Fits(t, f)
    requires |Fill(t, f)| > 0 ==> !Extends(lit, Fill(t, f)[0])
    ensures |Unquoted(t, f)| > 0 ==> !Extends(lit, Unquoted(t, f)[0])
  {
    if t.Then? && |t.text| == 0 {
      assert Unquoted(t, f)[0] == '?';
    }
  }

  lemma {:induction false} FittingNumbers(t: Template, f: seq<string>)
    requires |f| == HoleCount(t) && Fits(t, f)
    ensures NumbersFit(t, f)
  {
    if t.Then? {
      FittingNumbers(t.rest, f[1..]);
      if t.hole.Numeric? {
        UnquotedFirst(t.rest, f[1..], f[0]);
      }
    }
  }

  lemma MarkHole(prev: char, p: string, after: string)
    ensures StripNumbers(prev, p + (['?'] + after)) == StripNumbers(prev, p) + (['?'] + StripNumbers('?', after))
  {
    StripNumbersSplit(prev, p, ['?'] + after);
    assert (['?'] + after)[1..] == after;
  }

  lemma NumberHole(prev: char, p: string, lit: string, after: string)
    requires |p| > 0 && Separator(p[|p| - 1]) && NumberLiteral(lit)
    requires |after| > 0 ==> !Extends(lit, after[0])
    ensures StripNumbers(prev, p + (lit + after)) == StripNumbers(prev, p) + (['?'] + StripNumbers('?', after))
  {
    StripNumbersSplit(prev, p, lit + after);
    StripFilledNumber(p[|p| - 1], lit, after);
  }

  /** Numeric holes: the pass makes the same of the numbers as of question marks. */
  lemma {:induction false} NumericHolesMasked(prev: char, t: Template, f: seq<string>)
    requires |f| == HoleCount(t) && NumbersFit(t, f)
    ensures StripNumbers(prev, Unquoted(t, f)) == StripNumbers(prev, Masked(t))
    decreases t
  {
    if t.Then? {
      NumericHolesMasked('?', t.rest, f[1..]);
      MarkHole(prev, t.text, Masked(t.rest));
      if t.hole.Quoted? {
        MarkHole(prev, t.text, Unquoted(t.rest, f[1..]));
      } else {
        FrontSeparates(t.text[|t.text| - 1]);
        NumberHole(prev, t.text, f[0], Unquoted(t.rest, f[1..]));
      }
    }
  }

  /** No digit in the text stands behind a character that numbers are masked behind. */
  predicate Quiet(prev: char, p: string)
    decreases |p|
  {
    |p| == 0 || (('0' <= p[0] <= '9' ==> !FrontOfNumber(prev)) && Quiet(p[0], p[1..]))
  }

  /** The pass leaves quiet texts alone, and only those. */
  lemma {:induction false} QuietExactly(prev: char, p: string)
    ensures StripNumbers(prev, p) == p <==> Quiet(prev, p)
  {
    QuietIsNumberless(prev, p);
    NumbersFixedPoint(prev, p);
  }

  lemma {:induction false} QuietIsNumberless(prev: char, p: string)
    ensures NoNumber(prev, p) <==> Quiet(prev, p)
    decreases |p|
  {
    FrontSeparates(prev);
    if |p| > 0 {
      QuietIsNumberless(p[0], p[1..]);
    }
  }

  predicate TextsQuiet(prev: char, t: Template)
    decreases t
  {
    Quiet(prev, t.text) && (t.Then? ==> TextsQuiet('?', t.rest))
  }

  /** The pass masks exactly the numbers: each hole becomes one question mark, and the texts, with
      whatever digits stand inside their words, stay as they are. */
  lemma {:induction false} NumbersExactly(prev: char, t: Template, f: seq<string>)
    requires |f| == HoleCount(t) && NumbersFit(t, f) && TextsQuiet(prev, t)
    ensures StripNumbers(prev, Unquoted(t, f)) == Masked(t)
  {
    NumericHolesMasked(prev, t, f);
    MaskedStays(prev, t);
  }

  lemma {:induction false} MaskedStays(prev: char, t: Template)
    requires TextsQuiet(prev, t)
    ensures StripNumbers(prev, Masked(t)) == Masked(t)
    decreases t
  {
    QuietExactly(prev, t.text);
    if t.Then? {
      MaskedStays('?', t.rest);
      MarkHole(prev, t.text, Masked(t.rest));
    }
  }

  // ---- comments ----

  /** Comments end in the text they are in, except those of the last text. */
  predicate CommentsFit(t: Template) {
    t.Then? ==> CommentsInside(t.text) && CommentsFit(t.rest)
  }

  // The template with the comments of its texts removed.
  function Uncommented(t: Template): (u: Template)
    ensures HoleCount(u) == HoleCount(t)
  {
    match t
    case End(p) => End(StripComments(p))
    case Then(p, hole, rest) => Then(StripComments(p), hole, Uncommented(rest))
  }

  lemma {:induction false} UnmarkedParts(prev: char, p: string, x: string)
    ensures Unmarked(prev, p + x) <==> Unmarked(prev, p) && Unmarked(if |p| > 0 then p[|p| - 1] else prev, x)
    decreases |p|
  {
    if |p| == 0 {
      assert p + x == x;
    } else {
      Uncons(p, x);
      UnmarkedParts(p[0], p[1..], x);
    }
  }

  lemma {:induction false} NumberUnmarked(prev: char, lit: string)
    requires forall c :: c in lit ==> NumberChar(c) || c == '?'
    ensures Unmarked(prev, lit)
    decreases |lit|
  {
    if |lit| > 0 {
      assert lit[0] in lit;
      NumberUnmarked(lit[0], lit[1..]);
    }
  }

  // A filled hole between two texts.
  lemma HoleUncommented(p: string, fill: string, x: string)
    requires CommentsInside(p) && |fill| > 0 && forall c :: c in fill ==> NumberChar(c) || c == '?'
    ensures StripComments(p + (fill + x)) == StripComments(p) + (fill + StripComments(x))
  {
    NumberUnmarked('\0', fill);
    UnmarkedInside('\0', fill);
    UnmarkedIsSettled('\0', fill);
    CommentsFixedPoint(fill);
    hide StripComments, CommentsInside;
    assert (fill + x)[0] == fill[0] && fill[0] in fill && fill[|fill| - 1] in fill;
    CommentsSplit(p, fill + x);
    CommentsSplit(fill, x);
  }

  lemma {:induction false} MaskedUncommented(t: Template)
    requires CommentsFit(t)
    ensures StripComments(Masked(t)) == Masked(Uncommented(t))
    decreases t
  {
    if t.Then? {
      MaskedUncommented(t.rest);
      HoleUncommented(t.text, ['?'], Masked(t.rest));
    }
  }

  // The comment passes treat the texts on their own, and the numbers still fit.
  lemma {:induction false} CommentsRemoved(t: Template, f: seq<string>)
    requires |f| == HoleCount(t) && NumbersFit(t, f) && CommentsFit(t)
    ensures StripComments(Unquoted(t, f)) == Unquoted(Uncommented(t), f)
    ensures NumbersFit(Uncommented(t), f)
    decreases t
  {
    hide StripComments, CommentsInside;
    if t.Then? {
      var after := Unquoted(t.rest, f[1..]);
      CommentsRemoved(t.rest, f[1..]);
      if t.hole.Quoted? {
        HoleUncommented(t.text, ['?'], after);
      } else {
        LiteralChars(f[0]);
        HoleUncommented(t.text, f[0], after);
        EmptyInside();
        CommentsSplit([], after);
        CommentsSplit(t.text, []);
      }
    }
  }

  lemma EmptyInside()
    ensures CommentsInside([])
  {
  }

  lemma {:induction false} UnmarkedFits(prev: char, t: Template)
    requires Unmarked(prev, Masked(t))
    ensures CommentsFit(t)
    decreases t
  {
    if t.Then? {
      var last := if |t.text| > 0 then t.text[|t.text| - 1] else prev;
      UnmarkedParts(prev, t.text, ['?'] + Masked(t.rest));
      UnmarkedParts(last, ['?'], Masked(t.rest));
      UnmarkedInside(prev, t.text);
      UnmarkedFits('?', t.rest);
    }
  }

  /** Value blindness: neither the quoted literals nor the numbers after separators have any
      influence on the pattern. Every text of the template may hold comments that end in it, and the
      last one any. */
  lemma {:induction false} ValueBlind(t: Template, f: seq<string>)
    requires |f| == HoleCount(t) && Fits(t, f) && CommentsFit(t)
    ensures Pattern(Fill(t, f)) == Pattern(Masked(t))
  {
    QuotedHolesMasked(t, f);
    FittingClosed(t, f);
    MaskedHasNoOpenQuote(t);
    FittingNumbers(t, f);
    CommentsRemoved(t, f);
    MaskedUncommented(t);
    NumericHolesMasked('\0', Uncommented(t), f);
  }
}
