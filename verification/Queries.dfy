/** Queries and their patterns, told character by character. */
module Queries {
  import opened Text
  import opened QuotedText
  import opened Comments
  import opened CommentParts
  import opened Numbers
  import opened Spaces
  import opened Signs
  import opened SignRule
  import opened NormalForm
  import opened Templates
  import opened SignedNumbers

  lemma NumberAtEnd(front: string, lit: string)
    requires ClosedText(front) && CommentsInside(front) && |lit| == 1 && Digit(lit[0])
    requires |front| > 0 && FrontOfNumber(front[|front| - 1])
    ensures Pattern(front + lit) == Pattern(front + "?")
  {
    hide Pattern, ClosedText, CommentsInside;
    var t := Then(front, Numeric, End(""));
    OneDigit(lit);
    FillsOne(front, lit);
    EmptyCloses();
    assert Fits(t.rest, [lit][1..]);
    ValueBlind(t, [lit]);
  }

  lemma EmptyCloses()
    ensures ClosedText("") && |Fill(End(""), [])| == 0
  {
  }

  /** A number behind `=` is masked, and a digit inside a word is not. */
  lemma {:induction false} NumberMasked()
    ensures Pattern("a1=5") == "a1=?"
  {
    hide Pattern, Canonical, ClosedText, CommentsInside, FrontOfNumber, Digit;
    NumberMaskedFront();
    NumberMaskedPattern();
    NumberAtEnd("a1=", "5");
    FixedPoints("a1=?");
    assert "a1=" + "5" == "a1=5" && "a1=" + "?" == "a1=?";
  }

  lemma NumberMaskedFront()
    ensures ClosedText("a1=") && CommentsInside("a1=")
    ensures Digit("5"[0]) && FrontOfNumber("a1="[|"a1="| - 1])
  {
    assert Unmarked('\0', "a1=");
    UnmarkedInside('\0', "a1=");
  }

  lemma NumberMaskedPattern()
    ensures Canonical("a1=?")
  {
  }

  lemma OneDigit(lit: string)
    requires |lit| == 1 && Digit(lit[0])
    ensures NumberLiteral(lit)
  {
    assert lit[..1] == lit;
    assert Decimal(lit, 1);
  }

  lemma FillsOne(front: string, lit: string)
    ensures var t := Then(front, Numeric, End(""));
            HoleCount(t) == 1 && Fill(t, [lit]) == front + lit && Masked(t) == front + "?"
  {
    var t := Then(front, Numeric, End(""));
    assert HoleCount(t.rest) == 0 && Fill(t.rest, [lit][1..]) == "";
    assert lit + "" == lit && ['?'] + "" == "?";
  }

  /** A number at the very start is not masked. */
  lemma {:induction false} FirstNumberStays()
    ensures Pattern("5") == "5"
  {
    assert Canonical("5");
    FixedPoints("5");
  }

  /** A sign behind `=`, which is no keyword, stays. */
  lemma {:induction false} SignStays()
    ensures Pattern("x=-1") == "x=-?"
  {
    hide Pattern, Canonical, ClosedText, CommentsInside, FrontOfNumber, Digit;
    SignStaysFront();
    SignStaysPattern();
    NumberAtEnd("x=-", "1");
    FixedPoints("x=-?");
    assert "x=-" + "1" == "x=-1" && "x=-" + "?" == "x=-?";
  }

  lemma SignStaysFront()
    ensures ClosedText("x=-") && CommentsInside("x=-")
    ensures Digit("1"[0]) && FrontOfNumber("x=-"[|"x=-"| - 1])
  {
    assert Unmarked('\0', "x=-");
    UnmarkedInside('\0', "x=-");
  }

  lemma SignStaysPattern()
    ensures Canonical("x=-?")
  {
  }
}
