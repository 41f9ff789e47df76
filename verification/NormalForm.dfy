/** The pattern of a query: what the whole normaliser makes of it, and which texts are patterns. */
module NormalForm {
  import opened Text
  import opened QuotedText
  import opened Comments
  import opened Numbers
  import opened Spaces
  import opened Signs

  function Pattern(q: string): string {
    FixSigns([], StripSpaces(StripNumbers('\0', StripComments(StripQuoted(q, false)))))
  }

  /** A text no pass has anything to do on, described without mentioning any pass. */
  predicate Canonical(n: string) {
    NoOpenQuote(n, false) && NoCommentText(n) && NoNumber('\0', n) && Tidy('\0', n) && SignsSettled([], n)
  }

  /** The normaliser leaves a text alone exactly when it is canonical. Since the passes run one
      after the other and none adds weight, none can undo what another did. */
  lemma FixedPoints(n: string)
    ensures Pattern(n) == n <==> Canonical(n)
  {
    var n1 := StripQuoted(n, false);
    var n2 := StripComments(n1);
    var n3 := StripNumbers('\0', n2);
    var n4 := StripSpaces(n3);
    StripWeight(n, false);
    StripCommentsWeight(n1);
    StripNumbersWeight('\0', n2);
    StripSpacesWeight(n3);
    FixSignsWeight([], n4);
    StripFixedPoint(n, false);
    CommentsFixedPoint(n);
    NumbersFixedPoint('\0', n);
    SpacesFixedPoint(n);
    SignsFixedPoint([], n);
  }

  // Whatever the query, the last three passes leave their own normal forms in place.
  lemma {:induction false} PatternForms(q: string)
    ensures NoNumber('\0', Pattern(q)) && Tidy('\0', Pattern(q)) && SignsSettled([], Pattern(q))
  {
    var n2 := StripComments(StripQuoted(q, false));
    var n3 := StripNumbers('\0', n2);
    StrippedHasNoNumber('\0', n2);
    SpacesRenderShape(n3);
    SpacesKeepNumbers('\0', n3, '\0', false);
    SpacesFixedPoint(StripSpaces(n3));
    SpacesFixedPoint(n3);
    SignsKeepNumbers('\0', [], StripSpaces(n3));
    SignsKeepTidy('\0', [], StripSpaces(n3));
    FixedSignsSettled([], StripSpaces(n3));
  }

  // What the first three passes leave decides about open quotes and markers in the pattern.
  lemma PatternShows(n2: string)
    ensures var p := FixSigns([], StripSpaces(StripNumbers('\0', n2)));
            (NoOpenQuote(p, false) <==> NoOpenQuote(n2, false)) && (MarkersBare(p) <==> MarkersBare(n2))
  {
    var n3 := StripNumbers('\0', n2);
    SpacesRenderShape(n3);
    NumbersKeepQuotes('\0', n2, false);
    SpacesKeepQuotes(n3, '\0', false, false, false);
    SignsKeepQuotes([], StripSpaces(n3), false);
    NumbersKeepBare('\0', n2);
    SpacesKeepBare(n3, '\0', false);
    SignsKeepBare([], StripSpaces(n3));
  }

  /** Normalising twice is normalising once exactly when the query, its literals replaced and its
      comments removed, has no quote that would open a literal, and every comment marker left in it
      is bare. The other three passes do not enter into it. */
  lemma {:induction false} IdempotentExactlyWhen(q: string)
    ensures var n2 := StripComments(StripQuoted(q, false));
            Pattern(Pattern(q)) == Pattern(q) <==> NoOpenQuote(n2, false) && MarkersBare(n2)
  {
    var n2 := StripComments(StripQuoted(q, false));
    hide StripNumbers, StripSpaces, FixSigns, StripComments, StripQuoted;
    PatternShows(n2);
    PatternForms(q);
    TidyBareIsSettled('\0', Pattern(q));
    FixedPoints(Pattern(q));
  }

  /** So it is for every query without comment markers outside its literals, and its pattern is
      canonical. */
  lemma UnmarkedIdempotent(q: string)
    requires Unmarked('\0', StripQuoted(q, false))
    ensures Canonical(Pattern(q)) && Pattern(Pattern(q)) == Pattern(q)
  {
    var n1 := StripQuoted(q, false);
    StrippedHasNoOpenQuote(q, false);
    UnmarkedIsSettled('\0', n1);
    UnmarkedIsBare('\0', n1);
    CommentsFixedPoint(n1);
    IdempotentExactlyWhen(q);
    FixedPoints(Pattern(q));
  }

  /** With a marker it can fail: the line after a `#` comment is joined to the marker, so it is
      the comment of the next run. */
  lemma {:induction false} MarkedNotIdempotent()
    ensures Pattern("#\nb") == "#b" && Pattern("#b") != "#b"
  {
    FirstLineJoined();
    OneLetterLeft();
    assert !HashesSettled("#b");
    FixedPoints("#b");
  }

  lemma {:induction false} FirstLineJoined()
    ensures StripHashes(StripBlocks(StripQuoted("#\nb", false))) == "#b"
  {
    var q, r := "#\nb", "\nb";
    assert q[1..] == r && r[1..] == "b";
    assert NoOpenQuote("b", false) && BlocksSettled("b");
    assert NoOpenQuote(r, false) && BlocksSettled(r);
    StripFixedPoint(q, false);
    BlocksSettledUnchanged(q);
    assert r == "" + "\n" + "b";
    AfterLineSkips("", "\n", "b");
    HashesSettledUnchanged("b");
  }

  lemma OneLetterLeft()
    ensures FixSigns([], StripSpaces(StripNumbers('\0', StripDashes("#b")))) == "#b"
  {
    assert "#b"[1..] == "b";
    assert DashesSettled("b") && NoNumber('#', "b") && Tidy('#', "b") && SignsSettled([] + ['#'], "b");
    DashesSettledUnchanged("#b");
    NumbersFixedPoint('\0', "#b");
    SpacesFixedPoint("#b");
    SettledSignsUnchanged([], "#b");
  }
}
