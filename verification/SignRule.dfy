/** Which signs the last pass drops, told without its tokens: going by the text in front of each. */
module SignRule {
  import opened Text
  import opened Signs

  const KEYWORDS: set<string> := {"select ", "where ", "and ", "or ", "not "}

  // The text is empty or ends in a space, a comma or an opening parenthesis.
  predicate AtBreak(b: string) {
    |b| == 0 || b[|b| - 1] == ' ' || b[|b| - 1] == ',' || b[|b| - 1] == '('
  }

  predicate EndsInKeyword(a: string, b: string, kw: string) {
    kw in KEYWORDS && a == b + kw && AtBreak(b)
  }

  /** A value behind `done` loses its sign: behind a parenthesis or a comma, or behind one of five
      keywords that stands as a word of its own, with a space. */
  ghost predicate SignUnwanted(done: string) {
    |done| > 0 &&
    (done[|done| - 1] == '(' || done[|done| - 1] == ',' || exists b, kw :: EndsInKeyword(done, b, kw))
  }

  // A minus in front of a masked value, with or without a space between.
  predicate SignedMark(s: string) {
    (|s| > 1 && s[0] == '-' && s[1] == '?') || (|s| > 2 && s[0] == '-' && SqlSpace(s[1]) && s[2] == '?')
  }

  /** What is left of `s` behind `done`: every character in order, except the signs that are
      unwanted where they stand. */
  ghost function WithoutSigns(done: string, s: string): string
    decreases |s|
  {
    if |s| == 0 then []
    else if SignedMark(s) && SignUnwanted(done) then WithoutSigns(done, s[if s[1] == '?' then 1 else 2..])
    else [s[0]] + WithoutSigns(done + [s[0]], s[1..])
  }

  // `tok` is what the pass holds of the text `done`: the part since the last delimiter.
  predicate Holds(done: string, tok: string) {
    |tok| <= |done| && done[|done| - |tok|..] == tok && AtBreak(done[..|done| - |tok|]) &&
    forall c :: c in tok ==> c != ' ' && c != ',' && c != '('
  }

  lemma KeywordShape(kw: string)
    requires kw in KEYWORDS
    ensures |kw| > 2 && kw[|kw| - 1] == ' ' && 'a' <= kw[0] <= 'z'
    ensures forall i :: 0 <= i < |kw| - 1 ==> 'a' <= kw[i] <= 'z'
  {
  }

  // A word that ends in its only break has none inside.
  predicate OneWord(w: string) {
    |w| > 0 && w[|w| - 1] == ' ' && forall i :: 0 <= i < |w| - 1 ==> w[i] != ' ' && w[i] != ',' && w[i] != '('
  }

  lemma NoBreakInside(b: string, w: string)
    requires OneWord(w)
    ensures forall k :: |b| < k < |b + w| ==> !AtBreak((b + w)[..k])
  {
    var s := b + w;
    forall k | |b| < k < |s|
      ensures !AtBreak(s[..k])
    {
      assert s[..k][k - 1] == s[k - 1] == w[k - 1 - |b|];
    }
  }

  // Words behind breaks that end one text are the same word.
  lemma LastWord(b: string, v: string, c: string, w: string)
    requires b + v == c + w && AtBreak(b) && AtBreak(c) && OneWord(v) && OneWord(w)
    ensures v == w
  {
    var s := b + v;
    assert b == s[..|b|] && c == s[..|c|] && v == s[|b|..] && w == s[|c|..];
    NoBreakInside(b, v);
    NoBreakInside(c, w);
    assert |b| == |c|;
  }

  // At a delimiter the pass drops a sign exactly where it is unwanted.
  lemma TokenDecides(done: string, tok: string, d: char)
    requires Holds(done, tok) && Delimiter(d)
    ensures BeforeValue(tok + [d]) <==> SignUnwanted(done + [d])
  {
    var b, w, all := done[..|done| - |tok|], tok + [d], done + [d];
    assert all == b + w && all[|all| - 1] == d;
    forall i | 0 <= i < |w| - 1
      ensures w[i] != ' ' && w[i] != ',' && w[i] != '('
    {
      assert w[i] == tok[i] && tok[i] in tok;
    }
    if w in KEYWORDS {
      assert EndsInKeyword(all, b, w);
    }
    if d == ' ' && SignUnwanted(all) {
      var c, kw :| EndsInKeyword(all, c, kw);
      KeywordShape(kw);
      LastWord(c, kw, b, w);
    }
  }

  lemma HoldsOn(done: string, tok: string, c: char)
    requires Holds(done, tok)
    ensures Delimiter(c) ==> Holds(done + [c], [])
    ensures !Delimiter(c) ==> Holds(done + [c], tok + [c])
  {
    var all := done + [c];
    assert all[..|all|] == all && all[|all| - 1] == c;
    var k := |all| - |tok + [c]|;
    assert all[..k] == done[..|done| - |tok|] && all[k..] == tok + [c];
  }

  // No sign is unwanted behind a character that is no delimiter.
  lemma WantedInside(done: string, c: char)
    requires !Delimiter(c)
    ensures !SignUnwanted(done + [c])
  {
    var all := done + [c];
    assert all[|all| - 1] == c;
    forall b, kw | kw in KEYWORDS
      ensures !EndsInKeyword(all, b, kw)
    {
      KeywordShape(kw);
      assert (b + kw)[|b + kw| - 1] == kw[|kw| - 1];
    }
  }

  lemma SignLengths(s: string)
    ensures SignLength(s) == if SignedMark(s) then (if s[1] == '?' then 1 else 2) else 0
    ensures SignedMark(s) ==> !SignedMark(s[SignLength(s)..])
  {
    if SignedMark(s) {
      assert s[SignLength(s)..][0] == '?';
    }
  }

  lemma {:induction false} RuleFollowed(done: string, tok: string, s: string)
    requires Holds(done, tok) && (SignUnwanted(done) ==> !SignedMark(s))
    ensures FixSigns(tok, s) == WithoutSigns(done, s)
    decreases |s|
  {
    hide SignUnwanted, Holds, SignedMark, SignLength, BeforeValue;
    if |s| > 0 {
      var done', t := done + [s[0]], s[1..];
      HoldsOn(done, tok, s[0]);
      if Delimiter(s[0]) {
        TokenDecides(done, tok, s[0]);
        SignLengths(t);
        var rest := DropSign(tok + [s[0]], t);
        RuleFollowed(done', [], rest);
        DropsOnce(done', t);
      } else {
        WantedInside(done, s[0]);
        RuleFollowed(done', tok + [s[0]], t);
      }
    }
  }

  // Dropping the sign first, or in passing, is the same.
  lemma DropsOnce(done: string, s: string)
    ensures WithoutSigns(done, s) ==
            if SignUnwanted(done) then WithoutSigns(done, s[SignLength(s)..]) else WithoutSigns(done, s)
  {
    SignLengths(s);
    assert s[0..] == s;
  }

  /** The pass drops exactly the signs that are unwanted where they stand, and keeps every other
      character in order. */
  lemma {:induction false} SignsByRule(s: string)
    ensures FixSigns([], s) == WithoutSigns([], s)
  {
    RuleFollowed([], [], s);
  }
}
