/** The last pass: it drops the sign of a negative value after a keyword, a parenthesis
    or a comma. */
module Signs {
  import opened Text
  import opened QuotedText
  import opened Comments
  import opened Numbers

  predicate Delimiter(c: char) {
    c == ' ' || c == ',' || c == '('
  }

  // `tok` is the text since the previous delimiter, with the delimiter that ends it.
  predicate BeforeValue(tok: string)
    requires |tok| > 0
  {
    tok in ["select ", "where ", "and ", "or ", "not "] || tok[|tok| - 1] == '(' || tok[|tok| - 1] == ','
  }

  // The length of the sign that `s` starts with: a minus, or a minus and a space.
  function SignLength(s: string): (k: nat)
    ensures k <= |s|
  {
    if |s| > 1 && s[0] == '-' && s[1] == '?' then 1
    else if |s| > 2 && s[0] == '-' && SqlSpace(s[1]) && s[2] == '?' then 2
    else 0
  }

  function DropSign(tok: string, s: string): (rest: string)
    requires |tok| > 0
    ensures |rest| <= |s|
  {
    if BeforeValue(tok) then s[SignLength(s)..] else s
  }

  // `tok` is the text read since the last delimiter, `s` what is still to be read.
  function FixSigns(tok: string, s: string): string
    decreases |s|
  {
    if |s| == 0 then []
    else if Delimiter(s[0]) then [s[0]] + FixSigns([], DropSign(tok + [s[0]], s[1..]))
    else [s[0]] + FixSigns(tok + [s[0]], s[1..])
  }

  /** No sign stands where one would be dropped. */
  predicate SignsSettled(tok: string, s: string)
    decreases |s|
  {
    |s| == 0 ||
    (if Delimiter(s[0]) then
       (BeforeValue(tok + [s[0]]) ==> SignLength(s[1..]) == 0) && SignsSettled([], s[1..])
     else
       SignsSettled(tok + [s[0]], s[1..]))
  }

  // A stretch without delimiters is copied.
  lemma {:induction false} FixSignsSkip(tok: string, s: string, k: nat)
    requires k <= |s| && forall i :: 0 <= i < k ==> !Delimiter(s[i])
    ensures FixSigns(tok, s) == s[..k] + FixSigns(tok + s[..k], s[k..])
    decreases k
  {
    if k == 0 {
      assert s[k..] == s && tok + s[..k] == tok;
    } else {
      FixSignsSkip(tok, s, k - 1);
      var t := s[k - 1..];
      assert tok + s[..k - 1] + [t[0]] == tok + s[..k];
      assert t[1..] == s[k..];
      assert s[..k - 1] + [t[0]] == s[..k];
    }
  }

  // The pass neither makes nor hides a sign at the start of a token.
  lemma SignLengthKept(s: string)
    ensures SignLength(FixSigns([], s)) == SignLength(s)
  {
    if |s| > 0 && s[0] == '-' {
      var t := s[1..];
      assert [] + ['-'] == ['-'];
      assert FixSigns([], s) == ['-'] + FixSigns(['-'], t);
      if |t| > 0 {
        assert FixSigns([], s)[1] == t[0];
        if Delimiter(t[0]) {
          assert ['-'] + [t[0]] == ['-', t[0]];
          if t[0] == ' ' {
            assert !BeforeValue("- ");
            assert FixSigns(['-'], t) == [' '] + FixSigns([], t[1..]);
          }
        } else {
          assert FixSigns(['-'], t) == [t[0]] + FixSigns(['-', t[0]], t[1..]) by {
            assert ['-'] + [t[0]] == ['-', t[0]];
          }
        }
      }
    }
  }

  lemma {:induction false} FixedSignsSettled(tok: string, s: string)
    ensures SignsSettled(tok, FixSigns(tok, s))
    decreases |s|
  {
    if |s| == 0 {
    } else if Delimiter(s[0]) {
      var rest := DropSign(tok + [s[0]], s[1..]);
      FixedSignsSettled([], rest);
      SignLengthKept(rest);
      assert FixSigns(tok, s)[1..] == FixSigns([], rest);
    } else {
      FixedSignsSettled(tok + [s[0]], s[1..]);
      assert FixSigns(tok, s)[1..] == FixSigns(tok + [s[0]], s[1..]);
    }
  }

  lemma {:induction false} SettledSignsUnchanged(tok: string, s: string)
    requires SignsSettled(tok, s)
    ensures FixSigns(tok, s) == s
    decreases |s|
  {
    if |s| > 0 {
      SettledSignsUnchanged(if Delimiter(s[0]) then [] else tok + [s[0]], s[1..]);
    }
  }

  /** The pass changes nothing exactly when there is no sign to drop. In particular, running
      it twice is the same as running it once, on any text. */
  lemma SignsFixedPoint(tok: string, s: string)
    ensures FixSigns(tok, s) == s <==> SignsSettled(tok, s)
    ensures FixSigns(tok, FixSigns(tok, s)) == FixSigns(tok, s)
  {
    FixedSignsSettled(tok, s);
    SettledSignsUnchanged(tok, FixSigns(tok, s));
    if SignsSettled(tok, s) {
      SettledSignsUnchanged(tok, s);
    }
  }

  lemma {:induction false} FixSignsWeight(tok: string, s: string)
    ensures Weight(FixSigns(tok, s)) <= Weight(s)
    ensures Weight(FixSigns(tok, s)) == Weight(s) ==> FixSigns(tok, s) == s
    decreases |s|
  {
    if |s| == 0 {
    } else if Delimiter(s[0]) {
      var rest := DropSign(tok + [s[0]], s[1..]);
      FixSignsWeight([], rest);
      WeightCons(s[0], FixSigns([], rest));
      if rest != s[1..] {
        WeightDrop(s[1..], SignLength(s[1..]));
      }
    } else {
      FixSignsWeight(tok + [s[0]], s[1..]);
      WeightCons(s[0], FixSigns(tok + [s[0]], s[1..]));
    }
  }

  // ---- the earlier normal forms survive ----

  lemma {:induction false} SignsKeepQuotes(tok: string, s: string, escaped: bool)
    ensures NoOpenQuote(FixSigns(tok, s), escaped) <==> NoOpenQuote(s, escaped)
    decreases |s|
  {
    if |s| == 0 {
    } else if Delimiter(s[0]) {
      var rest := DropSign(tok + [s[0]], s[1..]);
      if rest != s[1..] {
        NoOpenQuoteSkip(s[1..], false, SignLength(s[1..]));
      }
      SignsKeepQuotes([], rest, false);
      assert FixSigns(tok, s)[1..] == FixSigns([], rest);
    } else {
      SignsKeepQuotes(tok + [s[0]], s[1..], !escaped && s[0] == '\\');
      assert FixSigns(tok, s)[1..] == FixSigns(tok + [s[0]], s[1..]);
    }
  }

  // A dropped sign stands before a question mark, which is no part of a marker.
  lemma DroppedSign(tok: string, s: string)
    requires |tok| > 0
    ensures var rest := DropSign(tok, s);
            rest != s ==> |s| > 1 && s[0] == '-' && s[1] != '-' && !AllSpace(s) && !BlockEnds(s) &&
                          |rest| > 0 && rest[0] == '?' && !AllSpace(rest) && !BlockEnds(rest) &&
                          MarkersBare(s) == MarkersBare(rest)
  {
    var rest := DropSign(tok, s);
    if rest != s {
      BareCons('-', s[1..]);
      assert ['-'] + s[1..] == s;
      if SignLength(s) == 2 {
        BareCons(s[1], rest);
        assert [s[1]] + rest == s[1..];
      }
    }
  }

  lemma {:induction false} SignsKeepFront(tok: string, s: string)
    ensures AlikeAtFront(FixSigns(tok, s), s)
    ensures AllSpace(FixSigns(tok, s)) == AllSpace(s)
    ensures BlockEnds(FixSigns(tok, s)) == BlockEnds(s)
    decreases |s|
  {
    var r := FixSigns(tok, s);
    if |s| == 0 {
    } else if Delimiter(s[0]) {
      var rest := DropSign(tok + [s[0]], s[1..]);
      DroppedSign(tok + [s[0]], s[1..]);
      SignsKeepFront([], rest);
      assert r[1..] == FixSigns([], rest);
    } else {
      SignsKeepFront(tok + [s[0]], s[1..]);
      assert r[1..] == FixSigns(tok + [s[0]], s[1..]);
      assert |s| > 1 ==> r[1] == r[1..][0] && s[1] == s[1..][0];
    }
  }

  /** After dropping signs all comment markers are bare exactly when they were before. */
  lemma {:induction false} SignsKeepBare(tok: string, s: string)
    ensures MarkersBare(FixSigns(tok, s)) <==> MarkersBare(s)
    decreases |s|
  {
    hide FirstBare, AlikeAtFront;
    if |s| == 0 {
    } else if Delimiter(s[0]) {
      var rest := DropSign(tok + [s[0]], s[1..]);
      DroppedSign(tok + [s[0]], s[1..]);
      SignsKeepBare([], rest);
      BareCons(s[0], FixSigns([], rest));
      BareCons(s[0], s[1..]);
      assert [s[0]] + s[1..] == s;
    } else {
      var tok', tail := tok + [s[0]], s[1..];
      SignsKeepBare(tok', tail);
      SignsKeepFront(tok', tail);
      if |tail| > 0 && !Delimiter(tail[0]) {
        SignsKeepFront(tok' + [tail[0]], tail[1..]);
        assert FixSigns(tok', tail)[1..] == FixSigns(tok' + [tail[0]], tail[1..]);
      }
      FirstBareAlike(s[0], FixSigns(tok', tail), tail);
      BareCons(s[0], FixSigns(tok', tail));
      assert [s[0]] + tail == s;
    }
  }

  lemma {:induction false} SignsKeepNumbers(prev: char, tok: string, s: string)
    requires NoNumber(prev, s)
    ensures NoNumber(prev, FixSigns(tok, s))
    decreases |s|
  {
    if |s| == 0 {
    } else if Delimiter(s[0]) {
      var rest := DropSign(tok + [s[0]], s[1..]);
      if rest != s[1..] {
        var k := SignLength(s[1..]);
        assert s[1..][1..] == s[2..] && (k == 2 ==> s[2..][1..] == rest);
        assert NoNumber(s[1], s[2..]);
        NoNumberAfter(if k == 1 then '-' else s[2], rest, s[0]);
      }
      SignsKeepNumbers(s[0], [], rest);
      assert FixSigns(tok, s)[1..] == FixSigns([], rest);
    } else {
      SignsKeepNumbers(s[0], tok + [s[0]], s[1..]);
      assert FixSigns(tok, s)[1..] == FixSigns(tok + [s[0]], s[1..]);
    }
  }
}
