/** Quoted literals: where one ends, and the pass that replaces each by a question mark. */
module QuotedText {
  import opened Text

  // The index in `s`, the text after an opening delimiter `d`, at which the literal is closed;
  // |s| when it never is. `escaped` says that the previous character was an open backslash.
  function CloseAt(s: string, d: char, escaped: bool): (k: nat)
    ensures k <= |s|
  {
    if |s| == 0 then 0
    else if s[0] == d && !escaped then
      if |s| > 1 && s[1] == d && Quote(d) then 2 + CloseAt(s[2..], d, false) else 0
    else
      1 + CloseAt(s[1..], d, !escaped && s[0] == '\\')
  }

  // What follows the literal whose body and closing delimiter start at s[0].
  function AfterLiteral(s: string, d: char): (rest: string)
    ensures |rest| <= |s|
  {
    s[Least(CloseAt(s, d, false) + 1, |s|)..]
  }

  function StripQuoted(s: string, escaped: bool): string
    decreases |s|
  {
    if |s| == 0 then []
    else if !escaped && Quote(s[0]) then ['?'] + StripQuoted(AfterLiteral(s[1..], s[0]), false)
    else [s[0]] + StripQuoted(s[1..], !escaped && s[0] == '\\')
  }

  /** A body written by the rules of SQL: every backslash escapes the next character and every
      other delimiter is doubled. This does not mention how the end of a literal is searched. */
  predicate WellFormedBody(b: string, d: char) {
    if |b| == 0 then true
    else if b[0] == '\\' || (b[0] == d && Quote(d)) then
      |b| > 1 && (b[0] == d ==> b[1] == d) && WellFormedBody(b[2..], d)
    else
      b[0] != d && WellFormedBody(b[1..], d)
  }

  predicate StartsWith(s: string, c: char) {
    |s| > 0 && s[0] == c
  }

  // The search stops at the delimiter that closes a well-formed body ...
  lemma {:induction false} CloseAtWellFormed(b: string, d: char, rest: string)
    requires d != '\\'
    requires WellFormedBody(b, d)
    requires Quote(d) ==> !StartsWith(rest, d)
    ensures CloseAt(b + [d] + rest, d, false) == |b|
  {
    var s := b + [d] + rest;
    if |b| == 0 {
      assert s[1..] == rest;
    } else if b[0] == '\\' {
      assert s[2..] == b[2..] + [d] + rest;
      assert s[1..][1..] == s[2..];
      CloseAtWellFormed(b[2..], d, rest);
    } else if b[0] == d {
      assert s[2..] == b[2..] + [d] + rest;
      CloseAtWellFormed(b[2..], d, rest);
    } else {
      assert s[1..] == b[1..] + [d] + rest;
      CloseAtWellFormed(b[1..], d, rest);
    }
  }

  // ... and wherever it stops short of the end, what it has passed is a well-formed body.
  lemma {:induction false} CloseAtIsBody(s: string, d: char)
    requires d != '\\'
    requires CloseAt(s, d, false) < |s|
    ensures var k := CloseAt(s, d, false);
            WellFormedBody(s[..k], d) && s[k] == d && (Quote(d) ==> !StartsWith(s[k + 1..], d))
    decreases |s|
  {
    var k := CloseAt(s, d, false);
    if k > 0 {
      var n := if s[0] == d || s[0] == '\\' then 2 else 1;
      assert |s[1..]| > 0 ==> CloseAt(s[1..], d, true) == 1 + CloseAt(s[1..][1..], d, false);
      assert |s| > 1 ==> s[1..][1..] == s[2..];
      CloseAtIsBody(s[n..], d);
      assert s[..k][n..] == s[n..][..k - n];
      assert s[n..][k - n + 1..] == s[k + 1..];
    }
  }

  /** No quote is left that would open a literal. */
  predicate NoOpenQuote(s: string, escaped: bool) {
    |s| == 0 || ((!escaped ==> !Quote(s[0])) && NoOpenQuote(s[1..], !escaped && s[0] == '\\'))
  }

  // Whether a backslash is still open after `s`.
  function EscapedAfter(s: string, escaped: bool): bool {
    if |s| == 0 then escaped else EscapedAfter(s[1..], !escaped && s[0] == '\\')
  }

  lemma {:induction false} StrippedHasNoOpenQuote(s: string, escaped: bool)
    ensures NoOpenQuote(StripQuoted(s, escaped), escaped)
    decreases |s|
  {
    if |s| == 0 {
    } else if !escaped && Quote(s[0]) {
      var rest := AfterLiteral(s[1..], s[0]);
      StrippedHasNoOpenQuote(rest, false);
      assert StripQuoted(s, escaped)[1..] == StripQuoted(rest, false);
    } else {
      StrippedHasNoOpenQuote(s[1..], !escaped && s[0] == '\\');
      assert StripQuoted(s, escaped)[1..] == StripQuoted(s[1..], !escaped && s[0] == '\\');
    }
  }

  // A prefix without open quotes passes through unchanged.
  lemma {:induction false} StripPrefix(p: string, s: string, escaped: bool)
    requires NoOpenQuote(p, escaped)
    ensures StripQuoted(p + s, escaped) == p + StripQuoted(s, EscapedAfter(p, escaped))
  {
    if |p| == 0 {
      assert p + s == s;
    } else {
      Uncons(p, s);
      StripPrefix(p[1..], s, !escaped && p[0] == '\\');
      Uncons(p, StripQuoted(s, EscapedAfter(p, escaped)));
    }
  }

  lemma {:induction false} AfterLiteralWeight(s: string, d: char)
    ensures Weight(AfterLiteral(s, d)) <= Weight(s)
  {
    WeightSplit(s, Least(CloseAt(s, d, false) + 1, |s|));
  }

  lemma {:induction false} StripWeight(s: string, escaped: bool)
    ensures Weight(StripQuoted(s, escaped)) <= Weight(s)
    ensures Weight(StripQuoted(s, escaped)) == Weight(s) ==> StripQuoted(s, escaped) == s
    decreases |s|
  {
    if |s| == 0 {
    } else if !escaped && Quote(s[0]) {
      var rest := AfterLiteral(s[1..], s[0]);
      StripWeight(rest, false);
      AfterLiteralWeight(s[1..], s[0]);
      WeightCons('?', StripQuoted(rest, false));
    } else {
      StripWeight(s[1..], !escaped && s[0] == '\\');
      WeightCons(s[0], StripQuoted(s[1..], !escaped && s[0] == '\\'));
    }
  }

  /** The pass changes nothing exactly when there is no quote to replace. */
  lemma StripFixedPoint(s: string, escaped: bool)
    ensures StripQuoted(s, escaped) == s <==> NoOpenQuote(s, escaped)
  {
    StrippedHasNoOpenQuote(s, escaped);
    if NoOpenQuote(s, escaped) {
      StripPrefix(s, [], escaped);
      assert s + [] == s;
    }
  }

  // Characters that are neither quotes nor backslashes do not matter.
  lemma {:induction false} NoOpenQuoteSkip(s: string, escaped: bool, k: nat)
    requires 0 < k <= |s|
    requires forall i :: 0 <= i < k ==> s[i] != '\\' && !Quote(s[i])
    ensures NoOpenQuote(s, escaped) <==> NoOpenQuote(s[k..], false)
  {
    if k > 1 {
      NoOpenQuoteSkip(s[1..], false, k - 1);
      assert s[1..][k - 1..] == s[k..];
    }
  }
}
