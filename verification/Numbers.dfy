/** The pass that replaces a number after a separator by a question mark. */
module Numbers {
  import opened Text
  import opened QuotedText
  import opened Comments

  // The characters after which a digit starts a number.
  predicate Separator(c: char) {
    c in ",!(+-*/=~<>^%|&" || SqlSpace(c)
  }

  predicate HexDigit(c: char) {
    Digit(c) || 'a' <= c <= 'f'
  }

  function DigitRun(s: string): (k: nat)
    ensures k <= |s|
  {
    if |s| == 0 || !Digit(s[0]) then 0 else 1 + DigitRun(s[1..])
  }

  function HexRun(s: string): (k: nat)
    ensures k <= |s|
  {
    if |s| == 0 || !HexDigit(s[0]) then 0 else 1 + HexRun(s[1..])
  }

  predicate HexPrefix(s: string) {
    |s| > 1 && s[0] == '0' && (s[1] == 'x' || s[1] == 'X')
  }

  // The length of the number that `s` starts with.
  function NumberLength(s: string): (k: nat)
    requires |s| > 0 && Digit(s[0])
    ensures 0 < k <= |s|
  {
    if HexPrefix(s) then 2 + HexRun(s[2..])
    else
      var k := 1 + DigitRun(s[1..]);
      if k < |s| && s[k] == '.' then k + 1 + DigitRun(s[k + 1..]) else k
  }

  lemma {:induction false} RunsAreDigits(s: string)
    ensures forall i :: 0 <= i < DigitRun(s) ==> Digit(s[i])
    ensures forall i :: 0 <= i < HexRun(s) ==> HexDigit(s[i])
  {
    if |s| > 0 {
      RunsAreDigits(s[1..]);
    }
  }

  // The characters of a number.
  predicate NumberChar(c: char) {
    HexDigit(c) || c in "xX."
  }

  lemma NumberChars(s: string)
    requires |s| > 0 && Digit(s[0])
    ensures forall i :: 0 <= i < NumberLength(s) ==> NumberChar(s[i])
  {
    if HexPrefix(s) {
      RunsAreDigits(s[2..]);
      assert forall i :: 2 <= i < |s| ==> s[i] == s[2..][i - 2];
    } else {
      RunsAreDigits(s[1..]);
      assert forall i :: 1 <= i < |s| ==> s[i] == s[1..][i - 1];
      var k := 1 + DigitRun(s[1..]);
      if k < |s| {
        RunsAreDigits(s[k + 1..]);
        assert forall i :: k < i < |s| ==> s[i] == s[k + 1..][i - k - 1];
      }
    }
  }

  // `prev` is the character before `s`; the zero byte before the whole query, so that a number
  // at the very start is kept.
  function StripNumbers(prev: char, s: string): string
    decreases |s|
  {
    if |s| == 0 then []
    else if Separator(prev) && Digit(s[0]) then ['?'] + StripNumbers('?', s[NumberLength(s)..])
    else [s[0]] + StripNumbers(s[0], s[1..])
  }

  /** No separator is followed by a digit. */
  predicate NoNumber(prev: char, s: string)
    decreases |s|
  {
    |s| == 0 || (!(Separator(prev) && Digit(s[0])) && NoNumber(s[0], s[1..]))
  }

  lemma {:induction false} StrippedHasNoNumber(prev: char, s: string)
    ensures NoNumber(prev, StripNumbers(prev, s))
    decreases |s|
  {
    if |s| == 0 {
    } else if Separator(prev) && Digit(s[0]) {
      var rest := s[NumberLength(s)..];
      StrippedHasNoNumber('?', rest);
      assert StripNumbers(prev, s)[1..] == StripNumbers('?', rest);
    } else {
      StrippedHasNoNumber(s[0], s[1..]);
      assert StripNumbers(prev, s)[1..] == StripNumbers(s[0], s[1..]);
    }
  }

  lemma {:induction false} StripNumbersWeight(prev: char, s: string)
    ensures Weight(StripNumbers(prev, s)) <= Weight(s)
    ensures Weight(StripNumbers(prev, s)) == Weight(s) ==> StripNumbers(prev, s) == s
    decreases |s|
  {
    if |s| == 0 {
    } else if Separator(prev) && Digit(s[0]) {
      var k := NumberLength(s);
      StripNumbersWeight('?', s[k..]);
      WeightCons('?', StripNumbers('?', s[k..]));
      WeightDrop(s, k);
    } else {
      StripNumbersWeight(s[0], s[1..]);
      WeightCons(s[0], StripNumbers(s[0], s[1..]));
    }
  }

  // A prefix without numbers passes through unchanged.
  lemma {:induction false} StripNumbersPrefix(prev: char, p: string, s: string)
    requires NoNumber(prev, p)
    ensures StripNumbers(prev, p + s) == p + StripNumbers(if |p| == 0 then prev else p[|p| - 1], s)
    decreases |p|
  {
    if |p| == 0 {
      assert p + s == s;
    } else {
      Uncons(p, s);
      StripNumbersPrefix(p[0], p[1..], s);
      Uncons(p, StripNumbers(p[|p| - 1], s));
    }
  }

  /** The pass changes nothing exactly when no number follows a separator. */
  lemma NumbersFixedPoint(prev: char, s: string)
    ensures StripNumbers(prev, s) == s <==> NoNumber(prev, s)
    ensures StripNumbers(prev, StripNumbers(prev, s)) == StripNumbers(prev, s)
  {
    var r := StripNumbers(prev, s);
    StrippedHasNoNumber(prev, s);
    StripNumbersPrefix(prev, r, []);
    assert r + [] == r;
    if NoNumber(prev, s) {
      StripNumbersPrefix(prev, s, []);
      assert s + [] == s;
    }
  }

  // ---- the earlier normal forms survive ----

  // A number is no part of an escape, since no backslash is a separator.
  lemma {:induction false} NumbersKeepQuotes(prev: char, s: string, escaped: bool)
    requires escaped ==> !Separator(prev)
    ensures NoOpenQuote(StripNumbers(prev, s), escaped) <==> NoOpenQuote(s, escaped)
    decreases |s|
  {
    if |s| == 0 {
    } else if Separator(prev) && Digit(s[0]) {
      var k := NumberLength(s);
      NumberChars(s);
      NoOpenQuoteSkip(s, escaped, k);
      NumbersKeepQuotes('?', s[k..], false);
      assert StripNumbers(prev, s)[1..] == StripNumbers('?', s[k..]);
    } else {
      NumbersKeepQuotes(s[0], s[1..], !escaped && s[0] == '\\');
      assert StripNumbers(prev, s)[1..] == StripNumbers(s[0], s[1..]);
    }
  }

  lemma {:induction false} NumbersKeepFront(prev: char, s: string)
    ensures AlikeAtFront(StripNumbers(prev, s), s)
    ensures AllSpace(StripNumbers(prev, s)) == AllSpace(s)
    ensures BlockEnds(StripNumbers(prev, s)) == BlockEnds(s)
    decreases |s|
  {
    var r := StripNumbers(prev, s);
    if |s| > 0 && !(Separator(prev) && Digit(s[0])) {
      NumbersKeepFront(s[0], s[1..]);
      assert r[1..] == StripNumbers(s[0], s[1..]);
      assert |s| > 1 ==> r[1] == r[1..][0] && s[1] == s[1..][0];
    }
  }

  /** After removing numbers all comment markers are bare exactly when they were before. */
  lemma {:induction false} NumbersKeepBare(prev: char, s: string)
    ensures MarkersBare(StripNumbers(prev, s)) <==> MarkersBare(s)
    decreases |s|
  {
    hide FirstBare, AlikeAtFront;
    if |s| == 0 {
    } else if Separator(prev) && Digit(s[0]) {
      var k := NumberLength(s);
      NumberChars(s);
      BareSkip(s, k);
      NumbersKeepBare('?', s[k..]);
      BareCons('?', StripNumbers('?', s[k..]));
    } else {
      var tail := s[1..];
      NumbersKeepBare(s[0], tail);
      NumbersKeepFront(s[0], tail);
      if |tail| > 0 && !Digit(tail[0]) {
        NumbersKeepFront(tail[0], tail[1..]);
        assert StripNumbers(s[0], tail)[1..] == StripNumbers(tail[0], tail[1..]);
      }
      FirstBareAlike(s[0], StripNumbers(s[0], tail), tail);
      BareCons(s[0], StripNumbers(s[0], tail));
      assert [s[0]] + tail == s;
    }
  }

  lemma NoNumberAfter(prev: char, s: string, prev': char)
    requires NoNumber(prev, s) && (|s| > 0 ==> !Digit(s[0]))
    ensures NoNumber(prev', s)
  {
  }

  // ---- which number it was does not matter ----

  predicate AllDigits(s: string) {
    forall c :: c in s ==> Digit(c)
  }

  predicate AllHexDigits(s: string) {
    forall c :: c in s ==> HexDigit(c)
  }

  /** `lit` is a whole literal: hexadecimal, or decimal whose point, if any, is at `point`. */
  predicate Hexadecimal(lit: string) {
    HexPrefix(lit) && AllHexDigits(lit[2..])
  }

  predicate Decimal(lit: string, point: nat) {
    0 < point <= |lit| && AllDigits(lit[..point]) &&
    (point < |lit| ==> lit[point] == '.' && AllDigits(lit[point + 1..]))
  }

  ghost predicate NumberLiteral(lit: string) {
    Hexadecimal(lit) || exists point: nat :: Decimal(lit, point)
  }

  // Whether `c`, right after `lit`, would be read as part of the same number.
  predicate Extends(lit: string, c: char) {
    if HexPrefix(lit) then HexDigit(c)
    else Digit(c) || (c == '.' && '.' !in lit) || (lit == "0" && (c == 'x' || c == 'X'))
  }

  lemma {:induction false} DigitRunIs(lit: string, rest: string)
    requires AllDigits(lit)
    ensures DigitRun(lit + rest) == |lit| + DigitRun(rest)
  {
    if |lit| == 0 {
      assert lit + rest == rest;
    } else {
      assert (lit + rest)[1..] == lit[1..] + rest;
      DigitRunIs(lit[1..], rest);
    }
  }

  lemma {:induction false} HexRunIs(lit: string, rest: string)
    requires AllHexDigits(lit)
    ensures HexRun(lit + rest) == |lit| + HexRun(rest)
  {
    if |lit| == 0 {
      assert lit + rest == rest;
    } else {
      assert (lit + rest)[1..] == lit[1..] + rest;
      HexRunIs(lit[1..], rest);
    }
  }

  // A run of digits not followed by a point is measured up to the next non-digit ...
  lemma WholeNumberLength(lit: string, rest: string)
    requires |lit| > 0 && AllDigits(lit)
    ensures Digit(lit[0])
    ensures NumberLength(lit + rest) == |lit| <==> !(|rest| > 0 && Extends(lit, rest[0]))
  {
    var s := lit + rest;
    assert s[1..] == lit[1..] + rest;
    DigitRunIs(lit[1..], rest);
    var k := |lit| + DigitRun(rest);
    assert s[k..] == rest[DigitRun(rest)..];
  }

  lemma PointedIsNotHex(whole: string, after: string)
    requires |whole| > 0 && AllDigits(whole)
    ensures !HexPrefix(whole + ("." + after)) && '.' in whole + ("." + after)
  {
    assert (whole + ("." + after))[|whole|] == '.';
    assert |whole| > 1 ==> (whole + ("." + after))[1] == whole[1] && whole[1] in whole;
  }

  // ... and one followed by a point up to the next non-digit after the point.
  lemma PointedNumberLength(whole: string, after: string)
    requires |whole| > 0 && AllDigits(whole)
    ensures var s := whole + ("." + after);
            Digit(s[0]) && NumberLength(s) == |whole| + 1 + DigitRun(after)
  {
    var tail := "." + after;
    Uncons(whole, tail);
    DigitRunIs(whole[1..], tail);
    PointedIsNotHex(whole, after);
    PointAt(whole + tail, |whole|);
    assert (whole + tail)[|whole| + 1..] == after;
  }

  lemma PointAt(s: string, k: nat)
    requires 0 < k < |s| && Digit(s[0]) && !HexPrefix(s)
    requires DigitRun(s[1..]) == k - 1 && s[k] == '.'
    ensures NumberLength(s) == k + 1 + DigitRun(s[k + 1..])
  {
  }

  /** A literal is measured exactly, unless what follows it extends it. */
  lemma NumberLengthOfLiteral(lit: string, rest: string)
    requires NumberLiteral(lit)
    ensures Digit(lit[0])
    ensures NumberLength(lit + rest) == |lit| <==> !(|rest| > 0 && Extends(lit, rest[0]))
  {
    if Hexadecimal(lit) {
      assert (lit + rest)[2..] == lit[2..] + rest;
      HexRunIs(lit[2..], rest);
    } else {
      var point: nat :| Decimal(lit, point);
      if point == |lit| {
        assert lit[..point] == lit;
        WholeNumberLength(lit, rest);
      } else {
        var whole, fraction := lit[..point], lit[point + 1..];
        assert lit == whole + ("." + fraction);
        assert lit + rest == whole + ("." + (fraction + rest));
        PointedNumberLength(whole, fraction + rest);
        DigitRunIs(fraction, rest);
        PointedIsNotHex(whole, fraction);
      }
    }
  }
}
