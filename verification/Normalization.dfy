/** The normaliser itself: passes that overwrite and erase characters of one string in place,
    inside index loops whose bound moves with the data. */
module Normalization {
  import opened Text
  import opened QuotedText
  import opened Comments
  import opened Numbers
  import opened Spaces
  import opened Signs
  import opened NormalForm

  // `size_t` subtraction: it wraps below zero.
  const SIZE_RANGE: nat := 0x1_0000_0000_0000_0000

  // The indices of the passes are 32 bits wide; with a few to spare none of them wraps.
  const INDEX_RANGE: nat := 0x1_0000_0000

  function SizeMinus(n: nat, k: nat): nat
    requires k <= SIZE_RANGE
  {
    if n < k then SIZE_RANGE + n - k else n - k
  }

  class Query {
    var text: string

    constructor (query: string)
      ensures text == query
    {
      text := query;
    }

    method Erase(pos: nat, n: nat)
      requires pos <= |text|
      modifies this
      ensures text == Erased(old(text), pos, n)
    {
      text := text[..pos] + text[if pos + n < |text| then pos + n else |text|..];
    }

    method LookForChar(start: nat, delimiter: char) returns (j: nat)
      requires start < |text|
      ensures j == start + 1 + CloseAt(text[start + 1..], delimiter, false)
      ensures start < j <= |text|
    {
      j := start + 1;
      var quoted := false;
      ghost var end := start + 1 + CloseAt(text[start + 1..], delimiter, false);
      while j < |text|
        invariant start < j <= |text|
        invariant end == j + CloseAt(text[j..], delimiter, quoted)
      {
        assert text[j..][1..] == text[j + 1..];
        if text[j] == delimiter && !quoted {
          if j + 1 >= |text| {
            return;
          }
          if text[j + 1] == delimiter && (delimiter == '\'' || delimiter == '"') {
            assert text[j..][2..] == text[j + 2..];
            j := j + 1;
          } else {
            return;
          }
        } else if text[j] == '\\' && !quoted {
          quoted := true;
        } else {
          quoted := false;
        }
        j := j + 1;
      }
    }

    method RemoveQuotedText()
      modifies this
      ensures text == StripQuoted(old(text), false)
      ensures |text| <= |old(text)| && (|old(text)| > 0 ==> |text| > 0)
    {
      var i := 0;
      var quoted := false;
      ghost var goal := StripQuoted(text, false);
      while i < |text|
        invariant i <= |text| <= |old(text)|
        invariant |old(text)| > 0 ==> |text| > 0
        invariant text[..i] + StripQuoted(text[i..], quoted) == goal
        decreases |text| - i
      {
        PlainQuoted(text, i, quoted);
        if text[i] == '\'' && !quoted {
          ReplaceLiteral(i, '\'');
        } else if text[i] == '"' && !quoted {
          ReplaceLiteral(i, '"');
        } else if text[i] == '\\' && !quoted {
          quoted := true;
        } else {
          quoted := false;
        }
        i := i + 1;
      }
      assert text[..i] + [] == text;
    }

    // The treatment of one literal, opened at `i`.
    method ReplaceLiteral(i: nat, delimiter: char)
      requires i < |text| && text[i] == delimiter && Quote(delimiter)
      modifies this
      ensures i < |text| <= |old(text)|
      ensures text[..i + 1] + StripQuoted(text[i + 1..], false) ==
              old(text)[..i] + StripQuoted(old(text)[i..], false)
    {
      ghost var was := text;
      var j := LookForChar(i, delimiter);
      text := text[i := '?'];
      Erase(i + 1, j - i);
      LiteralReplaced(was, i, j, text);
    }

    method RemoveCppComment()
      requires |text| > 0
      modifies this
      ensures text == StripBlocks(old(text))
      ensures 0 < |text| <= |old(text)|
    {
      var i := 0;
      ghost var goal := StripBlocks(text);
      assert text[0..] == text;
      while i < |text| - 1
        invariant i < |text| <= |old(text)|
        invariant text[..i] + StripBlocks(text[i..]) == goal
        decreases |text| - i
      {
        ghost var was := text;
        if text[i] == '/' && text[i + 1] == '*' {
          CollapseBlock(i);
          BlockReplaced(was, i, text);
        } else {
          PlainBlock(text, i);
        }
        i := i + 1;
      }
      assert text[..i] + text[i..] == text;
    }

    // The treatment of one block, opened at `i`.
    method CollapseBlock(i: nat)
      requires i + 2 <= |text|
      modifies this
      ensures text == old(text)[..i + 2] + AfterBlockOpening(old(text)[i + 2..])
    {
      hide AfterBlock, BlockStop, Erased;
      ghost var t := text[i + 2..];
      var j := i + 2;
      while j < |text| - 1 && text[j] != '*' && text[j + 1] != '/'
        invariant i + 2 <= j && (j < |text| || (j == |text| && |t| == 0))
        invariant forall k :: 0 <= k < j - i - 2 ==> InsideBlock(t, k)
      {
        j := j + 1;
      }
      BlockStopAt(t, j - i - 2);
      ghost var was := text;
      if At(text, j) == '*' && At(text, j + 1) == '/' {
        if j != i + 2 {
          text := text[i + 2 := ' '];
          Erase(i + 3, j - i - 3);
        }
        BlockClosed(was, i + 2, j, text);
      } else {
        Erase(i + 2, j - i + 2);
        BlockLost(was, i + 2, j);
      }
    }

    method RemoveHashComment()
      requires |text| > 0
      modifies this
      ensures text == StripHashes(old(text))
      ensures 0 < |text| <= |old(text)|
    {
      var i := 0;
      ghost var goal := StripHashes(text);
      assert text[0..] == text;
      while i < |text|
        invariant i <= |text| <= |old(text)| && 0 < |text|
        invariant text[..i] + StripHashes(text[i..]) == goal
        decreases |text| - i
      {
        if text[i] == '#' {
          CutLine(i);
        } else {
          PlainHash(text, i);
        }
        i := i + 1;
      }
      assert text[..i] + [] == text;
    }

    // The treatment of one comment, with its marker at `i`.
    method CutLine(i: nat)
      requires i < |text| && text[i] == '#'
      modifies this
      ensures i < |text| <= |old(text)|
      ensures text[..i + 1] + StripHashes(text[i + 1..]) == old(text)[..i] + StripHashes(old(text)[i..])
    {
      ghost var was := text;
      var j := LineEnd(i + 1);
      Erase(i + 1, j - i - 1);
      HashReplaced(was, i, j, text);
    }

    // The two inner loops that both line comment passes run: to the end of the line, then over
    // the line breaks.
    method LineEnd(from: nat) returns (j: nat)
      requires from <= |text|
      ensures from <= j == |text| - |AfterLine(text[from..])|
    {
      j := from;
      while j < |text| && text[j] != '\r' && text[j] != '\n'
        invariant from <= j <= |text|
        invariant forall k :: from <= k < j ==> !Newline(text[k])
      {
        j := j + 1;
      }
      ghost var eol := j;
      while j < |text| && (text[j] == '\r' || text[j] == '\n')
        invariant eol <= j <= |text|
        invariant j == eol < |text| ==> Newline(text[j])
        invariant forall k :: eol <= k < j ==> Newline(text[k])
      {
        j := j + 1;
      }
      LineEndsAt(text, from, eol, j);
    }

    method RemoveDashComment()
      requires |text| > 0
      modifies this
      ensures text == StripDashes(old(text))
      ensures 0 < |text| <= |old(text)|
    {
      var i := 0;
      ghost var goal := StripDashes(text);
      while i < |text| - 1
        invariant i < |text| <= |old(text)|
        invariant text[..i] + StripDashes(text[i..]) == goal
        decreases |text| - i
      {
        ghost var was := text;
        if text[i] == '-' && text[i + 1] == '-' {
          var j := LineEnd(i + 2);
          if j != i + 1 {
            Erase(i + 2, j - i - 2);
          }
          DashReplaced(was, i, j, text);
        } else {
          PlainDash(text, i);
        }
        i := i + 1;
      }
      assert text[..i] + text[i..] == text;
    }

    method RemoveComments()
      requires |text| > 0
      modifies this
      ensures text == StripComments(old(text))
      ensures 0 < |text| <= |old(text)|
    {
      RemoveCppComment();
      RemoveHashComment();
      RemoveDashComment();
    }

    method RemoveNumbers()
      requires |text| > 0
      modifies this
      ensures text == StripNumbers('\0', old(text))
      ensures 0 < |text| <= |old(text)|
    {
      var i := 1;
      ghost var goal := StripNumbers('\0', text);
      assert text[0..] == text;
      Advance(text, 0, StripNumbers(text[0], text[1..]));
      while i < |text|
        invariant 0 < i <= |text| <= |old(text)|
        invariant text[..i] + StripNumbers(text[i - 1], text[i..]) == goal
        decreases |text| - i
      {
        ghost var was := text;
        if Separator(text[i - 1]) && text[i] >= '0' && text[i] <= '9' {
          ReplaceNumber(i);
          NumberReplaced(was, i, i + NumberLength(was[i..]), text);
        } else {
          PlainNumber(text, i, text[i - 1]);
        }
        i := i + 1;
      }
      assert text[..i] + [] == text;
    }

    // The treatment of one number, which starts at `i`.
    method ReplaceNumber(i: nat)
      requires i < |text| && Digit(text[i])
      modifies this
      ensures text == Erased(old(text)[i := '?'], i + 1, NumberLength(old(text)[i..]) - 1)
    {
      var j := NumberEnd(i);
      text := text[i := '?'];
      if j != i + 1 {
        Erase(i + 1, j - i - 1);
      }
    }

    method NumberEnd(i: nat) returns (j: nat)
      requires i < |text| && Digit(text[i])
      ensures i < j <= |text| && j == i + NumberLength(text[i..])
    {
      NumberEndsAt(text, i);
      if text[i] == '0' && i + 1 < |text| {
        if text[i + 1] == 'x' || text[i + 1] == 'X' {
          j := HexDigitsEnd(i + 2);
          return;
        }
      }
      j := DigitsEnd(i + 1);
      if j < |text| && text[j] == '.' {
        j := DigitsEnd(j + 1);
      }
    }

    // The inner loops over digits.
    method DigitsEnd(from: nat) returns (j: nat)
      requires from <= |text|
      ensures from <= j <= |text| && j == from + DigitRun(text[from..])
    {
      j := from;
      while j < |text| && text[j] >= '0' && text[j] <= '9'
        invariant from <= j <= |text|
        invariant forall k :: from <= k < j ==> Digit(text[k])
      {
        j := j + 1;
      }
      assert text[from..] == text[from..j] + text[j..];
      DigitRunIs(text[from..j], text[j..]);
    }

    method HexDigitsEnd(from: nat) returns (j: nat)
      requires from <= |text|
      ensures from <= j <= |text| && j == from + HexRun(text[from..])
    {
      j := from;
      while j < |text| && ((text[j] >= '0' && text[j] <= '9') || (text[j] >= 'a' && text[j] <= 'f'))
        invariant from <= j <= |text|
        invariant forall k :: from <= k < j ==> HexDigit(text[k])
      {
        j := j + 1;
      }
      assert text[from..] == text[from..j] + text[j..];
      HexRunIs(text[from..j], text[j..]);
    }

    method RemoveSpaces()
      requires |text| > 0
      modifies this
      ensures text == StripSpaces(old(text))
      ensures |text| <= |old(text)|
    {
      MergeSpaces();
      TightenSpaces();
      var j := |text| - 1;
      if text[j] == ' ' {
        Erase(j, 1);
      }
    }

    // First loop of `removeSpaces`.
    method MergeSpaces()
      requires |text| > 0
      modifies this
      ensures text == CollapseSpaces(old(text))
      ensures 0 < |text| <= |old(text)|
    {
      var i := 0;
      ghost var goal := CollapseSpaces(text);
      while i < |text|
        invariant i <= |text| <= |old(text)| && 0 < |text|
        invariant text[..i] + CollapseSpaces(text[i..]) == goal
        decreases |text| - i
      {
        ghost var was := text;
        if SqlSpace(text[i]) {
          var j := SpacesEnd(i);
          text := text[i := ' '];
          if j != i + 1 {
            Erase(i + 1, j - i - 1);
          }
          RunReplaced(was, i, j, text);
        } else {
          PlainUnspaced(text, i);
        }
        i := i + 1;
      }
      assert text[..i] + [] == text;
    }

    // The inner loop over a whitespace run that starts at `i`.
    method SpacesEnd(i: nat) returns (j: nat)
      requires i < |text| && SqlSpace(text[i])
      ensures i < j <= |text| && j == i + SpaceRun(text[i..])
    {
      j := i + 1;
      while j < |text| && SqlSpace(text[j])
        invariant i < j <= |text|
        invariant forall k :: i <= k < j ==> SqlSpace(text[k])
      {
        j := j + 1;
      }
      SpaceRunIs(text[i..], j - i);
    }

    // Second loop of `removeSpaces`.
    method TightenSpaces()
      requires |text| > 0
      modifies this
      ensures text == Tighten(old(text))
      ensures 0 < |text| <= |old(text)|
    {
      var i := 0;
      ghost var goal := Tighten(text);
      while i <= |text| - 1
        invariant i <= |text| <= |old(text)| && 0 < |text|
        invariant text[..i] + Tighten(text[i..]) == goal
        decreases |text| - i
      {
        ghost var was := text;
        TightenAt(i);
        assert text[..i] == was[..i] && text[i..] == TightenHere(was[i..]);
        Advance(text, i, Tighten(text[i + 1..]));
        i := i + 1;
      }
      assert text[..i] + [] == text;
    }

    // The two erasures at one position.
    method TightenAt(i: nat)
      requires i < |text|
      modifies this
      ensures text == old(text)[..i] + TightenHere(old(text)[i..])
    {
      hide Erased;
      ghost var front, s := text[..i], text[i..];
      if text[i] == ' ' && (At(text, i + 1) == ')' || At(text, i + 1) == ',') {
        FirstErased(text, i);
        Erase(i, 1);
      }
      ghost var a := text[i..];
      assert text == front + a;
      assert a == if s[0] == ' ' && |s| > 1 && Closes(s[1]) then s[1..] else s;
      if i + 1 <= |text| && At(text, i + 1) == ' ' && (text[i] == '(' || text[i] == ',') {
        SecondErased(text, i);
        Erase(i + 1, 1);
      }
    }

    method FindFirstDelimiter(prev: nat) returns (found: bool, next: nat)
      requires prev <= |text|
      ensures found ==> prev <= next < |text| && Delimiter(text[next])
      ensures found ==> forall k :: prev <= k < next ==> !Delimiter(text[k])
      ensures !found ==> forall k :: prev <= k < |text| ==> !Delimiter(text[k])
    {
      next := prev;
      while next < |text|
        invariant prev <= next <= |text|
        invariant forall k :: prev <= k < next ==> !Delimiter(text[k])
      {
        if Delimiter(text[next]) {
          return true, next;
        }
        next := next + 1;
      }
      return false, next;
    }

    method FixNegativeNumbers()
      requires |text| + 3 <= SIZE_RANGE
      modifies this
      ensures text == FixSigns([], old(text))
      ensures |text| <= |old(text)|
    {
      var prev: nat := 0;
      ghost var goal := FixSigns([], text);
      assert text[0..] == text;
      while true
        invariant prev <= |text| <= |old(text)|
        invariant text[..prev] + FixSigns([], text[prev..]) == goal
        decreases |text| - prev
      {
        var found, next := FindFirstDelimiter(prev);
        if !found {
          NoDelimiterLeft(text, prev);
          return;
        }
        var lastToken := text[prev..next + 1];
        ghost var was := text;
        DelimiterStep(was, prev, next);
        var done := DropSignAt(next, lastToken);
        assert text[..next + 1] == was[..next + 1];
        assert text[next + 1..] == DropSign(lastToken, was[next + 1..]);
        if done {
          ShortRest(text, next);
          return;
        }
        prev := next + 1;
      }
    }

    // The body of the loop after the next delimiter is found; `done` is the early return taken
    // when fewer than two characters are left to look at.
    method DropSignAt(next: nat, lastToken: string) returns (done: bool)
      requires next < |text| && |text| + 3 <= SIZE_RANGE && |lastToken| > 0
      modifies this
      ensures text == old(text)[..next + 1] + DropSign(lastToken, old(text)[next + 1..])
      ensures done ==> |text| <= next + 2
    {
      ghost var was := text;
      assert was == was[..next + 1] + was[next + 1..];
      if next + 1 > |text| || next > SizeMinus(|text|, 2) {
        return true;
      }
      if At(text, next + 1) == '-' && At(text, next + 2) == '?' {
        if BeforeValue(lastToken) {
          Erase(next + 1, 1);
          SignErased(was, next, 1, text);
        }
      }
      if next > SizeMinus(|text|, 3) {
        return true;
      }
      if At(text, next + 1) == '-' && SqlSpace(At(text, next + 2)) && At(text, next + 3) == '?' {
        if BeforeValue(lastToken) {
          Erase(next + 1, 2);
          SignErased(was, next, 2, text);
        }
      }
      done := false;
    }

    /** All passes, in order: the query is replaced by its pattern. The empty query is outside
        the contract, because the loop bounds of the comment passes wrap on it. */
    method NormalizeQuery()
      requires 0 < |text| && |text| + 4 <= INDEX_RANGE
      modifies this
      ensures text == Pattern(old(text))
      ensures |text| <= |old(text)|
    {
      RemoveQuotedText();
      RemoveComments();
      RemoveNumbers();
      RemoveSpaces();
      FixNegativeNumbers();
    }
  }

  // ---- slices of the text before and after an edit ----

  lemma Advance(s: string, i: nat, rest: string)
    requires i < |s|
    ensures s[i..][1..] == s[i + 1..]
    ensures s[..i] + ([s[i]] + rest) == s[..i + 1] + rest
  {
  }

  lemma Rest(s: string, i: nat, k: nat)
    requires i + k <= |s|
    ensures s[i..][k..] == s[i + k..]
  {
  }

  // Erasing from `i` up to `j`.
  lemma Cut(was: string, i: nat, j: nat, now: string)
    requires i <= j <= |was| && now == Erased(was, i, j - i)
    ensures now == was[..i] + was[j..] && |now| == |was| - (j - i)
    ensures now[..i] == was[..i] && now[i..] == was[j..]
  {
  }

  // Writing `c` at `i` and erasing `n` characters after it.
  lemma Kept(was: string, i: nat, c: char, n: nat, now: string)
    requires i < |was| && now == Erased(was[i := c], i + 1, n)
    ensures i < |now| <= |was| && now[i] == c
    ensures now[..i + 1] == was[..i] + [c] && now[i + 1..] == was[Least(i + 1 + n, |was|)..]
  {
    var j := Least(i + 1 + n, |was|);
    assert was[i := c][..i + 1] == was[..i] + [c];
    assert was[i := c][j..] == was[j..];
  }

  // The same, with what is still to come before and after the edit.
  lemma Turn(was: string, i: nat, c: char, n: nat, now: string, todo: string, rest: string)
    requires i < |was| && now == Erased(was[i := c], i + 1, n)
    requires todo == [c] + rest
    ensures now[..i + 1] + rest == was[..i] + todo
  {
    Kept(was, i, c, n, now);
    Assoc(was[..i], [c], rest);
  }

  // Around the second of two characters that are kept.
  lemma Spliced(s: string, i: nat, rest: string)
    requires i + 1 < |s|
    ensures var now := s[..i + 2] + rest;
            now[..i + 1] == s[..i] + [s[i]] && now[i + 1..] == [s[i + 1]] + rest
  {
  }

  // ---- one turn of a loop ----

  lemma PlainQuoted(s: string, i: nat, quoted: bool)
    requires i < |s|
    ensures quoted || !Quote(s[i]) ==>
              s[..i] + StripQuoted(s[i..], quoted) ==
              s[..i + 1] + StripQuoted(s[i + 1..], !quoted && s[i] == '\\')
  {
    Advance(s, i, StripQuoted(s[i + 1..], !quoted && s[i] == '\\'));
  }

  lemma {:induction false} LiteralReplaced(was: string, i: nat, j: nat, now: string)
    requires i < j <= |was| && Quote(was[i])
    requires j == i + 1 + CloseAt(was[i + 1..], was[i], false)
    requires now == Erased(was[i := '?'], i + 1, j - i)
    ensures i < |now| <= |was|
    ensures now[..i + 1] + StripQuoted(now[i + 1..], false) == was[..i] + StripQuoted(was[i..], false)
  {
    var rest := was[Least(j + 1, |was|)..];
    Kept(was, i, '?', j - i, now);
    LiteralRest(was, i, j);
    LiteralStep(was[i..], rest);
    Turn(was, i, '?', j - i, now, StripQuoted(was[i..], false), StripQuoted(rest, false));
  }

  lemma LiteralRest(was: string, i: nat, j: nat)
    requires i < j <= |was|
    requires j == i + 1 + CloseAt(was[i + 1..], was[i], false)
    ensures AfterLiteral(was[i..][1..], was[i]) == was[Least(j + 1, |was|)..]
  {
    hide CloseAt;
    Rest(was, i, 1);
    Rest(was, i + 1, Least(j - i, |was| - i - 1));
  }

  lemma LiteralStep(s: string, rest: string)
    requires |s| > 0 && Quote(s[0]) && rest == AfterLiteral(s[1..], s[0])
    ensures StripQuoted(s, false) == ['?'] + StripQuoted(rest, false)
  {
  }

  lemma PlainBlock(s: string, i: nat)
    requires i + 1 < |s| && !(s[i] == '/' && s[i + 1] == '*')
    ensures s[..i] + StripBlocks(s[i..]) == s[..i + 1] + StripBlocks(s[i + 1..])
  {
    Advance(s, i, StripBlocks(s[i + 1..]));
  }

  // The scan for the end of a block passes position `m` of `t`.
  predicate InsideBlock(t: string, m: nat) {
    m + 1 < |t| && t[m] != '*' && t[m + 1] != '/'
  }

  lemma {:induction false} BlockStopAt(t: string, k: nat)
    requires k < |t| || (|t| == 0 && k == 0)
    requires forall m: nat :: m < k ==> InsideBlock(t, m)
    requires !InsideBlock(t, k)
    ensures BlockStop(t) == k
  {
    if k > 0 {
      assert InsideBlock(t, 0);
      forall m: nat | m < k - 1
        ensures InsideBlock(t[1..], m)
      {
        assert InsideBlock(t, m + 1);
      }
      BlockStopAt(t[1..], k - 1);
    }
  }

  lemma BlockClosed(was: string, p: nat, j: nat, now: string)
    requires p <= j && j + 1 < |was| && was[j] == '*' && was[j + 1] == '/'
    requires now == if j != p then Erased(was[p := ' '], p + 1, j - p - 1) else was
    ensures now == was[..p] + AfterBlock(was[p..], j - p)
  {
    Rest(was, p, j - p);
    ClosedRest(was[p..], j - p);
    if j != p {
      SpacePut(was, p, j, now);
    }
  }

  lemma ClosedRest(t: string, k: nat)
    requires k + 1 < |t| && t[k] == '*' && t[k + 1] == '/'
    ensures AfterBlock(t, k) == if k > 0 then [' '] + t[k..] else t
  {
  }

  lemma BlockLost(was: string, p: nat, j: nat)
    requires p <= j <= |was| && (j == |was| ==> p == j)
    requires !(j + 1 < |was| && was[j] == '*' && was[j + 1] == '/')
    ensures Erased(was, p, j - p + 4) == was[..p] + AfterBlock(was[p..], j - p)
  {
    LostPut(was, p, j - p + 4);
  }

  lemma LostPut(was: string, p: nat, n: nat)
    requires p <= |was|
    ensures Erased(was, p, n) == was[..p] + was[p..][Least(n, |was| - p)..]
  {
    Rest(was, p, Least(n, |was| - p));
  }

  lemma FirstErased(was: string, i: nat)
    requires i + 1 < |was|
    ensures var now := Erased(was, i, 1); now == was[..i] + was[i..][1..] && now[i..] == was[i..][1..]
  {
  }

  lemma SecondErased(was: string, i: nat)
    requires i + 1 < |was|
    ensures Erased(was, i + 1, 1) == was[..i] + ([was[i..][0]] + was[i..][2..])
  {
  }

  lemma SpacePut(was: string, p: nat, j: nat, now: string)
    requires p < j < |was| && now == Erased(was[p := ' '], p + 1, j - p - 1)
    ensures now == was[..p] + ([' '] + was[j..])
  {
    Kept(was, p, ' ', j - p - 1, now);
    assert now == now[..p + 1] + now[p + 1..];
    Assoc(was[..p], [' '], was[j..]);
  }

  lemma BlockReplaced(was: string, i: nat, now: string)
    requires i + 1 < |was| && was[i] == '/' && was[i + 1] == '*'
    requires now == was[..i + 2] + AfterBlockOpening(was[i + 2..])
    ensures i + 1 < |now| <= |was|
    ensures now[..i + 1] + StripBlocks(now[i + 1..]) == was[..i] + StripBlocks(was[i..])
  {
    Rest(was, i, 2);
    BlockPut(was[..i], was[i..]);
    Spliced(was, i, AfterBlockOpening(was[i + 2..]));
  }

  lemma BlockPut(front: string, s: string)
    requires BlockOpening(s)
    ensures front + StripBlocks(s) == (front + ['/']) + StripBlocks(['*'] + AfterBlockOpening(s[2..]))
  {
    Assoc(front, ['/'], StripBlocks(['*'] + AfterBlockOpening(s[2..])));
  }

  lemma LineEndsAt(s: string, from: nat, eol: nat, j: nat)
    requires from <= eol <= j <= |s|
    requires forall k :: from <= k < eol ==> !Newline(s[k])
    requires forall k :: eol <= k < j ==> Newline(s[k])
    requires j < |s| ==> eol < j && !Newline(s[j])
    ensures s[j..] == AfterLine(s[from..])
  {
    assert s[from..] == s[from..eol] + s[eol..j] + s[j..];
    AfterLineSkips(s[from..eol], s[eol..j], s[j..]);
  }

  // What is left after a line, in terms of the text it stands in.
  lemma AfterLineAt(s: string, from: nat)
    requires from <= |s|
    ensures AfterLine(s[from..]) == s[|s| - |AfterLine(s[from..])|..]
  {
    var n := LineLength(s[from..]);
    Rest(s, from, n);
    Rest(s, from + n, NewlineRun(s[from + n..]));
  }

  lemma PlainHash(s: string, i: nat)
    requires i < |s| && s[i] != '#'
    ensures s[..i] + StripHashes(s[i..]) == s[..i + 1] + StripHashes(s[i + 1..])
  {
    Advance(s, i, StripHashes(s[i + 1..]));
  }

  lemma HashPut(s: string)
    requires |s| > 0 && s[0] == '#'
    ensures StripHashes(s) == ['#'] + StripHashes(AfterLine(s[1..]))
  {
  }

  // A marker of `n` characters at `i` is kept, and the text up to `rest` erased.
  lemma MarkerKept(was: string, i: nat, n: nat, rest: string, now: string)
    requires 0 < n && i + n + |rest| <= |was| && rest == was[|was| - |rest|..]
    requires now == Erased(was, i + n, |was| - |rest| - i - n)
    ensures i + n <= |now| <= |was| && now[..i + 1] == was[..i] + [was[i]]
    ensures now[i + 1..] == was[i + 1..i + n] + rest
  {
    Cut(was, i + n, |was| - |rest|, now);
    assert now == was[..i + n] + rest;
  }

  lemma {:induction false} HashReplaced(was: string, i: nat, j: nat, now: string)
    requires i < |was| && was[i] == '#'
    requires j == |was| - |AfterLine(was[i + 1..])| && now == Erased(was, i + 1, j - i - 1)
    ensures i < |now| <= |was|
    ensures now[..i + 1] + StripHashes(now[i + 1..]) == was[..i] + StripHashes(was[i..])
  {
    hide AfterLine, StripHashes, Erased;
    var rest := AfterLine(was[i + 1..]);
    AfterLineAt(was, i + 1);
    HashPut(was[i..]);
    Rest(was, i, 1);
    MarkerKept(was, i, 1, rest, now);
    assert was[i + 1..i + 1] + rest == rest;
    Assoc(was[..i], ['#'], StripHashes(rest));
  }

  lemma PlainDash(s: string, i: nat)
    requires i + 1 < |s| && !(s[i] == '-' && s[i + 1] == '-')
    ensures s[..i] + StripDashes(s[i..]) == s[..i + 1] + StripDashes(s[i + 1..])
  {
    Advance(s, i, StripDashes(s[i + 1..]));
  }

  lemma DashPut(s: string)
    requires |s| > 1 && s[0] == '-' && s[1] == '-'
    ensures StripDashes(s) == ['-'] + StripDashes(['-'] + AfterLine(s[2..]))
  {
  }

  lemma {:induction false} DashReplaced(was: string, i: nat, j: nat, now: string)
    requires i + 1 < |was| && was[i] == '-' && was[i + 1] == '-'
    requires j == |was| - |AfterLine(was[i + 2..])| && now == Erased(was, i + 2, j - i - 2)
    ensures i + 1 < |now| <= |was|
    ensures now[..i + 1] + StripDashes(now[i + 1..]) == was[..i] + StripDashes(was[i..])
  {
    hide AfterLine, StripDashes, Erased;
    var rest := AfterLine(was[i + 2..]);
    AfterLineAt(was, i + 2);
    DashPut(was[i..]);
    Rest(was, i, 2);
    MarkerKept(was, i, 2, rest, now);
    assert was[i + 1..i + 2] == ['-'];
    Assoc(was[..i], ['-'], StripDashes(['-'] + rest));
  }

  // The length of a number, in terms of the text it stands in.
  lemma NumberEndsAt(s: string, i: nat)
    requires i < |s| && Digit(s[i])
    ensures i + NumberLength(s[i..]) ==
            if i + 1 < |s| && s[i] == '0' && (s[i + 1] == 'x' || s[i + 1] == 'X') then i + 2 + HexRun(s[i + 2..])
            else
              var k := i + 1 + DigitRun(s[i + 1..]);
              if k < |s| && s[k] == '.' then k + 1 + DigitRun(s[k + 1..]) else k
  {
    if HexPrefix(s[i..]) {
      Rest(s, i, 2);
    } else {
      Rest(s, i, 1);
      var k := 1 + DigitRun(s[i + 1..]);
      if k < |s| - i {
        Rest(s, i, k + 1);
      }
    }
  }

  lemma PlainNumber(s: string, i: nat, prev: char)
    requires i < |s| && !(Separator(prev) && Digit(s[i]))
    ensures s[..i] + StripNumbers(prev, s[i..]) == s[..i + 1] + StripNumbers(s[i], s[i + 1..])
  {
    Advance(s, i, StripNumbers(s[i], s[i + 1..]));
  }

  lemma {:induction false} NumberReplaced(was: string, i: nat, j: nat, now: string)
    requires 0 < i < j <= |was| && Separator(was[i - 1]) && Digit(was[i])
    requires j - i == NumberLength(was[i..])
    requires now == Erased(was[i := '?'], i + 1, j - i - 1)
    ensures i < |now| <= |was| && now[i] == '?'
    ensures now[..i + 1] + StripNumbers('?', now[i + 1..]) == was[..i] + StripNumbers(was[i - 1], was[i..])
  {
    Kept(was, i, '?', j - i - 1, now);
    Rest(was, i, j - i);
    NumberStep(was[i - 1], was[i..], j - i, was[j..]);
    Turn(was, i, '?', j - i - 1, now, StripNumbers(was[i - 1], was[i..]), StripNumbers('?', was[j..]));
  }

  lemma NumberStep(prev: char, s: string, k: nat, rest: string)
    requires |s| > 0 && Separator(prev) && Digit(s[0]) && k == NumberLength(s) && rest == s[k..]
    ensures StripNumbers(prev, s) == ['?'] + StripNumbers('?', rest)
  {
  }

  lemma {:induction false} SpaceRunIs(s: string, k: nat)
    requires k <= |s| && forall m :: 0 <= m < k ==> SqlSpace(s[m])
    requires k < |s| ==> !SqlSpace(s[k])
    ensures SpaceRun(s) == k
  {
    if k > 0 {
      SpaceRunIs(s[1..], k - 1);
    }
  }

  lemma PlainUnspaced(s: string, i: nat)
    requires i < |s| && !SqlSpace(s[i])
    ensures s[..i] + CollapseSpaces(s[i..]) == s[..i + 1] + CollapseSpaces(s[i + 1..])
  {
    Advance(s, i, CollapseSpaces(s[i + 1..]));
  }

  lemma {:induction false} RunReplaced(was: string, i: nat, j: nat, now: string)
    requires i < j <= |was| && SqlSpace(was[i]) && j == i + SpaceRun(was[i..])
    requires now == Erased(was[i := ' '], i + 1, j - i - 1)
    ensures i < |now| <= |was|
    ensures now[..i + 1] + CollapseSpaces(now[i + 1..]) == was[..i] + CollapseSpaces(was[i..])
  {
    Kept(was, i, ' ', j - i - 1, now);
    Rest(was, i, j - i);
    RunStep(was[i..], j - i, was[j..]);
    Turn(was, i, ' ', j - i - 1, now, CollapseSpaces(was[i..]), CollapseSpaces(was[j..]));
  }

  lemma RunStep(s: string, k: nat, rest: string)
    requires |s| > 0 && SqlSpace(s[0]) && k == SpaceRun(s) && rest == s[k..]
    ensures CollapseSpaces(s) == [' '] + CollapseSpaces(rest)
  {
  }

  lemma NoDelimiterLeft(s: string, prev: nat)
    requires prev <= |s| && forall k :: prev <= k < |s| ==> !Delimiter(s[k])
    ensures s[..prev] + FixSigns([], s[prev..]) == s
  {
    var u := s[prev..];
    FixSignsSkip([], u, |u|);
    assert |u[|u|..]| == 0 && u[..|u|] + [] == u;
    assert s[..prev] + u == s;
  }

  lemma NextDelimiter(u: string, k: nat)
    requires k < |u| && Delimiter(u[k])
    requires forall m :: 0 <= m < k ==> !Delimiter(u[m])
    ensures FixSigns([], u) == u[..k] + ([u[k]] + FixSigns([], DropSign(u[..k + 1], u[k + 1..])))
  {
    FixSignsSkip([], u, k);
    assert [] + u[..k] == u[..k] && u[..k] + [u[k]] == u[..k + 1];
    assert u[k..][0] == u[k] && u[k..][1..] == u[k + 1..];
  }

  // What is left to do once the next delimiter is found.
  lemma DelimiterStep(s: string, prev: nat, next: nat)
    requires prev <= next < |s| && Delimiter(s[next])
    requires forall k :: prev <= k < next ==> !Delimiter(s[k])
    ensures s[..prev] + FixSigns([], s[prev..]) ==
            s[..next + 1] + FixSigns([], DropSign(s[prev..next + 1], s[next + 1..]))
  {
    var k := next - prev;
    NextDelimiter(s[prev..], k);
    assert s[prev..][..k + 1] == s[prev..next + 1] && s[prev..][k + 1..] == s[next + 1..];
    Rejoin(s, prev, next, FixSigns([], DropSign(s[prev..next + 1], s[next + 1..])));
  }

  lemma Rejoin(s: string, prev: nat, next: nat, tail: string)
    requires prev <= next < |s|
    ensures s[..prev] + (s[prev..][..next - prev] + ([s[next]] + tail)) == s[..next + 1] + tail
  {
    assert s[..prev] + s[prev..][..next - prev] == s[..next];
    Assoc(s[..prev], s[prev..][..next - prev], [s[next]] + tail);
    Advance(s, next, tail);
  }

  lemma SignErased(was: string, next: nat, n: nat, now: string)
    requires next + n < |was| && now == Erased(was, next + 1, n)
    ensures now == was[..next + 1] + was[next + 1..][n..]
  {
    Cut(was, next + 1, next + 1 + n, now);
  }

  // At most one character after the delimiter: nothing more can change.
  lemma ShortRest(s: string, next: nat)
    requires next < |s| <= next + 2
    ensures s[..next + 1] + FixSigns([], s[next + 1..]) == s
  {
    var r := s[next + 1..];
    assert FixSigns([], r) == r by {
      if |r| > 0 {
        assert |r[1..]| == 0;
        assert DropSign([] + [r[0]], []) == [];
      }
    }
  }
}
