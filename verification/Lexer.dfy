/** The string literal scanner of the SQL lexer. It reads and puts back single characters, and
    was written independently of the normaliser's search for a closing delimiter. */
module Lexer {
  import opened Text
  import opened QuotedText
  import opened Normalization

  datatype Read = Eof | Char(c: char)

  datatype Token = QString | DqString | Name

  function TokenFor(d: char): Token {
    if d == '\'' then QString else if d == '"' then DqString else Name
  }

  // The text of the literal whose body starts at s[0]: doubled delimiters become one.
  function LiteralText(s: string, d: char, escaped: bool): string
    decreases |s|
  {
    if |s| == 0 then []
    else if s[0] == d && !escaped then
      if |s| > 1 && s[1] == d && Quote(d) then [d] + LiteralText(s[2..], d, false) else []
    else
      [s[0]] + LiteralText(s[1..], d, !escaped && s[0] == '\\')
  }

  // How many characters the scanner takes of `s`, the text after the opening delimiter.
  function Consumed(s: string, d: char, quoted: bool): (n: nat)
    ensures n <= |s|
  {
    if |s| == 0 then 0
    else if s[0] == d && !quoted then
      if (d == '\'' || d == '"') && |s| > 1 && s[1] == d then 2 + Consumed(s[2..], d, false) else 1
    else 1 + Consumed(s[1..], d, s[0] == '\\' && !quoted)
  }

  class Scanner {
    const input: string
    var pos: nat

    constructor (query: string, at: nat)
      requires at <= |query|
      ensures input == query && pos == at
    {
      input, pos := query, at;
    }

    // `yyinput` and `yyunput` of the generated scanner, on a query without zero bytes.
    method YyInput() returns (r: Read)
      requires pos <= |input|
      modifies this
      ensures pos <= |input|
      ensures if old(pos) < |input| then r == Char(input[old(pos)]) && pos == old(pos) + 1
              else r == Eof && pos == old(pos)
    {
      if pos < |input| {
        r := Char(input[pos]);
        pos := pos + 1;
      } else {
        r := Eof;
      }
    }

    method YyUnput(c: char)
      requires 0 < pos <= |input| && input[pos - 1] == c
      modifies this
      ensures pos == old(pos) - 1
    {
      pos := pos - 1;
    }

    // Whether the delimiter just read ends the literal; a doubled one is taken whole.
    method Closes(delimiter: char) returns (closed: bool)
      requires 0 < pos <= |input|
      modifies this
      ensures closed == !(Quote(delimiter) && old(pos) < |input| && input[old(pos)] == delimiter)
      ensures pos == if closed then old(pos) else old(pos) + 1
    {
      if delimiter == '\'' || delimiter == '"' {
        var n := YyInput();
        if n == Char(delimiter) {
          return false;
        } else if n == Eof {
          return true;
        }
        YyUnput(n.c);
      }
      closed := true;
    }

    /** Entered after the opening delimiter was read; returns the token and its text. */
    method GetQString(delimiter: char) returns (token: Token, str: string)
      requires pos <= |input|
      modifies this
      ensures token == TokenFor(delimiter)
      ensures token == QString <==> delimiter == '\''
      ensures token == DqString <==> delimiter == '"'
      ensures str == LiteralText(input[old(pos)..], delimiter, false)
      ensures pos == old(pos) + Consumed(input[old(pos)..], delimiter, false)
    {
      hide LiteralText, Consumed;
      token := TokenFor(delimiter);
      str := "";
      var quoted := false;
      ghost var whole := LiteralText(input[pos..], delimiter, false);
      ghost var end := pos + Consumed(input[pos..], delimiter, false);
      ghost var at := pos;
      var c := YyInput();
      while c != Eof
        invariant JustRead(input, at, pos, c)
        invariant whole == str + LiteralText(input[at..], delimiter, quoted)
        invariant end == at + Consumed(input[at..], delimiter, quoted)
        decreases |input| - at
      {
        if c.c == delimiter && !quoted {
          var closed := Closes(delimiter);
          if closed {
            ClosingStep(input, at, delimiter, str);
            return;
          }
          DoubledStep(input, at, delimiter, str);
          str := str + [c.c];
          at := at + 2;
          c := YyInput();
          continue;
        }
        PlainStep(input, at, delimiter, quoted, str);
        str := str + [c.c];
        quoted := c.c == '\\' && !quoted;
        at := at + 1;
        c := YyInput();
      }
      EndStep(input, delimiter, quoted, str);
    }
  }

  // `c` is what was read at `at`, just before `pos`.
  predicate JustRead(s: string, at: nat, pos: nat, c: Read) {
    at <= |s| && pos == Least(at + 1, |s|) && c == if at < |s| then Char(s[at]) else Eof
  }

  lemma EndStep(s: string, d: char, quoted: bool, str: string)
    ensures str + LiteralText(s[|s|..], d, quoted) == str && Consumed(s[|s|..], d, quoted) == 0
  {
  }

  lemma PlainStep(s: string, at: nat, d: char, quoted: bool, str: string)
    requires at < |s| && (s[at] != d || quoted)
    ensures var next := s[at] == '\\' && !quoted;
            str + LiteralText(s[at..], d, quoted) == str + [s[at]] + LiteralText(s[at + 1..], d, next) &&
            Consumed(s[at..], d, quoted) == 1 + Consumed(s[at + 1..], d, next)
  {
    assert s[at..][1..] == s[at + 1..];
    Assoc(str, [s[at]], LiteralText(s[at + 1..], d, s[at] == '\\' && !quoted));
  }

  lemma DoubledStep(s: string, at: nat, d: char, str: string)
    requires at + 1 < |s| && s[at] == d == s[at + 1] && Quote(d)
    ensures str + LiteralText(s[at..], d, false) == str + [d] + LiteralText(s[at + 2..], d, false)
    ensures Consumed(s[at..], d, false) == 2 + Consumed(s[at + 2..], d, false)
  {
    assert s[at..][2..] == s[at + 2..];
    Assoc(str, [d], LiteralText(s[at + 2..], d, false));
  }

  lemma ClosingStep(s: string, at: nat, d: char, str: string)
    requires at < |s| && s[at] == d && !(at + 1 < |s| && s[at + 1] == d && Quote(d))
    ensures str + LiteralText(s[at..], d, false) == str && Consumed(s[at..], d, false) == 1
  {
  }

  /** The two searches agree on every text: the lexer takes exactly what the normaliser passes, and
      the closing delimiter; or everything when there is none. */
  lemma {:induction false} SearchesAgree(s: string, d: char, escaped: bool)
    ensures Consumed(s, d, escaped) == Least(CloseAt(s, d, escaped) + 1, |s|)
    decreases |s|
  {
    if |s| > 0 {
      if s[0] == d && !escaped {
        if |s| > 1 {
          SearchesAgree(s[2..], d, false);
        }
      } else {
        SearchesAgree(s[1..], d, !escaped && s[0] == '\\');
      }
    }
  }

  // Both run on one text, from one opening delimiter.
  method BothEnds(q: Query, scanner: Scanner, start: nat, delimiter: char) returns (j: nat)
    requires q.text == scanner.input && start < |q.text| && scanner.pos == start + 1
    modifies scanner
    ensures j == start + 1 + CloseAt(q.text[start + 1..], delimiter, false)
    ensures scanner.pos == Least(j + 1, |q.text|)
    ensures j == |q.text| || q.text[j] == delimiter
  {
    j := q.LookForChar(start, delimiter);
    var _, _ := scanner.GetQString(delimiter);
    SearchesAgree(q.text[start + 1..], delimiter, false);
    CloseAtDelimiter(q.text[start + 1..], delimiter, false);
  }

  lemma {:induction false} CloseAtDelimiter(s: string, d: char, escaped: bool)
    ensures CloseAt(s, d, escaped) < |s| ==> s[CloseAt(s, d, escaped)] == d
    decreases |s|
  {
    if |s| > 0 {
      if s[0] == d && !escaped {
        if |s| > 1 {
          CloseAtDelimiter(s[2..], d, false);
        }
      } else {
        CloseAtDelimiter(s[1..], d, !escaped && s[0] == '\\');
      }
    }
  }

  // ---- what the text means ----

  // A text written as the body of a literal: every unescaped delimiter is doubled.
  function Doubled(b: string, d: char, escaped: bool): string {
    if |b| == 0 then []
    else if b[0] == d && !escaped then [d, d] + Doubled(b[1..], d, false)
    else [b[0]] + Doubled(b[1..], d, !escaped && b[0] == '\\')
  }

  lemma TakeTwo(d: char, p: string, t: string)
    ensures ([d, d] + p + t)[2..] == p + t
  {
  }

  // The rest of a literal whose text is still `b`, written after an open backslash or not.
  lemma {:induction false} DoubledRead(b: string, d: char, escaped: bool, tail: string)
    requires Quote(d) && !EscapedAfter(b, escaped)
    requires |tail| > 0 && tail[0] == d && !(|tail| > 1 && tail[1] == d)
    ensures var s := Doubled(b, d, escaped) + tail;
            LiteralText(s, d, escaped) == b && CloseAt(s, d, escaped) == |s| - |tail|
  {
    var s := Doubled(b, d, escaped) + tail;
    if |b| == 0 {
      assert s == tail;
    } else if b[0] == d && !escaped {
      DoubledRead(b[1..], d, false, tail);
      TakeTwo(d, Doubled(b[1..], d, false), tail);
      assert [d] + b[1..] == b;
    } else {
      var next := !escaped && b[0] == '\\';
      DoubledRead(b[1..], d, next, tail);
      Uncons(Doubled(b, d, escaped), tail);
      assert Doubled(b, d, escaped)[1..] == Doubled(b[1..], d, next);
      assert [b[0]] + b[1..] == b;
    }
  }

  /** Reading inverts doubling, for every text that does not end in an open backslash; so it does
      on all text without backslashes. */
  lemma ReadInvertsDoubling(b: string, d: char, after: string)
    requires Quote(d) && !EscapedAfter(b, false) && !StartsWith(after, d)
    ensures var s := Doubled(b, d, false) + ([d] + after);
            LiteralText(s, d, false) == b && CloseAt(s, d, false) == |Doubled(b, d, false)|
  {
    assert |after| > 0 ==> ([d] + after)[1] == after[0];
    DoubledRead(b, d, false, [d] + after);
  }

  lemma {:induction false} PlainNotEscaped(b: string)
    requires '\\' !in b
    ensures !EscapedAfter(b, false)
  {
    if |b| > 0 {
      PlainNotEscaped(b[1..]);
    }
  }

  /** An unterminated literal is read to the end: its text, doubled delimiters undone. */
  lemma {:induction false} UnterminatedRead(b: string, d: char, escaped: bool)
    requires Quote(d)
    ensures LiteralText(Doubled(b, d, escaped), d, escaped) == b
    ensures Consumed(Doubled(b, d, escaped), d, escaped) == |Doubled(b, d, escaped)|
  {
    if |b| == 0 {
    } else if b[0] == d && !escaped {
      UnterminatedRead(b[1..], d, false);
      TakeTwo(d, Doubled(b[1..], d, false), []);
      var s := Doubled(b, d, escaped);
      assert s[2..] == Doubled(b[1..], d, false);
      assert [d] + b[1..] == b;
    } else {
      var next := !escaped && b[0] == '\\';
      UnterminatedRead(b[1..], d, next);
      assert Doubled(b, d, escaped)[1..] == Doubled(b[1..], d, next);
      assert [b[0]] + b[1..] == b;
    }
  }

  // The delimiter does not occur unescaped.
  predicate Undelimited(b: string, d: char, escaped: bool) {
    |b| == 0 || ((b[0] == d ==> escaped) && Undelimited(b[1..], d, !escaped && b[0] == '\\'))
  }

  /** With any other delimiter, as for a quoted name, the first unescaped one ends the literal,
      doubled or not. */
  lemma {:induction false} NameRead(b: string, d: char, escaped: bool, after: string)
    requires !Quote(d) && Undelimited(b, d, escaped) && !EscapedAfter(b, escaped)
    ensures LiteralText(b + ([d] + after), d, escaped) == b
    ensures Consumed(b + ([d] + after), d, escaped) == |b| + 1
  {
    if |b| == 0 {
      assert b + ([d] + after) == [d] + after;
    } else {
      var next := !escaped && b[0] == '\\';
      Uncons(b, [d] + after);
      NameRead(b[1..], d, next, after);
      assert [b[0]] + b[1..] == b;
    }
  }
}
