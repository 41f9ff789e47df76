/** The part of `std::string` the normaliser relies on, the character classes it tests,
    and a size measure that every rewriting step lowers. */
module Text {

  // Whether the platform's `char` is unsigned. With a signed `char` the source's comparison
  // with 0xA0 never succeeds. The constant is left open: every result holds either way.
  const CHAR_IS_UNSIGNED: bool

  predicate SqlSpace(c: char) {
    c == ' ' || '\t' <= c <= '\r' || (CHAR_IS_UNSIGNED && c == '\U{A0}')
  }

  predicate AllSpace(s: string) {
    |s| == 0 || (SqlSpace(s[0]) && AllSpace(s[1..]))
  }

  predicate Digit(c: char) {
    '0' <= c <= '9'
  }

  predicate Quote(c: char) {
    c == '\'' || c == '"'
  }

  predicate Newline(c: char) {
    c == '\r' || c == '\n'
  }

  // `s[i]` of a `std::string`: the position just past the end reads as the zero byte.
  function At(s: string, i: nat): char
    requires i <= |s|
  {
    if i < |s| then s[i] else '\0'
  }

  function Least(a: nat, b: nat): nat {
    if a < b then a else b
  }

  // `s.erase(pos, n)`: the count is clipped at the end, the position must exist.
  function Erased(s: string, pos: nat, n: nat): string
    requires pos <= |s|
  {
    s[..pos] + s[Least(pos + n, |s|)..]
  }

  // Taking the first character off a concatenation, and putting it back.
  lemma Uncons(p: string, t: string)
    requires |p| > 0
    ensures (p + t)[0] == p[0] && (p + t)[1..] == p[1..] + t && p + t == [p[0]] + (p[1..] + t)
  {
  }

  lemma Assoc<T>(a: seq<T>, b: seq<T>, c: seq<T>)
    ensures a + b + c == a + (b + c)
  {
  }

  // What a character costs. Each pass either erases characters or swaps a character for a
  // cheaper one: a space for anything, a question mark for a quote or a digit.
  function CharWeight(c: char): nat {
    if c == ' ' then 1 else if Quote(c) || Digit(c) then 3 else 2
  }

  function Weight(s: string): nat {
    if |s| == 0 then 0 else CharWeight(s[0]) + Weight(s[1..])
  }

  lemma WeightCons(c: char, t: string)
    ensures Weight([c] + t) == CharWeight(c) + Weight(t)
  {
    assert ([c] + t)[1..] == t;
  }

  lemma {:induction false} WeightSplit(s: string, k: nat)
    requires k <= |s|
    ensures Weight(s) == Weight(s[..k]) + Weight(s[k..])
  {
    if k > 0 {
      WeightSplit(s[1..], k - 1);
      assert s[1..][..k - 1] == s[..k][1..];
      assert s[1..][k - 1..] == s[k..];
    } else {
      assert s[k..] == s;
    }
  }

  lemma {:induction false} WeightPositive(s: string)
    ensures |s| <= Weight(s)
  {
    if |s| > 0 {
      WeightPositive(s[1..]);
    }
  }

  lemma WeightSuffix(s: string, k: nat)
    requires k <= |s|
    ensures Weight(s[k..]) <= Weight(s) && (k > 0 ==> Weight(s[k..]) < Weight(s))
  {
    WeightSplit(s, k);
    WeightPositive(s[..k]);
  }

  // Dropping a non-empty prefix lowers the weight.
  lemma WeightDrop(s: string, k: nat)
    requires 0 < k <= |s|
    ensures Weight(s[k..]) + CharWeight(s[0]) <= Weight(s)
  {
    WeightSplit(s, k);
    assert s[..k][0] == s[0];
  }

  // `tolower` in the C locale.
  function Lower(c: char): char {
    if 'A' <= c <= 'Z' then c - 'A' + 'a' else c
  }
}
