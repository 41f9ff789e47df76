/** The character classes, by the codes the source compares with. */
module Characters {
  import opened Text
  import opened Numbers
  import opened Spaces
  import opened Signs

  // Horizontal tab to carriage return, and space; and 160 where `char` is unsigned.
  predicate SpaceCode(k: int) {
    9 <= k <= 13 || k == 32 || (CHAR_IS_UNSIGNED && k == 160)
  }

  // ! % & ( * + , - / < = > ^ | ~
  predicate OperatorCode(k: int) {
    k in [33, 37, 38, 40, 42, 43, 44, 45, 47, 60, 61, 62, 94, 124, 126]
  }

  /** Every class the passes test, for every character. */
  lemma {:induction false} ClassesByCode(c: char)
    ensures SqlSpace(c) <==> SpaceCode(c as int)
    ensures Separator(c) <==> SpaceCode(c as int) || OperatorCode(c as int)
    ensures Digit(c) <==> 48 <= c as int <= 57
    ensures HexDigit(c) <==> 48 <= c as int <= 57 || 97 <= c as int <= 102
    ensures Quote(c) <==> c as int == 34 || c as int == 39
    ensures Newline(c) <==> c as int == 10 || c as int == 13
    ensures Opens(c) <==> c as int == 40 || c as int == 44
    ensures Closes(c) <==> c as int == 41 || c as int == 44
    ensures Delimiter(c) <==> c as int == 32 || c as int == 40 || c as int == 44
  {
  }
}
