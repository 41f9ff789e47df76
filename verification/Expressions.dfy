/** What the SQL parser keeps of an expression: its columns and whether it has a constant. The
    definitions here are over syntax trees; the parser folds the trees into mutable objects. */
module Expressions {
  import Chars = Text

  datatype Kind = Undef | IntegerConst | StringConst

  /** The contents of an `Expression` object. */
  datatype Summary = Summary(fields: set<string>, hasConst: bool, kind: Kind, strLength: nat)

  /** Trees built by the grammar. `op` tells the arithmetic operators, commas and branches apart,
      which all merge their second operand into the first. */
  datatype Tree =
    | Column(name: string)
    | Number(n: int)
    | Text(s: string)
    | Constant
    | Star
    | Merge(op: nat, left: Tree, right: Tree)
    | Call(name: string, args: Tree)
    | First(kept: Tree, dropped: Tree)
    | CaseOf(subject: Tree, cases: Tree)
    | CaseOfElse(subject: Tree, cases: Tree, other: Tree)

  const NOTHING: Summary := Summary({}, false, Undef, 0)
  const FN_TEXT: string := "fn()"

  function WithField(x: Summary, name: string): Summary {
    x.(fields := x.fields + {name})
  }

  function WithText(x: Summary, text: string): Summary {
    match x.kind
    case Undef => x.(hasConst := true, kind := StringConst, strLength := |text|)
    case StringConst => x.(hasConst := true, strLength := x.strLength + |text|)
    case IntegerConst => x.(hasConst := true)
  }

  function WithNumber(x: Summary): Summary {
    x.(hasConst := true, kind := IntegerConst)
  }

  // The kind of constant of the second operand is not taken over.
  function Merged(x: Summary, y: Summary): Summary {
    var longer := if y.hasConst && y.kind == StringConst && y.strLength > x.strLength then y.strLength else x.strLength;
    x.(fields := x.fields + y.fields, hasConst := x.hasConst || y.hasConst, strLength := longer)
  }

  // What the grammar actions leave for a tree.
  function Fold(t: Tree): Summary {
    match t
    case Column(name) => WithField(NOTHING, name)
    case Number(_) => WithNumber(NOTHING)
    case Text(s) => WithText(NOTHING, s)
    case Constant => WithText(NOTHING, FN_TEXT)
    case Star => NOTHING
    case Merge(_, l, r) => Merged(Fold(l), Fold(r))
    case Call(_, args) => Fold(args)
    case First(kept, _) => Fold(kept)
    case CaseOf(subject, _) => Fold(subject)
    case CaseOfElse(subject, _, other) => Merged(Fold(subject), Fold(other))
  }

  // ---- an independent reading of the trees ----

  datatype Leaf = Name(name: string) | Value

  // The leaves that count, without order, grouping, repetition or operators.
  function Leaves(t: Tree): set<Leaf> {
    match t
    case Column(name) => {Name(name)}
    case Number(_) => {Value}
    case Text(_) => {Value}
    case Constant => {Value}
    case Star => {}
    case Merge(_, l, r) => Leaves(l) + Leaves(r)
    case Call(_, args) => Leaves(args)
    case First(kept, _) => Leaves(kept)
    case CaseOf(subject, _) => Leaves(subject)
    case CaseOfElse(subject, _, other) => Leaves(subject) + Leaves(other)
  }

  /** The merged object holds exactly the columns among the leaves, and its flag says whether a
      constant is among them. */
  lemma {:induction false} FoldIsLeaves(t: Tree)
    ensures forall name :: name in Fold(t).fields <==> Name(name) in Leaves(t)
    ensures Fold(t).hasConst <==> Value in Leaves(t)
  {
    match t
    case Merge(_, l, r) =>
      FoldIsLeaves(l);
      FoldIsLeaves(r);
    case Call(_, args) => FoldIsLeaves(args);
    case First(kept, _) => FoldIsLeaves(kept);
    case CaseOf(subject, _) => FoldIsLeaves(subject);
    case CaseOfElse(subject, _, other) =>
      FoldIsLeaves(subject);
      FoldIsLeaves(other);
    case _ =>
  }

  // ---- comparison ----

  // `Comp`: sizes first, then the fields of the first that the second lacks.
  predicate Comp(x: Summary, y: Summary) {
    |x.fields| == |y.fields| &&
    (|x.fields| == 0 || (|x.fields - y.fields| == 0 && x.hasConst == y.hasConst))
  }

  lemma SameSizeSubset(a: set<string>, b: set<string>)
    requires |a| == |b| && a <= b
    ensures a == b
  {
    assert b == a + (b - a);
    assert |b - a| == 0;
    assert b - a == {};
  }

  /** The verdict: equal columns, and either none at all or the same constant flag. */
  lemma CompMeans(x: Summary, y: Summary)
    ensures Comp(x, y) <==> x.fields == y.fields && (x.fields == {} || x.hasConst == y.hasConst)
  {
    if |x.fields| == |y.fields| && |x.fields - y.fields| == 0 {
      assert x.fields - y.fields == {};
      assert forall f :: f in x.fields ==> f in y.fields || f in x.fields - y.fields;
      SameSizeSubset(x.fields, y.fields);
    }
    if |x.fields| == |y.fields| == 0 {
      assert x.fields == {} && y.fields == {};
    }
    if x.fields == y.fields {
      assert x.fields - y.fields == {};
    }
  }

  /** Although computed from one side, it is an equivalence relation. */
  lemma CompIsEquivalence(x: Summary, y: Summary, z: Summary)
    ensures Comp(x, x)
    ensures Comp(x, y) ==> Comp(y, x)
    ensures Comp(x, y) && Comp(y, z) ==> Comp(x, z)
  {
    CompMeans(x, x);
    CompMeans(x, y);
    CompMeans(y, x);
    CompMeans(y, z);
    CompMeans(x, z);
  }

  /** The trees are rearrangements of each other: the same leaves count. */
  predicate Similar(s: Tree, t: Tree) {
    Leaves(s) == Leaves(t)
  }

  /** Reordering, regrouping and repeating operands and changing operators keep the leaves; and so
      does putting a rearrangement in the place of a part, whatever the part is dropped or kept in. */
  lemma Rearrangements(a: Tree, a': Tree, b: Tree, b': Tree, c: Tree, d: Tree, o: nat, p: nat, o': nat, p': nat)
    requires Similar(a, a') && Similar(b, b')
    ensures Similar(Merge(o, a, b), Merge(o', b', a'))
    ensures Similar(Merge(o, a, b), Merge(o', a', b'))
    ensures Similar(Merge(o, Merge(p, a, b), c), Merge(o', a', Merge(p', b', c)))
    ensures Similar(Merge(o, a, a'), a)
    ensures Similar(Merge(o, Merge(p, a, b), b'), Merge(o', b', a'))
    ensures forall name, name' :: Similar(Call(name, a), Call(name', a'))
    ensures Similar(First(a, c), First(a', d)) && Similar(CaseOf(a, c), CaseOf(a', d))
    ensures Similar(CaseOfElse(a, c, b), CaseOfElse(a', d, b'))
  {
  }

  lemma SimilarFold(s: Tree, t: Tree)
    requires Similar(s, t)
    ensures Fold(s).fields == Fold(t).fields && Fold(s).hasConst == Fold(t).hasConst
  {
    FoldIsLeaves(s);
    FoldIsLeaves(t);
    forall name
      ensures name in Fold(s).fields <==> name in Fold(t).fields
    {
    }
  }

  /** An expression compared with a rearrangement of itself is found to be a tautology, and a
      rearrangement changes no comparison with anything else. */
  lemma {:induction false} VerdictIgnoresArrangement(s: Tree, t: Tree, other: Tree)
    requires Similar(s, t)
    ensures Comp(Fold(s), Fold(t))
    ensures Comp(Fold(s), Fold(other)) == Comp(Fold(t), Fold(other))
    ensures Comp(Fold(other), Fold(s)) == Comp(Fold(other), Fold(t))
  {
    SimilarFold(s, t);
    CompMeans(Fold(s), Fold(t));
    CompMeans(Fold(s), Fold(other));
    CompMeans(Fold(t), Fold(other));
    CompMeans(Fold(other), Fold(s));
    CompMeans(Fold(other), Fold(t));
  }

  /** In terms of the trees: the verdict holds exactly when the same columns occur, and either
      none do or a constant occurs in both or in neither. */
  lemma {:induction false} VerdictOnTrees(s: Tree, t: Tree)
    ensures Comp(Fold(s), Fold(t)) <==>
            (forall name :: Name(name) in Leaves(s) <==> Name(name) in Leaves(t)) &&
            ((forall name :: Name(name) !in Leaves(s)) || (Value in Leaves(s) <==> Value in Leaves(t)))
  {
    FoldIsLeaves(s);
    FoldIsLeaves(t);
    CompMeans(Fold(s), Fold(t));
    var x, y := Fold(s).fields, Fold(t).fields;
    assert x == {} <==> forall name :: name !in x;
    assert x == y <==> forall name :: name in x <==> name in y;
  }

  // ---- the other two tests ----

  predicate IsTrue(x: Summary) {
    |x.fields| == 0 && x.hasConst
  }

  // `strcasecmp`
  predicate SameIgnoringCase(a: string, b: string) {
    |a| == |b| && forall i :: 0 <= i < |a| ==> Chars.Lower(a[i]) == Chars.Lower(b[i])
  }

  predicate PasswordColumn(name: string) {
    SameIgnoringCase(name, "pwd") || SameIgnoringCase(name, "pass") || SameIgnoringCase(name, "password")
  }

  predicate IsEmptyPwd(x: Summary, y: Summary) {
    y.kind == StringConst && y.strLength == 0 && |y.fields| == 0 && x.kind == Undef && |x.fields| == 1 &&
    forall name :: name in x.fields ==> PasswordColumn(name)
  }

  // The leaf that a tree begins with.
  function FirstLeaf(t: Tree): Tree {
    match t
    case Merge(_, l, _) => FirstLeaf(l)
    case Call(_, args) => FirstLeaf(args)
    case First(kept, _) => FirstLeaf(kept)
    case CaseOf(subject, _) => FirstLeaf(subject)
    case CaseOfElse(subject, _, _) => FirstLeaf(subject)
    case _ => t
  }

  predicate BeginsWithText(t: Tree) {
    FirstLeaf(t).Text? || FirstLeaf(t).Constant?
  }

  // The texts whose length counts: those of a part that begins with a text, or of the first part.
  function CountedTexts(t: Tree): seq<string> {
    match t
    case Text(s) => [s]
    case Constant => [FN_TEXT]
    case Merge(_, l, r) => CountedTexts(l) + if BeginsWithText(r) then CountedTexts(r) else []
    case Call(_, args) => CountedTexts(args)
    case First(kept, _) => CountedTexts(kept)
    case CaseOf(subject, _) => CountedTexts(subject)
    case CaseOfElse(subject, _, other) =>
      CountedTexts(subject) + if BeginsWithText(other) then CountedTexts(other) else []
    case _ => []
  }

  function Longest(texts: seq<string>): nat {
    if |texts| == 0 then 0
    else
      var rest := Longest(texts[1..]);
      if |texts[0]| > rest then |texts[0]| else rest
  }

  lemma {:induction false} LongestJoin(a: seq<string>, b: seq<string>)
    ensures Longest(a + b) == if Longest(b) > Longest(a) then Longest(b) else Longest(a)
    decreases |a|
  {
    if |a| == 0 {
      assert a + b == b;
    } else {
      assert (a + b)[1..] == a[1..] + b;
      LongestJoin(a[1..], b);
    }
  }

  /** The kind of constant is that of the leaf a tree begins with, and the length is that of the
      longest text that counts. */
  lemma {:induction false} FoldKind(t: Tree)
    ensures Fold(t).kind == match FirstLeaf(t)
                            case Number(_) => IntegerConst
                            case Text(_) => StringConst
                            case Constant => StringConst
                            case _ => Undef
    ensures Fold(t).strLength == Longest(CountedTexts(t))
    ensures BeginsWithText(t) ==> Fold(t).hasConst
  {
    match t
    case Merge(_, l, r) =>
      FoldKind(l);
      FoldKind(r);
      LongestJoin(CountedTexts(l), CountedTexts(r));
      assert CountedTexts(l) + [] == CountedTexts(l);
    case Call(_, args) => FoldKind(args);
    case First(kept, _) => FoldKind(kept);
    case CaseOf(subject, _) => FoldKind(subject);
    case CaseOfElse(subject, _, other) =>
      FoldKind(subject);
      FoldKind(other);
      LongestJoin(CountedTexts(subject), CountedTexts(other));
      assert CountedTexts(subject) + [] == CountedTexts(subject);
    case _ =>
  }

  lemma {:induction false} LongestIsZero(texts: seq<string>)
    ensures Longest(texts) == 0 <==> forall i :: 0 <= i < |texts| ==> texts[i] == ""
  {
    if |texts| > 0 {
      LongestIsZero(texts[1..]);
      assert forall i :: 0 < i < |texts| ==> texts[i] == texts[1..][i - 1];
    }
  }

  // ---- the two tests on trees ----

  /** A condition is true by itself exactly when a constant occurs in it and no column does. */
  lemma {:induction false} IsTrueOnTrees(t: Tree)
    ensures IsTrue(Fold(t)) <==> Value in Leaves(t) && forall name :: Name(name) !in Leaves(t)
  {
    FoldIsLeaves(t);
    assert |Fold(t).fields| == 0 <==> forall name :: name !in Fold(t).fields;
  }

  function Lowered(name: string): string {
    seq(|name|, i requires 0 <= i < |name| => Chars.Lower(name[i]))
  }

  // Which column names stand for a password.
  lemma {:induction false} PasswordNames(name: string)
    ensures PasswordColumn(name) <==> Lowered(name) in {"pwd", "pass", "password"}
  {
    var low := Lowered(name);
    assert SameIgnoringCase(name, "pwd") <==> low == "pwd";
    assert SameIgnoringCase(name, "pass") <==> low == "pass";
    assert SameIgnoringCase(name, "password") <==> low == "password";
  }

  /** One side compared with another counts as an empty password exactly when it begins with a
      column, or a star, and has one column, of one of three names in any case; and the other begins
      with a text, has no column, and all its texts that count are empty. */
  lemma {:induction false} EmptyPwdOnTrees(s: Tree, t: Tree)
    ensures IsEmptyPwd(Fold(s), Fold(t)) <==>
            (FirstLeaf(s).Column? || FirstLeaf(s).Star?) &&
            (exists name :: Fold(s).fields == {name} && Lowered(name) in {"pwd", "pass", "password"}) &&
            BeginsWithText(t) && Fold(t).fields == {} &&
            forall i :: 0 <= i < |CountedTexts(t)| ==> CountedTexts(t)[i] == ""
  {
    FoldKind(s);
    FoldKind(t);
    FirstLeafIsLeaf(s);
    LongestIsZero(CountedTexts(t));
    var fields := Fold(s).fields;
    forall name
      ensures PasswordColumn(name) <==> Lowered(name) in {"pwd", "pass", "password"}
    {
      PasswordNames(name);
    }
    if |fields| == 1 {
      var name :| name in fields;
      assert |fields - {name}| == 0;
      assert fields == {name};
    }
  }

  lemma {:induction false} FirstLeafIsLeaf(t: Tree)
    ensures var leaf := FirstLeaf(t);
            leaf.Column? || leaf.Number? || leaf.Text? || leaf.Constant? || leaf.Star?
  {
    match t
    case Merge(_, l, _) => FirstLeafIsLeaf(l);
    case Call(_, args) => FirstLeafIsLeaf(args);
    case First(kept, _) => FirstLeafIsLeaf(kept);
    case CaseOf(subject, _) => FirstLeafIsLeaf(subject);
    case CaseOfElse(subject, _, _) => FirstLeafIsLeaf(subject);
    case _ =>
  }

  // Texts, merged in any way.
  predicate OnlyTexts(t: Tree) {
    match t
    case Text(_) => true
    case Constant => true
    case Merge(_, l, r) => OnlyTexts(l) && OnlyTexts(r)
    case Call(_, args) => OnlyTexts(args)
    case First(kept, _) => OnlyTexts(kept)
    case _ => false
  }

  predicate Blank(t: Tree)
    requires OnlyTexts(t)
  {
    match t
    case Text(s) => |s| == 0
    case Constant => false
    case Merge(_, l, r) => Blank(l) && Blank(r)
    case Call(_, args) => Blank(args)
    case First(kept, _) => Blank(kept)
  }

  lemma {:induction false} TextsFold(t: Tree)
    requires OnlyTexts(t)
    ensures var x := Fold(t);
            x.fields == {} && x.hasConst && x.kind == StringConst && (x.strLength == 0 <==> Blank(t))
  {
    match t
    case Merge(_, l, r) =>
      TextsFold(l);
      TextsFold(r);
    case Call(_, args) => TextsFold(args);
    case First(kept, _) => TextsFold(kept);
    case _ =>
  }

  /** A column compared with texts is reported as an empty password exactly when it has one of the
      three names, in any case, and every text is empty. */
  lemma {:induction false} EmptyPwdExactlyWhen(name: string, t: Tree)
    requires OnlyTexts(t)
    ensures IsEmptyPwd(Fold(Column(name)), Fold(t)) <==> Lowered(name) in {"pwd", "pass", "password"} && Blank(t)
    ensures !Comp(Fold(Column(name)), Fold(t))
  {
    TextsFold(t);
    PasswordNames(name);
    assert Fold(Column(name)).fields == {name};
  }
}
