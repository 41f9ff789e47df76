/** Whole parses: the reductions of a tree in bottom-up order leave that tree, and a comparison is
    found to be a tautology exactly when its two sides say so. */
module ParseTrees {
  import opened Expressions
  import opened Parser

  // The flags after building a tree: only CASE with a subject compares.
  function NotedIn(p: Parse, t: Tree): Parse
    decreases t
  {
    match t
    case Merge(_, l, r) => NotedIn(NotedIn(p, l), r)
    case Call(_, args) => NotedIn(p, args)
    case First(kept, dropped) => NotedIn(NotedIn(p, kept), dropped)
    case CaseOf(subject, cases) => Noted(NotedIn(NotedIn(p, subject), cases), Fold(subject), Fold(cases))
    case CaseOfElse(subject, cases, other) =>
      var built := NotedIn(NotedIn(NotedIn(p, subject), cases), other);
      Noted(Noted(built, Fold(subject), Fold(cases)), Fold(subject), Fold(other))
    case _ => p
  }

  /** Some CASE in the tree compares its subject with an equal. */
  predicate TautologyIn(t: Tree) {
    match t
    case Merge(_, l, r) => TautologyIn(l) || TautologyIn(r)
    case Call(_, args) => TautologyIn(args)
    case First(kept, dropped) => TautologyIn(kept) || TautologyIn(dropped)
    case CaseOf(subject, cases) => TautologyIn(subject) || TautologyIn(cases) || Comp(Fold(subject), Fold(cases))
    case CaseOfElse(subject, cases, other) =>
      TautologyIn(subject) || TautologyIn(cases) || TautologyIn(other) ||
      Comp(Fold(subject), Fold(cases)) || Comp(Fold(subject), Fold(other))
    case _ => false
  }

  predicate PwdHit(x: Summary, y: Summary) {
    !Comp(x, y) && IsEmptyPwd(x, y)
  }

  /** Some CASE in the tree compares a password column with an empty text. */
  predicate EmptyPwdIn(t: Tree) {
    match t
    case Merge(_, l, r) => EmptyPwdIn(l) || EmptyPwdIn(r)
    case Call(_, args) => EmptyPwdIn(args)
    case First(kept, dropped) => EmptyPwdIn(kept) || EmptyPwdIn(dropped)
    case CaseOf(subject, cases) => EmptyPwdIn(subject) || EmptyPwdIn(cases) || PwdHit(Fold(subject), Fold(cases))
    case CaseOfElse(subject, cases, other) =>
      EmptyPwdIn(subject) || EmptyPwdIn(cases) || EmptyPwdIn(other) ||
      PwdHit(Fold(subject), Fold(cases)) || PwdHit(Fold(subject), Fold(other))
    case _ => false
  }

  lemma {:induction false} NotedFlags(p: Parse, t: Tree)
    ensures NotedIn(p, t).items == p.items
    ensures NotedIn(p, t).tautology <==> p.tautology || TautologyIn(t)
    ensures NotedIn(p, t).emptyPwd <==> p.emptyPwd || EmptyPwdIn(t)
    decreases t
  {
    hide Comp, IsEmptyPwd, Fold;
    match t
    case Merge(_, l, r) =>
      NotedFlags(p, l);
      NotedFlags(NotedIn(p, l), r);
    case Call(_, args) => NotedFlags(p, args);
    case First(kept, dropped) =>
      NotedFlags(p, kept);
      NotedFlags(NotedIn(p, kept), dropped);
    case CaseOf(subject, cases) =>
      NotedFlags(p, subject);
      NotedFlags(NotedIn(p, subject), cases);
    case CaseOfElse(subject, cases, other) =>
      NotedFlags(p, subject);
      NotedFlags(NotedIn(p, subject), cases);
      NotedFlags(NotedIn(NotedIn(p, subject), cases), other);
    case _ =>
  }

  // The stack has no influence on the flags.
  lemma {:induction false} PushedNoted(p: Parse, item: Item, t: Tree)
    ensures NotedIn(Pushed(p, item), t) == Pushed(NotedIn(p, t), item)
  {
    hide Comp, IsEmptyPwd, Fold;
    NotedFlags(p, t);
    NotedFlags(Pushed(p, item), t);
  }

  // The shifts and reductions of a tree, bottom-up and from left to right, before `rest`.
  function Build(t: Tree, rest: seq<Action>): seq<Action> {
    match t
    case Column(name) => [Shift(name), FieldOf(false)] + rest
    case Number(n) => [NumberOf(n)] + rest
    case Text(s) => [Shift(s), TextOf] + rest
    case Constant => [Shift(FN_TEXT), EmptyCall] + rest
    case Star => [AllColumns] + rest
    case Merge(op, l, r) => Build(l, Build(r, [MergeTwo(op)] + rest))
    case Call(name, args) => [Shift(name)] + Build(args, [CallOf] + rest)
    case First(kept, dropped) => Build(kept, Build(dropped, [KeepFirst] + rest))
    case CaseOf(subject, cases) => Build(subject, Build(cases, [CaseSubject] + rest))
    case CaseOfElse(subject, cases, other) =>
      Build(subject, Build(cases, Build(other, [CaseSubjectElse] + rest)))
  }

  function Pushed(p: Parse, item: Item): Parse {
    p.(items := p.items + [item])
  }

  // Going on from `q` is the same as doing `actions` from `p`.
  predicate Continues(p: Parse, actions: seq<Action>, q: Parse, rest: seq<Action>) {
    Legal(p, actions) == Legal(q, rest) && (Legal(q, rest) ==> ActAll(p, actions) == ActAll(q, rest))
  }

  lemma OneAction(p: Parse, a: Action, q: Parse, rest: seq<Action>)
    requires Applicable(p.items, a) && Act(p, a) == q
    ensures Continues(p, [a] + rest, q, rest)
  {
    hide Applicable, Act;
    assert ([a] + rest)[0] == a && ([a] + rest)[1..] == rest;
  }

  lemma ActOnTwo(p: Parse, l: Tree, r: Tree)
    ensures var q := Pushed(Pushed(p, ExpItem(l)), ExpItem(r));
            ExpsOnTop(q.items, 2) && TreeAt(q.items, 1) == l && TreeAt(q.items, 0) == r &&
            q.items[..|q.items| - 2] == p.items
  {
    var s := (p.items + [ExpItem(l)]) + [ExpItem(r)];
    assert s[|p.items|] == ExpItem(l);
    assert s[..|s| - 2] == p.items;
  }

  lemma ActOnName(p: Parse, text: string)
    ensures var q := Pushed(p, StrItem(text));
            |q.items| >= 1 && Top(q.items, 0) == StrItem(text) && q.items[..|q.items| - 1] == p.items
  {
  }

  lemma ActOnCall(p: Parse, name: string, args: Tree)
    ensures var q := Pushed(Pushed(p, StrItem(name)), ExpItem(args));
            |q.items| >= 2 && Top(q.items, 1) == StrItem(name) && Top(q.items, 0) == ExpItem(args) &&
            q.items[..|q.items| - 2] == p.items
  {
    var s := (p.items + [StrItem(name)]) + [ExpItem(args)];
    assert s[..|s| - 2] == p.items;
  }

  lemma ShiftPushes(p: Parse, text: string, rest: seq<Action>)
    ensures Continues(p, [Shift(text)] + rest, Pushed(p, StrItem(text)), rest)
  {
    assert p.items[..|p.items|] == p.items;
    OneAction(p, Shift(text), Pushed(p, StrItem(text)), rest);
  }

  // A name, and the reduction that makes a leaf of it.
  lemma NamedLeaf(p: Parse, text: string, a: Action, leaf: Tree, rest: seq<Action>)
    requires (a == FieldOf(false) && leaf == Column(text)) || (a == TextOf && leaf == Text(text)) ||
             (a == EmptyCall && leaf == Constant)
    ensures Continues(p, [Shift(text), a] + rest, Pushed(p, ExpItem(leaf)), rest)
  {
    hide Continues;
    var q := Pushed(p, StrItem(text));
    ShiftPushes(p, text, [a] + rest);
    ActOnName(p, text);
    OneAction(q, a, Pushed(p, ExpItem(leaf)), rest);
    assert [Shift(text), a] + rest == [Shift(text)] + ([a] + rest);
    Chain(p, [Shift(text), a] + rest, q, [a] + rest, Pushed(p, ExpItem(leaf)), rest);
  }

  lemma Chain(p: Parse, x: seq<Action>, q: Parse, y: seq<Action>, r: Parse, z: seq<Action>)
    requires Continues(p, x, q, y) && Continues(q, y, r, z)
    ensures Continues(p, x, r, z)
  {
    hide Legal, ActAll;
  }

  lemma ActOnThree(p: Parse, a: Tree, b: Tree, c: Tree)
    ensures var q := Pushed(Pushed(Pushed(p, ExpItem(a)), ExpItem(b)), ExpItem(c));
            ExpsOnTop(q.items, 3) && TreeAt(q.items, 2) == a && TreeAt(q.items, 1) == b && TreeAt(q.items, 0) == c &&
            q.items[..|q.items| - 3] == p.items
  {
    var s := ((p.items + [ExpItem(a)]) + [ExpItem(b)]) + [ExpItem(c)];
    assert s[|p.items|] == ExpItem(a) && s[|p.items| + 1] == ExpItem(b);
    assert s[..|s| - 3] == p.items;
  }

  // What the reductions of a tree lead to.
  function Built(p: Parse, t: Tree): Parse {
    Pushed(NotedIn(p, t), ExpItem(t))
  }

  /** The reductions of a tree replace nothing that was there, push the tree, and set the flags its
      comparisons call for. */
  lemma {:induction false} BuildPushes(p: Parse, t: Tree, rest: seq<Action>)
    ensures Continues(p, Build(t, rest), Built(p, t), rest)
    decreases t, 2
  {
    hide Continues, Legal, ActAll, Comp, IsEmptyPwd, Fold;
    match t
    case Column(name) => NamedLeaf(p, name, FieldOf(false), t, rest);
    case Text(s) => NamedLeaf(p, s, TextOf, t, rest);
    case Constant => NamedLeaf(p, FN_TEXT, EmptyCall, t, rest);
    case Number(n) =>
      assert p.items[..|p.items|] == p.items;
      OneAction(p, NumberOf(n), Built(p, t), rest);
    case Star =>
      assert p.items[..|p.items|] == p.items;
      OneAction(p, AllColumns, Built(p, t), rest);
    case Merge(op, l, r) => BuildPair(p, t, l, r, MergeTwo(op), rest);
    case First(kept, dropped) => BuildPair(p, t, kept, dropped, KeepFirst, rest);
    case CaseOf(subject, cases) => BuildPair(p, t, subject, cases, CaseSubject, rest);
    case CaseOfElse(subject, cases, other) => BuildThree(p, t, subject, cases, other, rest);
    case Call(name, args) =>
      var q := Pushed(p, StrItem(name));
      var next := [CallOf] + rest;
      ShiftPushes(p, name, Build(args, next));
      BuildPushes(q, args, next);
      PushedNoted(p, StrItem(name), args);
      ActOnCall(NotedIn(p, args), name, args);
      OneAction(Built(q, args), CallOf, Built(p, t), rest);
      Chain(q, Build(args, next), Built(q, args), next, Built(p, t), rest);
      Chain(p, Build(t, rest), q, Build(args, next), Built(p, t), rest);
  }

  // Two parts of a tree are built one after the other.
  lemma {:induction false} BuildTwo(p: Parse, t: Tree, l: Tree, r: Tree, rest: seq<Action>)
    requires l < t && r < t
    ensures var both := NotedIn(NotedIn(p, l), r);
            Continues(p, Build(l, Build(r, rest)), Pushed(Pushed(both, ExpItem(l)), ExpItem(r)), rest)
    decreases t, 0
  {
    hide Continues, Legal, ActAll, Build, NotedIn;
    var pl := Built(p, l);
    BuildPushes(p, l, Build(r, rest));
    BuildPushes(pl, r, rest);
    PushedNoted(NotedIn(p, l), ExpItem(l), r);
    Chain(p, Build(l, Build(r, rest)), pl, Build(r, rest), Built(pl, r), rest);
  }

  lemma {:induction false} BuildPair(p: Parse, t: Tree, l: Tree, r: Tree, a: Action, rest: seq<Action>)
    requires l < t && r < t
    requires (a == KeepFirst && t == First(l, r)) || (a.MergeTwo? && t == Merge(a.op, l, r)) ||
             (a == CaseSubject && t == CaseOf(l, r))
    ensures Continues(p, Build(l, Build(r, [a] + rest)), Built(p, t), rest)
    decreases t, 1
  {
    hide Continues, Legal, ActAll, Build, Noted, Fold;
    var both := NotedIn(NotedIn(p, l), r);
    var pr := Pushed(Pushed(both, ExpItem(l)), ExpItem(r));
    BuildTwo(p, t, l, r, [a] + rest);
    ActOnTwo(both, l, r);
    NotedOn(both, pr, Fold(l), Fold(r));
    OneAction(pr, a, Built(p, t), rest);
    Chain(p, Build(l, Build(r, [a] + rest)), pr, [a] + rest, Built(p, t), rest);
  }

  // Two states that differ in their stacks only take note alike.
  lemma NotedOn(p: Parse, q: Parse, x: Summary, y: Summary)
    requires p == q.(items := p.items)
    ensures Noted(p, x, y) == Noted(q, x, y).(items := p.items) && Noted(q, x, y).items == q.items
  {
  }

  lemma {:induction false} BuildThree(p: Parse, t: Tree, a: Tree, b: Tree, c: Tree, rest: seq<Action>)
    requires t == CaseOfElse(a, b, c)
    ensures Continues(p, Build(a, Build(b, Build(c, [CaseSubjectElse] + rest))), Built(p, t), rest)
    decreases t, 1
  {
    hide Continues, Legal, ActAll, Build, Noted, Fold;
    var next := [CaseSubjectElse] + rest;
    var two := NotedIn(NotedIn(p, a), b);
    var all := NotedIn(two, c);
    var p2 := Pushed(Pushed(two, ExpItem(a)), ExpItem(b));
    var p3 := Pushed(Pushed(Pushed(all, ExpItem(a)), ExpItem(b)), ExpItem(c));
    BuildTwo(p, t, a, b, Build(c, next));
    BuildPushes(p2, c, next);
    PushedNoted(two, ExpItem(a), c);
    PushedNoted(Pushed(two, ExpItem(a)), ExpItem(b), c);
    Chain(p, Build(a, Build(b, Build(c, next))), p2, Build(c, next), p3, next);
    ActOnThree(all, a, b, c);
    NotedOn(all, p3, Fold(a), Fold(b));
    NotedOn(Noted(all, Fold(a), Fold(b)), Noted(p3, Fold(a), Fold(b)), Fold(a), Fold(c));
    OneAction(p3, CaseSubjectElse, Built(p, t), rest);
    Chain(p, Build(a, Build(b, Build(c, next))), p3, next, Built(p, t), rest);
  }

  /** A parsed comparison is reported exactly when the same columns occur on both sides, and either
      none do or a constant occurs on both sides or on neither; or when a CASE inside is. */
  lemma {:induction false} ComparisonVerdict(s: Tree, t: Tree)
    ensures var actions := Build(s, Build(t, [Compare]));
            Legal(START, actions) &&
            (ActAll(START, actions).tautology <==>
             ((forall name :: Name(name) in Leaves(s) <==> Name(name) in Leaves(t)) &&
              ((forall name :: Name(name) !in Leaves(s)) || (Value in Leaves(s) <==> Value in Leaves(t)))) ||
             TautologyIn(s) || TautologyIn(t))
  {
    VerdictOnTrees(s, t);
    hide Comp, Fold, IsEmptyPwd, Leaves, TautologyIn;
    ComparisonFlags(s, t);
  }

  /** A parsed comparison of a column with texts raises the other flag exactly when the column is a
      password and every text is empty, or a CASE inside raises it. */
  lemma {:induction false} EmptyPasswordVerdict(name: string, t: Tree)
    requires OnlyTexts(t)
    ensures var actions := Build(Column(name), Build(t, [Compare]));
            Legal(START, actions) &&
            (ActAll(START, actions).emptyPwd <==>
             (Lowered(name) in {"pwd", "pass", "password"} && Blank(t)) || EmptyPwdIn(t)) &&
            (ActAll(START, actions).tautology <==> TautologyIn(t))
  {
    EmptyPwdExactlyWhen(name, t);
    hide Comp, Fold, IsEmptyPwd, OnlyTexts, Lowered;
    ComparisonFlags(Column(name), t);
  }

  // The two sides say of themselves that they are equal.
  ghost predicate SameSides(s: Tree, t: Tree) {
    (forall name :: Name(name) in Leaves(s) <==> Name(name) in Leaves(t)) &&
    ((forall name :: Name(name) !in Leaves(s)) || (Value in Leaves(s) <==> Value in Leaves(t)))
  }

  /** A parsed condition without a comparison, as in `where 1`, is reported exactly when it has a
      constant and no column, or when a CASE inside is; no password is. */
  lemma {:induction false} ConditionVerdict(t: Tree)
    ensures var actions := Build(t, [Condition]);
            Legal(START, actions) &&
            (ActAll(START, actions).tautology <==>
             (Value in Leaves(t) && forall name :: Name(name) !in Leaves(t)) || TautologyIn(t)) &&
            (ActAll(START, actions).emptyPwd <==> EmptyPwdIn(t))
  {
    IsTrueOnTrees(t);
    hide Build, Legal, ActAll, Comp, Fold, IsEmptyPwd, Leaves, IsTrue;
    var p := NotedIn(START, t);
    BuildPushes(START, t, [Condition]);
    NotedFlags(START, t);
    ConditionEnds(p, t);
  }

  lemma ConditionEnds(p: Parse, t: Tree)
    ensures Legal(Pushed(p, ExpItem(t)), [Condition])
    ensures ActAll(Pushed(p, ExpItem(t)), [Condition]) == p.(tautology := p.tautology || IsTrue(Fold(t)))
  {
    hide Fold, IsTrue;
    assert [Condition][1..] == [];
    assert (p.items + [ExpItem(t)])[..|p.items|] == p.items;
  }

  /** Three trees, built one after the other, before an action on all of them. */
  lemma {:induction false} BuildAllThree(a: Tree, b: Tree, c: Tree, rest: seq<Action>)
    ensures var all := NotedIn(NotedIn(NotedIn(START, a), b), c);
            Continues(START, Build(a, Build(b, Build(c, rest))),
                      Pushed(Pushed(Pushed(all, ExpItem(a)), ExpItem(b)), ExpItem(c)), rest)
  {
    hide Continues, Legal, ActAll, Build;
    var two := NotedIn(NotedIn(START, a), b);
    var p2 := Pushed(Pushed(two, ExpItem(a)), ExpItem(b));
    BuildTwo(START, Merge(0, a, b), a, b, Build(c, rest));
    BuildPushes(p2, c, rest);
    PushedNoted(two, ExpItem(a), c);
    PushedNoted(Pushed(two, ExpItem(a)), ExpItem(b), c);
    Chain(START, Build(a, Build(b, Build(c, rest))), p2, Build(c, rest), Built(p2, c), rest);
  }

  /** `a BETWEEN b AND c` is reported exactly when a says the same as b or as c, or a CASE inside is;
      and as an empty password when either of the two comparisons is one and is no tautology. */
  lemma {:induction false} RangeVerdict(a: Tree, b: Tree, c: Tree)
    ensures var actions := Build(a, Build(b, Build(c, [CompareRange])));
            Legal(START, actions) &&
            (ActAll(START, actions).tautology <==>
             SameSides(a, b) || SameSides(a, c) || TautologyIn(a) || TautologyIn(b) || TautologyIn(c)) &&
            (ActAll(START, actions).emptyPwd <==>
             PwdHit(Fold(a), Fold(b)) || PwdHit(Fold(a), Fold(c)) ||
             EmptyPwdIn(a) || EmptyPwdIn(b) || EmptyPwdIn(c))
  {
    VerdictOnTrees(a, b);
    VerdictOnTrees(a, c);
    hide Build, Legal, ActAll, Comp, Fold, IsEmptyPwd, Leaves;
    var all := NotedIn(NotedIn(NotedIn(START, a), b), c);
    BuildAllThree(a, b, c, [CompareRange]);
    NotedFlags(START, a);
    NotedFlags(NotedIn(START, a), b);
    NotedFlags(NotedIn(NotedIn(START, a), b), c);
    ActOnThree(all, a, b, c);
    RangeEnds(Pushed(Pushed(Pushed(all, ExpItem(a)), ExpItem(b)), ExpItem(c)), a, b, c);
  }

  lemma RangeEnds(p: Parse, a: Tree, b: Tree, c: Tree)
    requires ExpsOnTop(p.items, 3) && TreeAt(p.items, 2) == a && TreeAt(p.items, 1) == b && TreeAt(p.items, 0) == c
    ensures Legal(p, [CompareRange])
    ensures ActAll(p, [CompareRange]).tautology <==> p.tautology || Comp(Fold(a), Fold(b)) || Comp(Fold(a), Fold(c))
    ensures ActAll(p, [CompareRange]).emptyPwd <==>
            p.emptyPwd || PwdHit(Fold(a), Fold(b)) || PwdHit(Fold(a), Fold(c))
  {
    hide Comp, Fold, IsEmptyPwd;
    assert [CompareRange][1..] == [];
  }

  /** A chain of two comparisons is always reported. */
  lemma {:induction false} ChainVerdict(a: Tree, b: Tree, c: Tree)
    ensures var actions := Build(a, Build(b, Build(c, [CompareChain])));
            Legal(START, actions) && ActAll(START, actions).tautology &&
            (ActAll(START, actions).emptyPwd <==> EmptyPwdIn(a) || EmptyPwdIn(b) || EmptyPwdIn(c))
  {
    hide Build, Legal, ActAll, Comp, Fold, IsEmptyPwd;
    var all := NotedIn(NotedIn(NotedIn(START, a), b), c);
    BuildAllThree(a, b, c, [CompareChain]);
    NotedFlags(START, a);
    NotedFlags(NotedIn(START, a), b);
    NotedFlags(NotedIn(NotedIn(START, a), b), c);
    ActOnThree(all, a, b, c);
    ChainEnds(Pushed(Pushed(Pushed(all, ExpItem(a)), ExpItem(b)), ExpItem(c)));
  }

  lemma ChainEnds(p: Parse)
    requires ExpsOnTop(p.items, 3)
    ensures Legal(p, [CompareChain]) && ActAll(p, [CompareChain]).tautology
    ensures ActAll(p, [CompareChain]).emptyPwd == p.emptyPwd
  {
    assert [CompareChain][1..] == [];
  }

  /** A name with another in front stands for the column of the second; one that is known as a
      constant stands for a constant. */
  lemma {:induction false} NamesRead(p: Parse, schema: string, name: string)
    ensures var q := Pushed(Pushed(p, StrItem(schema)), StrItem(name));
            Legal(q, [Qualify, FieldOf(false)]) &&
            ActAll(q, [Qualify, FieldOf(false)]) == Pushed(p, ExpItem(Column(name)))
    ensures var q := Pushed(p, StrItem(name));
            Legal(q, [FieldOf(true)]) && ActAll(q, [FieldOf(true)]) == Pushed(p, ExpItem(Constant))
  {
    var s := (p.items + [StrItem(schema)]) + [StrItem(name)];
    var q := p.(items := p.items + [StrItem(name)]);
    assert s[..|s| - 2] == p.items && s[|s| - 2] == StrItem(schema);
    assert Act(p.(items := s), Qualify) == q;
    assert q.items[..|p.items|] == p.items;
    assert [Qualify, FieldOf(false)][1..] == [FieldOf(false)] && [FieldOf(false)][1..] == [];
    assert [FieldOf(true)][1..] == [];
  }

  // The flags after a comparison of two trees.
  lemma ComparisonFlags(s: Tree, t: Tree)
    ensures var actions := Build(s, Build(t, [Compare]));
            Legal(START, actions) &&
            (ActAll(START, actions).tautology <==> TautologyIn(s) || TautologyIn(t) || Comp(Fold(s), Fold(t))) &&
            (ActAll(START, actions).emptyPwd <==> EmptyPwdIn(s) || EmptyPwdIn(t) || PwdHit(Fold(s), Fold(t)))
  {
    hide Build, Legal, ActAll, Comp, Fold, IsEmptyPwd;
    var both := NotedIn(NotedIn(START, s), t);
    var q := Pushed(Pushed(both, ExpItem(s)), ExpItem(t));
    BuildTwo(START, Merge(0, s, t), s, t, [Compare]);
    NotedFlags(START, s);
    NotedFlags(NotedIn(START, s), t);
    ActOnTwo(both, s, t);
    CompareEnds(q, s, t);
  }

  lemma CompareEnds(p: Parse, s: Tree, t: Tree)
    requires ExpsOnTop(p.items, 2) && TreeAt(p.items, 1) == s && TreeAt(p.items, 0) == t
    ensures Legal(p, [Compare])
    ensures ActAll(p, [Compare]).tautology <==> p.tautology || Comp(Fold(s), Fold(t))
    ensures ActAll(p, [Compare]).emptyPwd <==> p.emptyPwd || PwdHit(Fold(s), Fold(t))
  {
    hide Comp, Fold, IsEmptyPwd;
    assert [Compare][1..] == [];
  }
}
