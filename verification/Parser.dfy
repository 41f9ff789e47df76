/** The semantic side of the SQL parser: objects that register themselves in a list, reductions
    that merge an operand into another and delete it, and the clean-up after a parse. */
module Parser {
  import opened Expressions

  // ---- std::list, with its nodes told apart by a number ----

  datatype Node<T> = Node(id: nat, obj: T)

  datatype List<T> = List(nodes: seq<Node<T>>, next: nat)

  function PushFront<T>(l: List<T>, obj: T): List<T> {
    List([Node(l.next, obj)] + l.nodes, l.next + 1)
  }

  // Erasing the node an iterator denotes.
  function WithoutNode<T>(nodes: seq<Node<T>>, id: nat): seq<Node<T>> {
    if |nodes| == 0 then []
    else if nodes[0].id == id then nodes[1..]
    else [nodes[0]] + WithoutNode(nodes[1..], id)
  }

  function Erase<T>(l: List<T>, id: nat): List<T> {
    l.(nodes := WithoutNode(l.nodes, id))
  }

  ghost predicate Distinct<T>(nodes: seq<Node<T>>) {
    forall i, j :: 0 <= i < j < |nodes| ==> nodes[i].id != nodes[j].id
  }

  lemma {:induction false} EraseKeeps<T>(nodes: seq<Node<T>>, id: nat, m: Node<T>)
    requires Distinct(nodes)
    ensures m in WithoutNode(nodes, id) <==> m in nodes && m.id != id
  {
    if |nodes| > 0 {
      DistinctUncons(nodes);
      EraseKeeps(nodes[1..], id, m);
    }
  }

  lemma {:induction false} EraseDistinct<T>(nodes: seq<Node<T>>, id: nat)
    requires Distinct(nodes)
    ensures Distinct(WithoutNode(nodes, id))
  {
    if |nodes| > 0 {
      var first, tail := nodes[0], nodes[1..];
      DistinctUncons(nodes);
      EraseDistinct(tail, id);
      var rest := WithoutNode(tail, id);
      forall m | m in rest
        ensures m.id != first.id
      {
        EraseKeeps(tail, id, m);
      }
      DistinctCons(first, rest);
    }
  }

  /** Erasing removes the one node with the number and no other. */
  lemma EraseRemoves<T>(nodes: seq<Node<T>>, id: nat)
    requires Distinct(nodes)
    ensures Distinct(WithoutNode(nodes, id))
    ensures forall n :: n in WithoutNode(nodes, id) <==> n in nodes && n.id != id
  {
    EraseDistinct(nodes, id);
    forall n: Node<T>
      ensures n in WithoutNode(nodes, id) <==> n in nodes && n.id != id
    {
      EraseKeeps(nodes, id, n);
    }
  }

  lemma DistinctUncons<T>(nodes: seq<Node<T>>)
    requires Distinct(nodes) && |nodes| > 0
    ensures Distinct(nodes[1..])
    ensures forall m :: m in nodes[1..] ==> m.id != nodes[0].id
    ensures forall m :: m in nodes <==> m == nodes[0] || m in nodes[1..]
  {
    var tail := nodes[1..];
    assert nodes == [nodes[0]] + tail;
    assert forall i :: 0 <= i < |tail| ==> tail[i] == nodes[i + 1];
  }

  lemma DistinctCons<T>(n: Node<T>, rest: seq<Node<T>>)
    requires Distinct(rest) && forall m :: m in rest ==> m.id != n.id
    ensures Distinct([n] + rest)
    ensures forall m :: m in [n] + rest <==> m == n || m in rest
  {
    var all := [n] + rest;
    forall i, j | 0 <= i < j < |all|
      ensures all[i].id != all[j].id
    {
      assert all[j] == rest[j - 1] && all[j] in rest;
      assert i > 0 ==> all[i] == rest[i - 1];
    }
  }

  class SqlString {
    const text: string
    const itr: nat

    constructor (text: string, itr: nat)
      ensures this.text == text && this.itr == itr
    {
      this.text, this.itr := text, itr;
    }
  }

  class Expression {
    var fields: set<string>
    var hasConst: bool
    var kind: Kind
    var strLength: nat
    const itr: nat

    constructor (itr: nat)
      ensures Contents() == NOTHING && this.itr == itr
    {
      fields, hasConst, kind, strLength := {}, false, Undef, 0;
      this.itr := itr;
    }

    function Contents(): Summary
      reads this
    {
      Summary(fields, hasConst, kind, strLength)
    }

    method CompareTo(xp2: Expression) returns (same: bool)
      ensures same == Comp(Contents(), xp2.Contents())
    {
      if |fields| != |xp2.fields| {
        return false;
      }
      if |fields| == 0 {
        return true;
      }
      var result := fields - xp2.fields;
      if |result| == 0 {
        if hasConst == xp2.hasConst {
          return true;
        }
      }
      same := false;
    }
  }

  // ---- what is on the parser's stack ----

  datatype Value = StrVal(s: SqlString) | ExpVal(e: Expression)

  datatype Item = StrItem(text: string) | ExpItem(tree: Tree)

  datatype Action =
    | Shift(text: string)               // a name or a quoted string
    | Qualify                           // name . name
    | FieldOf(trueConstant: bool)       // a column, or an identifier known as a constant
    | NumberOf(n: int)
    | TextOf                            // a quoted string as a value
    | EmptyCall                         // name ( )
    | AllColumns                        // *
    | MergeTwo(op: nat)                 // $$->Add($3)
    | CallOf                            // name ( args )
    | KeepFirst                         // WHEN a THEN b; a IN ( b )
    | CaseSubject                       // CASE a cases END
    | CaseSubjectElse                   // CASE a cases ELSE b END
    | Condition                         // an expression as a condition
    | Compare                           // a = b
    | CompareRange                      // a BETWEEN b AND c
    | CompareChain                      // a = b = c
    | Drop                              // a value no action reads: an alias, a table, a SET or a failed parse

  /** The stack and the sticky flags of one parse. */
  datatype Parse = Parse(items: seq<Item>, tautology: bool, emptyPwd: bool)

  predicate ExpsOnTop(items: seq<Item>, n: nat) {
    n <= |items| && forall i :: |items| - n <= i < |items| ==> items[i].ExpItem?
  }

  // The handle of the reduction is on top of the stack.
  predicate Applicable(items: seq<Item>, a: Action) {
    match a
    case Shift(_) => true
    case NumberOf(_) => true
    case AllColumns => true
    case Qualify => |items| >= 2 && items[|items| - 1].StrItem? && items[|items| - 2].StrItem?
    case FieldOf(_) => |items| >= 1 && items[|items| - 1].StrItem?
    case TextOf => |items| >= 1 && items[|items| - 1].StrItem?
    case EmptyCall => |items| >= 1 && items[|items| - 1].StrItem?
    case MergeTwo(_) => ExpsOnTop(items, 2)
    case CallOf => |items| >= 2 && items[|items| - 1].ExpItem? && items[|items| - 2].StrItem?
    case KeepFirst => ExpsOnTop(items, 2)
    case CaseSubject => ExpsOnTop(items, 2)
    case CaseSubjectElse => ExpsOnTop(items, 3)
    case Condition => ExpsOnTop(items, 1)
    case Compare => ExpsOnTop(items, 2)
    case CompareRange => ExpsOnTop(items, 3)
    case CompareChain => ExpsOnTop(items, 3)
    case Drop => |items| >= 1
  }

  function Top(items: seq<Item>, k: nat): Item
    requires k < |items|
  {
    items[|items| - 1 - k]
  }

  function TreeAt(items: seq<Item>, k: nat): Tree
    requires k < |items| && Top(items, k).ExpItem?
  {
    Top(items, k).tree
  }

  function Replace(items: seq<Item>, n: nat, item: Item): seq<Item>
    requires n <= |items|
  {
    items[..|items| - n] + [item]
  }

  // `cmp_fn` on the flags.
  function Noted(p: Parse, x: Summary, y: Summary): Parse {
    if Comp(x, y) then p.(tautology := true)
    else if IsEmptyPwd(x, y) then p.(emptyPwd := true)
    else p
  }

  function Act(p: Parse, a: Action): Parse
    requires Applicable(p.items, a)
  {
    var s := p.items;
    match a
    case Shift(text) => p.(items := Replace(s, 0, StrItem(text)))
    case Qualify => p.(items := Replace(s, 2, Top(s, 0)))
    case FieldOf(trueConstant) =>
      p.(items := Replace(s, 1, ExpItem(if trueConstant then Constant else Column(Top(s, 0).text))))
    case NumberOf(n) => p.(items := Replace(s, 0, ExpItem(Number(n))))
    case TextOf => p.(items := Replace(s, 1, ExpItem(Text(Top(s, 0).text))))
    case EmptyCall => p.(items := Replace(s, 1, ExpItem(Constant)))
    case AllColumns => p.(items := Replace(s, 0, ExpItem(Star)))
    case MergeTwo(op) => p.(items := Replace(s, 2, ExpItem(Merge(op, TreeAt(s, 1), TreeAt(s, 0)))))
    case CallOf => p.(items := Replace(s, 2, ExpItem(Call(Top(s, 1).text, TreeAt(s, 0)))))
    case KeepFirst => p.(items := Replace(s, 2, ExpItem(First(TreeAt(s, 1), TreeAt(s, 0)))))
    case CaseSubject =>
      Noted(p, Fold(TreeAt(s, 1)), Fold(TreeAt(s, 0))).(
        items := Replace(s, 2, ExpItem(CaseOf(TreeAt(s, 1), TreeAt(s, 0)))))
    case CaseSubjectElse =>
      Noted(Noted(p, Fold(TreeAt(s, 2)), Fold(TreeAt(s, 1))), Fold(TreeAt(s, 2)), Fold(TreeAt(s, 0))).(
        items := Replace(s, 3, ExpItem(CaseOfElse(TreeAt(s, 2), TreeAt(s, 1), TreeAt(s, 0)))))
    case Condition =>
      p.(tautology := p.tautology || IsTrue(Fold(TreeAt(s, 0))), items := s[..|s| - 1])
    case Compare => Noted(p, Fold(TreeAt(s, 1)), Fold(TreeAt(s, 0))).(items := s[..|s| - 2])
    case CompareRange =>
      Noted(Noted(p, Fold(TreeAt(s, 2)), Fold(TreeAt(s, 1))), Fold(TreeAt(s, 2)), Fold(TreeAt(s, 0))).(
        items := s[..|s| - 3])
    case CompareChain => p.(tautology := true, items := s[..|s| - 3])
    case Drop => p.(items := s[..|s| - 1])
  }

  // Each action finds its handle on the stack. The sequence may end anywhere.
  predicate Legal(p: Parse, actions: seq<Action>)
    decreases |actions|
  {
    |actions| > 0 ==> Applicable(p.items, actions[0]) && Legal(Act(p, actions[0]), actions[1..])
  }

  function ActAll(p: Parse, actions: seq<Action>): Parse
    requires Legal(p, actions)
    decreases |actions|
  {
    if |actions| == 0 then p else ActAll(Act(p, actions[0]), actions[1..])
  }

  const START: Parse := Parse([], false, false)

  lemma FlagSticks(p: Parse, a: Action)
    requires Applicable(p.items, a)
    ensures p.tautology ==> Act(p, a).tautology
    ensures p.emptyPwd ==> Act(p, a).emptyPwd
  {
    hide Comp, IsEmptyPwd, Fold, IsTrue;
  }

  /** A flag that was set stays set to the end of the parse. */
  lemma {:induction false} FlagsStick(p: Parse, actions: seq<Action>)
    requires Legal(p, actions)
    ensures p.tautology ==> ActAll(p, actions).tautology
    ensures p.emptyPwd ==> ActAll(p, actions).emptyPwd
    decreases |actions|
  {
    hide Act, Applicable;
    if |actions| > 0 {
      FlagSticks(p, actions[0]);
      FlagsStick(Act(p, actions[0]), actions[1..]);
    }
  }

  /** Comparing an expression with a rearrangement of itself makes the whole parse a tautology. */
  lemma {:induction false} RearrangedComparison(p: Parse, actions: seq<Action>)
    requires Legal(p, actions) && |actions| > 0 && actions[0] == Compare
    requires Similar(TreeAt(p.items, 1), TreeAt(p.items, 0))
    ensures ActAll(p, actions).tautology
  {
    VerdictIgnoresArrangement(TreeAt(p.items, 1), TreeAt(p.items, 0), Star);
    FlagsStick(Act(p, Compare), actions[1..]);
  }

  // ---- the parser with its two registries ----

  class SqlParser {
    var expressions: List<Expression>
    var sqlStrings: List<SqlString>
    var stack: seq<Value>
    var tautology: bool
    var emptyPwd: bool
    ghost var items: seq<Item>
    ghost var madeExprs: set<Expression>
    ghost var madeStrs: set<SqlString>
    ghost var deletedExprs: set<Expression>
    ghost var deletedStrs: set<SqlString>

    constructor ()
      ensures Valid() && items == [] && expressions.nodes == [] && sqlStrings.nodes == []
    {
      expressions, sqlStrings := List([], 0), List([], 0);
      stack, items, tautology, emptyPwd := [], [], false, false;
      madeExprs, madeStrs, deletedExprs, deletedStrs := {}, {}, {}, {};
    }

    ghost function Exprs(): set<Expression>
      reads this
    {
      set n | n in expressions.nodes :: n.obj
    }

    ghost function Strs(): set<SqlString>
      reads this
    {
      set n | n in sqlStrings.nodes :: n.obj
    }

    /** Every live object's iterator denotes its own node, and every object made is either live or
        deleted, not both. */
    ghost predicate Registered()
      reads this
    {
      Distinct(expressions.nodes) && Distinct(sqlStrings.nodes) &&
      (forall n :: n in expressions.nodes ==> n.obj.itr == n.id < expressions.next) &&
      (forall n :: n in sqlStrings.nodes ==> n.obj.itr == n.id < sqlStrings.next) &&
      deletedExprs !! Exprs() && madeExprs == deletedExprs + Exprs() &&
      deletedStrs !! Strs() && madeStrs == deletedStrs + Strs()
    }

    ghost predicate Represents(v: Value, item: Item)
      reads this, Exprs()
    {
      match v
      case StrVal(s) => item.StrItem? && s in Strs() && s.text == item.text
      case ExpVal(e) => item.ExpItem? && e in Exprs() && e.Contents() == Fold(item.tree)
    }

    /** The stack holds live objects, each once, and each folded as its tree says. */
    ghost predicate Valid()
      reads this, Exprs()
    {
      Registered() && |stack| == |items| &&
      (forall i :: 0 <= i < |stack| ==> Represents(stack[i], items[i])) &&
      (forall i, j :: 0 <= i < j < |stack| ==> stack[i] != stack[j])
    }

    ghost function Abs(): Parse
      reads this
    {
      Parse(items, tautology, emptyPwd)
    }

    // ---- construction and deletion ----

    method NewExpression() returns (e: Expression)
      requires Valid()
      modifies this`expressions, this`madeExprs
      ensures Valid() && fresh(e) && e in Exprs() && Exprs() == old(Exprs()) + {e} && e.Contents() == NOTHING
    {
      e := new Expression(expressions.next);
      ghost var nodes := expressions.nodes;
      expressions := PushFront(expressions, e);
      madeExprs := madeExprs + {e};
      DistinctCons(Node(e.itr, e), nodes);
    }

    method NewString(text: string) returns (s: SqlString)
      requires Valid()
      modifies this`sqlStrings, this`madeStrs
      ensures Valid() && fresh(s) && s in Strs() && Strs() == old(Strs()) + {s} && s.text == text
    {
      s := new SqlString(text, sqlStrings.next);
      ghost var nodes := sqlStrings.nodes;
      sqlStrings := PushFront(sqlStrings, s);
      madeStrs := madeStrs + {s};
      DistinctCons(Node(s.itr, s), nodes);
    }

    method DeleteExpression(e: Expression)
      requires Valid() && e in Exprs() && ExpVal(e) !in stack
      modifies this`expressions, this`deletedExprs
      ensures Valid() && Exprs() == old(Exprs()) - {e} && deletedExprs == old(deletedExprs) + {e}
      ensures |expressions.nodes| < |old(expressions.nodes)|
    {
      ghost var nodes := expressions.nodes;
      EraseRemoves(nodes, e.itr);
      EraseShortens(nodes, Node(e.itr, e));
      expressions := Erase(expressions, e.itr);
      deletedExprs := deletedExprs + {e};
      assert forall x :: x in Exprs() <==> x in old(Exprs()) && x != e;
      assert forall i :: 0 <= i < |stack| ==> stack[i] in stack;
    }

    method DeleteString(s: SqlString)
      requires Valid() && s in Strs() && StrVal(s) !in stack
      modifies this`sqlStrings, this`deletedStrs
      ensures Valid() && Strs() == old(Strs()) - {s} && deletedStrs == old(deletedStrs) + {s}
      ensures |sqlStrings.nodes| < |old(sqlStrings.nodes)|
    {
      ghost var nodes := sqlStrings.nodes;
      EraseRemoves(nodes, s.itr);
      EraseShortens(nodes, Node(s.itr, s));
      sqlStrings := Erase(sqlStrings, s.itr);
      deletedStrs := deletedStrs + {s};
      assert forall x :: x in Strs() <==> x in old(Strs()) && x != s;
      assert forall i :: 0 <= i < |stack| ==> stack[i] in stack;
    }

    // ---- members of Expression that consume their argument ----

    method AddField(e: Expression, s: SqlString)
      requires Valid() && e in Exprs() && s in Strs() && ExpVal(e) !in stack && StrVal(s) !in stack
      modifies this`sqlStrings, this`deletedStrs, e
      ensures Valid() && Strs() == old(Strs()) - {s}
      ensures e.Contents() == WithField(old(e.Contents()), s.text)
    {
      e.fields := e.fields + {s.text};
      StackUntouched(e);
      DeleteString(s);
    }

    method AddConstText(e: Expression, s: SqlString)
      requires Valid() && e in Exprs() && s in Strs() && ExpVal(e) !in stack && StrVal(s) !in stack
      modifies this`sqlStrings, this`deletedStrs, e
      ensures Valid() && Strs() == old(Strs()) - {s}
      ensures e.Contents() == WithText(old(e.Contents()), s.text)
    {
      e.hasConst := true;
      if e.kind == Undef {
        e.kind := StringConst;
        e.strLength := |s.text|;
      } else if e.kind == StringConst {
        e.strLength := e.strLength + |s.text|;
      }
      StackUntouched(e);
      DeleteString(s);
    }

    method AddConstNumber(e: Expression)
      requires Valid() && e in Exprs() && ExpVal(e) !in stack
      modifies e
      ensures Valid() && e.Contents() == WithNumber(old(e.Contents()))
    {
      e.hasConst := true;
      e.kind := IntegerConst;
      StackUntouched(e);
    }

    method Add(e: Expression, xp2: Expression)
      requires Valid() && e in Exprs() && xp2 in Exprs() && e != xp2 && ExpVal(e) !in stack && ExpVal(xp2) !in stack
      modifies this`expressions, this`deletedExprs, e
      ensures Valid() && Exprs() == old(Exprs()) - {xp2}
      ensures e.Contents() == Merged(old(e.Contents()), old(xp2.Contents()))
    {
      e.fields := e.fields + xp2.fields;
      if xp2.hasConst {
        e.hasConst := true;
        if xp2.kind == StringConst {
          e.strLength := if e.strLength > xp2.strLength then e.strLength else xp2.strLength;
        }
      }
      StackUntouched(e);
      DeleteExpression(xp2);
    }

    // An object off the stack was changed.
    twostate lemma StackUntouched(e: Expression)
      requires old(Valid()) && ExpVal(e) !in stack
      requires unchanged(this) && forall x :: x in Exprs() && x != e ==> x.Contents() == old(x.Contents())
      ensures Valid()
    {
      forall i | 0 <= i < |stack|
        ensures Represents(stack[i], items[i])
      {
        assert stack[i] in stack;
        assert old(Represents(stack[i], items[i]));
      }
    }

    // ---- the stack ----

    method PopExp() returns (e: Expression)
      requires Valid() && ExpsOnTop(items, 1)
      modifies this`stack, this`items
      ensures Valid() && items == old(items)[..|old(items)| - 1] && stack == old(stack)[..|old(stack)| - 1]
      ensures e in Exprs() && ExpVal(e) == old(stack)[|old(stack)| - 1] && ExpVal(e) !in stack
      ensures e.Contents() == Fold(old(TreeAt(items, 0)))
    {
      var n := |stack| - 1;
      assert Represents(stack[n], items[n]);
      e := stack[n].e;
      stack, items := stack[..n], items[..n];
    }

    method PopStr() returns (s: SqlString)
      requires Valid() && |items| > 0 && Top(items, 0).StrItem?
      modifies this`stack, this`items
      ensures Valid() && items == old(items)[..|old(items)| - 1] && stack == old(stack)[..|old(stack)| - 1]
      ensures s in Strs() && StrVal(s) == old(stack)[|old(stack)| - 1] && StrVal(s) !in stack
      ensures s.text == old(Top(items, 0)).text
    {
      var n := |stack| - 1;
      assert Represents(stack[n], items[n]);
      s := stack[n].s;
      stack, items := stack[..n], items[..n];
    }

    method Push(v: Value, ghost item: Item)
      requires Valid() && v !in stack && Represents(v, item)
      modifies this`stack, this`items
      ensures Valid() && items == old(items) + [item] && stack == old(stack) + [v]
    {
      assert forall i :: 0 <= i < |stack| ==> stack[i] in stack;
      stack, items := stack + [v], items + [item];
    }

    // Pushes an expression that stands for a tree.
    method PushBack(e: Expression, ghost t: Tree)
      requires Valid() && e in Exprs() && ExpVal(e) !in stack && e.Contents() == Fold(t)
      modifies this`stack, this`items
      ensures Valid() && items == old(items) + [ExpItem(t)]
    {
      hide Fold;
      Push(ExpVal(e), ExpItem(t));
    }

    method CmpFn(xp1: Expression, xp2: Expression)
      requires Valid()
      modifies this`tautology, this`emptyPwd
      ensures Valid() && Exprs() == old(Exprs())
      ensures Abs() == Noted(old(Abs()), xp1.Contents(), xp2.Contents())
    {
      var same := xp1.CompareTo(xp2);
      if same {
        tautology := true;
      } else if IsEmptyPwd(xp1.Contents(), xp2.Contents()) {
        emptyPwd := true;
      }
    }

    method CmpBoth(xp: Expression, xp1: Expression, xp2: Expression)
      requires Valid()
      modifies this`tautology, this`emptyPwd
      ensures Valid() && Exprs() == old(Exprs())
      ensures Abs() == Noted(Noted(old(Abs()), xp.Contents(), xp1.Contents()), xp.Contents(), xp2.Contents())
    {
      hide Valid, Noted;
      CmpFn(xp, xp1);
      CmpFn(xp, xp2);
    }

    // The two, or three, operands on top of the stack, in order.
    method PopTwo() returns (l: Expression, r: Expression)
      requires Valid() && ExpsOnTop(items, 2)
      modifies this`stack, this`items
      ensures Valid() && items == old(items)[..|old(items)| - 2]
      ensures l in Exprs() && r in Exprs() && l != r && ExpVal(l) !in stack && ExpVal(r) !in stack
      ensures l.Contents() == Fold(old(TreeAt(items, 1))) && r.Contents() == Fold(old(TreeAt(items, 0)))
    {
      hide Fold;
      ghost var was := stack;
      r := PopExp();
      l := PopExp();
      assert was[|was| - 1] != was[|was| - 2];
    }

    method PopThree() returns (a: Expression, b: Expression, c: Expression)
      requires Valid() && ExpsOnTop(items, 3)
      modifies this`stack, this`items
      ensures Valid() && items == old(items)[..|old(items)| - 3]
      ensures a in Exprs() && b in Exprs() && c in Exprs() && a != c
      ensures ExpVal(a) !in stack && ExpVal(b) !in stack && ExpVal(c) !in stack
      ensures a.Contents() == Fold(old(TreeAt(items, 2))) && b.Contents() == Fold(old(TreeAt(items, 1)))
      ensures c.Contents() == Fold(old(TreeAt(items, 0)))
    {
      hide Fold;
      ghost var was := stack;
      c := PopExp();
      b := PopExp();
      a := PopExp();
      assert was[|was| - 1] != was[|was| - 3];
    }

    // ---- reductions ----

    /** One shift or reduction: the operands are taken off the stack, merged or left to the
        registries, and the result is pushed. */
    method Perform(a: Action)
      requires Valid() && Applicable(items, a)
      modifies this, Exprs()
      ensures Valid() && Abs() == Act(old(Abs()), a)
      ensures fresh(Exprs() - old(Exprs()))
    {
      hide Act, Valid;
      match a
      case Shift(text) => ShiftName(text);
      case Qualify => ReduceQualified();
      case FieldOf(trueConstant) => ReduceField(trueConstant);
      case NumberOf(n) => ReduceNumber(n);
      case TextOf => ReduceText();
      case EmptyCall => ReduceEmptyCall();
      case AllColumns => ReduceStar();
      case MergeTwo(op) => ReduceMerge(op);
      case CallOf => ReduceCall();
      case KeepFirst => ReduceFirst();
      case CaseSubject => ReduceCase();
      case CaseSubjectElse => ReduceCaseElse();
      case Condition => ReduceCondition();
      case Compare => ReduceCompare();
      case CompareRange => ReduceRange();
      case CompareChain => ReduceChain();
      case Drop => ReduceDrop();
    }

    method ShiftName(text: string)
      requires Valid()
      modifies this
      ensures Valid() && Abs() == Act(old(Abs()), Shift(text)) && Exprs() == old(Exprs())
    {
      var s := NewString(text);
      Push(StrVal(s), StrItem(text));
    }

    // name . name: the first is left to the registry
    method ReduceQualified()
      requires Valid() && Applicable(items, Qualify)
      modifies this
      ensures Valid() && Abs() == Act(old(Abs()), Qualify) && Exprs() == old(Exprs())
    {
      var s := PopStr();
      var _ := PopStr();
      Push(StrVal(s), StrItem(s.text));
    }

    method ReduceField(trueConstant: bool)
      requires Valid() && Applicable(items, FieldOf(trueConstant))
      modifies this
      ensures Valid() && Abs() == Act(old(Abs()), FieldOf(trueConstant))
      ensures fresh(Exprs() - old(Exprs()))
    {
      hide Valid, Fold;
      var s := PopStr();
      if trueConstant {
        // the name itself is left to the registry
        PushConstant();
      } else {
        PushColumn(s);
      }
    }

    method ReduceNumber(n: int)
      requires Valid()
      modifies this
      ensures Valid() && Abs() == Act(old(Abs()), NumberOf(n)) && fresh(Exprs() - old(Exprs()))
    {
      var e := NewExpression();
      AddConstNumber(e);
      Push(ExpVal(e), ExpItem(Number(n)));
    }

    method ReduceText()
      requires Valid() && Applicable(items, TextOf)
      modifies this
      ensures Valid() && Abs() == Act(old(Abs()), TextOf) && fresh(Exprs() - old(Exprs()))
    {
      hide Valid, Fold;
      var s := PopStr();
      PushText(s, Text(s.text));
    }

    method ReduceEmptyCall()
      requires Valid() && Applicable(items, EmptyCall)
      modifies this
      ensures Valid() && Abs() == Act(old(Abs()), EmptyCall) && fresh(Exprs() - old(Exprs()))
    {
      var _ := PopStr();
      PushConstant();
    }

    method PushConstant()
      requires Valid()
      modifies this`stack, this`items, this`expressions, this`madeExprs
      modifies this`sqlStrings, this`madeStrs, this`deletedStrs
      ensures Valid() && items == old(items) + [ExpItem(Constant)]
      ensures fresh(Exprs() - old(Exprs()))
    {
      var s := NewString(FN_TEXT);
      assert Fold(Constant) == Fold(Text(FN_TEXT));
      hide Valid, Fold;
      PushText(s, Constant);
    }

    // An expression with the text as its constant.
    method PushText(s: SqlString, ghost t: Tree)
      requires Valid() && s in Strs() && StrVal(s) !in stack && Fold(t) == Fold(Text(s.text))
      modifies this`stack, this`items, this`expressions, this`madeExprs, this`sqlStrings, this`deletedStrs
      ensures Valid() && items == old(items) + [ExpItem(t)] && fresh(Exprs() - old(Exprs()))
    {
      var e := NewExpression();
      AddConstText(e, s);
      Push(ExpVal(e), ExpItem(t));
    }

    method PushColumn(s: SqlString)
      requires Valid() && s in Strs() && StrVal(s) !in stack
      modifies this`stack, this`items, this`expressions, this`madeExprs, this`sqlStrings, this`deletedStrs
      ensures Valid() && items == old(items) + [ExpItem(Column(s.text))] && fresh(Exprs() - old(Exprs()))
    {
      var e := NewExpression();
      AddField(e, s);
      Push(ExpVal(e), ExpItem(Column(s.text)));
    }

    method ReduceStar()
      requires Valid()
      modifies this
      ensures Valid() && Abs() == Act(old(Abs()), AllColumns) && fresh(Exprs() - old(Exprs()))
    {
      var e := NewExpression();
      Push(ExpVal(e), ExpItem(Star));
    }

    method ReduceMerge(op: nat)
      requires Valid() && Applicable(items, MergeTwo(op))
      modifies this, Exprs()
      ensures Valid() && Abs() == Act(old(Abs()), MergeTwo(op)) && Exprs() <= old(Exprs())
    {
      ghost var l, r := TreeAt(items, 1), TreeAt(items, 0);
      var e, xp2 := PopTwo();
      AddAndPush(e, xp2, ExpItem(Merge(op, l, r)));
    }

    method ReduceCall()
      requires Valid() && Applicable(items, CallOf)
      modifies this
      ensures Valid() && Abs() == Act(old(Abs()), CallOf) && Exprs() == old(Exprs())
    {
      ghost var args := TreeAt(items, 0);
      var e, name := PopCall();
      assert Fold(Call(name.text, args)) == Fold(args);
      hide Fold;
      Push(ExpVal(e), ExpItem(Call(name.text, args)));
    }

    method PopCall() returns (e: Expression, name: SqlString)
      requires Valid() && Applicable(items, CallOf)
      modifies this`stack, this`items
      ensures Valid() && items == old(items)[..|old(items)| - 2]
      ensures e in Exprs() && ExpVal(e) !in stack && e.Contents() == Fold(old(TreeAt(items, 0)))
      ensures name.text == old(Top(items, 1)).text
    {
      hide Fold;
      e := PopExp();
      name := PopStr();
    }

    method ReduceFirst()
      requires Valid() && Applicable(items, KeepFirst)
      modifies this
      ensures Valid() && Abs() == Act(old(Abs()), KeepFirst) && Exprs() == old(Exprs())
    {
      hide Valid;
      ghost var l, r := TreeAt(items, 1), TreeAt(items, 0);
      assert Fold(First(l, r)) == Fold(l);
      var e, _ := PopTwo();
      PushBack(e, First(l, r));
    }

    method ReduceCase()
      requires Valid() && Applicable(items, CaseSubject)
      modifies this
      ensures Valid() && Abs() == Act(old(Abs()), CaseSubject) && Exprs() == old(Exprs())
    {
      hide Valid, Comp, IsEmptyPwd;
      ghost var l, r := TreeAt(items, 1), TreeAt(items, 0);
      var e, cases := PopTwo();
      CmpFn(e, cases);
      Push(ExpVal(e), ExpItem(CaseOf(l, r)));
    }

    method ReduceCaseElse()
      requires Valid() && Applicable(items, CaseSubjectElse)
      modifies this, Exprs()
      ensures Valid() && Abs() == Act(old(Abs()), CaseSubjectElse) && Exprs() <= old(Exprs())
    {
      hide Valid, Noted, Merged;
      ghost var subject, cases, other := TreeAt(items, 2), TreeAt(items, 1), TreeAt(items, 0);
      assert Fold(CaseOfElse(subject, cases, other)) == Merged(Fold(subject), Fold(other));
      hide Fold;
      var e, xp5 := CompareCases();
      AddAndPush(e, xp5, ExpItem(CaseOfElse(subject, cases, other)));
    }

    // Takes the subject, the cases and the alternative off the stack and compares the first with
    // the other two.
    method CompareCases() returns (e: Expression, xp5: Expression)
      requires Valid() && ExpsOnTop(items, 3)
      modifies this`stack, this`items, this`tautology, this`emptyPwd
      ensures Valid() && Exprs() == old(Exprs()) && items == old(items)[..|old(items)| - 3]
      ensures e in Exprs() && xp5 in Exprs() && e != xp5 && ExpVal(e) !in stack && ExpVal(xp5) !in stack
      ensures e.Contents() == Fold(old(TreeAt(items, 2))) && xp5.Contents() == Fold(old(TreeAt(items, 0)))
      ensures var x, y, z := Fold(old(TreeAt(items, 2))), Fold(old(TreeAt(items, 1))), Fold(old(TreeAt(items, 0)));
              Abs().(items := old(items)) == Noted(Noted(old(Abs()), x, y), x, z).(items := old(items))
    {
      hide Valid, Fold, Comp, IsEmptyPwd;
      var xp3;
      e, xp3, xp5 := PopThree();
      CmpBoth(e, xp3, xp5);
    }

    // The tail of a merging reduction.
    method AddAndPush(e: Expression, xp2: Expression, ghost item: Item)
      requires Valid() && e in Exprs() && xp2 in Exprs() && e != xp2 && ExpVal(e) !in stack && ExpVal(xp2) !in stack
      requires item.ExpItem? && Fold(item.tree) == Merged(e.Contents(), xp2.Contents())
      modifies this`expressions, this`deletedExprs, this`stack, this`items, e
      ensures Valid() && items == old(items) + [item] && Exprs() <= old(Exprs())
    {
      hide Fold, Merged;
      Add(e, xp2);
      Push(ExpVal(e), item);
    }

    method ReduceCondition()
      requires Valid() && Applicable(items, Condition)
      modifies this
      ensures Valid() && Abs() == Act(old(Abs()), Condition) && Exprs() == old(Exprs())
    {
      var e := PopExp();
      if |e.fields| == 0 && e.hasConst {
        tautology := true;
      }
    }

    method ReduceCompare()
      requires Valid() && Applicable(items, Compare)
      modifies this
      ensures Valid() && Abs() == Act(old(Abs()), Compare) && Exprs() == old(Exprs())
    {
      hide Valid, Comp, IsEmptyPwd, Fold;
      var xp1, xp2 := PopTwo();
      CmpFn(xp1, xp2);
    }

    method ReduceRange()
      requires Valid() && Applicable(items, CompareRange)
      modifies this
      ensures Valid() && Abs() == Act(old(Abs()), CompareRange) && Exprs() == old(Exprs())
    {
      hide Valid, Comp, IsEmptyPwd, Fold;
      var xp, low, high := PopThree();
      CmpBoth(xp, low, high);
    }

    method ReduceChain()
      requires Valid() && Applicable(items, CompareChain)
      modifies this
      ensures Valid() && Abs() == Act(old(Abs()), CompareChain) && Exprs() == old(Exprs())
    {
      hide Fold;
      var _, _, _ := PopThree();
      tautology := true;
    }

    // The object stays in its registry.
    method ReduceDrop()
      requires Valid() && Applicable(items, Drop)
      modifies this
      ensures Valid() && Abs() == Act(old(Abs()), Drop) && Exprs() == old(Exprs())
    {
      stack, items := stack[..|stack| - 1], items[..|items| - 1];
    }

    // ---- a whole parse ----

    method FreeSqlStrings()
      requires Valid() && stack == []
      modifies this`sqlStrings, this`deletedStrs
      ensures Valid() && sqlStrings.nodes == []
      ensures deletedStrs == old(deletedStrs) + old(Strs())
    {
      while |sqlStrings.nodes| != 0
        invariant Valid() && stack == []
        invariant deletedStrs + Strs() == old(deletedStrs) + old(Strs())
        decreases |sqlStrings.nodes|
      {
        var s := sqlStrings.nodes[0].obj;
        assert sqlStrings.nodes[0] in sqlStrings.nodes;
        DeleteString(s);
      }
    }

    method FreeExpressions()
      requires Valid() && stack == []
      modifies this`expressions, this`deletedExprs
      ensures Valid() && expressions.nodes == []
      ensures deletedExprs == old(deletedExprs) + old(Exprs())
    {
      while |expressions.nodes| != 0
        invariant Valid() && stack == []
        invariant deletedExprs + Exprs() == old(deletedExprs) + old(Exprs())
        decreases |expressions.nodes|
      {
        var e := expressions.nodes[0].obj;
        assert expressions.nodes[0] in expressions.nodes;
        DeleteExpression(e);
      }
    }

    // The shifts and reductions, one after the other.
    method PerformAll(actions: seq<Action>)
      requires Valid() && Legal(Abs(), actions)
      modifies this, Exprs()
      ensures Valid() && Abs() == ActAll(old(Abs()), actions)
      ensures fresh(Exprs() - old(Exprs()))
    {
      hide Valid, Act, Applicable;
      ghost var p := Abs();
      var k := 0;
      assert actions[0..] == actions;
      while k < |actions|
        invariant k <= |actions| && Valid() && fresh(Exprs() - old(Exprs()))
        invariant Legal(Abs(), actions[k..])
        invariant ActAll(Abs(), actions[k..]) == ActAll(p, actions)
      {
        assert actions[k..][0] == actions[k] && actions[k..][1..] == actions[k + 1..];
        Perform(actions[k]);
        k := k + 1;
      }
    }

    // What is still on the stack stays in its registry.
    method LeaveStack()
      requires Valid()
      modifies this`stack, this`items
      ensures Valid() && stack == [] && items == []
    {
      stack, items := [], [];
    }

    lemma EverythingDeleted()
      requires Valid() && expressions.nodes == [] && sqlStrings.nodes == []
      ensures deletedExprs == madeExprs && deletedStrs == madeStrs
    {
      assert Exprs() == {} && Strs() == {};
    }

    /** A parse that may stop anywhere. Every object it made is deleted exactly once, and the flags
        are those of the trees. */
    method QueryParse(actions: seq<Action>)
      requires Valid() && stack == [] && Legal(START, actions)
      modifies this, Exprs()
      ensures Valid() && expressions.nodes == [] && sqlStrings.nodes == []
      ensures deletedExprs == madeExprs && deletedStrs == madeStrs
      ensures Abs() == ActAll(START, actions).(items := [])
    {
      tautology, emptyPwd := false, false;
      hide Legal, ActAll;
      PerformAll(actions);
      hide Valid;
      LeaveStack();
      FreeSqlStrings();
      FreeExpressions();
      EverythingDeleted();
    }
  }

  lemma {:induction false} EraseShortens<T>(nodes: seq<Node<T>>, n: Node<T>)
    requires n in nodes
    ensures |WithoutNode(nodes, n.id)| < |nodes|
  {
    if nodes[0].id != n.id {
      assert n in nodes[1..];
      EraseShortens(nodes[1..], n);
    }
  }
}
