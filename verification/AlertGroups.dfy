/** Groups of alerts: a table with one row for each proxy, database and pattern, and a cache of its
    identifiers under a composite key. */
module AlertGroups {

  datatype Triple = Triple(proxy: int, db: string, pattern: string)

  datatype Group = Group(id: nat, key: Triple, learned: bool)

  // ---- the composite key ----

  // The proxy is assigned to the string as one character.
  function KeyOf(t: Triple): string {
    [(t.proxy % 256) as char] + "," + t.db + "," + t.pattern
  }

  predicate Regular(t: Triple) {
    0 <= t.proxy < 256 && ',' !in t.db
  }

  // A text without commas is found again in front of the first comma.
  lemma {:induction false} CommaSplits(a: string, x: string, b: string, y: string)
    requires ',' !in a && ',' !in b
    requires a + ([','] + x) == b + ([','] + y)
    ensures a == b && x == y
  {
    var s, t := a + ([','] + x), b + ([','] + y);
    assert s[0] == (if |a| > 0 then a[0] else ',') && t[0] == (if |b| > 0 then b[0] else ',');
    assert |a| > 0 <==> |b| > 0;
    if |a| > 0 {
      assert s[1..] == a[1..] + ([','] + x) && t[1..] == b[1..] + ([','] + y);
      CommaSplits(a[1..], x, b[1..], y);
      assert a == [a[0]] + a[1..] && b == [b[0]] + b[1..];
    } else {
      assert s[1..] == x && t[1..] == y;
    }
  }

  /** What the key keeps of a triple: the low byte of the proxy, and the database and the pattern
      run together. */
  lemma KeysMeet(s: Triple, t: Triple)
    ensures KeyOf(s) == KeyOf(t) <==>
            s.proxy % 256 == t.proxy % 256 && s.db + ([','] + s.pattern) == t.db + ([','] + t.pattern)
  {
    assert KeyOf(s) == [(s.proxy % 256) as char, ','] + (s.db + ([','] + s.pattern));
    assert KeyOf(t) == [(t.proxy % 256) as char, ','] + (t.db + ([','] + t.pattern));
    assert KeyOf(s)[0] == (s.proxy % 256) as char && KeyOf(t)[0] == (t.proxy % 256) as char;
    assert KeyOf(s)[2..] == s.db + ([','] + s.pattern) && KeyOf(t)[2..] == t.db + ([','] + t.pattern);
  }

  lemma KeyInjective(s: Triple, t: Triple)
    requires Regular(s) && Regular(t)
    ensures KeyOf(s) == KeyOf(t) <==> s == t
  {
    KeysMeet(s, t);
    if KeyOf(s) == KeyOf(t) {
      CommaSplits(s.db, s.pattern, t.db, t.pattern);
    }
  }

  /** Both conditions are needed. */
  lemma KeysCollide()
    ensures KeyOf(Triple(1, "a", "b")) == KeyOf(Triple(257, "a", "b"))
    ensures KeyOf(Triple(1, "a,b", "c")) == KeyOf(Triple(1, "a", "b,c"))
  {
    assert "a,b" + ([','] + "c") == "a" + ([','] + "b,c");
    KeysMeet(Triple(1, "a,b", "c"), Triple(1, "a", "b,c"));
  }

  // ---- the table and the cache ----

  datatype Store = Store(groups: seq<Group>, cache: map<string, nat>, alerts: seq<nat>)

  /** What the database made of the statements: the lookup, the insertion, whether it changed
      anything and the number it gave, the second lookup, the alert, and the update of the group. */
  datatype Outcome =
    Outcome(read: bool, written: bool, changed: bool, newId: nat, reread: bool, alerted: bool, updated: bool)

  function IdOf(groups: seq<Group>, t: Triple): nat {
    if |groups| == 0 then 0 else if groups[0].key == t then groups[0].id else IdOf(groups[1..], t)
  }

  function Cached(cache: map<string, nat>, key: string): nat {
    if key in cache then cache[key] else 0
  }

  // The last row of a key wins.
  function Reloaded(cursor: seq<Group>): map<string, nat> {
    if |cursor| == 0 then map[]
    else
      var last := cursor[|cursor| - 1];
      Reloaded(cursor[..|cursor| - 1])[KeyOf(last.key) := last.id]
  }

  function LookedUp(groups: seq<Group>, t: Triple, read: bool): nat {
    if read then IdOf(groups, t) else 0
  }

  predicate Found(s: Store, t: Triple, o: Outcome) {
    Cached(s.cache, KeyOf(t)) != 0 || LookedUp(s.groups, t, o.read) != 0
  }

  predicate Inserts(s: Store, t: Triple, o: Outcome) {
    !Found(s, t, o) && o.written && o.changed
  }

  // The table and the cache once a group was looked for, and perhaps added.
  function Placed(s: Store, t: Triple, o: Outcome): Store {
    if Inserts(s, t, o) then
      var groups := s.groups + [Group(o.newId, t, false)];
      s.(groups := groups, cache := s.cache[KeyOf(t) := LookedUp(groups, t, o.reread)])
    else s
  }

  function ChosenId(s: Store, t: Triple, o: Outcome): nat {
    if Cached(s.cache, KeyOf(t)) != 0 then Cached(s.cache, KeyOf(t))
    else if LookedUp(s.groups, t, o.read) != 0 then LookedUp(s.groups, t, o.read)
    else if o.written && o.changed then LookedUp(Placed(s, t, o).groups, t, o.reread)
    else 0
  }

  function MarkLearned(groups: seq<Group>, id: nat): seq<Group> {
    seq(|groups|, i requires 0 <= i < |groups| =>
      if groups[i].id == id then groups[i].(learned := true) else groups[i])
  }

  function Logged(s: Store, t: Triple, o: Outcome, whitelisted: bool): Store {
    var placed, id := Placed(s, t, o), ChosenId(s, t, o);
    if id == 0 then placed
    else placed.(
      alerts := if o.alerted then placed.alerts + [id] else placed.alerts,
      groups := if whitelisted && o.updated then MarkLearned(placed.groups, id) else placed.groups)
  }

  // ---- agreement ----

  predicate GroupAt(groups: seq<Group>, i: int, id: nat, t: Triple) {
    0 <= i < |groups| && groups[i].id == id && groups[i].key == t
  }

  ghost predicate HasGroup(groups: seq<Group>, id: nat, t: Triple) {
    exists i :: GroupAt(groups, i, id, t)
  }

  ghost predicate Unique(groups: seq<Group>) {
    (forall i :: 0 <= i < |groups| ==> groups[i].id > 0 && Regular(groups[i].key)) &&
    (forall i, j :: 0 <= i < j < |groups| ==> groups[i].id != groups[j].id && groups[i].key != groups[j].key)
  }

  ghost predicate Covered(groups: seq<Group>, key: string, id: nat) {
    exists i :: 0 <= i < |groups| && groups[i].id == id && KeyOf(groups[i].key) == key
  }

  /** Triples and identifiers are unique, and every non-zero cache entry is the table's. */
  ghost predicate Agree(s: Store) {
    Unique(s.groups) && forall key :: key in s.cache && s.cache[key] != 0 ==> Covered(s.groups, key, s.cache[key])
  }

  ghost predicate Fresh(groups: seq<Group>, id: nat) {
    id > 0 && forall i :: 0 <= i < |groups| ==> groups[i].id != id
  }

  lemma CacheHit(s: Store, t: Triple)
    requires Agree(s) && Regular(t) && Cached(s.cache, KeyOf(t)) != 0
    ensures HasGroup(s.groups, Cached(s.cache, KeyOf(t)), t)
  {
    var id := s.cache[KeyOf(t)];
    assert Covered(s.groups, KeyOf(t), id);
    var i :| 0 <= i < |s.groups| && s.groups[i].id == id && KeyOf(s.groups[i].key) == KeyOf(t);
    KeyInjective(s.groups[i].key, t);
    assert GroupAt(s.groups, i, id, t);
  }

  lemma {:induction false} IdOfMeans(groups: seq<Group>, t: Triple)
    requires forall i :: 0 <= i < |groups| ==> groups[i].id > 0
    ensures IdOf(groups, t) != 0 ==> HasGroup(groups, IdOf(groups, t), t)
    ensures IdOf(groups, t) == 0 <==> forall i :: 0 <= i < |groups| ==> groups[i].key != t
  {
    if |groups| > 0 {
      var tail := groups[1..];
      assert forall i :: 0 <= i < |tail| ==> tail[i] == groups[i + 1];
      IdOfMeans(tail, t);
      if groups[0].key == t {
        assert GroupAt(groups, 0, groups[0].id, t);
      } else if IdOf(tail, t) != 0 {
        var i :| GroupAt(tail, i, IdOf(tail, t), t);
        assert tail[i] == groups[i + 1];
        assert GroupAt(groups, i + 1, IdOf(groups, t), t);
      }
    }
  }

  // A group stays when others are added behind it.
  lemma CoveredStays(groups: seq<Group>, g: Group, key: string, id: nat)
    requires Covered(groups, key, id)
    ensures Covered(groups + [g], key, id)
  {
    var i :| 0 <= i < |groups| && groups[i].id == id && KeyOf(groups[i].key) == key;
    assert (groups + [g])[i] == groups[i];
  }

  // The insertion repeats a triple: the cache had no entry, the lookup failed, and the row is there.
  predicate Repeats(s: Store, t: Triple, o: Outcome) {
    Inserts(s, t, o) && exists i :: 0 <= i < |s.groups| && s.groups[i].key == t
  }

  lemma PlacedUnique(s: Store, t: Triple, o: Outcome)
    requires Unique(s.groups) && Regular(t) && Fresh(s.groups, o.newId)
    ensures Unique(Placed(s, t, o).groups) <==> !Repeats(s, t, o)
  {
    hide IdOf;
    if Inserts(s, t, o) {
      var groups := Placed(s, t, o).groups;
      assert forall i :: 0 <= i < |s.groups| ==> groups[i] == s.groups[i];
      assert groups[|s.groups|] == Group(o.newId, t, false);
    }
  }

  lemma PlacedCovers(s: Store, t: Triple, o: Outcome)
    requires Agree(s) && Regular(t) && Unique(Placed(s, t, o).groups)
    ensures Agree(Placed(s, t, o))
  {
    if Inserts(s, t, o) {
      var s' := Placed(s, t, o);
      var g := Group(o.newId, t, false);
      IdOfMeans(s'.groups, t);
      hide IdOf;
      forall key | key in s'.cache && s'.cache[key] != 0
        ensures Covered(s'.groups, key, s'.cache[key])
      {
        if key == KeyOf(t) {
          var id := s'.cache[key];
          var i :| GroupAt(s'.groups, i, id, t);
        } else {
          CoveredStays(s.groups, g, key, s.cache[key]);
        }
      }
    }
  }

  lemma MarkKeeps(s: Store, id: nat)
    ensures Agree(s.(groups := MarkLearned(s.groups, id))) <==> Agree(s)
    ensures forall n, t :: HasGroup(MarkLearned(s.groups, id), n, t) <==> HasGroup(s.groups, n, t)
  {
    var marked := MarkLearned(s.groups, id);
    assert forall i :: 0 <= i < |s.groups| ==> marked[i].id == s.groups[i].id && marked[i].key == s.groups[i].key;
    forall key, n
      ensures Covered(marked, key, n) <==> Covered(s.groups, key, n)
    {
    }
    forall n, t
      ensures HasGroup(marked, n, t) <==> HasGroup(s.groups, n, t)
    {
      assert forall i :: GroupAt(marked, i, n, t) <==> GroupAt(s.groups, i, n, t);
    }
    UniqueByParts(s.groups, marked);
    UniqueByParts(marked, s.groups);
  }

  lemma UniqueByParts(a: seq<Group>, b: seq<Group>)
    requires |a| == |b| && forall i :: 0 <= i < |a| ==> a[i].id == b[i].id && a[i].key == b[i].key
    ensures Unique(a) ==> Unique(b)
  {
  }

  lemma AlertsIrrelevant(s: Store, alerts: seq<nat>)
    ensures Agree(s.(alerts := alerts)) <==> Agree(s)
  {
  }

  /** Logging keeps the agreement exactly when it does not insert a triple that is there already.
      That happens only when the lookup itself fails. */
  lemma LoggedAgreesExactlyWhen(s: Store, t: Triple, o: Outcome, whitelisted: bool)
    requires Agree(s) && Regular(t) && Fresh(s.groups, o.newId)
    ensures Agree(Logged(s, t, o, whitelisted)) <==> !Repeats(s, t, o)
    ensures o.read ==> !Repeats(s, t, o)
  {
    IdOfMeans(s.groups, t);
    hide IdOf, ChosenId, MarkLearned;
    var placed, id := Placed(s, t, o), ChosenId(s, t, o);
    PlacedUnique(s, t, o);
    if Unique(placed.groups) {
      PlacedCovers(s, t, o);
    }
    hide Placed, Agree, Repeats;
    MarkKeeps(placed, id);
    var marked := placed.(groups := MarkLearned(placed.groups, id));
    AlertsIrrelevant(placed, placed.alerts + [id]);
    AlertsIrrelevant(marked, placed.alerts + [id]);
    AgreeIsUnique(placed);
  }

  /** A group that is in the table, but not in the cache, and a lookup that fails: the triple is
      inserted a second time. The tables do not forbid it. */
  lemma FailedLookupRepeats()
    ensures var t := Triple(1, "a", "b");
            var s := Store([Group(1, t, false)], map[], []);
            var o := Outcome(false, true, true, 2, true, true, true);
            Agree(s) && Regular(t) && Fresh(s.groups, o.newId) && Repeats(s, t, o) && !Agree(Logged(s, t, o, false))
  {
    var t := Triple(1, "a", "b");
    var s := Store([Group(1, t, false)], map[], []);
    var o := Outcome(false, true, true, 2, true, true, true);
    assert s.groups[0].key == t;
    LoggedAgreesExactlyWhen(s, t, o, false);
  }

  lemma AgreeIsUnique(s: Store)
    ensures Agree(s) ==> Unique(s.groups)
  {
  }

  /** Whatever identifier is chosen, it is that of a row with the triple. */
  lemma ChosenIsRight(s: Store, t: Triple, o: Outcome, whitelisted: bool)
    requires Agree(s) && Regular(t) && Fresh(s.groups, o.newId) && ChosenId(s, t, o) != 0
    ensures HasGroup(Logged(s, t, o, whitelisted).groups, ChosenId(s, t, o), t)
  {
    var placed, id := Placed(s, t, o), ChosenId(s, t, o);
    if Cached(s.cache, KeyOf(t)) != 0 {
      CacheHit(s, t);
    } else {
      IdOfMeans(placed.groups, t);
    }
    assert HasGroup(placed.groups, id, t);
    hide Agree, HasGroup, Fresh, MarkLearned, ChosenId, Placed, IdOf, KeyOf;
    MarkKeeps(placed, id);
  }

  /** What logging does to the tables besides: an alert is filed under the number of a group with the
      triple, if that was found or added and the statement worked; and of all groups exactly that
      one is marked, if the whitelist logs and the update worked. */
  lemma {:induction false} LoggedExactly(s: Store, t: Triple, o: Outcome, whitelisted: bool)
    requires Agree(s) && Regular(t) && Fresh(s.groups, o.newId) && !Repeats(s, t, o)
    ensures var after, id := Logged(s, t, o, whitelisted), ChosenId(s, t, o);
            after.alerts == s.alerts + (if id != 0 && o.alerted then [id] else []) &&
            (id != 0 ==> HasGroup(after.groups, id, t)) &&
            |after.groups| == |Placed(s, t, o).groups| &&
            forall i :: 0 <= i < |after.groups| ==>
              (after.groups[i].learned <==>
               Placed(s, t, o).groups[i].learned ||
               (whitelisted && o.updated && id != 0 && after.groups[i].key == t))
  {
    hide Agree, Unique, HasGroup, ChosenId, IdOf, KeyOf, Repeats, Fresh, Placed;
    var placed, after, id := Placed(s, t, o), Logged(s, t, o, whitelisted), ChosenId(s, t, o);
    PlacedAlerts(s, t, o);
    LoggedAgreesExactlyWhen(s, t, o, whitelisted);
    AgreeIsUnique(after);
    if id != 0 {
      ChosenIsRight(s, t, o, whitelisted);
      OnlyOne(after.groups, id, t);
      assert forall i :: 0 <= i < |after.groups| ==> after.groups[i].id == placed.groups[i].id;
    }
  }

  lemma PlacedAlerts(s: Store, t: Triple, o: Outcome)
    ensures Placed(s, t, o).alerts == s.alerts && s.alerts + [] == s.alerts
  {
  }

  lemma OnlyOne(groups: seq<Group>, id: nat, t: Triple)
    requires Unique(groups) && HasGroup(groups, id, t)
    ensures forall i :: 0 <= i < |groups| ==> (groups[i].id == id <==> groups[i].key == t)
  {
    var j :| GroupAt(groups, j, id, t);
  }

  /** Which groups there are afterwards: those before, and one more for the triple exactly when
      neither the cache nor the table had it and the insertion changed something. It is not marked. */
  lemma {:induction false} PlacedExactly(s: Store, t: Triple, o: Outcome)
    ensures Placed(s, t, o).groups ==
            s.groups +
            if Cached(s.cache, KeyOf(t)) == 0 && (o.read ==> IdOf(s.groups, t) == 0) && o.written && o.changed
            then [Group(o.newId, t, false)] else []
  {
    hide KeyOf, IdOf;
    assert s.groups + [] == s.groups;
  }

  // ---- reloading ----

  ghost predicate Fetched(cursor: seq<Group>, groups: seq<Group>) {
    forall g :: g in cursor <==> g in groups
  }

  lemma {:induction false} ReloadedCovers(cursor: seq<Group>, key: string)
    ensures key in Reloaded(cursor) <==> exists i :: 0 <= i < |cursor| && KeyOf(cursor[i].key) == key
    ensures key in Reloaded(cursor) ==> Covered(cursor, key, Reloaded(cursor)[key])
  {
    if |cursor| > 0 {
      var n := |cursor| - 1;
      assert forall i :: 0 <= i < n ==> cursor[..n][i] == cursor[i];
      ReloadedCovers(cursor[..n], key);
      if key == KeyOf(cursor[n].key) {
        assert cursor[n].id == Reloaded(cursor)[key];
      } else if key in Reloaded(cursor) {
        assert cursor == cursor[..n] + [cursor[n]];
        CoveredStays(cursor[..n], cursor[n], key, Reloaded(cursor)[key]);
      }
    }
  }

  lemma ReloadAgrees(s: Store, cursor: seq<Group>)
    requires Agree(s) && Fetched(cursor, s.groups)
    ensures Agree(s.(cache := Reloaded(cursor)))
  {
    forall key | key in Reloaded(cursor)
      ensures Covered(s.groups, key, Reloaded(cursor)[key])
    {
      ReloadedCovers(cursor, key);
      var i :| 0 <= i < |cursor| && cursor[i].id == Reloaded(cursor)[key] && KeyOf(cursor[i].key) == key;
      assert cursor[i] in s.groups;
    }
  }

  // After a reload every group of the table is found without a query.
  lemma ReloadFinds(s: Store, cursor: seq<Group>, g: Group)
    requires Agree(s) && Fetched(cursor, s.groups) && g in s.groups
    ensures Cached(Reloaded(cursor), KeyOf(g.key)) == g.id
  {
    var key := KeyOf(g.key);
    assert g in cursor;
    ReloadedCovers(cursor, key);
    var i :| 0 <= i < |cursor| && cursor[i].id == Reloaded(cursor)[key] && KeyOf(cursor[i].key) == key;
    assert cursor[i] in s.groups;
    KeyInjective(cursor[i].key, g.key);
  }

  // ---- runs ----

  datatype Event =
    | Log(t: Triple, o: Outcome, whitelisted: bool)
    | Reload(cursor: seq<Group>, read: bool)

  function Step(s: Store, e: Event): Store {
    match e
    case Log(t, o, whitelisted) => Logged(s, t, o, whitelisted)
    case Reload(cursor, read) => if read then s.(cache := Reloaded(cursor)) else s
  }

  // Any statement may fail. The database gives fresh numbers, and a reload sees the table.
  ghost predicate Possible(s: Store, e: Event) {
    match e
    case Log(t, o, _) => Regular(t) && Fresh(s.groups, o.newId)
    case Reload(cursor, read) => read ==> Fetched(cursor, s.groups)
  }

  ghost predicate PossibleRun(s: Store, es: seq<Event>)
    decreases |es|
  {
    |es| > 0 ==> Possible(s, es[0]) && PossibleRun(Step(s, es[0]), es[1..])
  }

  predicate Repeating(s: Store, e: Event) {
    e.Log? && Repeats(s, e.t, e.o)
  }

  predicate AnyRepeats(s: Store, es: seq<Event>)
    decreases |es|
  {
    |es| > 0 && (Repeating(s, es[0]) || AnyRepeats(Step(s, es[0]), es[1..]))
  }

  function Run(s: Store, es: seq<Event>): Store
    decreases |es|
  {
    if |es| == 0 then s else Run(Step(s, es[0]), es[1..])
  }

  lemma StepAgrees(s: Store, e: Event)
    requires Agree(s) && Possible(s, e)
    ensures Agree(Step(s, e)) <==> !Repeating(s, e)
  {
    hide Agree, Logged, Fresh, Repeats;
    match e
    case Log(t, o, whitelisted) => LoggedAgreesExactlyWhen(s, t, o, whitelisted);
    case Reload(cursor, read) =>
      if read {
        ReloadAgrees(s, cursor);
      }
  }

  // Two rows are about one triple.
  ghost predicate Doubled(groups: seq<Group>) {
    exists i, j :: 0 <= i < j < |groups| && groups[i].key == groups[j].key
  }

  lemma RepeatDoubles(s: Store, e: Event)
    requires Repeating(s, e)
    ensures Doubled(Step(s, e).groups)
  {
    hide IdOf, KeyOf, ChosenId;
    var groups := Placed(s, e.t, e.o).groups;
    var i :| 0 <= i < |s.groups| && s.groups[i].key == e.t;
    assert groups[i].key == groups[|s.groups|].key;
    StepAfterPlaced(s, e);
  }

  // Logging changes no key of the rows that are there, and takes none away.
  lemma StepAfterPlaced(s: Store, e: Event)
    requires e.Log?
    ensures Doubled(Placed(s, e.t, e.o).groups) ==> Doubled(Step(s, e).groups)
  {
    hide IdOf, KeyOf, ChosenId, Placed;
    var placed, after := Placed(s, e.t, e.o).groups, Step(s, e).groups;
    assert |after| == |placed| && forall i :: 0 <= i < |placed| ==> after[i].key == placed[i].key;
    if Doubled(placed) {
      var i, j :| 0 <= i < j < |placed| && placed[i].key == placed[j].key;
      assert after[i].key == after[j].key;
    }
  }

  lemma StepKeepsDoubled(s: Store, e: Event)
    requires Doubled(s.groups)
    ensures Doubled(Step(s, e).groups)
  {
    if e.Log? {
      var placed := Placed(s, e.t, e.o).groups;
      var i, j :| 0 <= i < j < |s.groups| && s.groups[i].key == s.groups[j].key;
      assert placed[i] == s.groups[i] && placed[j] == s.groups[j];
      StepAfterPlaced(s, e);
    }
  }

  lemma {:induction false} RunKeepsDoubled(s: Store, es: seq<Event>)
    requires Doubled(s.groups)
    ensures !Agree(Run(s, es))
    decreases |es|
  {
    hide Step;
    if |es| > 0 {
      StepKeepsDoubled(s, es[0]);
      RunKeepsDoubled(Step(s, es[0]), es[1..]);
    }
  }

  /** Over every run, whatever statements failed: triples are unique and the cache is the table's at
      the end exactly when no event of the run inserted a triple that was there. */
  lemma {:induction false} RunAgreesExactlyWhen(s: Store, es: seq<Event>)
    requires Agree(s) && PossibleRun(s, es)
    ensures Agree(Run(s, es)) <==> !AnyRepeats(s, es)
    decreases |es|
  {
    hide Agree, Possible, Step, Repeating;
    if |es| > 0 {
      var next := Step(s, es[0]);
      StepAgrees(s, es[0]);
      if Repeating(s, es[0]) {
        RepeatDoubles(s, es[0]);
        RunKeepsDoubled(next, es[1..]);
      } else {
        RunAgreesExactlyWhen(next, es[1..]);
      }
    }
  }

  predicate LookupsWork(es: seq<Event>) {
    forall i :: 0 <= i < |es| && es[i].Log? ==> es[i].o.read
  }

  /** So it is whenever every first lookup works, whatever becomes of the other statements. */
  lemma {:induction false} WorkingLookups(s: Store, es: seq<Event>)
    requires Agree(s) && PossibleRun(s, es) && LookupsWork(es)
    ensures !AnyRepeats(s, es) && Agree(Run(s, es))
    decreases |es|
  {
    hide Agree, Step, Logged, Fresh, Repeats;
    if |es| > 0 {
      var e := es[0];
      StepAgrees(s, e);
      if e.Log? {
        LoggedAgreesExactlyWhen(s, e.t, e.o, e.whitelisted);
      }
      WorkingLookups(Step(s, e), es[1..]);
    }
  }

  lemma StepKeepsGroups(s: Store, e: Event, id: nat, t: Triple)
    requires HasGroup(s.groups, id, t)
    ensures HasGroup(Step(s, e).groups, id, t)
  {
    hide MarkLearned, IdOf, ChosenId, KeyOf, Reloaded;
    if e.Log? {
      var placed := Placed(s, e.t, e.o);
      var i :| GroupAt(s.groups, i, id, t);
      assert GroupAt(placed.groups, i, id, t);
      MarkKeeps(placed, ChosenId(s, e.t, e.o));
    }
  }

  lemma {:induction false} RunKeepsGroups(s: Store, es: seq<Event>, id: nat, t: Triple)
    requires HasGroup(s.groups, id, t)
    ensures HasGroup(Run(s, es).groups, id, t)
    decreases |es|
  {
    hide HasGroup, Step;
    if |es| > 0 {
      StepKeepsGroups(s, es[0], id, t);
      RunKeepsGroups(Step(s, es[0]), es[1..], id, t);
    }
  }

  lemma SameGroup(groups: seq<Group>, id: nat, t: Triple, id': nat, t': Triple)
    requires Unique(groups) && HasGroup(groups, id, t) && HasGroup(groups, id', t')
    ensures id == id' <==> t == t'
  {
    var i :| GroupAt(groups, i, id, t);
    var j :| GroupAt(groups, j, id', t');
  }

  /** In every run without a repeated insertion, two alerts logged at any two moments get the same
      group exactly when they are about the same proxy, database and pattern, whether the cache or
      the table answered. */
  lemma SameGroupExactlyWhen(s: Store, first: Event, between: seq<Event>, second: Event)
    requires Agree(s) && first.Log? && second.Log? && !Repeating(s, first)
    requires Possible(s, first) && PossibleRun(Step(s, first), between) && !AnyRepeats(Step(s, first), between)
    requires Possible(Run(Step(s, first), between), second) && !Repeating(Run(Step(s, first), between), second)
    requires ChosenId(s, first.t, first.o) != 0
    requires ChosenId(Run(Step(s, first), between), second.t, second.o) != 0
    ensures ChosenId(s, first.t, first.o) == ChosenId(Run(Step(s, first), between), second.t, second.o) <==>
            first.t == second.t
  {
    hide Agree, HasGroup, Unique, Fresh, ChosenId, Logged, Run, PossibleRun, AnyRepeats, Repeating;
    var s1 := Step(s, first);
    var s2 := Run(s1, between);
    var id, id' := ChosenId(s, first.t, first.o), ChosenId(s2, second.t, second.o);
    ChosenIsRight(s, first.t, first.o, first.whitelisted);
    StepAgrees(s, first);
    RunAgreesExactlyWhen(s1, between);
    RunKeepsGroups(s1, between, id, first.t);
    StepKeepsGroups(s2, second, id, first.t);
    ChosenIsRight(s2, second.t, second.o, second.whitelisted);
    StepAgrees(s2, second);
    AgreeIsUnique(Step(s2, second));
    SameGroup(Step(s2, second).groups, id, first.t, id', second.t);
  }

  // ---- the statements and the static map ----

  class AlertTables {
    var groups: seq<Group>
    var alerts: seq<nat>

    constructor ()
      ensures groups == [] && alerts == []
    {
      groups, alerts := [], [];
    }
  }

  class AlertLog {
    const tables: AlertTables
    var agroupmap: map<string, nat>

    constructor (tables: AlertTables)
      ensures this.tables == tables && agroupmap == map[]
    {
      this.tables, agroupmap := tables, map[];
    }

    function Abs(): Store
      reads this, tables
    {
      Store(tables.groups, agroupmap, tables.alerts)
    }

    /** `cursor` is what the database returned, if the query worked. */
    method AgroupmapReload(cursor: seq<Group>, read: bool) returns (done: bool)
      modifies this
      ensures done == read && Abs() == Step(old(Abs()), Reload(cursor, read))
    {
      if !read {
        return false;
      }
      var temp: map<string, nat> := map[];
      var k := 0;
      while k < |cursor|
        invariant k <= |cursor| && temp == Reloaded(cursor[..k])
      {
        assert cursor[..k + 1][..k] == cursor[..k];
        temp := temp[KeyOf(cursor[k].key) := cursor[k].id];
        k := k + 1;
      }
      assert cursor[..k] == cursor;
      agroupmap := temp;
      done := true;
    }

    method AgroupmapGet(t: Triple) returns (id: nat)
      ensures id == Cached(agroupmap, KeyOf(t))
    {
      var key := KeyOf(t);
      if key !in agroupmap {
        return 0;
      }
      id := agroupmap[key];
    }

    // The first row of the result, if there is one.
    method AgroupGet(t: Triple, read: bool) returns (id: nat)
      ensures id == LookedUp(tables.groups, t, read)
    {
      if !read {
        return 0;
      }
      id := IdOf(tables.groups, t);
    }

    method AgroupAdd(t: Triple, o: Outcome) returns (id: nat)
      requires !Found(Abs(), t, o)
      modifies this, tables
      ensures Abs() == Placed(old(Abs()), t, o) && id == ChosenId(old(Abs()), t, o)
    {
      hide IdOf, KeyOf;
      if !o.written {
        return 0;
      }
      if !o.changed {
        return 0;
      }
      tables.groups := tables.groups + [Group(o.newId, t, false)];
      id := AgroupGet(t, o.reread);
      agroupmap := agroupmap[KeyOf(t) := id];
    }

    method GroupFor(t: Triple, o: Outcome) returns (id: nat)
      modifies this, tables
      ensures Abs() == Placed(old(Abs()), t, o) && id == ChosenId(old(Abs()), t, o)
    {
      hide IdOf, KeyOf;
      id := AgroupmapGet(t);
      if id == 0 {
        id := AgroupGet(t, o.read);
        if id == 0 {
          id := AgroupAdd(t, o);
        }
      }
    }

    method LogAlert(t: Triple, o: Outcome) returns (done: bool)
      modifies this, tables
      ensures Abs() == Logged(old(Abs()), t, o, false)
      ensures done <==> ChosenId(old(Abs()), t, o) != 0
    {
      hide Placed, ChosenId;
      var id := GroupFor(t, o);
      if id == 0 {
        return false;
      }
      if o.alerted {
        tables.alerts := tables.alerts + [id];
      }
      done := true;
    }

    method LogWhitelist(t: Triple, o: Outcome) returns (done: bool)
      modifies this, tables
      ensures Abs() == Logged(old(Abs()), t, o, true)
      ensures done <==> ChosenId(old(Abs()), t, o) != 0
    {
      hide Placed, ChosenId, MarkLearned;
      var id := GroupFor(t, o);
      if id == 0 {
        return false;
      }
      if o.alerted {
        tables.alerts := tables.alerts + [id];
      }
      if o.updated {
        tables.groups := MarkLearned(tables.groups, id);
      }
      done := true;
    }
  }
}
