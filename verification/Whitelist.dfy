/** The whitelist of one database: a cache rebuilt from a table, learning, and enforcing. */
module Whitelist {
  import opened Text
  import opened NormalForm
  import opened Normalization
  import opened Templates

  datatype Row = Row(proxy: int, db: string, query: string, perm: int)

  datatype Owner = Owner(proxy: int, db: string)

  datatype BlockStatus =
    | RiskBlock | PrivilegeBlock | RiskSimulation | PrivilegeSimulation
    | AlwaysBlockNew
    | LearningMode | LearningMode3Days | LearningMode7Days

  predicate Learning(s: BlockStatus) {
    s.LearningMode? || s.LearningMode3Days? || s.LearningMode7Days?
  }

  predicate Mine(r: Row, o: Owner) {
    r.proxy == o.proxy && r.db == o.db
  }

  // A row of the table for this pattern, whatever its permission.
  predicate Known(rows: seq<Row>, o: Owner, pattern: string) {
    exists r :: r in rows && Mine(r, o) && r.query == pattern
  }

  predicate Allowed(rows: seq<Row>, o: Owner, pattern: string) {
    exists r :: r in rows && Mine(r, o) && r.query == pattern && r.perm > 0
  }

  predicate AllPositive(rows: seq<Row>, o: Owner) {
    forall r :: r in rows && Mine(r, o) ==> r.perm > 0
  }

  /** What a query for the owner's rows returns, in whatever order. */
  ghost predicate Fetched(cursor: seq<Row>, rows: seq<Row>, o: Owner) {
    forall r :: r in cursor <==> r in rows && Mine(r, o)
  }

  // ---- the cache ----

  // Inserting does not overwrite.
  function Inserted(m: map<string, int>, r: Row): map<string, int> {
    if r.perm > 0 && |r.query| > 0 && r.query !in m then m[r.query := r.perm] else m
  }

  function Loaded(cursor: seq<Row>): map<string, int> {
    if |cursor| == 0 then map[] else Inserted(Loaded(cursor[..|cursor| - 1]), cursor[|cursor| - 1])
  }

  predicate Grants(r: Row, pattern: string) {
    r.query == pattern && r.perm > 0
  }

  /** The cache holds exactly the non-empty patterns of rows that grant something, with the
      permission of the first such row. */
  lemma {:induction false} LoadedMeans(cursor: seq<Row>, q: string)
    ensures q in Loaded(cursor) <==> |q| > 0 && exists i :: 0 <= i < |cursor| && Grants(cursor[i], q)
    ensures forall i :: 0 <= i < |cursor| && Grants(cursor[i], q) && |q| > 0 &&
                        (forall j :: 0 <= j < i ==> !Grants(cursor[j], q)) ==>
                        q in Loaded(cursor) && Loaded(cursor)[q] == cursor[i].perm
  {
    if |cursor| > 0 {
      var n := |cursor| - 1;
      LoadedMeans(cursor[..n], q);
      assert forall i :: 0 <= i < n ==> cursor[..n][i] == cursor[i];
    }
  }

  lemma {:induction false} LoadedPositive(cursor: seq<Row>)
    ensures forall q :: q in Loaded(cursor) ==> Loaded(cursor)[q] > 0
  {
    if |cursor| > 0 {
      LoadedPositive(cursor[..|cursor| - 1]);
    }
  }

  lemma ReloadedExactly(cursor: seq<Row>, rows: seq<Row>, o: Owner, q: string)
    requires Fetched(cursor, rows, o)
    ensures q in Loaded(cursor) <==> |q| > 0 && Allowed(rows, o, q)
  {
    LoadedMeans(cursor, q);
    if Allowed(rows, o, q) {
      var r :| r in rows && Mine(r, o) && r.query == q && r.perm > 0;
      assert r in cursor;
    }
  }

  // ---- the machine ----

  datatype World = World(rows: seq<Row>, cache: map<string, int>, status: BlockStatus)

  /** A query, with whether reading and writing the table worked and what the permission test
      said; a reload; or a change of mode. */
  datatype Event =
    | Ask(text: string, read: bool, written: bool, permitted: bool)
    | Reload(cursor: seq<Row>, read: bool)
    | SetStatus(status: BlockStatus)

  function LowerCase(s: string): string {
    seq(|s|, i requires 0 <= i < |s| => Lower(s[i]))
  }

  // The key of a query in the whitelist.
  function Key(text: string): string {
    Pattern(LowerCase(text))
  }

  function Cached(cache: map<string, int>, pattern: string): int {
    if pattern in cache then cache[pattern] else 0
  }

  function Added(rows: seq<Row>, o: Owner, pattern: string, read: bool, written: bool): seq<Row> {
    if read && !Known(rows, o, pattern) && written then rows + [Row(o.proxy, o.db, pattern, 1)] else rows
  }

  function Accepts(w: World, text: string, permitted: bool): bool {
    Cached(w.cache, Key(text)) != 0 || Learning(w.status) || (permitted && !w.status.AlwaysBlockNew?)
  }

  // The query is not in the whitelist and its pattern is handed to it.
  predicate Learns(w: World, e: Event) {
    e.Ask? && Learning(w.status) && Cached(w.cache, Key(e.text)) == 0
  }

  function Step(w: World, o: Owner, e: Event): World {
    match e
    case Ask(text, read, written, _) =>
      if Learns(w, e) then w.(rows := Added(w.rows, o, Key(text), read, written)) else w
    case Reload(cursor, read) => if read then w.(cache := Loaded(cursor)) else w
    case SetStatus(status) => w.(status := status)
  }

  ghost predicate Possible(w: World, o: Owner, e: Event) {
    e.Reload? && e.read ==> Fetched(e.cursor, w.rows, o)
  }

  ghost predicate PossibleRun(w: World, o: Owner, es: seq<Event>)
    decreases |es|
  {
    |es| > 0 ==> Possible(w, o, es[0]) && PossibleRun(Step(w, o, es[0]), o, es[1..])
  }

  function Run(w: World, o: Owner, es: seq<Event>): World
    decreases |es|
  {
    if |es| == 0 then w else Run(Step(w, o, es[0]), o, es[1..])
  }

  // ---- the cache and the table ----

  /** Whatever the cache accepts has a row. So it is at the start, when the cache is empty; a cache
      that was filled in another way may lose patterns at the next reload. */
  ghost predicate Backed(w: World, o: Owner) {
    forall p :: Cached(w.cache, p) != 0 ==> Known(w.rows, o, p)
  }

  lemma StepKeepsKnown(w: World, o: Owner, e: Event, p: string)
    requires Known(w.rows, o, p)
    ensures Known(Step(w, o, e).rows, o, p)
  {
    hide Pattern;
    var r :| r in w.rows && Mine(r, o) && r.query == p;
    StepKeepsRows(w, o, e, r);
  }

  lemma StepKeepsBacked(w: World, o: Owner, e: Event)
    requires Backed(w, o) && Possible(w, o, e)
    ensures Backed(Step(w, o, e), o)
  {
    forall p | Cached(Step(w, o, e).cache, p) != 0
      ensures Known(Step(w, o, e).rows, o, p)
    {
      hide Key;
      if e.Reload? && e.read {
        ReloadedExactly(e.cursor, w.rows, o, p);
      } else {
        StepKeepsKnown(w, o, e, p);
      }
    }
  }

  lemma {:induction false} RunKeepsBacked(w: World, o: Owner, es: seq<Event>)
    requires Backed(w, o) && PossibleRun(w, o, es)
    ensures Backed(Run(w, o, es), o)
    decreases |es|
  {
    hide Step, Backed, Possible;
    if |es| > 0 {
      StepKeepsBacked(w, o, es[0]);
      RunKeepsBacked(Step(w, o, es[0]), o, es[1..]);
    }
  }

  lemma {:induction false} RunKeepsPositive(w: World, o: Owner, es: seq<Event>)
    requires AllPositive(w.rows, o)
    ensures AllPositive(Run(w, o, es).rows, o)
    decreases |es|
  {
    hide Step;
    if |es| > 0 {
      StepKeepsPositive(w, o, es[0]);
      RunKeepsPositive(Step(w, o, es[0]), o, es[1..]);
    }
  }

  // ---- learning ----

  /** Learning a pattern with a working table and reloading makes it accepted exactly when the
      pattern is not empty and, if the table had rows for it, one of them granted something. */
  lemma LearnedExactlyWhen(w: World, o: Owner, text: string, permitted: bool, cursor: seq<Row>, later: string)
    requires Learning(w.status) && Cached(w.cache, Key(text)) == 0 && Key(later) == Key(text)
    requires Fetched(cursor, Step(w, o, Ask(text, true, true, permitted)).rows, o)
    ensures var w' := Step(Step(Step(w, o, Ask(text, true, true, permitted)), o, Reload(cursor, true)), o,
                           SetStatus(AlwaysBlockNew));
            Accepts(w', later, false) <==>
            |Key(text)| > 0 && (Known(w.rows, o, Key(text)) ==> Allowed(w.rows, o, Key(text)))
  {
    hide Pattern;
    var p := Key(text);
    var rows := Added(w.rows, o, p, true, true);
    LoadedPositive(cursor);
    ReloadedExactly(cursor, rows, o, p);
    if !Known(w.rows, o, p) {
      var r := Row(o.proxy, o.db, p, 1);
      assert r in rows && Mine(r, o);
    }
  }

  // ---- runs ----

  // Every positive row of the pattern is in the table, and perhaps already in the cache.
  predicate Recorded(w: World, o: Owner, p: string) {
    AllPositive(w.rows, o) && Known(w.rows, o, p)
  }

  predicate InForce(w: World, o: Owner, p: string) {
    Recorded(w, o, p) && Cached(w.cache, p) != 0
  }

  lemma StepKeepsPositive(w: World, o: Owner, e: Event)
    requires AllPositive(w.rows, o)
    ensures AllPositive(Step(w, o, e).rows, o)
  {
    hide Pattern;
  }

  lemma StepKeepsRows(w: World, o: Owner, e: Event, r: Row)
    requires r in w.rows
    ensures r in Step(w, o, e).rows
  {
    hide Pattern;
  }

  lemma StepKeepsRecorded(w: World, o: Owner, e: Event, p: string)
    requires Recorded(w, o, p)
    ensures Recorded(Step(w, o, e), o, p)
  {
    StepKeepsPositive(w, o, e);
    var r :| r in w.rows && Mine(r, o) && r.query == p;
    StepKeepsRows(w, o, e, r);
  }

  lemma ReloadPutsInForce(w: World, o: Owner, cursor: seq<Row>, p: string)
    requires Recorded(w, o, p) && |p| > 0 && Fetched(cursor, w.rows, o)
    ensures InForce(Step(w, o, Reload(cursor, true)), o, p)
  {
    var r :| r in w.rows && Mine(r, o) && r.query == p;
    assert r.perm > 0;
    ReloadedExactly(cursor, w.rows, o, p);
    LoadedPositive(cursor);
  }

  lemma StepKeepsInForce(w: World, o: Owner, e: Event, p: string)
    requires InForce(w, o, p) && |p| > 0 && Possible(w, o, e)
    ensures InForce(Step(w, o, e), o, p)
  {
    hide Pattern;
    StepKeepsRecorded(w, o, e, p);
    if e.Reload? && e.read {
      ReloadPutsInForce(w, o, e.cursor, p);
    }
  }

  lemma {:induction false} RunKeepsRecorded(w: World, o: Owner, es: seq<Event>, p: string)
    requires Recorded(w, o, p)
    ensures Recorded(Run(w, o, es), o, p)
    decreases |es|
  {
    hide Step, Recorded;
    if |es| > 0 {
      StepKeepsRecorded(w, o, es[0], p);
      RunKeepsRecorded(Step(w, o, es[0]), o, es[1..], p);
    }
  }

  lemma {:induction false} RunKeepsInForce(w: World, o: Owner, es: seq<Event>, p: string)
    requires InForce(w, o, p) && |p| > 0 && PossibleRun(w, o, es)
    ensures InForce(Run(w, o, es), o, p)
    decreases |es|
  {
    hide Step, InForce, Possible;
    if |es| > 0 {
      StepKeepsInForce(w, o, es[0], p);
      RunKeepsInForce(Step(w, o, es[0]), o, es[1..], p);
    }
  }

  // The table could be read and written, or did not have to be.
  predicate Stored(w: World, o: Owner, e: Event)
    requires e.Ask?
  {
    Cached(w.cache, Key(e.text)) != 0 || Known(w.rows, o, Key(e.text)) || (e.read && e.written)
  }

  /** A query that comes in a learning mode leaves a row for its pattern, exactly when the pattern is
      cached or in the table, or both statements work. */
  lemma LearningRecords(w: World, o: Owner, e: Event)
    requires AllPositive(w.rows, o) && Backed(w, o) && e.Ask? && Learning(w.status)
    ensures Recorded(Step(w, o, e), o, Key(e.text)) <==> Stored(w, o, e)
  {
    hide Pattern;
    StepKeepsPositive(w, o, e);
    var p := Key(e.text);
    if Known(w.rows, o, p) {
      StepKeepsKnown(w, o, e, p);
    } else if Stored(w, o, e) {
      assert Mine(Row(o.proxy, o.db, p, 1), o) && Row(o.proxy, o.db, p, 1) in Step(w, o, e).rows;
    }
  }

  /** In every run over a table of positive rows, from an empty cache or any backed one: a query that
      comes in a learning mode makes its pattern, unless empty, accepted in every mode, for every
      query with that pattern, at any time after any later reload that could read the table. */
  lemma LearnThenEnforce(start: World, o: Owner, es: seq<Event>, e: Event, before: seq<Event>,
                         cursor: seq<Row>, after: seq<Event>, later: string, permitted: bool)
    requires AllPositive(start.rows, o) && Backed(start, o) && PossibleRun(start, o, es)
    requires var w := Run(start, o, es);
             Learning(w.status) && e.Ask? && Stored(w, o, e) && |Key(e.text)| > 0 && Key(later) == Key(e.text) &&
             var learned := Run(Step(w, o, e), o, before);
             Fetched(cursor, learned.rows, o) && PossibleRun(Step(learned, o, Reload(cursor, true)), o, after)
    ensures var learned := Run(Step(Run(start, o, es), o, e), o, before);
            Accepts(Run(Step(learned, o, Reload(cursor, true)), o, after), later, permitted)
  {
    hide Step, Key, PossibleRun, Run, Recorded, Stored, Backed;
    var p, w := Key(e.text), Run(start, o, es);
    var learned := Run(Step(w, o, e), o, before);
    RunKeepsBacked(start, o, es);
    RunKeepsPositive(start, o, es);
    LearningRecords(w, o, e);
    RunKeepsRecorded(Step(w, o, e), o, before, p);
    ReloadPutsInForce(learned, o, cursor, p);
    RunKeepsInForce(Step(learned, o, Reload(cursor, true)), o, after, p);
  }

  /** A cache entry without a row is lost: accepted while learning, so never recorded, and rejected
      after the reload. */
  lemma UnbackedIsLost(o: Owner, text: string)
    requires |Key(text)| > 0
    ensures var w := World([], map[Key(text) := 1], LearningMode);
            var asked := Step(w, o, Ask(text, true, true, true));
            var w' := Step(Step(asked, o, Reload([], true)), o, SetStatus(AlwaysBlockNew));
            Accepts(w, text, true) && Fetched([], asked.rows, o) &&
            !Accepts(w', text, true)
  {
    hide Pattern;
  }

  /** Queries that differ only in their literals have one key, so learning any of them learns all. */
  lemma {:induction false} SameKey(t: Template, f: seq<string>, g: seq<string>, text: string, later: string)
    requires |f| == |g| == HoleCount(t) && Fits(t, f) && Fits(t, g) && CommentsFit(t)
    requires LowerCase(text) == Fill(t, f) && LowerCase(later) == Fill(t, g)
    ensures Key(text) == Key(later)
  {
    ValueBlind(t, f);
    ValueBlind(t, g);
  }

  // ---- enforcing ----

  // The patterns handed to the whitelist during a run.
  function LearnedIn(w: World, o: Owner, es: seq<Event>): set<string>
    decreases |es|
  {
    if |es| == 0 then {}
    else (if Learns(w, es[0]) then {Key(es[0].text)} else {}) + LearnedIn(Step(w, o, es[0]), o, es[1..])
  }

  // Nothing is cached or recorded beyond `trusted`.
  predicate Within(w: World, o: Owner, trusted: set<string>) {
    (forall p :: p in w.cache ==> p in trusted) &&
    (forall r :: r in w.rows && Mine(r, o) && r.perm > 0 ==> r.query in trusted)
  }

  lemma StepWithin(w: World, o: Owner, e: Event, trusted: set<string>)
    requires Within(w, o, trusted) && Possible(w, o, e)
    requires Learns(w, e) ==> Key(e.text) in trusted
    ensures Within(Step(w, o, e), o, trusted)
  {
    hide Pattern;
    if e.Reload? && e.read {
      forall p | p in Loaded(e.cursor)
        ensures p in trusted
      {
        ReloadedExactly(e.cursor, w.rows, o, p);
      }
    }
  }

  lemma {:induction false} RunWithin(w: World, o: Owner, es: seq<Event>, trusted: set<string>)
    requires Within(w, o, trusted) && PossibleRun(w, o, es) && LearnedIn(w, o, es) <= trusted
    ensures Within(Run(w, o, es), o, trusted)
    decreases |es|
  {
    hide Step, Within, Possible, Key;
    if |es| > 0 {
      assert Learns(w, es[0]) ==> Key(es[0].text) in LearnedIn(w, o, es);
      StepWithin(w, o, es[0], trusted);
      RunWithin(Step(w, o, es[0]), o, es[1..], trusted);
    }
  }

  /** Whatever happened before, blocking new queries accepts nothing but patterns that were in the
      cache or granted by the table at the start, or were learned since. */
  lemma EnforcedOnly(w: World, o: Owner, es: seq<Event>, text: string, permitted: bool)
    requires PossibleRun(w, o, es) && Run(w, o, es).status.AlwaysBlockNew?
    requires Accepts(Run(w, o, es), text, permitted)
    ensures Key(text) in w.cache || Allowed(w.rows, o, Key(text)) || Key(text) in LearnedIn(w, o, es)
  {
    hide PossibleRun, Run, LearnedIn, Key;
    var trusted := w.cache.Keys + (set r | r in w.rows && Mine(r, o) && r.perm > 0 :: r.query) + LearnedIn(w, o, es);
    assert Within(w, o, trusted);
    RunWithin(w, o, es, trusted);
    assert Key(text) in trusted;
  }

  // ---- every mode ----

  /** What a mode says of a query that is not in the whitelist: blocking new queries refuses it,
      learning takes it, and the other four follow the permission test. */
  predicate ByMode(mode: BlockStatus, permitted: bool) {
    match mode
    case AlwaysBlockNew => false
    case LearningMode => true
    case LearningMode3Days => true
    case LearningMode7Days => true
    case RiskBlock => permitted
    case PrivilegeBlock => permitted
    case RiskSimulation => permitted
    case PrivilegeSimulation => permitted
  }

  datatype Reloaded = Never | From(rows: seq<Row>)

  // The table as the last reload of the run that could read it found it.
  function LastReload(w: World, o: Owner, es: seq<Event>): Reloaded
    decreases |es|
  {
    if |es| == 0 then Never
    else
      var later := LastReload(Step(w, o, es[0]), o, es[1..]);
      if later.From? then later else if es[0].Reload? && es[0].read then From(w.rows) else Never
  }

  /** After every run a pattern is cached exactly when the last reload found a row that grants it and
      it is not empty, or, without a reload, when it was cached at the start. */
  lemma {:induction false} CachedExactly(w: World, o: Owner, es: seq<Event>, p: string)
    requires PossibleRun(w, o, es)
    ensures Cached(Run(w, o, es).cache, p) != 0 <==>
            match LastReload(w, o, es)
            case Never => Cached(w.cache, p) != 0
            case From(rows) => |p| > 0 && Allowed(rows, o, p)
    decreases |es|
  {
    hide Key, Allowed, Added, Learns;
    if |es| > 0 {
      var next := Step(w, o, es[0]);
      CachedExactly(next, o, es[1..], p);
      if es[0].Reload? && es[0].read {
        ReloadedExactly(es[0].cursor, w.rows, o, p);
        LoadedPositive(es[0].cursor);
      }
    }
  }

  /** The verdict after every run, in every mode. */
  lemma {:induction false} VerdictExactly(w: World, o: Owner, es: seq<Event>, text: string, permitted: bool)
    requires PossibleRun(w, o, es)
    ensures Accepts(Run(w, o, es), text, permitted) <==>
            ByMode(Run(w, o, es).status, permitted) ||
            match LastReload(w, o, es)
            case Never => Cached(w.cache, Key(text)) != 0
            case From(rows) => |Key(text)| > 0 && Allowed(rows, o, Key(text))
  {
    hide Key, Run, PossibleRun, LastReload, Allowed;
    CachedExactly(w, o, es, Key(text));
  }

  // The mode after a run is the last that was set.
  lemma {:induction false} ModeIsLastSet(w: World, o: Owner, es: seq<Event>)
    ensures Run(w, o, es).status ==
            if exists i :: 0 <= i < |es| && es[i].SetStatus? then LastSet(es) else w.status
    decreases |es|
  {
    hide Key;
    if |es| > 0 {
      ModeIsLastSet(Step(w, o, es[0]), o, es[1..]);
      assert forall i :: 0 < i < |es| ==> es[i] == es[1..][i - 1];
    }
  }

  function LastSet(es: seq<Event>): BlockStatus
    requires exists i :: 0 <= i < |es| && es[i].SetStatus?
    decreases |es|
  {
    var tail := es[1..];
    if exists i :: 0 <= i < |tail| && tail[i].SetStatus? then LastSet(tail)
    else
      assert forall i :: 0 < i < |es| ==> es[i] == tail[i - 1];
      es[0].status
  }

  // ---- letters ----

  // The same letter, large or small, in codes.
  predicate SameLetter(c: char, d: char) {
    c == d || (65 <= c as int <= 90 && d as int == c as int + 32) || (65 <= d as int <= 90 && c as int == d as int + 32)
  }

  /** Queries that differ only in the case of letters have one key. */
  lemma {:induction false} CaseBlind(a: string, b: string)
    requires |a| == |b| && forall i :: 0 <= i < |a| ==> SameLetter(a[i], b[i])
    ensures Key(a) == Key(b)
  {
    hide Pattern;
    assert LowerCase(a) == LowerCase(b);
  }

  /** The key is that of the query with its capital letters, and nothing else, made small. */
  lemma {:induction false} LowerCaseExactly(a: string, i: nat)
    requires i < |a|
    ensures |LowerCase(a)| == |a|
    ensures LowerCase(a)[i] as int == a[i] as int + if 65 <= a[i] as int <= 90 then 32 else 0
  {
  }

  // ---- the objects ----

  class QueryTable {
    var rows: seq<Row>

    constructor ()
      ensures rows == []
    {
      rows := [];
    }
  }

  class DbPermissions {
    const proxyId: int
    const dbName: string
    var blockStatus: BlockStatus
    var exceptions: map<string, int>

    constructor (name: string, id: int, status: BlockStatus)
      ensures Whose() == Owner(id, name) && blockStatus == status && exceptions == map[]
    {
      proxyId, dbName, blockStatus, exceptions := id, name, status, map[];
    }

    function Whose(): Owner {
      Owner(proxyId, dbName)
    }

    /** `cursor` is what the database returned, if the query worked. */
    method LoadWhitelist(cursor: seq<Row>, read: bool) returns (done: bool)
      modifies this`exceptions
      ensures done == read
      ensures exceptions == if read then Loaded(cursor) else old(exceptions)
    {
      if !read {
        return false;
      }
      var list: map<string, int> := map[];
      var k := 0;
      while k < |cursor|
        invariant k <= |cursor| && list == Loaded(cursor[..k])
      {
        assert cursor[..k + 1][..k] == cursor[..k];
        var perm, q := cursor[k].perm, cursor[k].query;
        if perm > 0 && |q| > 0 {
          if q !in list {
            list := list[q := perm];
          }
        }
        k := k + 1;
      }
      assert cursor[..k] == cursor;
      exceptions := list;
      done := true;
    }

    method CheckWhitelist(q: string) returns (perm: int)
      ensures perm == Cached(exceptions, q)
    {
      if q !in exceptions {
        return 0;
      }
      perm := exceptions[q];
    }

    method AddToWhitelist(table: QueryTable, pattern: string, read: bool, written: bool) returns (done: bool)
      modifies table
      ensures table.rows == Added(old(table.rows), Whose(), pattern, read, written)
      ensures done <==> read && (Known(old(table.rows), Whose(), pattern) || written)
      ensures table.rows == old(table.rows) || table.rows == old(table.rows) + [Row(proxyId, dbName, pattern, 1)]
    {
      if !read {
        return false;
      }
      if Known(table.rows, Whose(), pattern) {
        return true;
      }
      if !written {
        return false;
      }
      table.rows := table.rows + [Row(proxyId, dbName, pattern, 1)];
      done := true;
    }
  }

  // ---- checking a query ----

  datatype Level = Warn | Blocked | HighRisk | Low

  /** What is logged about a query that is not in the whitelist. */
  datatype Report = Silent | Alert(level: Level) | Learned(level: Level)

  datatype Limits = Limits(warn: int, block: int)

  class Connection {
    const db: DbPermissions
    const table: QueryTable
    const limits: Limits

    constructor (db: DbPermissions, table: QueryTable, limits: Limits)
      ensures this.db == db && this.table == table && this.limits == limits
    {
      this.db, this.table, this.limits := db, table, limits;
    }

    function Abs(): World
      reads db, table
    {
      World(table.rows, db.exceptions, db.blockStatus)
    }

    // The highest level whose limit the risk reaches, the blocking limit first.
    function LevelOf(risk: int): (level: Level)
      ensures level == HighRisk <==> risk >= limits.block
      ensures level == Warn <==> limits.warn <= risk < limits.block
      ensures level == Low <==> risk < limits.block && risk < limits.warn
    {
      if risk >= limits.block then HighRisk else if risk >= limits.warn then Warn else Low
    }

    method CheckQuery(text: string, risk: int, read: bool, written: bool, permitted: bool)
      returns (accepted: bool, pattern: string, report: Report)
      requires 0 < |text| && |text| + 4 <= INDEX_RANGE
      modifies table
      ensures pattern == Key(text)
      ensures accepted == Accepts(old(Abs()), text, permitted)
      ensures Abs() == Step(old(Abs()), db.Whose(), Ask(text, read, written, permitted))
      ensures accepted <==> Cached(db.exceptions, pattern) != 0 || ByMode(db.blockStatus, permitted)
      ensures Cached(db.exceptions, pattern) != 0 ==> report == Silent && table.rows == old(table.rows)
      ensures Cached(db.exceptions, pattern) == 0 ==>
                match db.blockStatus
                case AlwaysBlockNew => report == Alert(Blocked)
                case LearningMode => report == Learned(LevelOf(risk))
                case LearningMode3Days => report == Learned(LevelOf(risk))
                case LearningMode7Days => report == Learned(LevelOf(risk))
                case _ => report == if risk >= limits.block || risk >= limits.warn then Alert(Warn) else Silent
    {
      hide Pattern;
      var query := new Query(LowerCase(text));
      query.NormalizeQuery();
      pattern := query.text;
      var inWhitelist := db.CheckWhitelist(pattern);
      if inWhitelist != 0 {
        return true, pattern, Silent;
      }
      if db.blockStatus.AlwaysBlockNew? {
        return false, pattern, Alert(Blocked);
      }
      if Learning(db.blockStatus) {
        var _ := db.AddToWhitelist(table, pattern, read, written);
        report := Learned(if risk >= limits.block then HighRisk else if risk >= limits.warn then Warn else Low);
        return true, pattern, report;
      }
      report := if risk >= limits.block || risk >= limits.warn then Alert(Warn) else Silent;
      accepted := permitted;
    }
  }
}
