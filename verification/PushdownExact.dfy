/** Exactly when the pushed query, finished by the caller, has the answer to the intent. */
module PushdownExact {
  import opened Wrappers
  import opened ODataFilter
  import opened Pushdown
  import opened StableSort
  import opened PushdownServer
  import opened PushdownTheorems
  import opened SqlOperators

  /** What the caller ends up with when the server runs these options. */
  ghost function Delivered(m: Meaning, cfg: Config, intent: Intent, o: Options, rows: seq<Row>): seq<Row> {
    Finished(m, cfg, intent, Run(m, o, rows).rows)
  }

  /** Whatever predicates and orderings mean, and whatever the rows are, the caller gets its answer. */
  ghost predicate KeepsAnswer(cfg: Config, intent: Intent, o: Options) {
    forall m: Meaning, rows: seq<Row> ::
      TotalPreorder(m.le(intent.orderBy)) ==> Delivered(m, cfg, intent, o, rows) == Answer(m, intent, rows)
  }

  function Offset(intent: Intent): nat {
    match NonNegative(intent.offset) case None => 0 case Some(n) => n
  }

  function Limit(intent: Intent): Option<nat> {
    NonNegative(intent.limit)
  }

  /** A residual predicate that the server has checked already. */
  predicate Redundant(cfg: Config, intent: Intent, r: Pred) {
    NormalizeOperator(r.operator) != "" && TermOf(r) in Terms(Pushed(cfg, intent))
  }

  /** The options say what the intent's ORDER BY, LIMIT and OFFSET say. */
  predicate ClausesReach(intent: Intent, o: Options) {
    o.orders == intent.orderBy && o.top == Limit(intent) && o.skip == Offset(intent)
  }

  /** The columns the server returns hold all that the caller still filters by. */
  predicate SelectSafe(cfg: Config, intent: Intent, o: Options) {
    o.columns == [] || forall r :: r in Residual(cfg, intent) ==> r.column in o.columns
  }

  /** The server cuts nothing, or the caller's filter has nothing left to remove. */
  predicate CutSafe(cfg: Config, intent: Intent) {
    (Limit(intent) == None && Offset(intent) == 0) || forall r :: r in Residual(cfg, intent) ==>
        Redundant(cfg, intent, r)
  }

  /** An intent for no rows at all only needs its limit to reach the server. */
  predicate AnswerSafe(cfg: Config, intent: Intent, o: Options) {
    if Limit(intent) == Some(0) then o.top == Some(0)
    else ClausesReach(intent, o) && SelectSafe(cfg, intent, o) && CutSafe(cfg, intent)
  }

  // --- the same, on the config and the intent alone ------------------------------------------------

  /** A bound that means something is emitted, and not clamped. */
  predicate BoundReaches(v: Option<int>, c: Option<BoundConfig>, name: string) {
    NonNegative(v) == None || (c.Some? && name != "" && (c.value.maxValue <= 0 || v.value <= c.value.maxValue))
  }

  predicate TopReaches(cfg: Config, intent: Intent) {
    BoundReaches(intent.limit, cfg.top, if cfg.top.Some? then TopName(cfg.top.value) else "")
  }

  predicate SkipReaches(cfg: Config, intent: Intent) {
    Offset(intent) == 0 || BoundReaches(intent.offset, cfg.skip, if cfg.skip.Some? then SkipName(cfg.skip.value)
        else "")
  }

  /** The ordering is empty, or every column of it is supported by a named section of OData syntax. */
  predicate OrderReaches(cfg: Config, intent: Intent) {
    intent.orderBy == [] ||
    (cfg.orderBy.Some? && EqualFold(OrderBySyntax(cfg.orderBy.value), ODATA) && OrderByName(cfg.orderBy.value) != "" &&
     forall o :: o in intent.orderBy ==> IsItemSupported(o.column, cfg.orderBy.value.columns))
  }

  /** No projection is pushed, or it holds all that the caller still filters by. */
  predicate SelectFits(cfg: Config, intent: Intent) {
    SelectParam(cfg, intent).None? || forall r :: r in Residual(cfg, intent) ==> r.column in intent.projection
  }

  predicate IntentSafe(cfg: Config, intent: Intent) {
    && TopReaches(cfg, intent)
    && (Limit(intent) == Some(0) ||
        (SkipReaches(cfg, intent) && OrderReaches(cfg, intent) && SelectFits(cfg, intent) && CutSafe(cfg, intent)))
  }

  lemma {:induction false} BoundReachesExactly(v: Option<int>, c: Option<BoundConfig>, name: string)
    ensures EmittedBound(BoundParam(v, c, name), v, c) == NonNegative(v) <==> BoundReaches(v, c, name)
    ensures var emitted := EmittedBound(BoundParam(v, c, name), v, c);
      emitted.Some? ==> NonNegative(v).Some? && emitted.value <= NonNegative(v).value
  {
  }

  lemma {:induction false} SkipReachesExactly(cfg: Config, intent: Intent)
    ensures EmittedOptions(cfg, intent).skip == Offset(intent) <==> SkipReaches(cfg, intent)
  {
    hide SelectParam, OrderByParam, CountParam, Pushed, Terms, TopParam, EmittedBound, BoundReaches;
    BoundReachesExactly(intent.offset, cfg.skip, if cfg.skip.Some? then SkipName(cfg.skip.value) else "");
  }

  lemma {:induction false} OrderReachesExactly(cfg: Config, intent: Intent)
    ensures EmittedOptions(cfg, intent).orders == intent.orderBy <==> OrderReaches(cfg, intent)
  {
    hide SelectParam, CountParam, Pushed, Terms, TopParam, SkipParam, EmittedBound, IsItemSupported, EqualFold;
  }

  lemma {:induction false} SelectFitsExactly(cfg: Config, intent: Intent)
    ensures SelectSafe(cfg, intent, EmittedOptions(cfg, intent)) <==> SelectFits(cfg, intent)
  {
    assert SelectParam(cfg, intent).Some? ==> intent.projection != [];
    hide SelectParam, OrderByParam, CountParam, Pushed, Residual, Terms, TopParam, SkipParam, EmittedBound;
  }

  /** The condition on what was emitted, said of the config and the intent. */
  lemma {:induction false} IntentSafeExactly(cfg: Config, intent: Intent)
    ensures AnswerSafe(cfg, intent, EmittedOptions(cfg, intent)) <==> IntentSafe(cfg, intent)
  {
    BoundReachesExactly(intent.limit, cfg.top, if cfg.top.Some? then TopName(cfg.top.value) else "");
    assert EmittedOptions(cfg, intent).top == Limit(intent) <==> TopReaches(cfg, intent);
    SkipReachesExactly(cfg, intent);
    OrderReachesExactly(cfg, intent);
    SelectFitsExactly(cfg, intent);
    hide EmittedOptions, TopReaches, SkipReaches, OrderReaches, SelectFits, SelectSafe, CutSafe, Limit, Offset;
  }

  // --- enough -----------------------------------------------------------------------------------

  lemma {:induction false} SatProjected(m: Meaning, ps: seq<Pred>, columns: seq<string>, row: Row)
    requires forall p :: p in ps ==> p.column in columns
    ensures SatAll(m, ps, Project(columns, row)) <==> SatAll(m, ps, row)
  {
    hide NormalizeOperator;
    forall i | 0 <= i < |ps| ensures Sat(m, ps[i], Project(columns, row)) <==> Sat(m, ps[i], row) {
      assert ps[i] in ps;
      assert Cell(Project(columns, row), ps[i].column) == Cell(row, ps[i].column);
    }
  }

  lemma {:induction false} FilterProjected(keep: Row -> bool, columns: seq<string>, rows: seq<Row>)
    requires columns != [] && forall i :: 0 <= i < |rows| ==> (keep(Project(columns, rows[i])) <==> keep(rows[i]))
    ensures Filter(keep, Projected(columns, rows)) == Projected(columns, Filter(keep, rows))
  {
    if rows == [] {
      assert Projected(columns, []) == [];
    } else {
      var row, rest := rows[0], rows[1..];
      assert rows == [row] + rest && (keep(Project(columns, row)) <==> keep(row));
      hide Project, Projected;
      FilterProjected(keep, columns, rest);
      ProjectedCons(columns, row, rest);
      ProjectedCons(columns, row, Filter(keep, rest));
      FilterCons(keep, row, rest);
      FilterCons(keep, Project(columns, row), Projected(columns, rest));
    }
  }

  lemma {:induction false} ProjectedCons(columns: seq<string>, row: Row, rest: seq<Row>)
    requires columns != []
    ensures Projected(columns, [row] + rest) == [Project(columns, row)] + Projected(columns, rest)
  {
    hide Project;
  }

  lemma {:induction false} FilterCons<T>(keep: T -> bool, x: T, rest: seq<T>)
    ensures Filter(keep, [x] + rest) == if keep(x) then [x] + Filter(keep, rest) else Filter(keep, rest)
  {
    assert ([x] + rest)[1..] == rest;
  }

  /** A filter on columns that are kept may come before the projection or after it. */
  lemma {:induction false} WhereProjected(m: Meaning, ps: seq<Pred>, columns: seq<string>, rows: seq<Row>)
    requires columns == [] || forall p :: p in ps ==> p.column in columns
    ensures Where(m, ps, Projected(columns, rows)) == Projected(columns, Where(m, ps, rows))
  {
    hide SatAll, Filter;
    if columns != [] {
      forall row ensures SatAll(m, ps, Project(columns, row)) <==> SatAll(m, ps, row) {
        SatProjected(m, ps, columns, row);
      }
      FilterProjected(row => SatAll(m, ps, row), columns, rows);
    }
  }

  lemma {:induction false} WhereAll(m: Meaning, ps: seq<Pred>, rows: seq<Row>)
    requires forall row :: row in rows ==> SatAll(m, ps, row)
    ensures Where(m, ps, rows) == rows
  {
    hide SatAll;
    FilterAll(row => SatAll(m, ps, row), rows);
  }

  lemma {:induction false} WhereNone(m: Meaning, ps: seq<Pred>, rows: seq<Row>)
    requires forall row :: row in rows ==> !SatAll(m, ps, row)
    ensures Where(m, ps, rows) == []
  {
    hide SatAll;
    FilterNone(row => SatAll(m, ps, row), rows);
  }

  /** The server's rows, once cut, before it projects them. */
  ghost function Cut(m: Meaning, cfg: Config, intent: Intent, o: Options, rows: seq<Row>): seq<Row> {
    Taken(Dropped(Ordered(m, o.orders, ServerFiltered(m, cfg, intent, rows)), o.skip), o.top)
  }

  ghost predicate Runs(cfg: Config, intent: Intent, o: Options) {
    o.terms == Terms(Pushed(cfg, intent)) && (o.columns == [] || o.columns == intent.projection)
  }

  lemma {:induction false} DeliveredForm(m: Meaning, cfg: Config, intent: Intent, o: Options, rows: seq<Row>)
    requires Runs(cfg, intent, o)
    ensures Delivered(m, cfg, intent, o, rows) ==
      Projected(intent.projection, Where(m, Residual(cfg, intent), Projected(o.columns, Cut(m, cfg, intent, o, rows))))
    ensures Run(m, o, rows).count == if o.counted then Some(|ServerFiltered(m, cfg, intent, rows)|) else None
  {
    hide HoldsAll, Residual, Where, Terms, Pushed, Ordered, Dropped, Taken, Projected;
  }

  lemma {:induction false} AnswerForm(m: Meaning, intent: Intent, rows: seq<Row>)
    ensures Answer(m, intent, rows) ==
      Projected(intent.projection,
          Taken(Dropped(Ordered(m, intent.orderBy, Where(m, intent.predicates, rows)), Offset(intent)), Limit(intent)))
  {
  }

  /** Dropping and taking only leave rows out, ordering keeps them all. */
  lemma {:induction false} CutMembers(m: Meaning, cfg: Config, intent: Intent, o: Options, rows: seq<Row>, row: Row)
    requires TotalPreorder(m.le(o.orders)) && row in Cut(m, cfg, intent, o, rows)
    ensures row in ServerFiltered(m, cfg, intent, rows)
  {
    hide ServerFiltered, TotalPreorder;
    var filtered := ServerFiltered(m, cfg, intent, rows);
    var ordered := Ordered(m, o.orders, filtered);
    assert row in ordered;
    if o.orders != [] {
      SortSorts(m.le(o.orders), filtered);
      assert row in multiset(ordered);
    }
  }

  /** A row that passed the server's filter passes a redundant residual one. */
  lemma {:induction false} RedundantHolds(m: Meaning, cfg: Config, intent: Intent, rows: seq<Row>, row: Row)
    requires row in ServerFiltered(m, cfg, intent, rows) && forall r :: r in Residual(cfg, intent) ==>
        Redundant(cfg, intent, r)
    ensures SatAll(m, Residual(cfg, intent), row)
  {
    hide Residual, Pushed, NormalizeOperator, TermOf, Terms;
    FilterMember(r => HoldsAll(m, Terms(Pushed(cfg, intent)), r), rows, row);
    forall i | 0 <= i < |Residual(cfg, intent)| ensures Sat(m, Residual(cfg, intent)[i], row) {
      var r := Residual(cfg, intent)[i];
      assert Redundant(cfg, intent, r);
      var k :| 0 <= k < |Terms(Pushed(cfg, intent))| && Terms(Pushed(cfg, intent))[k] == TermOf(r);
      assert Holds(m, Terms(Pushed(cfg, intent))[k], row);
      TermMeansPred(m, r, row);
    }
  }

  lemma {:induction false} TermColumn(r: Pred)
    ensures TermOf(r).column == r.column
  {
  }

  /** With every residual predicate redundant, the server's filter is the whole WHERE. */
  lemma {:induction false} ServerFiltersAll(m: Meaning, cfg: Config, intent: Intent, rows: seq<Row>)
    requires forall r :: r in Residual(cfg, intent) ==> Redundant(cfg, intent, r)
    ensures ServerFiltered(m, cfg, intent, rows) == Where(m, intent.predicates, rows)
  {
    hide Residual, ServerFiltered, Where, Redundant, SatAll;
    var filtered := ServerFiltered(m, cfg, intent, rows);
    forall row | row in filtered ensures SatAll(m, Residual(cfg, intent), row) {
      RedundantHolds(m, cfg, intent, rows, row);
    }
    WhereAll(m, Residual(cfg, intent), filtered);
    FiltersCompose(m, cfg, intent, rows);
  }

  lemma {:induction false} AnswerKept(m: Meaning, cfg: Config, intent: Intent, o: Options, rows: seq<Row>)
    requires Runs(cfg, intent, o) && AnswerSafe(cfg, intent, o) && TotalPreorder(m.le(intent.orderBy))
    ensures Delivered(m, cfg, intent, o, rows) == Answer(m, intent, rows)
  {
    hide Delivered, Answer, Residual, Where, Ordered, ServerFiltered, TotalPreorder, Projected, Redundant, Cut;
    DeliveredForm(m, cfg, intent, o, rows);
    AnswerForm(m, intent, rows);
    if Limit(intent) == Some(0) {
      NothingTaken(m, cfg, intent, o, rows);
    } else {
      var res, cut := Residual(cfg, intent), Cut(m, cfg, intent, o, rows);
      WhereProjected(m, res, o.columns, cut);
      ProjectedTwice(intent.projection, Where(m, res, cut));
      ProjectedNone(Where(m, res, cut));
      if Limit(intent) == None && Offset(intent) == 0 {
        NothingCut(m, cfg, intent, o, rows);
      } else {
        forall row | row in cut ensures SatAll(m, res, row) {
          CutMembers(m, cfg, intent, o, rows, row);
          RedundantHolds(m, cfg, intent, rows, row);
        }
        WhereAll(m, res, cut);
        ServerFiltersAll(m, cfg, intent, rows);
        CutIs(m, cfg, intent, o, rows);
      }
    }
  }

  lemma {:induction false} ProjectedNone(rows: seq<Row>)
    ensures Projected([], rows) == rows
  {
  }

  lemma {:induction false} CutIs(m: Meaning, cfg: Config, intent: Intent, o: Options, rows: seq<Row>)
    ensures Cut(m, cfg, intent, o, rows) ==
        Taken(Dropped(Ordered(m, o.orders, ServerFiltered(m, cfg, intent, rows)), o.skip), o.top)
  {
  }

  lemma {:induction false} NothingTaken(m: Meaning, cfg: Config, intent: Intent, o: Options, rows: seq<Row>)
    requires o.top == Some(0)
    ensures Projected(intent.projection,
        Where(m, Residual(cfg, intent), Projected(o.columns, Cut(m, cfg, intent, o, rows)))) == []
    ensures forall some :: Projected(intent.projection, Taken(some, Some(0))) == []
  {
    hide Residual, Ordered, ServerFiltered, SatAll;
    assert Cut(m, cfg, intent, o, rows) == [];
    assert Projected(o.columns, []) == [];
    WhereAll(m, Residual(cfg, intent), []);
  }

  lemma {:induction false} NothingCut(m: Meaning, cfg: Config, intent: Intent, o: Options, rows: seq<Row>)
    requires ClausesReach(intent, o) && Limit(intent) == None && Offset(intent) == 0 &&
        TotalPreorder(m.le(intent.orderBy))
    ensures Where(m, Residual(cfg, intent), Cut(m, cfg, intent, o, rows)) ==
      Taken(Dropped(Ordered(m, intent.orderBy, Where(m, intent.predicates, rows)), Offset(intent)), Limit(intent))
  {
    hide Residual, Ordered, ServerFiltered, Where, TotalPreorder;
    StillFiltering(m, cfg, intent, rows);
    var ordered := Ordered(m, intent.orderBy, ServerFiltered(m, cfg, intent, rows));
    var answer := Ordered(m, intent.orderBy, Where(m, intent.predicates, rows));
    assert ordered[0..] == ordered && answer[0..] == answer;
  }

  // --- needed: rows and meanings that show each failure ----------------------------------------------

  /** The columns a query speaks of. */
  function Spoken(intent: Intent): set<string> {
    (set c | c in intent.projection) + (set p | p in intent.predicates :: p.column) + {""}
  }

  /** A row with `n` in every column spoken of. */
  function Sample(intent: Intent, n: int): Row {
    map c | c in Spoken(intent) :: IntValue(n)
  }

  function Repeat(row: Row, n: nat): (rows: seq<Row>)
    ensures |rows| == n && forall r :: r in rows ==> r == row
  {
    seq(n, _ => row)
  }

  /** All rows rank alike. */
  function Testing(compare: (Option<Value>, Test) -> bool, other: (Option<Value>, Pred) -> bool): Meaning {
    Meaning(compare, other, os => (x, y) => true)
  }

  lemma {:induction false} AlikeSort<T(!new)>(le: (T, T) -> bool, s: seq<T>)
    requires forall x, y :: le(x, y)
    ensures Sort(le, s) == s
  {
    if s != [] {
      AlikeSort(le, s[1..]);
      assert s == [s[0]] + s[1..];
    }
  }

  /** Rows the server filter keeps, unordered. */
  lemma {:induction false} AlikeCut(m: Meaning, cfg: Config, intent: Intent, o: Options, rows: seq<Row>)
    requires (forall x, y :: m.le(o.orders)(x, y)) && forall row :: row in rows ==>
        HoldsAll(m, Terms(Pushed(cfg, intent)), row)
    ensures Cut(m, cfg, intent, o, rows) == Taken(Dropped(rows, o.skip), o.top)
  {
    hide HoldsAll, Pushed, Terms;
    FilterAll(row => HoldsAll(m, Terms(Pushed(cfg, intent)), row), rows);
    AlikeSort(m.le(o.orders), rows);
  }

  lemma {:induction false} AlikeAnswer(m: Meaning, intent: Intent, kept: seq<Row>, rows: seq<Row>)
    requires (forall x, y :: m.le(intent.orderBy)(x, y)) && Where(m, intent.predicates, rows) == kept
    ensures Answer(m, intent, rows) == Projected(intent.projection, Taken(Dropped(kept, Offset(intent)), Limit(intent)))
  {
    hide Where;
    AlikeSort(m.le(intent.orderBy), kept);
  }

  /** Residual predicates are among the intent's, and so are pushed ones. */
  lemma {:induction false} SplitMembers(cfg: Config, intent: Intent)
    ensures forall p :: p in intent.predicates <==> p in Pushed(cfg, intent) || p in Residual(cfg, intent)
  {
    hide Pushed, Residual;
    PushedAndResidualPartition(cfg, intent);
    forall p ensures p in intent.predicates <==> p in Pushed(cfg, intent) || p in Residual(cfg, intent) {
      assert p in multiset(intent.predicates) <==>
          p in multiset(Pushed(cfg, intent)) || p in multiset(Residual(cfg, intent));
    }
  }

  /** A row that satisfies every predicate passes both filters, also with some columns gone. */
  lemma {:induction false} GoodRow(m: Meaning, cfg: Config, intent: Intent, row: Row)
    requires forall p :: p in intent.predicates ==> Sat(m, p, row)
    ensures SatAll(m, intent.predicates, row) && SatAll(m, Residual(cfg, intent), row) &&
        HoldsAll(m, Terms(Pushed(cfg, intent)), row)
  {
    hide Pushed, Residual, Sat;
    SplitMembers(cfg, intent);
    SatByMembership(m, intent.predicates, row);
    SatByMembership(m, Residual(cfg, intent), row);
    SatByMembership(m, Pushed(cfg, intent), row);
    TermsMeanPushed(m, cfg, intent, row);
  }

  /** When rows and what is left of them satisfy everything, only the cut decides how many come back. */
  lemma {:induction false} GoodRows(m: Meaning, cfg: Config, intent: Intent, o: Options, rows: seq<Row>)
    requires Runs(cfg, intent, o) && forall os, x, y :: m.le(os)(x, y)
    requires forall row, p :: row in rows && p in intent.predicates ==>
        Sat(m, p, row) && (o.columns != [] ==> Sat(m, p, Project(o.columns, row)))
    ensures |Delivered(m, cfg, intent, o, rows)| == |Taken(Dropped(rows, o.skip), o.top)|
    ensures |Answer(m, intent, rows)| == |Taken(Dropped(rows, Offset(intent)), Limit(intent))|
  {
    hide Pushed, Residual, Sat, SatAll, HoldsAll, Where, Terms, Cut, Delivered, Answer, Project;
    var cut := Taken(Dropped(rows, o.skip), o.top);
    forall row | row in rows ensures SatAll(m, intent.predicates, row) && HoldsAll(m, Terms(Pushed(cfg, intent)), row) {
      GoodRow(m, cfg, intent, row);
    }
    AlikeCut(m, cfg, intent, o, rows);
    WhereAll(m, intent.predicates, rows);
    AlikeAnswer(m, intent, rows, rows);
    DeliveredForm(m, cfg, intent, o, rows);
    forall row | row in Projected(o.columns, cut) ensures SatAll(m, Residual(cfg, intent), row) {
      GoodProjected(m, cfg, intent, o, rows, cut, row);
    }
    WhereAll(m, Residual(cfg, intent), Projected(o.columns, cut));
  }

  lemma {:induction false} GoodProjected(m: Meaning, cfg: Config, intent: Intent, o: Options, rows: seq<Row>,
          cut: seq<Row>, row: Row)
    requires forall row, p :: row in rows && p in intent.predicates ==>
        Sat(m, p, row) && (o.columns != [] ==> Sat(m, p, Project(o.columns, row)))
    requires row in Projected(o.columns, cut) && cut == Taken(Dropped(rows, o.skip), o.top)
    ensures SatAll(m, Residual(cfg, intent), row)
  {
    hide Residual, Sat, SatAll, Project;
    var i :| 0 <= i < |cut| && row == if o.columns == [] then cut[i] else Project(o.columns, cut[i]);
    assert cut[i] in rows;
    GoodRow(m, cfg, intent, row);
  }

  /** What emitting can do to the clauses: leave them out, or clamp a bound. */
  ghost predicate Plausible(intent: Intent, o: Options) {
    && (o.orders == [] || o.orders == intent.orderBy) && o.skip <= Offset(intent)
    && (o.top.Some? ==> Limit(intent).Some? && o.top.value <= Limit(intent).value)
    && (o.top == Some(0) ==> Limit(intent) == Some(0))
  }

  lemma {:induction false} EmittedIsPlausible(cfg: Config, intent: Intent)
    ensures Runs(cfg, intent, EmittedOptions(cfg, intent)) && Plausible(intent, EmittedOptions(cfg, intent))
  {
    hide SelectParam, OrderByParam, CountParam, Pushed, Terms;
  }

  /** A meaning under which everything holds. */
  function Anything(): Meaning {
    Testing((c, t) => true, (c, p) => true)
  }

  /** The answer differs although everything holds: a bound did not reach the server. */
  lemma {:induction false} BoundMissed(cfg: Config, intent: Intent, o: Options) returns (m: Meaning, rows: seq<Row>)
    requires Runs(cfg, intent, o) && Plausible(intent, o) &&
        (o.top != Limit(intent) || (Limit(intent) != Some(0) && o.skip != Offset(intent)))
    ensures TotalPreorder(m.le(intent.orderBy)) && Delivered(m, cfg, intent, o, rows) != Answer(m, intent, rows)
  {
    hide Delivered, Answer, Runs, NormalizeOperator;
    m := Anything();
    var n := if o.skip != Offset(intent) && Limit(intent) != Some(0) then Offset(intent)
             else if o.top.Some? then Offset(intent) + o.top.value + 1 else Offset(intent) + Limit(intent).value + 1;
    rows := Repeat(Sample(intent, 1), n);
    GoodRows(m, cfg, intent, o, rows);
  }

  // --- an ordering that did not reach the server

  function Number(row: Row): int {
    if "" in row && row[""].IntValue? then row[""].i else 0
  }

  /** Higher numbers first. */
  function Descending(): (Row, Row) -> bool {
    (x, y) => Number(x) >= Number(y)
  }

  lemma {:induction false} InsertPast(x: Row, y: Row, b: nat, a: nat)
    requires Number(x) < Number(y)
    ensures Insert(Descending(), x, Repeat(y, b) + Repeat(x, a)) == Repeat(y, b) + Repeat(x, a + 1)
  {
    var s := Repeat(y, b) + Repeat(x, a);
    if b == 0 {
      assert s == Repeat(x, a) && Repeat(y, 0) + Repeat(x, a + 1) == [x] + s;
    } else {
      assert s[1..] == Repeat(y, b - 1) + Repeat(x, a);
      InsertPast(x, y, b - 1, a);
      assert Repeat(y, b) + Repeat(x, a + 1) == [y] + (Repeat(y, b - 1) + Repeat(x, a + 1));
    }
  }

  lemma {:induction false} SortsDescending(x: Row, y: Row, a: nat, b: nat)
    requires Number(x) < Number(y)
    ensures Sort(Descending(), Repeat(x, a) + Repeat(y, b)) == Repeat(y, b) + Repeat(x, a)
    decreases a + b
  {
    var s := Repeat(x, a) + Repeat(y, b);
    if a > 0 {
      assert s[0] == x && s[1..] == Repeat(x, a - 1) + Repeat(y, b);
      SortsDescending(x, y, a - 1, b);
      InsertPast(x, y, b, a - 1);
    } else if b > 0 {
      assert s[0] == y && s[1..] == Repeat(x, 0) + Repeat(y, b - 1);
      SortsDescending(x, y, 0, b - 1);
      assert Repeat(y, b) + Repeat(x, 0) == [y] + (Repeat(y, b - 1) + Repeat(x, 0));
    }
  }

  /** Without the ordering the first row that comes back is another one. */
  lemma {:induction false} OrderMissed(cfg: Config, intent: Intent, o: Options) returns (m: Meaning, rows: seq<Row>)
    requires Runs(cfg, intent, o) && o.orders == [] != intent.orderBy
    requires o.top == Limit(intent) != Some(0) && o.skip == Offset(intent)
    ensures TotalPreorder(m.le(intent.orderBy)) && Delivered(m, cfg, intent, o, rows) != Answer(m, intent, rows)
  {
    hide Delivered, Answer, NormalizeOperator, Residual, Pushed, Sort, Where, Cut, Terms;
    m := Meaning((c, t) => true, (c, p) => true, os => Descending());
    var low, high, n := Sample(intent, 0), Sample(intent, 1), Offset(intent) + 1;
    rows := Repeat(low, n) + Repeat(high, n);
    SortsDescending(low, high, n, n);
    forall row ensures SatAll(m, intent.predicates, row) && SatAll(m, Residual(cfg, intent), row) &&
        HoldsAll(m, Terms(Pushed(cfg, intent)), row) {
      GoodRow(m, cfg, intent, row);
    }
    WhereAll(m, intent.predicates, rows);
    AnswerForm(m, intent, rows);
    DeliveredForm(m, cfg, intent, o, rows);
    UnorderedCut(m, cfg, intent, o, rows);
    var cut := Taken(Dropped(rows, o.skip), o.top);
    WhereAll(m, Residual(cfg, intent), Projected(o.columns, cut));
    FirstDiffer(intent, o, low, high, n);
  }

  lemma {:induction false} UnorderedCut(m: Meaning, cfg: Config, intent: Intent, o: Options, rows: seq<Row>)
    requires o.orders == [] && forall row :: row in rows ==> HoldsAll(m, Terms(Pushed(cfg, intent)), row)
    ensures Cut(m, cfg, intent, o, rows) == Taken(Dropped(rows, o.skip), o.top)
  {
    hide HoldsAll, Pushed, Terms;
    FilterAll(row => HoldsAll(m, Terms(Pushed(cfg, intent)), row), rows);
  }

  lemma {:induction false} FirstDiffer(intent: Intent, o: Options, low: Row, high: Row, n: nat)
    requires low == Sample(intent, 0) && high == Sample(intent, 1) && n == Offset(intent) + 1 &&
        o.skip == Offset(intent)
    requires (o.columns == [] || o.columns == intent.projection) && o.top == Limit(intent) != Some(0)
    ensures Projected(intent.projection,
        Projected(o.columns, Taken(Dropped(Repeat(low, n) + Repeat(high, n), o.skip), o.top))) !=
            Projected(intent.projection,
                Taken(Dropped(Repeat(high, n) + Repeat(low, n), Offset(intent)), Limit(intent)))
  {
    var x := Taken(Dropped(Repeat(low, n) + Repeat(high, n), o.skip), o.top);
    var y := Taken(Dropped(Repeat(high, n) + Repeat(low, n), Offset(intent)), Limit(intent));
    assert x[0] == low && y[0] == high;
    ProjectedTwice(intent.projection, x);
    if intent.projection == [] {
      assert low[""] != high[""];
    } else {
      assert Projected(intent.projection, x)[0] == Project(intent.projection, low);
      assert Projected(intent.projection, y)[0] == Project(intent.projection, high);
      assert Project(intent.projection, low)[intent.projection[0]] != Project(intent.projection,
          high)[intent.projection[0]];
    }
  }

  // --- a residual predicate on a column the server dropped

  /** The answer has rows, and what the server returned passes no residual predicate on a column it lacks. */
  lemma {:induction false} SelectMissed(cfg: Config, intent: Intent, o: Options, r: Pred)
          returns (m: Meaning, rows: seq<Row>)
    requires Runs(cfg, intent, o) && o.columns != [] && r in Residual(cfg, intent) && r.column !in o.columns &&
        Limit(intent) != Some(0)
    ensures TotalPreorder(m.le(intent.orderBy)) && Delivered(m, cfg, intent, o, rows) == [] != Answer(m, intent, rows)
  {
    hide NormalizeOperator, Residual, Pushed, Where, Cut, Delivered, Answer, Project;
    m := Testing((c: Option<Value>, t) => c.Some?, (c: Option<Value>, p) => c.Some?);
    var row := Sample(intent, 1);
    rows := Repeat(row, Offset(intent) + 1);
    forall p | p in intent.predicates ensures Sat(m, p, row) {
      TermColumn(p);
    }
    GoodRow(m, cfg, intent, row);
    WhereAll(m, intent.predicates, rows);
    AlikeAnswer(m, intent, rows, rows);
    DeliveredForm(m, cfg, intent, o, rows);
    var cut := Cut(m, cfg, intent, o, rows);
    forall back | back in Projected(o.columns, cut) ensures !SatAll(m, Residual(cfg, intent), back) {
      var i :| 0 <= i < |cut| && back == Project(o.columns, cut[i]);
      ColumnGone(m, o.columns, cut[i], r);
      SatByMembership(m, Residual(cfg, intent), back);
    }
    WhereNone(m, Residual(cfg, intent), Projected(o.columns, cut));
  }

  lemma {:induction false} ColumnGone(m: Meaning, columns: seq<string>, row: Row, r: Pred)
    requires r.column !in columns && !m.other(None, r) && forall t :: !m.compare(None, t)
    ensures !Sat(m, r, Project(columns, row))
  {
    hide Asked;
  }

  // --- a cut before a residual predicate that the server did not check

  /** Rows with 1 in the column of `r` satisfy everything, other rows fail `r` alone. */
  ghost function Picking(r: Pred): Meaning {
    Testing((c, t: Test) => Asked(r.operator) == Some(t.comparison) && t.column == r.column && t.value == r.value ==>
          c == Some(IntValue(1)),
        (c, p) => p == r ==> c == Some(IntValue(1)))
  }

  lemma {:induction false} OtherTest(r: Pred, p: Pred, row: Row)
    requires NormalizeOperator(p.operator) != "" && (NormalizeOperator(r.operator) == "" || TermOf(p) != TermOf(r))
    ensures Sat(Picking(r), p, row)
  {
    hide NormalizeOperator, Asked, Named, ODataName;
    AskedName(p.operator);
    AskedName(r.operator);
    AskedIsNamed(p.operator);
  }

  lemma {:induction false} Picked(cfg: Config, intent: Intent, r: Pred)
    requires r in Residual(cfg, intent) && !Redundant(cfg, intent, r)
    ensures var m, good, bad := Picking(r), Sample(intent, 1), Sample(intent, 0);
      && SatAll(m, intent.predicates, good) && HoldsAll(m, Terms(Pushed(cfg, intent)), good)
      && !SatAll(m, intent.predicates, bad) && HoldsAll(m, Terms(Pushed(cfg, intent)), bad)
  {
    hide NormalizeOperator, Residual, Pushed, Terms, Asked, TermOf;
    var m, good, bad := Picking(r), Sample(intent, 1), Sample(intent, 0);
    SplitMembers(cfg, intent);
    forall p | p in intent.predicates ensures Sat(m, p, good) {
      assert Cell(good, p.column) == Some(IntValue(1));
    }
    GoodRow(m, cfg, intent, good);
    assert Cell(bad, r.column) == Some(IntValue(0));
    assert !Sat(m, r, bad);
    SatByMembership(m, intent.predicates, bad);
    TermsLength(Pushed(cfg, intent));
    forall k | 0 <= k < |Terms(Pushed(cfg, intent))| ensures Holds(m, Terms(Pushed(cfg, intent))[k], bad) {
      var p := Pushed(cfg, intent)[k];
      assert Terms(Pushed(cfg, intent))[k] in Terms(Pushed(cfg, intent));
      PushedAreSupported(cfg, intent, p);
      OtherTest(r, p, bad);
      TermMeansPred(m, p, bad);
    }
  }

  /** What passes `r` after a projection that keeps the columns filtered by. */
  lemma {:induction false} PickedBack(cfg: Config, intent: Intent, o: Options, r: Pred)
    requires r in Residual(cfg, intent) && SelectSafe(cfg, intent, o) && !Redundant(cfg, intent, r)
    ensures SatAll(Picking(r), Residual(cfg, intent), if o.columns == [] then Sample(intent, 1)
        else Project(o.columns, Sample(intent, 1)))
    ensures !SatAll(Picking(r), Residual(cfg, intent), if o.columns == [] then Sample(intent, 0)
        else Project(o.columns, Sample(intent, 0)))
  {
    hide NormalizeOperator, Residual, Pushed, Redundant, Project, Sample, Picking;
    var m, good, bad := Picking(r), Sample(intent, 1), Sample(intent, 0);
    Picked(cfg, intent, r);
    SatSplits(m, cfg, intent, good);
    SatSplits(m, cfg, intent, bad);
    TermsMeanPushed(m, cfg, intent, bad);
    if o.columns != [] {
      SatProjected(m, Residual(cfg, intent), o.columns, good);
      SatProjected(m, Residual(cfg, intent), o.columns, bad);
    }
  }

  lemma {:induction false} PrefixedRows(keep: Row -> bool, bad: Row, good: Row, a: nat, b: nat)
    requires !keep(bad) && keep(good)
    ensures Filter(keep, Repeat(bad, a) + Repeat(good, b)) == Repeat(good, b)
  {
    var s := Repeat(bad, a) + Repeat(good, b);
    if a > 0 {
      assert s[0] == bad && s[1..] == Repeat(bad, a - 1) + Repeat(good, b);
      PrefixedRows(keep, bad, good, a - 1, b);
    } else {
      assert s == Repeat(good, b);
      FilterAll(keep, s);
    }
  }

  lemma {:induction false} WherePrefixed(m: Meaning, ps: seq<Pred>, bad: Row, good: Row, a: nat, b: nat)
    requires !SatAll(m, ps, bad) && SatAll(m, ps, good)
    ensures Where(m, ps, Repeat(bad, a) + Repeat(good, b)) == Repeat(good, b)
  {
    hide SatAll;
    PrefixedRows(row => SatAll(m, ps, row), bad, good, a, b);
  }

  /** One failing row, or as many as the limit allows, in front of matching ones: the cut takes the wrong rows. */
  lemma {:induction false} CutMissed(cfg: Config, intent: Intent, o: Options, r: Pred)
          returns (m: Meaning, rows: seq<Row>)
    requires Runs(cfg, intent, o) && ClausesReach(intent, o) && SelectSafe(cfg, intent, o) && Limit(intent) != Some(0)
    requires r in Residual(cfg, intent) && !Redundant(cfg, intent, r) && (Limit(intent) != None || Offset(intent) != 0)
    ensures TotalPreorder(m.le(intent.orderBy)) && |Delivered(m, cfg, intent, o, rows)| != |Answer(m, intent, rows)|
  {
    hide NormalizeOperator, Residual, Pushed, Where, Cut, Delivered, Answer, Project, Redundant, Sample, SatAll,
        HoldsAll, Terms;
    m := Picking(r);
    var good, bad, n, top := Sample(intent, 1), Sample(intent, 0), Offset(intent), Limit(intent);
    Picked(cfg, intent, r);
    PickedBack(cfg, intent, o, r);
    var a, b := if n == 0 then top.value else 1, if n == 0 then 1 else n;
    rows := Repeat(bad, a) + Repeat(good, b);
    WherePrefixed(m, intent.predicates, bad, good, a, b);
    AlikeAnswer(m, intent, Repeat(good, b), rows);
    assert |Answer(m, intent, rows)| == if n == 0 then 1 else 0;
    AlikeCut(m, cfg, intent, o, rows);
    DeliveredForm(m, cfg, intent, o, rows);
    var cut := Taken(Dropped(rows, n), top);
    if n == 0 {
      assert cut == Repeat(bad, a);
      WhereNone(m, Residual(cfg, intent), Projected(o.columns, cut));
    } else {
      assert cut == [good];
      WhereAll(m, Residual(cfg, intent), Projected(o.columns, cut));
    }
  }

  // --- exactly ---------------------------------------------------------------------------------------

  lemma {:induction false} AnswerMissed(cfg: Config, intent: Intent, o: Options) returns (m: Meaning, rows: seq<Row>)
    requires Runs(cfg, intent, o) && Plausible(intent, o) && !AnswerSafe(cfg, intent, o)
    ensures TotalPreorder(m.le(intent.orderBy)) && Delivered(m, cfg, intent, o, rows) != Answer(m, intent, rows)
  {
    hide Delivered, Answer, Residual, Runs, Redundant, TotalPreorder;
    if o.top != Limit(intent) || (Limit(intent) != Some(0) && o.skip != Offset(intent)) {
      m, rows := BoundMissed(cfg, intent, o);
    } else if o.orders != intent.orderBy {
      m, rows := OrderMissed(cfg, intent, o);
    } else if !SelectSafe(cfg, intent, o) {
      var r :| r in Residual(cfg, intent) && r.column !in o.columns;
      m, rows := SelectMissed(cfg, intent, o, r);
    } else {
      var r :| r in Residual(cfg, intent) && !Redundant(cfg, intent, r);
      m, rows := CutMissed(cfg, intent, o, r);
    }
  }

  /**
   Pushing keeps the answer, whatever predicates mean and whatever the rows are, exactly when the
   emitted clauses are the intent's, the server returns the columns the caller still filters by, and
   it cuts nothing before a filter it did not check.
   */
  lemma {:induction false} PushdownKeepsAnswerExactly(cfg: Config, intent: Intent)
    requires Distinct(Names(cfg)) && ReadableIntent(cfg, intent)
    ensures ReadOptions(cfg, Params(cfg, intent)).Some?
    ensures KeepsAnswer(cfg, intent, ReadOptions(cfg, Params(cfg, intent)).value) <==> IntentSafe(cfg, intent)
  {
    hide *;
    IntentSafeExactly(cfg, intent);
    EmittedParamsRead(cfg, intent);
    EmittedIsPlausible(cfg, intent);
    KeptExactly(cfg, intent, EmittedOptions(cfg, intent));
  }

  lemma {:induction false} KeptExactly(cfg: Config, intent: Intent, o: Options)
    requires Runs(cfg, intent, o) && Plausible(intent, o)
    ensures KeepsAnswer(cfg, intent, o) <==> AnswerSafe(cfg, intent, o)
  {
    hide Delivered, Answer, AnswerSafe, Runs, Plausible, TotalPreorder;
    if AnswerSafe(cfg, intent, o) {
      forall m: Meaning, rows | TotalPreorder(m.le(intent.orderBy))
          ensures Delivered(m, cfg, intent, o, rows) == Answer(m, intent, rows) {
        AnswerKept(m, cfg, intent, o, rows);
      }
    } else {
      var m, rows := AnswerMissed(cfg, intent, o);
    }
  }

  // --- counting -----------------------------------------------------------------------------------

  /** The server counts the rows that match the whole WHERE, whatever is ordered, cut or projected. */
  ghost predicate KeepsCount(intent: Intent, o: Options) {
    forall m: Meaning, rows: seq<Row> :: Run(m, o, rows).count == Some(|Where(m, intent.predicates, rows)|)
  }

  /** A pushed count is right exactly when the server has checked every predicate. */
  lemma {:induction false} PushdownKeepsCountExactly(cfg: Config, intent: Intent)
    requires Distinct(Names(cfg)) && ReadableIntent(cfg, intent) && CountParam(cfg, intent).Some?
    ensures ReadOptions(cfg, Params(cfg, intent)).Some?
    ensures KeepsCount(intent, ReadOptions(cfg, Params(cfg, intent)).value) <==>
      forall r :: r in Residual(cfg, intent) ==> Redundant(cfg, intent, r)
  {
    hide *;
    EmittedParamsRead(cfg, intent);
    EmittedIsPlausible(cfg, intent);
    EmittedCounts(cfg, intent);
    CountExactly(cfg, intent, EmittedOptions(cfg, intent));
  }

  lemma {:induction false} EmittedCounts(cfg: Config, intent: Intent)
    ensures EmittedOptions(cfg, intent).counted <==> CountParam(cfg, intent).Some?
  {
    hide SelectParam, OrderByParam, CountParam, Pushed, Terms;
  }

  lemma {:induction false} CountExactly(cfg: Config, intent: Intent, o: Options)
    requires Runs(cfg, intent, o) && o.counted
    ensures KeepsCount(intent, o) <==> forall r :: r in Residual(cfg, intent) ==> Redundant(cfg, intent, r)
  {
    hide Run, Where, Residual, Redundant, Runs, ServerFiltered, Delivered;
    forall m, rows ensures Run(m, o, rows).count == Some(|ServerFiltered(m, cfg, intent, rows)|) {
      DeliveredForm(m, cfg, intent, o, rows);
    }
    if forall r :: r in Residual(cfg, intent) ==> Redundant(cfg, intent, r) {
      forall m: Meaning, rows ensures Run(m, o, rows).count == Some(|Where(m, intent.predicates, rows)|) {
        ServerFiltersAll(m, cfg, intent, rows);
      }
    } else {
      var r :| r in Residual(cfg, intent) && !Redundant(cfg, intent, r);
      CountsTooMany(cfg, intent, r);
      assert Run(Picking(r), o, [Sample(intent, 0)]).count == Some(1);
    }
  }

  lemma {:induction false} CountsTooMany(cfg: Config, intent: Intent, r: Pred)
    requires r in Residual(cfg, intent) && !Redundant(cfg, intent, r)
    ensures |ServerFiltered(Picking(r), cfg, intent, [Sample(intent, 0)])| == 1 &&
        |Where(Picking(r), intent.predicates, [Sample(intent, 0)])| == 0
  {
    hide Residual, Redundant, Picking, Sample, SatAll, HoldsAll;
    var m, rows := Picking(r), [Sample(intent, 0)];
    Picked(cfg, intent, r);
    WhereNone(m, intent.predicates, rows);
    FilterAll(row => HoldsAll(m, Terms(Pushed(cfg, intent)), row), rows);
  }

  // --- two configs where rows are lost ------------------------------------------------------------------

  /** A config that supports $top and nothing else. */
  const TOP_ONLY: Config := Config(None, None, None, Some(BoundConfig(ODATA, "", 0)), None, None)

  function FirstMatch(p: Pred): Intent {
    Intent([], [p], [], Some(1), None, false)
  }

  lemma {:induction false} FirstMatchOptions(p: Pred)
    ensures EmittedOptions(TOP_ONLY, FirstMatch(p)) == Options([], [], 0, Some(1), [], false)
    ensures Residual(TOP_ONLY, FirstMatch(p)) == [p]
  {
    assert |ODATA| == 5 && |"$top"| == 4;
    assert TopName(TOP_ONLY.top.value) == "$top";
    assert TopParam(TOP_ONLY, FirstMatch(p)).Some?;
  }

  lemma {:induction false} WhereOne(m: Meaning, p: Pred, row: Row)
    ensures Where(m, [p], [row]) == if Sat(m, p, row) then [row] else []
  {
    hide Where, Sat;
    assert SatAll(m, [p], row) <==> Sat(m, p, row) by {
      assert [p][0] == p;
    }
    if Sat(m, p, row) {
      WhereAll(m, [p], [row]);
    } else {
      WhereNone(m, [p], [row]);
    }
  }

  /** LIMIT 1 pushed past a predicate the server does not know: the only match is cut off. */
  lemma {:induction false} LimitPastResidualLosesRows(m: Meaning, p: Pred, first: Row, second: Row)
    requires !Sat(m, p, first) && Sat(m, p, second)
    ensures var intent := FirstMatch(p);
      && Delivered(m, TOP_ONLY, intent, EmittedOptions(TOP_ONLY, intent), [first, second]) == []
      && Answer(m, intent, [first, second]) == [second]
  {
    hide Sat, Where, Residual, EmittedOptions, Delivered, Answer, Cut, Terms, Pushed, SatAll;
    var intent, rows := FirstMatch(p), [first, second];
    var o := EmittedOptions(TOP_ONLY, intent);
    FirstMatchOptions(p);
    EmittedIsPlausible(TOP_ONLY, intent);
    DeliveredForm(m, TOP_ONLY, intent, o, rows);
    NothingPushed(m, TOP_ONLY, intent, o, rows);
    assert rows[0..][..1] == [first];
    WhereOne(m, p, first);
    AnswerForm(m, intent, rows);
    SecondOnly(m, p, first, second);
    assert [second][0..] == [second] && [second][..1] == [second];
  }

  lemma {:induction false} NothingPushed(m: Meaning, cfg: Config, intent: Intent, o: Options, rows: seq<Row>)
    requires Runs(cfg, intent, o) && o.terms == [] && o.orders == []
    ensures Cut(m, cfg, intent, o, rows) == Taken(Dropped(rows, o.skip), o.top)
  {
    hide Pushed, Terms;
    UnorderedCut(m, cfg, intent, o, rows);
  }

  lemma {:induction false} SecondOnly(m: Meaning, p: Pred, first: Row, second: Row)
    requires !Sat(m, p, first) && Sat(m, p, second)
    ensures Where(m, [p], [first, second]) == [second]
  {
    hide Sat, Where;
    assert !SatAll(m, [p], first) by { assert [p][0] == p; }
    assert SatAll(m, [p], second);
    WherePrefixed(m, [p], first, second, 1, 1);
    assert Repeat(first, 1) + Repeat(second, 1) == [first, second] && Repeat(second, 1) == [second];
  }

  /** A config that supports $select and nothing else. */
  const SELECT_ONLY: Config := Config(Some(SelectConfig(ODATA, "", "", [])), None, None, None, None, None)

  function OneColumn(p: Pred, column: string): Intent {
    Intent([column], [p], [], None, None, false)
  }

  lemma {:induction false} OneColumnOptions(p: Pred, column: string)
    ensures EmittedOptions(SELECT_ONLY, OneColumn(p, column)) == Options([], [], 0, None, [column], false)
    ensures Residual(SELECT_ONLY, OneColumn(p, column)) == [p]
  {
    assert |ODATA| == 5 && |"$select"| == 7;
    assert SelectName(SELECT_ONLY.select.value) == "$select";
  }

  /**
   A projection pushed past a predicate on another column, one that fails of a missing value: the
   server drops the column the caller's filter still needs, and a matching row is lost.
   */
  lemma {:induction false} SelectPastResidualLosesRows(m: Meaning, p: Pred, column: string, row: Row)
    requires p.column != column && Sat(m, p, row) && !Sat(m, p, map[])
    ensures var intent := OneColumn(p, column);
      && Delivered(m, SELECT_ONLY, intent, EmittedOptions(SELECT_ONLY, intent), [row]) == []
      && Answer(m, intent, [row]) == [Project([column], row)]
  {
    hide Where, Residual, EmittedOptions, Delivered, Answer, Cut, Terms, Pushed, NormalizeOperator, SatAll;
    var intent := OneColumn(p, column);
    var o := EmittedOptions(SELECT_ONLY, intent);
    OneColumnOptions(p, column);
    EmittedIsPlausible(SELECT_ONLY, intent);
    DeliveredForm(m, SELECT_ONLY, intent, o, [row]);
    NothingPushed(m, SELECT_ONLY, intent, o, [row]);
    assert [row][0..] == [row] && Projected([column], [row]) == [Project([column], row)];
    TermColumn(p);
    assert Cell(Project([column], row), p.column) == Cell(map[], p.column);
    WhereOne(m, p, row);
    WhereOne(m, p, Project([column], row));
    AnswerForm(m, intent, [row]);
  }
}
