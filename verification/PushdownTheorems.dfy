/** The push-down splits the work between server and caller without changing the answer. */
module PushdownTheorems {
  import opened Wrappers
  import opened ODataFilter
  import opened ODataOptions
  import opened Pushdown
  import opened StableSort
  import opened PushdownServer
  import opened SqlOperators

  // --- the predicates are partitioned ------------------------------------------------------------

  lemma {:induction false} SplitKeepsAll(fil: FilterConfig, ps: seq<Pred>)
    ensures multiset(Pushables(fil, ps)) + multiset(Unpushables(fil, ps)) == multiset(ps)
  {
    hide Pushable;
    if ps != [] {
      SplitKeepsAll(fil, ps[1..]);
      assert ps == [ps[0]] + ps[1..];
    }
  }

  /** Every WHERE predicate is either pushed or residual, and none is both, counting repetitions. */
  lemma {:induction false} PushedAndResidualPartition(cfg: Config, intent: Intent)
    ensures multiset(Pushed(cfg, intent)) + multiset(Residual(cfg, intent)) == multiset(intent.predicates)
  {
    hide Pushables, Unpushables, PushedCount;
    match cfg.filter
    case None =>
    case Some(fil) =>
      SplitKeepsAll(fil, intent.predicates);
      var pushable, n := Pushables(fil, intent.predicates), PushedCount(fil, intent.predicates);
      assert pushable == pushable[..n] + pushable[n..];
  }

  /** Only predicates the config supports, with an operator the server understands, are pushed. */
  lemma {:induction false} PushedAreSupported(cfg: Config, intent: Intent, p: Pred)
    requires p in Pushed(cfg, intent)
    ensures p in intent.predicates && cfg.filter.Some? && Pushable(cfg.filter.value, p) &&
        NormalizeOperator(p.operator) != ""
  {
    PushablesArePushable(cfg.filter.value, intent.predicates, p);
  }

  // --- filtering in two places --------------------------------------------------------------------

  lemma {:induction false} FilterTwice<T>(p: T -> bool, q: T -> bool, r: T -> bool, s: seq<T>)
    requires forall i :: 0 <= i < |s| ==> (r(s[i]) <==> p(s[i]) && q(s[i]))
    ensures Filter(q, Filter(p, s)) == Filter(r, s)
  {
    if s != [] {
      FilterTwice(p, q, r, s[1..]);
      var rest := Filter(p, s[1..]);
      assert ([s[0]] + rest)[1..] == rest;
      assert r(s[0]) <==> p(s[0]) && q(s[0]);
      assert [] + rest == rest && [] + Filter(q, rest) == Filter(q, rest);
    }
  }

  /** The term a predicate is pushed as means what the predicate means. */
  lemma {:induction false} TermMeansPred(m: Meaning, p: Pred, row: Row)
    ensures NormalizeOperator(p.operator) != "" ==> (Holds(m, TermOf(p), row) <==> Sat(m, p, row))
    ensures NormalizeOperator(p.operator) == "" ==> (Sat(m, p, row) <==> m.other(Cell(row, p.column), p))
  {
    hide NormalizeOperator, Asked, Named;
    AskedIsNamed(p.operator);
  }

  /** On pushed predicates the server's terms mean what the predicates mean. */
  lemma {:induction false} TermsMeanPushed(m: Meaning, cfg: Config, intent: Intent, row: Row)
    ensures HoldsAll(m, Terms(Pushed(cfg, intent)), row) <==> SatAll(m, Pushed(cfg, intent), row)
  {
    hide NormalizeOperator, Pushed, Pushable, TermOf, Holds, Sat;
    var ps := Pushed(cfg, intent);
    TermsLength(ps);
    forall i | 0 <= i < |ps| ensures Holds(m, Terms(ps)[i], row) <==> Sat(m, ps[i], row) {
      PushedAreSupported(cfg, intent, ps[i]);
      TermMeansPred(m, ps[i], row);
    }
  }

  lemma {:induction false} SatByMembership(m: Meaning, ps: seq<Pred>, row: Row)
    ensures SatAll(m, ps, row) <==> forall p :: p in ps ==> Sat(m, p, row)
  {
    hide Sat;
    if SatAll(m, ps, row) {
      forall p | p in ps ensures Sat(m, p, row) {
        var i :| 0 <= i < |ps| && ps[i] == p;
      }
    }
  }

  lemma {:induction false} SatSplits(m: Meaning, cfg: Config, intent: Intent, row: Row)
    ensures SatAll(m, intent.predicates, row) <==>
        SatAll(m, Pushed(cfg, intent), row) && SatAll(m, Residual(cfg, intent), row)
  {
    hide Pushed, Residual, Sat;
    PushedAndResidualPartition(cfg, intent);
    SatByMembership(m, intent.predicates, row);
    SatByMembership(m, Pushed(cfg, intent), row);
    SatByMembership(m, Residual(cfg, intent), row);
    var pushed, residual, all := Pushed(cfg, intent), Residual(cfg, intent), intent.predicates;
    forall p ensures p in all <==> p in pushed || p in residual {
      assert p in multiset(all) <==> p in multiset(pushed) || p in multiset(residual);
    }
  }

  ghost function ServerFiltered(m: Meaning, cfg: Config, intent: Intent, rows: seq<Row>): seq<Row> {
    Filter(row => HoldsAll(m, Terms(Pushed(cfg, intent)), row), rows)
  }

  /** The server's filter followed by the caller's residual one keeps the rows of the full WHERE, in order. */
  lemma {:induction false} FiltersCompose(m: Meaning, cfg: Config, intent: Intent, rows: seq<Row>)
    ensures Where(m, Residual(cfg, intent), ServerFiltered(m, cfg, intent, rows)) == Where(m, intent.predicates, rows)
  {
    hide Pushed, Residual, SatAll, HoldsAll;
    forall i | 0 <= i < |rows|
      ensures SatAll(m, intent.predicates, rows[i]) <==>
        HoldsAll(m, Terms(Pushed(cfg, intent)), rows[i]) && SatAll(m, Residual(cfg, intent), rows[i])
    {
      TermsMeanPushed(m, cfg, intent, rows[i]);
      SatSplits(m, cfg, intent, rows[i]);
    }
    FilterTwice(row => HoldsAll(m, Terms(Pushed(cfg, intent)), row), row => SatAll(m, Residual(cfg, intent), row),
                row => SatAll(m, intent.predicates, row), rows);
  }

  // --- the whole query -------------------------------------------------------------------------------

  function NonNegative(v: Option<int>): Option<nat> {
    if v.Some? && v.value >= 0 then Some(v.value) else None
  }

  /** The answer to the intent over all the rows: WHERE, ORDER BY, OFFSET, LIMIT, then the projection. */
  ghost function Answer(m: Meaning, intent: Intent, rows: seq<Row>): seq<Row> {
    var offset := NonNegative(intent.offset);
    var ordered := Ordered(m, intent.orderBy, Where(m, intent.predicates, rows));
    Projected(intent.projection,
        Taken(Dropped(ordered, if offset.Some? then offset.value else 0), NonNegative(intent.limit)))
  }

  /** What the caller is left to do with the server's rows. */
  ghost function Finished(m: Meaning, cfg: Config, intent: Intent, rows: seq<Row>): seq<Row> {
    Projected(intent.projection, Where(m, Residual(cfg, intent), rows))
  }

  lemma {:induction false} ProjectedTwice(columns: seq<string>, rows: seq<Row>)
    ensures Projected(columns, Projected(columns, rows)) == Projected(columns, rows)
  {
    forall i | 0 <= i < |rows| ensures Project(columns, Project(columns, rows[i])) == Project(columns, rows[i]) {
    }
  }

  lemma {:induction false} WhereNothing(m: Meaning, rows: seq<Row>)
    ensures Where(m, [], rows) == rows
  {
    if rows != [] {
      WhereNothing(m, rows[1..]);
      var keep := (row: Row) => SatAll(m, [], row);
      assert Filter(keep, rows[1..]) == rows[1..] by {
        SameFilter(keep, row => SatAll(m, [], row), rows[1..]);
      }
      assert keep(rows[0]);
      assert rows == [rows[0]] + rows[1..];
      SameFilter(keep, row => SatAll(m, [], row), rows);
    }
  }

  lemma {:induction false} OrderedFilter(m: Meaning, os: seq<Order>, ps: seq<Pred>, rows: seq<Row>)
    requires TotalPreorder(m.le(os))
    ensures Where(m, ps, Ordered(m, os, rows)) == Ordered(m, os, Where(m, ps, rows))
  {
    if os != [] {
      FilterSort(m.le(os), row => SatAll(m, ps, row), rows);
    }
  }

  /** The caller's filter may as well come before the server's ordering. */
  lemma {:induction false} StillFiltering(m: Meaning, cfg: Config, intent: Intent, rows: seq<Row>)
    requires TotalPreorder(m.le(intent.orderBy))
    ensures Where(m, Residual(cfg, intent), Ordered(m, intent.orderBy, ServerFiltered(m, cfg, intent, rows)))
         == Ordered(m, intent.orderBy, Where(m, intent.predicates, rows))
  {
    hide Residual, ServerFiltered, Where, Ordered;
    OrderedFilter(m, intent.orderBy, Residual(cfg, intent), ServerFiltered(m, cfg, intent, rows));
    FiltersCompose(m, cfg, intent, rows);
  }
}
