/** Reading until the end returns every row exactly once and in order. */
module GraphQLPaging {
  import opened Wrappers
  import opened Decimal
  import opened StableSort
  import opened GraphQLReader

  /** What a caller has after reading until an error, or after `fuel` reads. */
  datatype Drained = Drained(rows: seq<Row>, readCount: nat, error: Option<Error>)

  function Drain(env: Env, c: Config, st: State, fuel: nat): Drained
    decreases fuel
  {
    if fuel == 0 then Drained([], 0, None)
    else
      var (next, r) := Step(env, c, st);
      if r.error.Some? then Drained(r.rows, 1, r.error)
      else
        var d := Drain(env, c, next, fuel - 1);
        Drained(r.rows + d.rows, 1 + d.readCount, d.error)
  }

  lemma {:induction false} DrainSteps(env: Env, c: Config, st: State, fuel: nat)
    ensures fuel == 0 ==> Drain(env, c, st, fuel) == Drained([], 0, None)
    ensures fuel > 0 && Step(env, c, st).1.error == None ==>
      var d := Drain(env, c, Step(env, c, st).0, fuel - 1);
      Drain(env, c, st, fuel) == Drained(Step(env, c, st).1.rows + d.rows, 1 + d.readCount, d.error)
    ensures fuel > 0 && Step(env, c, st).1.error.Some? ==>
      Drain(env, c, st, fuel) == Drained(Step(env, c, st).1.rows, 1, Step(env, c, st).1.error)
  {
    hide Step;
  }

  /** The request with this cursor text is answered, without errors, by these rows. */
  ghost predicate Serves(env: Env, c: Config, text: string, rows: seq<Row>) {
    && Target(env, text).Some? && Target(env, text).value != map[]
    && env.get(c.responsePath, Target(env, text).value).Some?
    && RowsOf(env.get(c.responsePath, Target(env, text).value).value) == Some(rows)
  }

  /** A read that is answered hands the page back and moves on as the strategy says. */
  lemma {:induction false} ServedStep(env: Env, c: Config, st: State, rows: seq<Row>)
    requires c.pageLimit <= 0 && Serves(env, c, st.cursor, rows)
    ensures var (next, r) := Step(env, c, st);
      && r.rows == rows && next.rowsReturned == st.rowsReturned + |rows|
      && match Advance(env, c.cursor, Target(env, st.cursor).value, st.rowsReturned + |rows|, |rows|)
         case Continue(text) => r.error == None && next.cursor == text
         case Stop(e) => r.error == Some(e)
  {
    hide Advance, RowsOf;
  }

  function Min(a: nat, b: nat): nat { if a < b then a else b }

  function FirstRows(rows: seq<Row>, p: nat): seq<Row> {
    rows[..Min(p, |rows|)]
  }

  /** The number of pages of size `p` that `n` rows fill. */
  function Pages(n: nat, p: nat): nat
    requires p > 0
    decreases n
  {
    if n == 0 then 0 else 1 + Pages(n - Min(p, n), p)
  }

  function Ceiling(n: nat, p: nat): nat
    requires p > 0
  {
    (n + p - 1) / p
  }

  lemma {:induction false} PagesIsCeiling(n: nat, p: nat)
    requires p > 0
    ensures Pages(n, p) == Ceiling(n, p)
    decreases n
  {
    hide Ceiling;
    CeilingSteps(n, p);
    if n > 0 {
      PagesIsCeiling(n - Min(p, n), p);
    }
  }

  lemma {:induction false} CeilingSteps(n: nat, p: nat)
    requires p > 0
    ensures Ceiling(n, p) == if n == 0 then 0 else 1 + Ceiling(n - Min(p, n), p)
  {
    if n == 0 {
      UniqueQuotient(p - 1, p, 0, p - 1);
    } else if n <= p {
      UniqueQuotient(p - 1, p, 0, p - 1);
      UniqueQuotient(n + p - 1, p, 1, n - 1);
    } else {
      var q, r := (n - 1) / p, (n - 1) % p;
      assert p * (q + 1) == p * q + p;
      UniqueQuotient(n + p - 1, p, q + 1, r);
    }
  }

  lemma {:induction false} UniqueQuotient(n: int, p: int, q: int, r: int)
    requires p > 0 && 0 <= r < p && n == p * q + r
    ensures n / p == q
  {
    var q2, r2 := n / p, n % p;
    assert p * (q - q2) == r2 - r;
    assert q - q2 >= 1 ==> p * (q - q2) >= p;
    assert q - q2 <= -1 ==> p * (q - q2) <= -p;
  }

  lemma {:induction false} SamePrefix<T>(a: seq<T>, x: seq<T>, y: seq<T>)
    ensures a + x == a + y <==> x == y
  {
    if a + x == a + y {
      assert (a + x)[|a|..] == x && (a + y)[|a|..] == y;
    }
  }

  // --- the offset strategy ----------------------------------------------------------------------------

  function OffsetText(env: Env, cfg: CursorConfig, initial: string, k: nat): Option<string> {
    if k == 0 then Some(initial)
    else if cfg.formatted then env.render(map["value" := JNum(k)])
    else Some(", offset: " + Itoa(k))
  }

  /** A server that answers offset `k` with the next `p` rows of `all`. */
  ghost predicate OffsetServer(env: Env, c: Config, initial: string, all: seq<Row>, p: nat) {
    forall k :: 0 <= k <= |all| ==>
      OffsetText(env, c.cursor, initial, k).Some? &&
          Serves(env, c, OffsetText(env, c.cursor, initial, k).value, FirstRows(all[k..], p))
  }

  lemma {:induction false} DrainFromOffset(env: Env, c: Config, initial: string, all: seq<Row>, p: nat, st: State,
          fuel: nat)
    requires c.pageLimit <= 0 && c.cursor.strategy == Offset && p > 0 && c.cursor.pageSize <= p
    requires OffsetServer(env, c, initial, all, p)
    requires st.rowsReturned <= |all| && OffsetText(env, c.cursor, initial, st.rowsReturned) == Some(st.cursor)
    requires fuel >= Pages(|all| - st.rowsReturned, p) + 1
    ensures var d := Drain(env, c, st, fuel);
      d.rows == all[st.rowsReturned..] && d.error == Some(EOF) && d.readCount <= Pages(|all| - st.rowsReturned, p) + 1
    decreases |all| - st.rowsReturned
  {
    hide Serves, Step, OffsetText, Itoa, Drain, AdvanceOffset, Target;
    DrainSteps(env, c, st, fuel);
    var k := st.rowsReturned;
    var page := FirstRows(all[k..], p);
    assert Serves(env, c, OffsetText(env, c.cursor, initial, k).value, page);
    ServedStep(env, c, st, page);
    var next := Step(env, c, st).0;
    if |page| > 0 {
      assert page + all[k + |page|..] == all[k..];
      OffsetAdvances(env, c.cursor, initial, k + |page|, |page|);
      if c.cursor.pageSize <= |page| {
        DrainFromOffset(env, c, initial, all, p, next, fuel - 1);
      } else {
        assert all[k + |page|..] == [];
      }
    } else {
      OffsetEnds(env, c.cursor, k);
    }
  }

  lemma {:induction false} OffsetEnds(env: Env, cfg: CursorConfig, returned: nat)
    ensures AdvanceOffset(env, cfg, returned, 0) == Stop(EOF)
  {
  }

  lemma {:induction false} OffsetAdvances(env: Env, cfg: CursorConfig, initial: string, returned: nat, rowCount: nat)
    requires 0 < rowCount <= returned && OffsetText(env, cfg, initial, returned).Some?
    ensures AdvanceOffset(env, cfg, returned, rowCount) ==
      if cfg.pageSize > rowCount then Stop(EOF) else Continue(OffsetText(env, cfg, initial, returned).value)
  {
  }

  /** Reading to the end takes at most ceil(N/p) + 1 reads and returns all N rows, once each and in order. */
  lemma {:induction false} OffsetReadsAll(env: Env, c: Config, initial: string, all: seq<Row>, p: nat, fuel: nat)
    requires c.pageLimit <= 0 && c.cursor.strategy == Offset && p > 0 && c.cursor.pageSize <= p
    requires OffsetServer(env, c, initial, all, p) && fuel >= Ceiling(|all|, p) + 1
    ensures var d := Drain(env, c, Snapshot(START, initial, 0), fuel);
      d.rows == all && d.error == Some(EOF) && d.readCount <= Ceiling(|all|, p) + 1
  {
    PagesIsCeiling(|all|, p);
    DrainFromOffset(env, c, initial, all, p, Snapshot(START, initial, 0), fuel);
    assert all[0..] == all;
  }

  /** A configured page size larger than the server's stops after the first page. */
  lemma {:induction false} OversizedPageStopsEarly(env: Env, c: Config, initial: string, all: seq<Row>, p: nat,
          fuel: nat)
    requires c.pageLimit <= 0 && c.cursor.strategy == Offset && p > 0 && c.cursor.pageSize > p
    requires OffsetServer(env, c, initial, all, p) && fuel > 0
    ensures Drain(env, c, Snapshot(START, initial, 0), fuel) == Drained(FirstRows(all, p), 1, Some(EOF))
  {
    hide Serves, Step;
    var st := Snapshot(START, initial, 0);
    assert all[0..] == all;
    assert Serves(env, c, OffsetText(env, c.cursor, initial, 0).value, FirstRows(all[0..], p));
    ServedStep(env, c, st, FirstRows(all, p));
  }

  /** So the offset strategy is complete exactly when the page size fits the server's or one page holds everything. */
  lemma {:induction false} OffsetCompleteExactly(env: Env, c: Config, initial: string, all: seq<Row>, p: nat, fuel: nat)
    requires c.pageLimit <= 0 && c.cursor.strategy == Offset && p > 0
    requires OffsetServer(env, c, initial, all, p) && fuel >= Ceiling(|all|, p) + 1
    ensures Drain(env, c, Snapshot(START, initial, 0), fuel).rows == all <==> c.cursor.pageSize <= p || |all| <= p
  {
    hide OffsetServer, Drain;
    if c.cursor.pageSize <= p {
      OffsetReadsAll(env, c, initial, all, p, fuel);
    } else {
      OversizedPageStopsEarly(env, c, initial, all, p, fuel);
    }
  }

  // --- the keyset strategy ------------------------------------------------------------------------------

  /** Row by row the keys go up in the server's order. */
  ghost predicate StrictlyIncreasing<K>(all: seq<Row>, key: Row -> K, above: (K, K) -> bool) {
    forall i, j :: 0 <= i < |all| && 0 <= j < |all| ==> (above(key(all[i]), key(all[j])) <==> i > j)
  }

  /** The page a keyset server returns for keys above `v`. */
  function Beyond<K>(all: seq<Row>, key: Row -> K, above: (K, K) -> bool, v: K, p: nat): seq<Row> {
    FirstRows(Filter(row => above(key(row), v), all), p)
  }

  /** A non-empty page leads to the cursor for its last row's key, in any shape the reader accepts. */
  ghost predicate LeadsOn<K>(env: Env, c: Config, text: string, page: seq<Row>, key: Row -> K, textOf: K -> string) {
    page != [] ==>
      && Target(env, text).Some? && env.get(c.cursor.jsonPath, Target(env, text).value).Some?
      && var ctx := KeysetContext(env.get(c.cursor.jsonPath, Target(env, text).value).value);
         ctx.Some? && env.render(ctx.value) == Some(textOf(key(page[|page| - 1])))
  }

  ghost predicate KeysetServer<K(!new)>(env: Env, c: Config, initial: string, all: seq<Row>, p: nat, key: Row -> K,
          above: (K, K) -> bool, textOf: K -> string) {
    && Serves(env, c, initial, FirstRows(all, p)) && LeadsOn(env, c, initial, FirstRows(all, p), key, textOf)
    && forall v :: Serves(env, c, textOf(v), Beyond(all, key, above, v, p)) &&
        LeadsOn(env, c, textOf(v), Beyond(all, key, above, v, p), key, textOf)
  }

  lemma {:induction false} FilterSkips<T>(q: T -> bool, s: seq<T>, k: nat)
    requires k <= |s| && (forall i :: 0 <= i < k ==> !q(s[i])) && forall i :: k <= i < |s| ==> q(s[i])
    ensures Filter(q, s) == s[k..]
  {
    if k == 0 {
      FilterAll(q, s);
    } else {
      FilterSkips(q, s[1..], k - 1);
      assert s[1..][k - 1..] == s[k..] && [] + s[k..] == s[k..];
    }
  }

  /** Row by row the keys never go down in the server's order, which is a weak one. */
  ghost predicate Ascending<K>(all: seq<Row>, key: Row -> K, above: (K, K) -> bool) {
    && (forall i, j :: 0 <= i <= j < |all| ==> !above(key(all[i]), key(all[j])))
    && (forall i, j, k :: 0 <= i < |all| && 0 <= j < |all| && 0 <= k < |all| && above(key(all[i]), key(all[k])) ==>
        above(key(all[i]), key(all[j])) || above(key(all[j]), key(all[k])))
  }

  /** The first row from `k` on whose key is above `v`. */
  function FirstAbove<K>(all: seq<Row>, key: Row -> K, above: (K, K) -> bool, v: K, k: nat): (n: nat)
    requires k <= |all|
    ensures k <= n <= |all| && (n < |all| ==> above(key(all[n]), v))
    ensures forall i :: k <= i < n ==> !above(key(all[i]), v)
    decreases |all| - k
  {
    if k == |all| || above(key(all[k]), v) then k else FirstAbove(all, key, above, v, k + 1)
  }

  /** The rows beyond a row's key are those after all rows with that key. */
  lemma {:induction false} BeyondIsSuffix<K>(all: seq<Row>, key: Row -> K, above: (K, K) -> bool, e: nat, p: nat)
    requires Ascending(all, key, above) && 0 < e <= |all|
    ensures Beyond(all, key, above, key(all[e - 1]), p) ==
      FirstRows(all[FirstAbove(all, key, above, key(all[e - 1]), e)..], p)
  {
    var v := key(all[e - 1]);
    var n := FirstAbove(all, key, above, v, e);
    forall i | 0 <= i < |all| ensures above(key(all[i]), v) <==> i >= n {
      if i >= n {
        assert !above(key(all[n]), key(all[i]));
      }
    }
    var q := (row: Row) => above(key(row), v);
    FilterSkips(q, all, n);
    SameFilter(q, row => above(key(row), v), all);
  }

  function PageEnd(all: seq<Row>, p: nat, k: nat): (e: nat)
    requires k < |all| && p > 0
    ensures k < e <= |all|
  {
    k + Min(p, |all| - k)
  }

  /** The rows read from the `k`th on: after each page, whatever shares its last key is passed over. */
  function Got<K>(all: seq<Row>, key: Row -> K, above: (K, K) -> bool, p: nat, k: nat): seq<Row>
    requires k <= |all| && p > 0
    decreases |all| - k
  {
    if k == |all| then []
    else
      var e := PageEnd(all, p, k);
      all[k..e] + Got(all, key, above, p, FirstAbove(all, key, above, key(all[e - 1]), e))
  }

  /** From the `k`th row on, no page ends between two rows of one key. */
  predicate Unsplit<K>(all: seq<Row>, key: Row -> K, above: (K, K) -> bool, p: nat, k: nat)
    requires k <= |all| && p > 0
    decreases |all| - k
  {
    k == |all| ||
    var e := PageEnd(all, p, k);
    (e == |all| || above(key(all[e]), key(all[e - 1]))) && Unsplit(all, key, above, p, e)
  }

  lemma {:induction false} GotStep<K>(all: seq<Row>, key: Row -> K, above: (K, K) -> bool, p: nat, k: nat)
    requires k < |all| && p > 0
    ensures var e := PageEnd(all, p, k); var n := FirstAbove(all, key, above, key(all[e - 1]), e);
      && Got(all, key, above, p, k) == all[k..e] + Got(all, key, above, p, n)
      && (n == e <==> e == |all| || above(key(all[e]), key(all[e - 1])))
      && (Unsplit(all, key, above, p, k) <==> n == e && Unsplit(all, key, above, p, e))
  {
    hide PageEnd;
  }

  lemma {:induction false} GotExactly<K>(all: seq<Row>, key: Row -> K, above: (K, K) -> bool, p: nat, k: nat)
    requires k <= |all| && p > 0
    ensures |Got(all, key, above, p, k)| <= |all| - k
    ensures Got(all, key, above, p, k) == all[k..] <==> Unsplit(all, key, above, p, k)
    decreases |all| - k
  {
    hide Got, Unsplit, FirstAbove, PageEnd;
    if k == |all| {
      NothingGot(all, key, above, p);
    } else {
      var e := PageEnd(all, p, k);
      var n := FirstAbove(all, key, above, key(all[e - 1]), e);
      GotStep(all, key, above, p, k);
      GotExactly(all, key, above, p, n);
      var got, page, after := Got(all, key, above, p, n), all[k..e], all[e..];
      assert all[k..] == page + after && |page| == e - k && |after| == |all| - e;
      assert Got(all, key, above, p, k) == page + got;
      SamePrefix(page, got, after);
    }
  }

  lemma {:induction false} NothingGot<K>(all: seq<Row>, key: Row -> K, above: (K, K) -> bool, p: nat)
    requires p > 0
    ensures Got(all, key, above, p, |all|) == [] && Unsplit(all, key, above, p, |all|)
  {
  }

  lemma {:induction false} MorePages(a: nat, b: nat, p: nat)
    requires p > 0
    ensures a <= b ==> Pages(a, p) <= Pages(b, p)
    decreases a
  {
    if 0 < a <= b {
      MorePages(a - Min(p, a), b - Min(p, b), p);
    }
  }

  /** A page with rows is handed back, and the next request is for its last key; an empty one is the end. */
  lemma {:induction false} KeysetStep<K>(env: Env, c: Config, st: State, page: seq<Row>, key: Row -> K,
          textOf: K -> string)
    requires c.pageLimit <= 0 && c.cursor.strategy == Keyset
    requires Serves(env, c, st.cursor, page) && LeadsOn(env, c, st.cursor, page, key, textOf)
    ensures var (next, r) := Step(env, c, st);
      if page == [] then r == ReadResult([], Some(EOF))
      else r == ReadResult(page, None) && next.cursor == textOf(key(page[|page| - 1]))
  {
    hide Step, KeysetContext;
    ServedStep(env, c, st, page);
  }

  lemma {:induction false} NextPage<K(!new)>(env: Env, c: Config, initial: string, all: seq<Row>, p: nat,
          key: Row -> K, above: (K, K) -> bool, textOf: K -> string, e: nat)
    requires KeysetServer(env, c, initial, all, p, key, above, textOf) && Ascending(all, key, above) && 0 < e <= |all|
    ensures var text := textOf(key(all[e - 1]));
      var page := FirstRows(all[FirstAbove(all, key, above, key(all[e - 1]), e)..], p);
      Serves(env, c, text, page) && LeadsOn(env, c, text, page, key, textOf)
  {
    hide Serves, LeadsOn, Beyond, FirstRows, Ascending;
    var v := key(all[e - 1]);
    BeyondIsSuffix(all, key, above, e, p);
    assert Serves(env, c, textOf(v), Beyond(all, key, above, v, p));
  }

  lemma {:induction false} DrainOne(env: Env, c: Config, st: State, page: seq<Row>, fuel: nat)
    requires fuel > 0
    ensures Step(env, c, st).1 == ReadResult(page, Some(EOF)) ==> Drain(env, c, st, fuel) == Drained(page, 1, Some(EOF))
    ensures Step(env, c, st).1 == ReadResult(page, None) ==>
      var d := Drain(env, c, Step(env, c, st).0, fuel - 1);
      Drain(env, c, st, fuel) == Drained(page + d.rows, 1 + d.readCount, d.error)
  {
    hide Step;
  }

  lemma {:induction false} PageFrom<K>(all: seq<Row>, key: Row -> K, above: (K, K) -> bool, p: nat, k: nat)
    requires k <= |all| && p > 0
    ensures k == |all| ==> FirstRows(all[k..], p) == [] && Got(all, key, above, p, k) == []
    ensures k < |all| ==>
      var e := PageEnd(all, p, k);
      var n := FirstAbove(all, key, above, key(all[e - 1]), e);
      && FirstRows(all[k..], p) == all[k..e] && all[k..e][e - k - 1] == all[e - 1]
      && Got(all, key, above, p, k) == all[k..e] + Got(all, key, above, p, n)
  {
    hide FirstAbove;
    if k < |all| {
      var e := PageEnd(all, p, k);
      assert all[k..][..e - k] == all[k..e];
    }
  }

  lemma {:induction false} EndOf(all: seq<Row>, p: nat, k: nat)
    requires k < |all| && p > 0
    ensures PageEnd(all, p, k) == k + Min(p, |all| - k)
  {
  }

  lemma {:induction false} NoPages(p: nat)
    requires p > 0
    ensures Pages(0, p) == 0
  {
  }

  lemma {:induction false} FewerPages(total: nat, p: nat, k: nat, n: nat)
    requires p > 0 && k < total && k + Min(p, total - k) <= n <= total
    ensures Pages(total - n, p) + 1 <= Pages(total - k, p)
  {
    MorePages(total - n, total - k - Min(p, total - k), p);
  }

  lemma {:induction false} DrainFromKey<K(!new)>(env: Env, c: Config, initial: string, all: seq<Row>, p: nat,
          key: Row -> K, above: (K, K) -> bool, textOf: K -> string, k: nat, st: State, fuel: nat)
    requires c.pageLimit <= 0 && c.cursor.strategy == Keyset && p > 0
    requires KeysetServer(env, c, initial, all, p, key, above, textOf) && Ascending(all, key, above) && k <= |all|
    requires Serves(env, c, st.cursor, FirstRows(all[k..], p))
    requires LeadsOn(env, c, st.cursor, FirstRows(all[k..], p), key, textOf)
    requires fuel >= Pages(|all| - k, p) + 1
    ensures var d := Drain(env, c, st, fuel);
      d.rows == Got(all, key, above, p, k) && d.error == Some(EOF) && d.readCount <= Pages(|all| - k, p) + 1
    decreases |all| - k
  {
    hide *;
    var page := FirstRows(all[k..], p);
    KeysetStep(env, c, st, page, key, textOf);
    PageFrom(all, key, above, p, k);
    NoPages(p);
    DrainOne(env, c, st, page, fuel);
    if k < |all| {
      var e := PageEnd(all, p, k);
      var n := FirstAbove(all, key, above, key(all[e - 1]), e);
      NextPage(env, c, initial, all, p, key, above, textOf, e);
      EndOf(all, p, k);
      FewerPages(|all|, p, k, n);
      DrainFromKey(env, c, initial, all, p, key, above, textOf, n, Step(env, c, st).0, fuel - 1);
    }
  }

  lemma {:induction false} FirstPage<K(!new)>(env: Env, c: Config, initial: string, all: seq<Row>, p: nat,
          key: Row -> K, above: (K, K) -> bool, textOf: K -> string)
    requires KeysetServer(env, c, initial, all, p, key, above, textOf)
    ensures Serves(env, c, initial, FirstRows(all[0..], p)) &&
        LeadsOn(env, c, initial, FirstRows(all[0..], p), key, textOf)
  {
    hide Serves, LeadsOn;
    assert all[0..] == all;
  }

  /**
   Keyset paging ends after at most ceil(N/p) + 1 reads, and returns all rows exactly when no page
   ends between two rows of one key.
   */
  lemma {:induction false} KeysetReadsExactly<K(!new)>(env: Env, c: Config, initial: string, all: seq<Row>, p: nat,
          key: Row -> K, above: (K, K) -> bool, textOf: K -> string, fuel: nat)
    requires c.pageLimit <= 0 && c.cursor.strategy == Keyset && p > 0
    requires KeysetServer(env, c, initial, all, p, key, above, textOf) && Ascending(all, key, above)
    requires fuel >= Ceiling(|all|, p) + 1
    ensures var d := Drain(env, c, Snapshot(START, initial, 0), fuel);
      && d.error == Some(EOF) && d.readCount <= Ceiling(|all|, p) + 1
      && (d.rows == all <==> Unsplit(all, key, above, p, 0))
  {
    hide *;
    PagesIsCeiling(|all|, p);
    assert all[0..] == all;
    FirstPage(env, c, initial, all, p, key, above, textOf);
    DrainFromKey(env, c, initial, all, p, key, above, textOf, 0, Snapshot(START, initial, 0), fuel);
    GotExactly(all, key, above, p, 0);
  }

  lemma {:induction false} StrictIsUnsplit<K>(all: seq<Row>, key: Row -> K, above: (K, K) -> bool, p: nat, k: nat)
    requires StrictlyIncreasing(all, key, above) && k <= |all| && p > 0
    ensures Ascending(all, key, above) && Unsplit(all, key, above, p, k)
    decreases |all| - k
  {
    if k < |all| {
      StrictIsUnsplit(all, key, above, p, PageEnd(all, p, k));
    }
  }

  /** In particular rows whose keys strictly increase are all returned. */
  lemma {:induction false} KeysetReadsAll<K(!new)>(env: Env, c: Config, initial: string, all: seq<Row>, p: nat,
          key: Row -> K, above: (K, K) -> bool, textOf: K -> string, fuel: nat)
    requires c.pageLimit <= 0 && c.cursor.strategy == Keyset && p > 0
    requires KeysetServer(env, c, initial, all, p, key, above, textOf) && StrictlyIncreasing(all, key, above)
    requires fuel >= Ceiling(|all|, p) + 1
    ensures var d := Drain(env, c, Snapshot(START, initial, 0), fuel);
      d.rows == all && d.error == Some(EOF) && d.readCount <= Ceiling(|all|, p) + 1
  {
    StrictIsUnsplit(all, key, above, p, 0);
    hide Ascending, StrictlyIncreasing, KeysetServer, Drain;
    KeysetReadsExactly(env, c, initial, all, p, key, above, textOf, fuel);
  }

  // --- rows lost between pages ----------------------------------------------------------------------------

  function TwinKey(row: Row): bool { true }

  function TwinAbove(x: bool, y: bool): bool { x && !y }

  function TwinText(v: bool): string { if v then "y" else "n" }

  function TwinBody(a: Row, text: string): Row {
    map["page" := JList(if text == TwinText(true) then [] else [JObj(a)])]
  }

  /** A server of two rows with one key, one row a page. */
  function Twins(a: Row): Env {
    Env((text: string) => Body(TwinBody(a, text)), (body: Row) => Some(body),
        (path: string, body: Row) => if path in body then Some(body[path]) else Some(JBool(true)),
        (ctx: map<string, Json>) => Some(TwinText(true)), (v: Json) => "")
  }

  const TWINS: Config := Config(CursorConfig(Keyset, "cursor", true, "", 0), 0, "page")

  lemma {:induction false} TwinRows(a: Row, text: string)
    ensures var v := TwinBody(a, text)["page"];
      RowsOf(v) == Some(if text == TwinText(true) then [] else [a])
  {
    var items := [JObj(a)];
    assert items[1..] == [] && ItemRows([]) == Some([]) && [a] + [] == [a];
    assert ItemRows(items) == Some([a]);
  }

  lemma {:induction false} TwinTarget(a: Row, text: string)
    ensures Target(Twins(a), text) == Some(TwinBody(a, text)) && "page" in TwinBody(a, text)
    ensures "cursor" !in TwinBody(a, text) && TwinBody(a, text) != map[]
  {
    assert "errors"[0] != "page"[0] && "cursor"[0] != "page"[0];
    assert "page" in TwinBody(a, text) && "errors" !in TwinBody(a, text);
  }

  lemma {:induction false} TwinPage(a: Row, text: string)
    ensures var page := if text == TwinText(true) then [] else [a];
      Serves(Twins(a), TWINS, text, page) && LeadsOn(Twins(a), TWINS, text, page, TwinKey, TwinText)
  {
    TwinTarget(a, text);
    TwinRows(a, text);
    hide Target, RowsOf, TwinBody;
  }

  lemma {:induction false} BeyondAll<K>(all: seq<Row>, key: Row -> K, above: (K, K) -> bool, v: K, p: nat)
    ensures (forall i :: 0 <= i < |all| ==> above(key(all[i]), v)) ==>
        Beyond(all, key, above, v, p) == FirstRows(all, p)
    ensures (forall i :: 0 <= i < |all| ==> !above(key(all[i]), v)) ==>
        Beyond(all, key, above, v, p) == FirstRows([], p)
  {
    if forall i :: 0 <= i < |all| ==> above(key(all[i]), v) {
      FilterAll(row => above(key(row), v), all);
    }
    if forall i :: 0 <= i < |all| ==> !above(key(all[i]), v) {
      FilterNone(row => above(key(row), v), all);
    }
  }

  lemma {:induction false} TwinServer(a: Row, b: Row)
    ensures KeysetServer(Twins(a), TWINS, "", [a, b], 1, TwinKey, TwinAbove, TwinText)
  {
    var all := [a, b];
    assert FirstRows(all, 1) == [a] && FirstRows([], 1) == [] && "" != TwinText(true) &&
        TwinText(true) != TwinText(false);
    TwinPage(a, "");
    forall v ensures Beyond(all, TwinKey, TwinAbove, v, 1) == if v then [] else [a] {
      BeyondAll(all, TwinKey, TwinAbove, v, 1);
    }
    hide Serves, LeadsOn, Beyond, TwinText, FirstRows;
    forall v ensures Serves(Twins(a), TWINS, TwinText(v), Beyond(all, TwinKey, TwinAbove, v, 1)) &&
                     LeadsOn(Twins(a), TWINS, TwinText(v), Beyond(all, TwinKey, TwinAbove, v, 1), TwinKey, TwinText) {
      TwinPage(a, TwinText(v));
    }
  }

  /** Of two rows with one key, on pages of one row, the reader returns the first and ends. */
  lemma {:induction false} RepeatedKeysLoseRows(a: Row, b: Row, fuel: nat)
    requires fuel >= 3
    ensures var d := Drain(Twins(a), TWINS, Snapshot(START, "", 0), fuel);
      d.error == Some(EOF) && d.rows != [a, b]
  {
    TwinServer(a, b);
    assert Ceiling(2, 1) == 2;
    assert PageEnd([a, b], 1, 0) == 1 && !Unsplit([a, b], TwinKey, TwinAbove, 1, 0);
    hide KeysetServer, Drain, Unsplit, Ceiling, Twins;
    KeysetReadsExactly(Twins(a), TWINS, "", [a, b], 1, TwinKey, TwinAbove, TwinText, fuel);
  }

  // --- pages linked by the server ---------------------------------------------------------------------

  function Flatten(pages: seq<seq<Row>>): seq<Row> {
    if pages == [] then [] else pages[0] + Flatten(pages[1..])
  }

  /** The page found with `text` leads to a cursor whose text is `next`. */
  ghost predicate LinksTo(env: Env, c: Config, text: string, page: seq<Row>, returned: nat, next: string) {
    Target(env, text).Some? && exists ctx ::
        LeadsTo(env, c.cursor, Target(env, text).value, returned, |page|, ctx) && WrittenFor(env, c.cursor, ctx, next)
  }

  ghost predicate LeadsNowhere(env: Env, c: Config, text: string, page: seq<Row>, returned: nat) {
    Target(env, text).Some? && forall ctx :: !LeadsTo(env, c.cursor, Target(env, text).value, returned, |page|, ctx)
  }

  /** Each page is served for its text, and each but the last leads to the text of the next. */
  ghost predicate Linked(env: Env, c: Config, pages: seq<seq<Row>>, texts: seq<string>, returned: nat)
    decreases |pages|
  {
    && |texts| == |pages| > 0 && Serves(env, c, texts[0], pages[0])
    && (|pages| > 1 ==>
      && LinksTo(env, c, texts[0], pages[0], returned + |pages[0]|, texts[1])
      && Linked(env, c, pages[1..], texts[1..], returned + |pages[0]|))
  }

  lemma {:induction false} LinkedStep(env: Env, c: Config, st: State, page: seq<Row>, next: string)
    requires c.pageLimit <= 0 && Serves(env, c, st.cursor, page)
    requires LinksTo(env, c, st.cursor, page, st.rowsReturned + |page|, next)
    ensures var (after, r) := Step(env, c, st);
      r == ReadResult(page, None) && after.cursor == next && after.rowsReturned == st.rowsReturned + |page|
  {
    hide Step, Serves, Advance, LeadsTo, WrittenFor;
    var target, n := Target(env, st.cursor).value, st.rowsReturned + |page|;
    var ctx :| LeadsTo(env, c.cursor, target, n, |page|, ctx) && WrittenFor(env, c.cursor, ctx, next);
    AdvanceExactly(env, c.cursor, target, n, |page|);
    assert Advance(env, c.cursor, target, n, |page|) == Continue(next);
    ServedStep(env, c, st, page);
  }

  lemma {:induction false} LastStep(env: Env, c: Config, st: State, page: seq<Row>)
    requires c.pageLimit <= 0 && Serves(env, c, st.cursor, page)
    ensures Step(env, c, st).1.rows == page
    ensures Step(env, c, st).1.error == Some(EOF) <==>
      LeadsNowhere(env, c, st.cursor, page, st.rowsReturned + |page|)
  {
    assert Target(env, st.cursor).Some?;
    hide Step, Serves, Advance, LeadsTo, WrittenFor;
    ServedStep(env, c, st, page);
    AdvanceExactly(env, c.cursor, Target(env, st.cursor).value, st.rowsReturned + |page|, |page|);
  }

  /**
   Under every strategy linked pages are returned, one read each, and then the end exactly when the
   last leads nowhere.
   */
  lemma {:induction false} LinkedReadsExactly(env: Env, c: Config, pages: seq<seq<Row>>, texts: seq<string>, st: State,
          fuel: nat)
    requires c.pageLimit <= 0 && Linked(env, c, pages, texts, st.rowsReturned)
    requires st.cursor == texts[0] && fuel >= |pages|
    ensures Drain(env, c, st, fuel) == Drained(Flatten(pages), |pages|, Some(EOF)) <==>
      LeadsNowhere(env, c, texts[|texts| - 1], pages[|pages| - 1], st.rowsReturned + |Flatten(pages)|)
    decreases |pages|
  {
    hide Serves, Step, LeadsNowhere, LinksTo;
    if |pages| == 1 {
      LastStep(env, c, st, pages[0]);
      assert pages == [pages[0]] && pages[1..] == [] && pages[0] + [] == pages[0];
    } else {
      LinkedStep(env, c, st, pages[0], texts[1]);
      var next := Step(env, c, st).0;
      LinkedReadsExactly(env, c, pages[1..], texts[1..], next, fuel - 1);
      SamePrefix(pages[0], Drain(env, c, next, fuel - 1).rows, Flatten(pages[1..]));
    }
  }

  /** What a server has to answer to for the cursor `v`. */
  function CursorText(env: Env, c: Config, v: Json): Option<string> {
    if c.cursor.formatted then env.render(map["value" := v]) else Some(AfterText(env, v))
  }

  // --- the page_info strategy ---------------------------------------------------------------------------

  /** What the reader finds on a page under the page_info strategy: a flag to go on and the end cursor. */
  ghost predicate RelayPage(env: Env, c: Config, text: string, endCursor: Json) {
    && Target(env, text).Some?
    && HoldsFlag(env, c.cursor.terminatePath, Target(env, text).value)
    && HoldsOne(env, c.cursor.jsonPath, Target(env, text).value, endCursor)
  }

  ghost predicate RelayEnd(env: Env, c: Config, text: string) {
    forall v :: !RelayPage(env, c, text, v)
  }

  /** Every page is served, and each before the last says that there is a next one, and where. */
  ghost predicate RelayServer(env: Env, c: Config, pages: seq<seq<Row>>, texts: seq<string>, ends: seq<Json>) {
    && c.pageLimit <= 0 && c.cursor.strategy == PageInfo && |texts| == |pages| == |ends| > 0
    && (forall i :: 0 <= i < |pages| ==> Serves(env, c, texts[i], pages[i]))
    && forall i :: 0 <= i < |pages| - 1 ==>
        RelayPage(env, c, texts[i], ends[i]) && CursorText(env, c, ends[i]) == Some(texts[i + 1])
  }

  lemma {:induction false} RelayLink(env: Env, c: Config, text: string, page: seq<Row>, returned: nat, v: Json,
          next: string)
    requires c.cursor.strategy == PageInfo && RelayPage(env, c, text, v) && CursorText(env, c, v) == Some(next)
    ensures LinksTo(env, c, text, page, returned, next)
  {
    hide AfterText, HoldsFlag, HoldsOne;
    var ctx := map["value" := v];
    assert LeadsTo(env, c.cursor, Target(env, text).value, returned, |page|, ctx);
    assert WrittenFor(env, c.cursor, ctx, next);
  }

  lemma {:induction false} RelayIsLinked(env: Env, c: Config, pages: seq<seq<Row>>, texts: seq<string>,
          ends: seq<Json>, returned: nat)
    requires RelayServer(env, c, pages, texts, ends)
    ensures Linked(env, c, pages, texts, returned)
    decreases |pages|
  {
    hide Serves, RelayPage, CursorText, LinksTo;
    if |pages| > 1 {
      RelayLink(env, c, texts[0], pages[0], returned + |pages[0]|, ends[0], texts[1]);
      RelayIsLinked(env, c, pages[1..], texts[1..], ends[1..], returned + |pages[0]|);
    }
  }

  lemma {:induction false} RelayLast(env: Env, c: Config, pages: seq<seq<Row>>, texts: seq<string>, ends: seq<Json>)
    requires RelayServer(env, c, pages, texts, ends)
    ensures |texts| == |pages| > 0 && c.pageLimit <= 0 && c.cursor.strategy == PageInfo
    ensures Target(env, texts[|texts| - 1]).Some?
  {
    hide Target, RowsOf, RelayPage, CursorText;
    assert Serves(env, c, texts[|texts| - 1], pages[|pages| - 1]);
  }

  /**
   A Relay connection is read to its end exactly when the last page does not say that there is a
   next one or names no single end cursor: one that says it is the last may still have a cursor.
   */
  lemma {:induction false} RelayReadsExactly(env: Env, c: Config, pages: seq<seq<Row>>, texts: seq<string>,
          ends: seq<Json>, st: State, fuel: nat)
    requires RelayServer(env, c, pages, texts, ends) && st.cursor == texts[0] && fuel >= |pages|
    ensures Drain(env, c, st, fuel) == Drained(Flatten(pages), |pages|, Some(EOF)) <==>
      RelayEnd(env, c, texts[|texts| - 1])
  {
    hide *;
    var last := |pages| - 1;
    RelayLast(env, c, pages, texts, ends);
    RelayIsLinked(env, c, pages, texts, ends, st.rowsReturned);
    LinkedReadsExactly(env, c, pages, texts, st, fuel);
    RelayEnds(env, c, texts[last], pages[last], st.rowsReturned + |Flatten(pages)|);
  }

  /** The page says whether there is a next one. */
  ghost predicate Tells(env: Env, c: Config, text: string, next: bool) {
    Target(env, text).Some? && env.get(c.cursor.terminatePath, Target(env, text).value) == Some(JBool(next))
  }

  lemma {:induction false} ToldPage(env: Env, c: Config, text: string, v: Json)
    ensures Tells(env, c, text, true) && HoldsOne(env, c.cursor.jsonPath, Target(env, text).value, v) ==>
      RelayPage(env, c, text, v)
    ensures Tells(env, c, text, false) ==> RelayEnd(env, c, text)
  {
    hide HoldsOne, Target;
  }

  /** A connection whose flag is true before the last page and false on it is read to its end. */
  lemma {:induction false} RelayReadsAll(env: Env, c: Config, pages: seq<seq<Row>>, texts: seq<string>,
          ends: seq<Json>, st: State, fuel: nat)
    requires c.pageLimit <= 0 && c.cursor.strategy == PageInfo && |texts| == |pages| == |ends| > 0
    requires forall i :: 0 <= i < |pages| ==> Serves(env, c, texts[i], pages[i])
    requires forall i :: 0 <= i < |pages| - 1 ==>
      && Tells(env, c, texts[i], true) && HoldsOne(env, c.cursor.jsonPath, Target(env, texts[i]).value, ends[i])
      && CursorText(env, c, ends[i]) == Some(texts[i + 1])
    requires Tells(env, c, texts[|texts| - 1], false)
    requires st.cursor == texts[0] && fuel >= |pages|
    ensures Drain(env, c, st, fuel) == Drained(Flatten(pages), |pages|, Some(EOF))
  {
    hide Drain, Flatten, Serves, HoldsOne, CursorText, RelayPage, RelayEnd, Target;
    forall i | 0 <= i < |pages| - 1 ensures RelayPage(env, c, texts[i], ends[i]) {
      ToldPage(env, c, texts[i], ends[i]);
    }
    ToldPage(env, c, texts[|pages| - 1], ends[|pages| - 1]);
    RelayReadsExactly(env, c, pages, texts, ends, st, fuel);
  }

  lemma {:induction false} RelayEnds(env: Env, c: Config, text: string, page: seq<Row>, returned: nat)
    requires c.cursor.strategy == PageInfo && Target(env, text).Some?
    ensures LeadsNowhere(env, c, text, page, returned) <==> RelayEnd(env, c, text)
  {
    hide HoldsOne, HoldsFlag;
    var target := Target(env, text).value;
    if v :| RelayPage(env, c, text, v) {
      assert LeadsTo(env, c.cursor, target, returned, |page|, map["value" := v]);
    }
    if ctx :| LeadsTo(env, c.cursor, target, returned, |page|, ctx) {
      var v :| HoldsOne(env, c.cursor.jsonPath, target, v) && ctx == map["value" := v];
      assert RelayPage(env, c, text, v);
    }
  }

  // --- the cursor_after strategy ------------------------------------------------------------------------

  /** The page found with `text` names `v` as the one element of its cursor list. */
  ghost predicate NamesNext(env: Env, c: Config, text: string, v: Json) {
    Target(env, text).Some? && env.get(c.cursor.jsonPath, Target(env, text).value) == Some(JList([v]))
  }

  ghost predicate NamesNone(env: Env, c: Config, text: string) {
    forall v :: !NamesNext(env, c, text, v)
  }

  /** Every page is served, and each before the last names the next one. */
  ghost predicate AfterServer(env: Env, c: Config, pages: seq<seq<Row>>, texts: seq<string>, cursors: seq<Json>) {
    && c.pageLimit <= 0 && c.cursor.strategy == After && |texts| == |pages| == |cursors| > 0
    && (forall i :: 0 <= i < |pages| ==> Serves(env, c, texts[i], pages[i]))
    && forall i :: 0 <= i < |pages| - 1 ==>
        NamesNext(env, c, texts[i], cursors[i]) && CursorText(env, c, cursors[i]) == Some(texts[i + 1])
  }

  lemma {:induction false} AfterLink(env: Env, c: Config, text: string, page: seq<Row>, returned: nat, v: Json,
          next: string)
    requires c.cursor.strategy == After && NamesNext(env, c, text, v) && CursorText(env, c, v) == Some(next)
    ensures LinksTo(env, c, text, page, returned, next)
  {
    hide AfterText;
    var ctx := map["value" := v];
    assert LeadsTo(env, c.cursor, Target(env, text).value, returned, |page|, ctx);
    assert WrittenFor(env, c.cursor, ctx, next);
  }

  lemma {:induction false} AfterIsLinked(env: Env, c: Config, pages: seq<seq<Row>>, texts: seq<string>,
          cursors: seq<Json>, returned: nat)
    requires AfterServer(env, c, pages, texts, cursors)
    ensures Linked(env, c, pages, texts, returned)
    decreases |pages|
  {
    hide Serves, NamesNext, CursorText, LinksTo;
    if |pages| > 1 {
      AfterLink(env, c, texts[0], pages[0], returned + |pages[0]|, cursors[0], texts[1]);
      AfterIsLinked(env, c, pages[1..], texts[1..], cursors[1..], returned + |pages[0]|);
    }
  }

  lemma {:induction false} AfterEnds(env: Env, c: Config, text: string, page: seq<Row>, returned: nat)
    requires c.cursor.strategy == After && Target(env, text).Some?
    ensures LeadsNowhere(env, c, text, page, returned) <==> NamesNone(env, c, text)
  {
    var target := Target(env, text).value;
    if v :| NamesNext(env, c, text, v) {
      assert LeadsTo(env, c.cursor, target, returned, |page|, map["value" := v]);
    }
    if ctx :| LeadsTo(env, c.cursor, target, returned, |page|, ctx) {
      var v :| env.get(c.cursor.jsonPath, target) == Some(JList([v])) && ctx == map["value" := v];
      assert NamesNext(env, c, text, v);
    }
  }

  lemma {:induction false} AfterLast(env: Env, c: Config, pages: seq<seq<Row>>, texts: seq<string>, cursors: seq<Json>)
    requires AfterServer(env, c, pages, texts, cursors)
    ensures |texts| == |pages| > 0 && c.pageLimit <= 0 && c.cursor.strategy == After
    ensures Target(env, texts[|texts| - 1]).Some?
  {
    hide Target, RowsOf, NamesNext, CursorText;
    assert Serves(env, c, texts[|texts| - 1], pages[|pages| - 1]);
  }

  /**
   The cursor_after strategy returns the pages, one read each, and then the end exactly when the
   last page has no one-element cursor list.
   */
  lemma {:induction false} AfterReadsExactly(env: Env, c: Config, pages: seq<seq<Row>>, texts: seq<string>,
          cursors: seq<Json>, st: State, fuel: nat)
    requires AfterServer(env, c, pages, texts, cursors) && st.cursor == texts[0] && fuel >= |pages|
    ensures Drain(env, c, st, fuel) == Drained(Flatten(pages), |pages|, Some(EOF)) <==>
      NamesNone(env, c, texts[|texts| - 1])
  {
    hide *;
    var last := |pages| - 1;
    AfterLast(env, c, pages, texts, cursors);
    AfterIsLinked(env, c, pages, texts, cursors, st.rowsReturned);
    LinkedReadsExactly(env, c, pages, texts, st, fuel);
    AfterEnds(env, c, texts[last], pages[last], st.rowsReturned + |Flatten(pages)|);
  }

  // --- going round in circles ---------------------------------------------------------------------------

  function PageAfter(i: nat, n: nat): nat {
    if i + 1 == n then 0 else i + 1
  }

  /** The pages from the `i`th on, starting again with the first after the last. */
  function Cycle(pages: seq<seq<Row>>, i: nat, n: nat): seq<Row>
    requires i < |pages|
    decreases n
  {
    if n == 0 then [] else pages[i] + Cycle(pages, PageAfter(i, |pages|), n - 1)
  }

  lemma {:induction false} CycleRound(pages: seq<seq<Row>>, i: nat, n: nat)
    requires i < |pages| <= n + i
    ensures Cycle(pages, i, n) == Flatten(pages[i..]) + Cycle(pages, 0, n - (|pages| - i))
    decreases |pages| - i
  {
    assert pages[i..][1..] == pages[i + 1..];
    if i + 1 == |pages| {
      assert Flatten(pages[i..]) == pages[i] + [];
    } else {
      CycleRound(pages, i + 1, n - 1);
    }
  }

  /** A server whose last page names a cursor, with text `again`, that it answers like the first request. */
  ghost predicate Circular(env: Env, c: Config, pages: seq<seq<Row>>, texts: seq<string>, cursors: seq<Json>,
          again: string) {
    && AfterServer(env, c, pages, texts, cursors) && NamesNext(env, c, texts[|texts| - 1], cursors[|cursors| - 1])
    && CursorText(env, c, cursors[|cursors| - 1]) == Some(again) && env.ask(again) == env.ask(texts[0])
  }

  /** The reader is about to ask for page `i`. */
  ghost predicate AsksFor(texts: seq<string>, again: string, i: nat, text: string)
    requires i < |texts|
  {
    text == texts[i] || (i == 0 && text == again)
  }

  lemma {:induction false} CircleStep(env: Env, c: Config, pages: seq<seq<Row>>, texts: seq<string>,
          cursors: seq<Json>, again: string, i: nat, text: string)
    requires Circular(env, c, pages, texts, cursors, again) && i < |pages| && AsksFor(texts, again, i, text)
    ensures c.pageLimit <= 0 && c.cursor.strategy == After
    ensures Serves(env, c, text, pages[i]) && NamesNext(env, c, text, cursors[i])
    ensures CursorText(env, c, cursors[i]).Some? && |texts| == |pages|
    ensures AsksFor(texts, again, PageAfter(i, |pages|), CursorText(env, c, cursors[i]).value)
  {
    hide CursorText, RowsOf, HasErrors;
    assert Target(env, text) == Target(env, texts[i]);
    assert Serves(env, c, texts[i], pages[i]);
    if i + 1 < |pages| {
      assert NamesNext(env, c, texts[i], cursors[i]);
      assert CursorText(env, c, cursors[i]) == Some(texts[i + 1]);
    }
  }

  lemma {:induction false} ReadsInCircles(env: Env, c: Config, pages: seq<seq<Row>>, texts: seq<string>,
          cursors: seq<Json>, again: string, i: nat, st: State, fuel: nat)
    requires Circular(env, c, pages, texts, cursors, again) && |texts| == |pages| == |cursors|
    requires i < |pages| && AsksFor(texts, again, i, st.cursor)
    ensures Drain(env, c, st, fuel) == Drained(Cycle(pages, i, fuel), fuel, None)
    decreases fuel
  {
    hide Circular, AsksFor, Serves, NamesNext, Step, CursorText, LinksTo, Drain;
    DrainSteps(env, c, st, fuel);
    if fuel > 0 {
      CircleStep(env, c, pages, texts, cursors, again, i, st.cursor);
      var next := CursorText(env, c, cursors[i]).value;
      AfterLink(env, c, st.cursor, pages[i], st.rowsReturned + |pages[i]|, cursors[i], next);
      LinkedStep(env, c, st, pages[i], next);
      ReadsInCircles(env, c, pages, texts, cursors, again, PageAfter(i, |pages|), Step(env, c, st).0, fuel - 1);
    }
  }

  /**
   An end cursor on the last page, even an empty one, does not stop the reader: if the server
   takes it for the start, no number of reads reaches the end, and all the rows come again and again.
   */
  lemma {:induction false} RepeatedStartNeverEnds(env: Env, c: Config, pages: seq<seq<Row>>, texts: seq<string>,
          cursors: seq<Json>, again: string, st: State, fuel: nat)
    requires Circular(env, c, pages, texts, cursors, again) && st.cursor == texts[0]
    ensures var d := Drain(env, c, st, fuel);
      d.error == None && d.readCount == fuel && (fuel >= 2 * |pages| ==> Flatten(pages) + Flatten(pages) <= d.rows)
  {
    hide NamesNext, CursorText, Drain, Cycle, Flatten, Serves;
    ReadsInCircles(env, c, pages, texts, cursors, again, 0, st, fuel);
    if fuel >= 2 * |pages| {
      TwoRounds(pages, fuel);
    }
  }

  lemma {:induction false} TwoRounds(pages: seq<seq<Row>>, n: nat)
    requires pages != [] && n >= 2 * |pages|
    ensures Flatten(pages) + Flatten(pages) <= Cycle(pages, 0, n)
  {
    hide Cycle, Flatten;
    CycleRound(pages, 0, n);
    CycleRound(pages, 0, n - |pages|);
    assert pages[0..] == pages;
  }

  /** In particular the empty cursor, for which the reader asks `, after: ""` when it has no template. */
  lemma {:induction false} EmptyCursorNeverEnds(env: Env, c: Config, pages: seq<seq<Row>>, texts: seq<string>,
          cursors: seq<Json>, again: string, st: State, fuel: nat)
    requires AfterServer(env, c, pages, texts, cursors) && st.cursor == texts[0]
    requires cursors[|cursors| - 1] == JStr("") && NamesNext(env, c, texts[|texts| - 1], JStr(""))
    requires if c.cursor.formatted then env.render(map["value" := JStr("")]) == Some(again)
        else again == ", after: \"\""
    requires env.ask(again) == env.ask(texts[0])
    ensures var d := Drain(env, c, st, fuel);
      d.error == None && d.readCount == fuel && (fuel >= 2 * |pages| ==> Flatten(pages) + Flatten(pages) <= d.rows)
  {
    assert AfterText(env, JStr("")) == ", after: \"\"";
    hide AfterText, AfterServer, NamesNext, Drain, Flatten;
    assert Circular(env, c, pages, texts, cursors, again);
    RepeatedStartNeverEnds(env, c, pages, texts, cursors, again, st, fuel);
  }
}
