/** An upstream server that reads the emitted parameters back and runs them in OData order. */
module PushdownServer {
  import opened Wrappers
  import opened GoStrings
  import opened Decimal
  import opened ODataFilter
  import opened ODataOptions
  import opened Pushdown
  import opened SqlOperators
  import opened StableSort

  type Row = map<string, Value>

  /** What is asked of the value in a column: how it compares with `value`. */
  datatype Test = Test(column: string, comparison: Comparison, value: Value)

  /**
   What the query language means, cell by cell: a comparison of the value in a column, a predicate whose
   operator is no comparison holding of the value in its column, and the order of rows under an ORDER BY list.
   */
  datatype Meaning = Meaning(compare: (Option<Value>, Test) -> bool, other: (Option<Value>, Pred) -> bool,
                             le: seq<Order> -> ((Row, Row) -> bool))

  /** What a row has in a column, if anything. */
  function Cell(row: Row, column: string): Option<Value> {
    if column in row then Some(row[column]) else None
  }

  /** The server reads a term's operator as OData does. */
  ghost predicate Holds(m: Meaning, t: Term, row: Row) {
    match Named(t.op)
    case None => false
    case Some(c) => m.compare(Cell(row, t.column), Test(t.column, c, t.value))
  }

  /** The query reads a predicate's operator as SQL does. */
  ghost predicate Sat(m: Meaning, p: Pred, row: Row) {
    match Asked(p.operator)
    case None => m.other(Cell(row, p.column), p)
    case Some(c) => m.compare(Cell(row, p.column), Test(p.column, c, p.value))
  }

  ghost predicate SatAll(m: Meaning, ps: seq<Pred>, row: Row) {
    forall i :: 0 <= i < |ps| ==> Sat(m, ps[i], row)
  }

  ghost predicate HoldsAll(m: Meaning, ts: seq<Term>, row: Row) {
    forall i :: 0 <= i < |ts| ==> Holds(m, ts[i], row)
  }

  ghost function Where(m: Meaning, ps: seq<Pred>, rows: seq<Row>): seq<Row> {
    Filter(row => SatAll(m, ps, row), rows)
  }

  function Ordered(m: Meaning, os: seq<Order>, rows: seq<Row>): seq<Row> {
    if os == [] then rows else Sort(m.le(os), rows)
  }

  function Dropped(rows: seq<Row>, n: nat): seq<Row> {
    if n <= |rows| then rows[n..] else []
  }

  function Taken(rows: seq<Row>, n: Option<nat>): seq<Row> {
    if n.Some? && n.value <= |rows| then rows[..n.value] else rows
  }

  function Project(columns: seq<string>, row: Row): Row {
    map c | c in row && c in columns :: row[c]
  }

  function Projected(columns: seq<string>, rows: seq<Row>): seq<Row> {
    if columns == [] then rows else seq(|rows|, i requires 0 <= i < |rows| => Project(columns, rows[i]))
  }

  datatype Response = Response(rows: seq<Row>, count: Option<nat>)

  // --- the server ---------------------------------------------------------------------------------

  datatype Options = Options(terms: seq<Term>, orders: seq<Order>, skip: nat, top: Option<nat>, columns: seq<string>,
          counted: bool)

  /** Section 11.2.1 of OData 4.01 Part 1: filter, then count, order, skip, take, and last project. */
  ghost function Run(m: Meaning, o: Options, rows: seq<Row>): Response {
    var matching := Filter(row => HoldsAll(m, o.terms, row), rows);
    Response(Projected(o.columns, Taken(Dropped(Ordered(m, o.orders, matching), o.skip), o.top)),
             if o.counted then Some(|matching|) else None)
  }

  /** A section without a name is switched off. */
  function Known(name: string): Option<string> {
    if name == "" then None else Some(name)
  }

  /** The names under which the server knows its options. */
  function Names(cfg: Config): seq<Option<string>> {
    [ if cfg.select.Some? then Known(SelectName(cfg.select.value)) else None,
      if cfg.filter.Some? then Known(FilterName(cfg.filter.value)) else None,
      if cfg.orderBy.Some? then Known(OrderByName(cfg.orderBy.value)) else None,
      if cfg.top.Some? then Known(TopName(cfg.top.value)) else None,
      if cfg.skip.Some? then Known(SkipName(cfg.skip.value)) else None,
      if cfg.count.Some? then Known(CountName(cfg.count.value)) else None ]
  }

  predicate Distinct(names: seq<Option<string>>) {
    forall i, j :: 0 <= i < j < |names| && names[i].Some? ==> names[i] != names[j]
  }

  function TextOf(params: map<string, string>, name: Option<string>): Option<string> {
    if name.Some? && name.value in params then Some(params[name.value]) else None
  }

  function ReadBound(text: Option<string>): Option<Option<nat>> {
    if text.None? then Some(None)
    else if IsIntText(text.value) && Atoi(text.value) >= 0 then Some(Some(Atoi(text.value)))
    else None
  }

  function ReadTerms(text: Option<string>): Option<seq<Term>> {
    if text.None? then Some([]) else ReadFilter(text.value)
  }

  function ReadOrders(text: Option<string>): Option<seq<Order>> {
    if text.None? then Some([]) else ReadOrderBy(text.value)
  }

  function ReadColumns(text: Option<string>, delimiter: string): Option<seq<string>> {
    if text.None? then Some([]) else ReadSelect(text.value, delimiter)
  }

  function ReadOptions(cfg: Config, params: map<string, string>): Option<Options> {
    var n := Names(cfg);
    var columns := ReadColumns(TextOf(params, n[0]), if cfg.select.Some? then Delimiter(cfg.select.value) else ",");
    var terms := ReadTerms(TextOf(params, n[1]));
    var orders := ReadOrders(TextOf(params, n[2]));
    var top := ReadBound(TextOf(params, n[3]));
    var skip := ReadBound(TextOf(params, n[4]));
    if columns.None? || terms.None? || orders.None? || top.None? || skip.None? then None
    else Some(Options(terms.value, orders.value, if skip.value.Some? then skip.value.value else 0, top.value,
                      columns.value, cfg.count.Some? && TextOf(params, n[5]) == Some(CountText(cfg.count.value))))
  }

  // --- reading back what the steps emitted ------------------------------------------------------------

  function Emitted(cfg: Config, intent: Intent): seq<Option<Param>> {
    [ SelectParam(cfg, intent), FilterParam(cfg, intent), OrderByParam(cfg, intent),
      TopParam(cfg, intent), SkipParam(cfg, intent), CountParam(cfg, intent) ]
  }

  function PutAll(ps: seq<Option<Param>>): map<string, string> {
    if ps == [] then map[] else Put(PutAll(ps[..|ps| - 1]), ps[|ps| - 1])
  }

  lemma {:induction false} PutAllSnoc(ps: seq<Option<Param>>, p: Option<Param>)
    ensures PutAll(ps + [p]) == Put(PutAll(ps), p)
  {
    assert (ps + [p])[..|ps|] == ps;
  }

  lemma {:induction false} ParamsArePutAll(cfg: Config, intent: Intent)
    ensures Params(cfg, intent) == PutAll(Emitted(cfg, intent))
  {
    hide SelectParam, FilterParam, OrderByParam, TopParam, SkipParam, CountParam, PutAll, Put;
    var e := Emitted(cfg, intent);
    PutAllEmpty();
    PutAllSnoc([], e[0]);
    PutAllSnoc([] + [e[0]], e[1]);
    PutAllSnoc([] + [e[0]] + [e[1]], e[2]);
    PutAllSnoc([] + [e[0]] + [e[1]] + [e[2]], e[3]);
    PutAllSnoc([] + [e[0]] + [e[1]] + [e[2]] + [e[3]], e[4]);
    PutAllSnoc([] + [e[0]] + [e[1]] + [e[2]] + [e[3]] + [e[4]], e[5]);
    assert e == [] + [e[0]] + [e[1]] + [e[2]] + [e[3]] + [e[4]] + [e[5]];
  }

  lemma {:induction false} PutAllEmpty()
    ensures PutAll([]) == map[]
  {
  }

  lemma {:induction false} PushablesNamed(fil: FilterConfig, ps: seq<Pred>)
    ensures Pushables(fil, ps) != [] ==> FilterName(fil) != ""
  {
    hide IsItemSupported, EqualFold, NormalizeOperator;
    if ps != [] {
      PushablesNamed(fil, ps[1..]);
    }
  }

  lemma {:induction false} PushedNamed(cfg: Config, intent: Intent)
    ensures Pushed(cfg, intent) != [] ==> cfg.filter.Some? && FilterName(cfg.filter.value) != ""
  {
    hide Pushables;
    if cfg.filter.Some? {
      PushablesNamed(cfg.filter.value, intent.predicates);
    }
  }

  /** Each step emits under the name the server knows it by. */
  lemma {:induction false} EmittedNames(cfg: Config, intent: Intent, k: nat)
    requires k < 6
    ensures |Emitted(cfg, intent)| == 6 && |Names(cfg)| == 6
    ensures Emitted(cfg, intent)[k].Some? ==> Names(cfg)[k] == Some(Emitted(cfg, intent)[k].value.name)
  {
    PushedNamed(cfg, intent);
    hide IsItemSupported, EqualFold, Pushed, Unpushables, FormatFilter, FormatOrderBy, Defaulted;
  }

  /** Whose text stands under the `k`-th name, when the names are distinct. */
  ghost predicate Stands(params: map<string, string>, p: Option<Param>, name: Option<string>) {
    && (p.Some? ==> p.value.name in params && params[p.value.name] == p.value.text)
    && (p.None? && name.Some? ==> name.value !in params)
  }

  lemma {:induction false} PutAllHolds(ps: seq<Option<Param>>, names: seq<Option<string>>, more: seq<Option<string>>)
    requires |names| == |ps| && (forall k :: 0 <= k < |ps| && ps[k].Some? ==> names[k] == Some(ps[k].value.name))
    requires Distinct(names + more)
    ensures forall k :: 0 <= k < |ps| ==> Stands(PutAll(ps), ps[k], names[k])
    ensures forall k :: 0 <= k < |more| && more[k].Some? ==> more[k].value !in PutAll(ps)
  {
    if ps != [] {
      var n := |ps| - 1;
      assert names + more == names[..n] + ([names[n]] + more);
      PutAllHolds(ps[..n], names[..n], [names[n]] + more);
      var before := PutAll(ps[..n]);
      forall k | 0 <= k < |more| && more[k].Some? ensures more[k].value !in PutAll(ps) {
        assert ([names[n]] + more)[k + 1] == more[k];
        assert (names + more)[n] == names[n] && (names + more)[|names| + k] == more[k];
      }
      forall k | 0 <= k < |ps| ensures Stands(PutAll(ps), ps[k], names[k]) {
        if k < n {
          assert Stands(before, ps[..n][k], names[..n][k]);
          assert (names + more)[k] == names[k] && (names + more)[n] == names[n];
        } else {
          assert ([names[n]] + more)[0] == names[n];
        }
      }
    }
  }

  /** The server finds each option's text exactly when the step emitted it. */
  lemma {:induction false} TextFound(cfg: Config, intent: Intent, k: nat)
    requires k < 6 && |Names(cfg)| == 6 && |Emitted(cfg, intent)| == 6 && Distinct(Names(cfg))
    ensures TextOf(Params(cfg, intent), Names(cfg)[k])
         == match Emitted(cfg, intent)[k] case None => None case Some(p) => Some(p.text)
  {
    hide Emitted, Names, Params, Put, PutAll;
    var ps, names := Emitted(cfg, intent), Names(cfg);
    ParamsArePutAll(cfg, intent);
    forall j | 0 <= j < 6 ensures |ps| == 6 && |names| == 6 && (ps[j].Some? ==> names[j] == Some(ps[j].value.name)) {
      EmittedNames(cfg, intent, j);
    }
    EmittedNames(cfg, intent, k);
    assert names + [] == names;
    PutAllHolds(ps, names, []);
    assert Stands(PutAll(ps), ps[k], names[k]);
  }

  /** An identifier column, and a value of one of the four named kinds. */
  predicate Plain(p: Pred) {
    p.column != "" && !p.value.Other? && forall i :: 0 <= i < |p.column| ==> WordChar(p.column[i])
  }

  /**
   In what is emitted, columns are identifiers, values are of a readable kind and the delimiter is
   no word character.
   */
  predicate ReadableIntent(cfg: Config, intent: Intent) {
    && (SelectParam(cfg, intent).Some? ==>
      AllColumns(intent.projection) && !WordChar(Delimiter(cfg.select.value)[0]))
    && (forall p :: p in Pushed(cfg, intent) ==> Plain(p))
    && (OrderByParam(cfg, intent).Some? ==> OrderColumns(intent.orderBy))
  }

  lemma {:induction false} PushablesArePushable(fil: FilterConfig, ps: seq<Pred>, p: Pred)
    requires p in Pushables(fil, ps)
    ensures p in ps && Pushable(fil, p)
  {
    hide Pushable;
    if p !in Pushables(fil, ps[1..]) {
      assert p == ps[0];
    } else {
      PushablesArePushable(fil, ps[1..], p);
    }
  }

  lemma {:induction false} TermsLength(ps: seq<Pred>)
    ensures |Terms(ps)| == |ps| && forall i :: 0 <= i < |ps| ==> Terms(ps)[i] == TermOf(ps[i])
  {
    hide TermOf;
    if ps != [] {
      TermsLength(ps[1..]);
    }
  }

  /** The operator of a pushed predicate is always one the server can read. */
  lemma {:induction false} PushedAreReadable(cfg: Config, intent: Intent)
    requires forall p :: p in Pushed(cfg, intent) ==> Plain(p)
    ensures AllReadable(Terms(Pushed(cfg, intent)))
  {
    hide NormalizeOperator, WordChar, Pushable, Terms;
    var ps := Pushed(cfg, intent);
    TermsLength(ps);
    forall i | 0 <= i < |ps| ensures Readable(Terms(ps)[i]) {
      assert ps[i] in ps;
      PushedIsCanonical(cfg, intent, ps[i]);
    }
  }

  lemma {:induction false} PushedIsCanonical(cfg: Config, intent: Intent, p: Pred)
    requires p in Pushed(cfg, intent)
    ensures TermOf(p).op in COMPARISONS || TermOf(p).op in FUNCTIONS
  {
    hide NormalizeOperator;
    PushablesArePushable(cfg.filter.value, intent.predicates, p);
    NormalizedIsCanonical(p.operator);
  }

  function EmittedBound(p: Option<Param>, v: Option<int>, c: Option<BoundConfig>): Option<nat> {
    if p.None? || v.None? || c.None? || Clamped(v.value, c.value.maxValue) < 0 then None
    else Some(Clamped(v.value, c.value.maxValue))
  }

  /** The options the emitted parameters spell out. */
  function EmittedOptions(cfg: Config, intent: Intent): Options {
    var skip := EmittedBound(SkipParam(cfg, intent), intent.offset, cfg.skip);
    Options(Terms(Pushed(cfg, intent)),
            if OrderByParam(cfg, intent).Some? then intent.orderBy else [],
            if skip.Some? then skip.value else 0,
            EmittedBound(TopParam(cfg, intent), intent.limit, cfg.top),
            if SelectParam(cfg, intent).Some? then intent.projection else [],
            CountParam(cfg, intent).Some?)
  }

  lemma {:induction false} BoundReads(v: Option<int>, c: Option<BoundConfig>, name: string)
    ensures var p := BoundParam(v, c, name);
      ReadBound(match p case None => None case Some(q) => Some(q.text)) == Some(EmittedBound(p, v, c))
  {
    hide Itoa, Atoi, IsIntText;
    if BoundParam(v, c, name).Some? {
      AtoiItoa(Clamped(v.value, c.value.maxValue));
    }
  }

  lemma {:induction false} SelectReads(cfg: Config, intent: Intent)
    requires ReadableIntent(cfg, intent)
    ensures ReadColumns(match SelectParam(cfg, intent) case None => None case Some(p) => Some(p.text),
                        if cfg.select.Some? then Delimiter(cfg.select.value) else ",")
         == Some(if SelectParam(cfg, intent).Some? then intent.projection else [])
  {
    hide ReadSelect, Join, IsItemSupported;
    if SelectParam(cfg, intent).Some? {
      ReadSelectUndoes(intent.projection, Delimiter(cfg.select.value));
    }
  }

  lemma {:induction false} FilterReads(cfg: Config, intent: Intent)
    requires ReadableIntent(cfg, intent)
    ensures ReadTerms(match FilterParam(cfg, intent) case None => None case Some(p) => Some(p.text)) ==
        Some(Terms(Pushed(cfg, intent)))
  {
    hide ReadFilter, FormatFilter, Pushed, AllReadable, Plain;
    if FilterParam(cfg, intent).Some? {
      PushedAreReadable(cfg, intent);
      ReadFilterUndoes(Terms(Pushed(cfg, intent)));
    }
  }

  lemma {:induction false} OrderByReads(cfg: Config, intent: Intent)
    requires ReadableIntent(cfg, intent)
    ensures ReadOrders(match OrderByParam(cfg, intent) case None => None case Some(p) => Some(p.text))
         == Some(if OrderByParam(cfg, intent).Some? then intent.orderBy else [])
  {
    hide ReadOrderBy, FormatOrderBy, EqualFold, IsItemSupported;
    if OrderByParam(cfg, intent).Some? {
      ReadOrderByUndoes(intent.orderBy);
    }
  }

  lemma {:induction false} CountReads(cfg: Config, intent: Intent)
    ensures CountParam(cfg, intent).Some? <==> (cfg.count.Some? &&
        match CountParam(cfg, intent) case None => false case Some(p) => p.text == CountText(cfg.count.value))
  {
  }

  /** The server reads exactly the options that were meant, out of the parameter texts. */
  lemma {:induction false} EmittedParamsRead(cfg: Config, intent: Intent)
    requires Distinct(Names(cfg)) && ReadableIntent(cfg, intent)
    ensures ReadOptions(cfg, Params(cfg, intent)) == Some(EmittedOptions(cfg, intent))
  {
    hide Params, SelectParam, FilterParam, OrderByParam, BoundParam, CountParam, Names, ReadColumns, ReadTerms,
        ReadOrders, ReadBound, EmittedBound, ReadableIntent, Delimiter, CountText, Terms, Pushed;
    EmittedNames(cfg, intent, 0);
    forall k | 0 <= k < 6
      ensures TextOf(Params(cfg, intent), Names(cfg)[k]) == match Emitted(cfg, intent)[k] case None => None
          case Some(p) => Some(p.text)
    {
      TextFound(cfg, intent, k);
    }
    SelectReads(cfg, intent);
    FilterReads(cfg, intent);
    OrderByReads(cfg, intent);
    CountReads(cfg, intent);
    BoundReads(intent.limit, cfg.top, if cfg.top.Some? then TopName(cfg.top.value) else "");
    BoundReads(intent.offset, cfg.skip, if cfg.skip.Some? then SkipName(cfg.skip.value) else "");
  }
}
