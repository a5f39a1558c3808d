/** ApplyPushdown in internal/anysdk/query_param_pushdown_apply.go and the config it reads. */
module Pushdown {
  import opened Wrappers
  import opened GoStrings
  import opened Decimal
  import opened ODataFilter
  import opened ODataOptions

  // --- configuration: internal/anysdk/query_param_pushdown.go -----------------------------------

  datatype SelectConfig = SelectConfig(dialect: string, paramName: string, delimiter: string, columns: seq<string>)
  datatype FilterConfig = FilterConfig(dialect: string, paramName: string, syntax: string, operators: seq<string>,
          columns: seq<string>)
  datatype OrderByConfig = OrderByConfig(dialect: string, paramName: string, syntax: string, columns: seq<string>)
  datatype BoundConfig = BoundConfig(dialect: string, paramName: string, maxValue: int)
  datatype CountConfig = CountConfig(dialect: string, paramName: string, paramValue: string, responseKey: string)

  datatype Config = Config(select: Option<SelectConfig>, filter: Option<FilterConfig>, orderBy: Option<OrderByConfig>,
                           top: Option<BoundConfig>, skip: Option<BoundConfig>, count: Option<CountConfig>)

  const ODATA: string := "odata"

  function Dialect(dialect: string): string { if dialect == "" then "custom" else dialect }

  /** A setting left empty takes its OData default under the OData dialect only. */
  function Defaulted(setting: string, dialect: string, odataDefault: string): string {
    if setting == "" && Dialect(dialect) == ODATA then odataDefault else setting
  }

  function SelectName(c: SelectConfig): string { Defaulted(c.paramName, c.dialect, "$select") }
  function FilterName(c: FilterConfig): string { Defaulted(c.paramName, c.dialect, "$filter") }
  function OrderByName(c: OrderByConfig): string { Defaulted(c.paramName, c.dialect, "$orderby") }
  function TopName(c: BoundConfig): string { Defaulted(c.paramName, c.dialect, "$top") }
  function SkipName(c: BoundConfig): string { Defaulted(c.paramName, c.dialect, "$skip") }
  function CountName(c: CountConfig): string { Defaulted(c.paramName, c.dialect, "$count") }
  function CountText(c: CountConfig): string { Defaulted(c.paramValue, c.dialect, "true") }
  function FilterSyntax(c: FilterConfig): string { Defaulted(c.syntax, c.dialect, ODATA) }
  function OrderBySyntax(c: OrderByConfig): string { Defaulted(c.syntax, c.dialect, ODATA) }
  function Delimiter(c: SelectConfig): string { if c.delimiter == "" then "," else c.delimiter }

  predicate IsItemSupported(item: string, supported: seq<string>) {
    supported == [] || exists s :: s in supported && (s == "*" || s == item)
  }

  predicate EqualFold(a: string, b: string) { ToLower(a) == ToLower(b) }

  // --- intent ---------------------------------------------------------------------------------------

  datatype Intent = Intent(projection: seq<string>, predicates: seq<Pred>, orderBy: seq<Order>,
                           limit: Option<int>, offset: Option<int>, count: bool)

  // --- what each step emits ---------------------------------------------------------------------------

  datatype Param = Param(name: string, text: string)

  function Put(params: map<string, string>, p: Option<Param>): map<string, string> {
    match p case None => params case Some(q) => params[q.name := q.text]
  }

  function SelectParam(cfg: Config, intent: Intent): Option<Param> {
    if intent.projection == [] || cfg.select.None? then None
    else
      var sel := cfg.select.value;
      if (exists c :: c in intent.projection && !IsItemSupported(c, sel.columns)) || SelectName(sel) == "" then None
      else Some(Param(SelectName(sel), Join(intent.projection, Delimiter(sel))))
  }

  predicate Pushable(fil: FilterConfig, p: Pred) {
    var op := NormalizeOperator(p.operator);
    && EqualFold(FilterSyntax(fil), ODATA) && FilterName(fil) != "" && op != ""
    && IsItemSupported(p.column, fil.columns) && IsItemSupported(op, fil.operators)
  }

  function Pushables(fil: FilterConfig, ps: seq<Pred>): seq<Pred> {
    if ps == [] then [] else (if Pushable(fil, ps[0]) then [ps[0]] else []) + Pushables(fil, ps[1..])
  }

  function Unpushables(fil: FilterConfig, ps: seq<Pred>): seq<Pred> {
    if ps == [] then [] else (if Pushable(fil, ps[0]) then [] else [ps[0]]) + Unpushables(fil, ps[1..])
  }

  /** Several predicates need the "and" operator; without it only the first is pushed. */
  function PushedCount(fil: FilterConfig, ps: seq<Pred>): (n: nat)
    ensures n <= |Pushables(fil, ps)|
  {
    var pushable := Pushables(fil, ps);
    if |pushable| > 1 && !IsItemSupported("and", fil.operators) then 1 else |pushable|
  }

  function Pushed(cfg: Config, intent: Intent): seq<Pred> {
    match cfg.filter case None => []
    case Some(fil) => Pushables(fil, intent.predicates)[..PushedCount(fil, intent.predicates)]
  }

  function Residual(cfg: Config, intent: Intent): seq<Pred> {
    match cfg.filter case None => intent.predicates
    case Some(fil) =>
      var ps := intent.predicates;
      Unpushables(fil, ps) + Pushables(fil, ps)[PushedCount(fil, ps)..]
  }

  function Terms(ps: seq<Pred>): seq<Term> {
    if ps == [] then [] else [TermOf(ps[0])] + Terms(ps[1..])
  }

  function FilterParam(cfg: Config, intent: Intent): Option<Param> {
    if Pushed(cfg, intent) == [] then None
    else Some(Param(FilterName(cfg.filter.value), FormatFilter(Terms(Pushed(cfg, intent)))))
  }

  function OrderByParam(cfg: Config, intent: Intent): Option<Param> {
    if intent.orderBy == [] || cfg.orderBy.None? then None
    else
      var ob := cfg.orderBy.value;
      if !EqualFold(OrderBySyntax(ob), ODATA) || OrderByName(ob) == "" then None
      else if exists o :: o in intent.orderBy && !IsItemSupported(o.column, ob.columns) then None
      else Some(Param(OrderByName(ob), FormatOrderBy(intent.orderBy)))
  }

  function Clamped(v: int, maxValue: int): int {
    if maxValue > 0 && v > maxValue then maxValue else v
  }

  function BoundParam(v: Option<int>, c: Option<BoundConfig>, name: string): Option<Param> {
    if v.None? || c.None? || name == "" || v.value < 0 then None
    else Some(Param(name, Itoa(Clamped(v.value, c.value.maxValue))))
  }

  function TopParam(cfg: Config, intent: Intent): Option<Param> {
    BoundParam(intent.limit, cfg.top, if cfg.top.Some? then TopName(cfg.top.value) else "")
  }

  function SkipParam(cfg: Config, intent: Intent): Option<Param> {
    BoundParam(intent.offset, cfg.skip, if cfg.skip.Some? then SkipName(cfg.skip.value) else "")
  }

  function CountParam(cfg: Config, intent: Intent): Option<Param> {
    if !intent.count || cfg.count.None? || CountName(cfg.count.value) == "" then None
    else Some(Param(CountName(cfg.count.value), CountText(cfg.count.value)))
  }

  /** Where in the response the count will be, if it was asked for. */
  function CountKey(cfg: Config, intent: Intent): string {
    if CountParam(cfg, intent).None? then ""
    else Defaulted(cfg.count.value.responseKey, cfg.count.value.dialect, "@odata.count")
  }

  /** All six steps, in the order they run; a later step overwrites an equally named parameter. */
  function Params(cfg: Config, intent: Intent): map<string, string> {
    Put(Put(Put(Put(Put(Put(map[], SelectParam(cfg, intent)), FilterParam(cfg, intent)), OrderByParam(cfg, intent)),
        TopParam(cfg, intent)), SkipParam(cfg, intent)), CountParam(cfg, intent))
  }

  // --- the steps --------------------------------------------------------------------------------------

  /** The outcome the steps fill in place. */
  class PushdownResult {
    var queryParams: map<string, string>
    var pushed: seq<Pred>
    var residual: seq<Pred>
    var countResponseKey: string

    constructor ()
      ensures queryParams == map[] && pushed == [] && residual == [] && countResponseKey == ""
    {
      queryParams, pushed, residual, countResponseKey := map[], [], [], "";
    }

    method ApplySelect(cfg: Config, intent: Intent)
      modifies this`queryParams
      ensures queryParams == Put(old(queryParams), SelectParam(cfg, intent))
    {
      if |intent.projection| == 0 || cfg.select.None? { return; }
      var sel := cfg.select.value;
      for i := 0 to |intent.projection|
        invariant forall c :: c in intent.projection[..i] ==> IsItemSupported(c, sel.columns)
      {
        if !IsItemSupported(intent.projection[i], sel.columns) { return; }
      }
      if SelectName(sel) == "" { return; }
      queryParams := queryParams[SelectName(sel) := Join(intent.projection, Delimiter(sel))];
    }

    method ApplyFilter(cfg: Config, intent: Intent)
      modifies this`queryParams, this`pushed, this`residual
      ensures queryParams == Put(old(queryParams), FilterParam(cfg, intent))
      ensures pushed == old(pushed) + Pushed(cfg, intent)
      ensures residual == old(residual) + Residual(cfg, intent)
    {
      hide Pushables, Unpushables, IsItemSupported, FormatFilter, Terms, Pushed, Residual;
      var predicates := intent.predicates;
      if |predicates| == 0 {
        NoPredicates(cfg, intent);
        return;
      }
      if cfg.filter.None? {
        NoFilter(cfg, intent);
        residual := residual + predicates;
        return;
      }
      var fil := cfg.filter.value;
      var pushable, rest := SplitPredicates(fil, predicates);
      PushedCases(cfg, intent);
      residual := residual + rest;
      if |pushable| == 0 { return; }
      if |pushable| > 1 && !IsItemSupported("and", fil.operators) {
        residual := residual + pushable[1..];
        pushable := pushable[..1];
      }
      var text := FilterText(pushable);
      queryParams := queryParams[FilterName(fil) := text];
      pushed := pushed + pushable;
    }

    method ApplyOrderBy(cfg: Config, intent: Intent)
      modifies this`queryParams
      ensures queryParams == Put(old(queryParams), OrderByParam(cfg, intent))
    {
      if |intent.orderBy| == 0 || cfg.orderBy.None? { return; }
      var ob := cfg.orderBy.value;
      if !EqualFold(OrderBySyntax(ob), ODATA) || OrderByName(ob) == "" { return; }
      for i := 0 to |intent.orderBy|
        invariant forall o :: o in intent.orderBy[..i] ==> IsItemSupported(o.column, ob.columns)
      {
        if !IsItemSupported(intent.orderBy[i].column, ob.columns) { return; }
      }
      var text := OrderByText(intent.orderBy);
      queryParams := queryParams[OrderByName(ob) := text];
    }

    method ApplyTop(cfg: Config, intent: Intent)
      modifies this`queryParams
      ensures queryParams == Put(old(queryParams), TopParam(cfg, intent))
    {
      if intent.limit.None? || cfg.top.None? || TopName(cfg.top.value) == "" { return; }
      var v := intent.limit.value;
      if v < 0 { return; }
      if cfg.top.value.maxValue > 0 && v > cfg.top.value.maxValue { v := cfg.top.value.maxValue; }
      queryParams := queryParams[TopName(cfg.top.value) := Itoa(v)];
    }

    method ApplySkip(cfg: Config, intent: Intent)
      modifies this`queryParams
      ensures queryParams == Put(old(queryParams), SkipParam(cfg, intent))
    {
      if intent.offset.None? || cfg.skip.None? || SkipName(cfg.skip.value) == "" { return; }
      var v := intent.offset.value;
      if v < 0 { return; }
      if cfg.skip.value.maxValue > 0 && v > cfg.skip.value.maxValue { v := cfg.skip.value.maxValue; }
      queryParams := queryParams[SkipName(cfg.skip.value) := Itoa(v)];
    }

    method ApplyCount(cfg: Config, intent: Intent)
      modifies this`queryParams, this`countResponseKey
      ensures queryParams == Put(old(queryParams), CountParam(cfg, intent))
      ensures countResponseKey == if CountParam(cfg, intent).Some? then CountKey(cfg, intent) else old(countResponseKey)
    {
      if !intent.count || cfg.count.None? || CountName(cfg.count.value) == "" { return; }
      var c := cfg.count.value;
      queryParams := queryParams[CountName(c) := CountText(c)];
      countResponseKey := Defaulted(c.responseKey, c.dialect, "@odata.count");
    }
  }

  lemma {:induction false} NoFilter(cfg: Config, intent: Intent)
    requires cfg.filter.None?
    ensures Pushed(cfg, intent) == [] && Residual(cfg, intent) == intent.predicates
  {
  }

  lemma {:induction false} PushedCases(cfg: Config, intent: Intent)
    requires cfg.filter.Some?
    ensures var fil := cfg.filter.value;
      var pushable, rest := Pushables(fil, intent.predicates), Unpushables(fil, intent.predicates);
      if |pushable| > 1 && !IsItemSupported("and", fil.operators) then
        Pushed(cfg, intent) == pushable[..1] && Residual(cfg, intent) == rest + pushable[1..]
      else Pushed(cfg, intent) == pushable && Residual(cfg, intent) == rest
  {
    hide Pushables, Unpushables, IsItemSupported;
    var fil := cfg.filter.value;
    var pushable, rest := Pushables(fil, intent.predicates), Unpushables(fil, intent.predicates);
    assert pushable[..|pushable|] == pushable && rest + pushable[|pushable|..] == rest;
  }

  lemma {:induction false} NoPredicates(cfg: Config, intent: Intent)
    requires intent.predicates == []
    ensures Pushed(cfg, intent) == [] && Residual(cfg, intent) == []
  {
  }

  lemma {:induction false} SplitSnoc(fil: FilterConfig, ps: seq<Pred>, p: Pred)
    ensures Pushables(fil, ps + [p]) == Pushables(fil, ps) + if Pushable(fil, p) then [p] else []
    ensures Unpushables(fil, ps + [p]) == Unpushables(fil, ps) + if Pushable(fil, p) then [] else [p]
  {
    hide Pushable;
    if ps == [] {
      assert ps + [p] == [p] && [p][1..] == [];
    } else {
      SplitSnoc(fil, ps[1..], p);
      assert ps + [p] == [ps[0]] + (ps[1..] + [p]) && ps == [ps[0]] + ps[1..];
      SplitCons(fil, ps[0], ps[1..] + [p]);
      SplitCons(fil, ps[0], ps[1..]);
      hide Pushables, Unpushables;
    }
  }

  lemma {:induction false} SplitCons(fil: FilterConfig, p: Pred, ps: seq<Pred>)
    ensures Pushables(fil, [p] + ps) == (if Pushable(fil, p) then [p] else []) + Pushables(fil, ps)
    ensures Unpushables(fil, [p] + ps) == (if Pushable(fil, p) then [] else [p]) + Unpushables(fil, ps)
  {
    hide Pushable;
    assert ([p] + ps)[1..] == ps;
  }

  method SplitPredicates(fil: FilterConfig, ps: seq<Pred>) returns (pushable: seq<Pred>, rest: seq<Pred>)
    ensures pushable == Pushables(fil, ps) && rest == Unpushables(fil, ps)
  {
    hide Pushable;
    pushable, rest := [], [];
    for i := 0 to |ps|
      invariant pushable == Pushables(fil, ps[..i]) && rest == Unpushables(fil, ps[..i])
    {
      SplitSnoc(fil, ps[..i], ps[i]);
      assert ps[..i + 1] == ps[..i] + [ps[i]];
      if Pushable(fil, ps[i]) {
        pushable := pushable + [ps[i]];
      } else {
        rest := rest + [ps[i]];
      }
    }
    assert ps[..|ps|] == ps;
  }

  lemma {:induction false} TermsSnoc(ps: seq<Pred>, p: Pred)
    ensures FormatTerms(Terms(ps + [p])) == FormatTerms(Terms(ps)) + [FormatTerm(TermOf(p))]
  {
    hide FormatTerm, TermOf;
    if ps == [] {
      assert ps + [p] == [p] && [p][1..] == [];
      assert Terms([p]) == [TermOf(p)] && [TermOf(p)][1..] == [];
    } else {
      TermsSnoc(ps[1..], p);
      assert (ps + [p])[0] == ps[0] && (ps + [p])[1..] == ps[1..] + [p];
      assert Terms(ps)[1..] == Terms(ps[1..]) && Terms(ps + [p])[1..] == Terms(ps[1..] + [p]);
    }
  }

  method FilterText(ps: seq<Pred>) returns (text: string)
    ensures text == FormatFilter(Terms(ps))
  {
    hide FormatTerm, TermOf;
    var parts := [];
    for i := 0 to |ps|
      invariant parts == FormatTerms(Terms(ps[..i]))
    {
      TermsSnoc(ps[..i], ps[i]);
      assert ps[..i + 1] == ps[..i] + [ps[i]];
      parts := parts + [FormatTerm(TermOf(ps[i]))];
    }
    assert ps[..|ps|] == ps;
    text := Join(parts, " and ");
  }

  lemma {:induction false} OrderItemsSnoc(os: seq<Order>, o: Order)
    ensures FormatOrderItems(os + [o]) == FormatOrderItems(os) + [FormatOrderItem(o)]
  {
    hide FormatOrderItem;
    if os == [] {
      assert os + [o] == [o] && [o][1..] == [];
    } else {
      OrderItemsSnoc(os[1..], o);
      assert (os + [o])[0] == os[0] && (os + [o])[1..] == os[1..] + [o];
    }
  }

  method OrderByText(os: seq<Order>) returns (text: string)
    ensures text == FormatOrderBy(os)
  {
    var parts := [];
    for i := 0 to |os|
      invariant parts == FormatOrderItems(os[..i])
    {
      OrderItemsSnoc(os[..i], os[i]);
      assert os[..i + 1] == os[..i] + [os[i]];
      var dir := "asc";
      if os[i].descending { dir := "desc"; }
      parts := parts + [os[i].column + " " + dir];
    }
    assert os[..|os|] == os;
    text := Join(parts, ",");
  }

  /** Without an intent the result is empty; without a config every predicate stays with the caller. */
  method ApplyPushdown(src: Option<Config>, intent: Option<Intent>) returns (res: PushdownResult)
    ensures fresh(res)
    ensures intent.None? || src.None? ==> res.queryParams == map[] && res.pushed == [] && res.countResponseKey == ""
    ensures src.None? || intent.None? ==> res.residual == if intent.Some? then intent.value.predicates else []
    ensures intent.Some? && src.Some? ==>
      && res.queryParams == Params(src.value, intent.value)
      && res.pushed == Pushed(src.value, intent.value) && res.residual == Residual(src.value, intent.value)
      && res.countResponseKey == CountKey(src.value, intent.value)
  {
    res := new PushdownResult();
    if intent.None? { return; }
    if src.None? {
      res.residual := res.residual + intent.value.predicates;
      return;
    }
    res.ApplySelect(src.value, intent.value);
    res.ApplyFilter(src.value, intent.value);
    res.ApplyOrderBy(src.value, intent.value);
    res.ApplyTop(src.value, intent.value);
    res.ApplySkip(src.value, intent.value);
    res.ApplyCount(src.value, intent.value);
  }
}
