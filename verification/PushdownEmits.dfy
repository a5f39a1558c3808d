/** What is pushed for which config and intent, said of the settings as they are configured. */
module PushdownEmits {
  import opened Wrappers
  import opened GoStrings
  import opened ODataFilter
  import opened ODataOptions
  import opened Pushdown
  import opened StableSort
  import opened SqlOperators
  import opened PushdownServer

  /** A setting that is configured counts; one that is not has a standard value in the OData dialect, and none else. */
  function InForce(configured: string, dialect: string, standard: string): Option<string> {
    if configured != "" then Some(configured) else if dialect == "odata" then Some(standard) else None
  }

  /** Nothing listed allows everything, and so does a star. */
  predicate Allows(listed: seq<string>, item: string) {
    |listed| == 0 || "*" in listed || item in listed
  }

  predicate ODataSyntax(configured: string, dialect: string) {
    match InForce(configured, dialect, "odata") case None => false case Some(s) => ToLower(s) == "odata"
  }

  lemma {:induction false} DefaultedIsInForce(configured: string, dialect: string, standard: string)
    ensures InForce(configured, dialect, standard) == None ==> Defaulted(configured, dialect, standard) == ""
    ensures InForce(configured, dialect, standard).Some? ==>
      Defaulted(configured, dialect, standard) == InForce(configured, dialect, standard).value
  {
    assert |"custom"| == 6 && |ODATA| == 5;
  }

  lemma {:induction false} KnownInForce(configured: string, dialect: string, standard: string)
    requires standard != ""
    ensures Known(Defaulted(configured, dialect, standard)) == InForce(configured, dialect, standard)
  {
    hide Defaulted;
    DefaultedIsInForce(configured, dialect, standard);
  }

  lemma {:induction false} ItemSupportedExactly(item: string, listed: seq<string>)
    ensures IsItemSupported(item, listed) <==> Allows(listed, item)
  {
  }

  lemma {:induction false} SyntaxExactly(configured: string, dialect: string)
    ensures EqualFold(Defaulted(configured, dialect, ODATA), ODATA) <==> ODataSyntax(configured, dialect)
  {
    hide Defaulted;
    DefaultedIsInForce(configured, dialect, ODATA);
    assert ToLower("odata") == "odata";
    assert ToLower("") == "" != "odata";
  }

  /** Every option goes by its configured name, or by OData's in the OData dialect. */
  lemma {:induction false} NamesExactly(cfg: Config)
    ensures Names(cfg) == [
        match cfg.select case None => None case Some(c) => InForce(c.paramName, c.dialect, "$select"),
        match cfg.filter case None => None case Some(c) => InForce(c.paramName, c.dialect, "$filter"),
        match cfg.orderBy case None => None case Some(c) => InForce(c.paramName, c.dialect, "$orderby"),
        match cfg.top case None => None case Some(c) => InForce(c.paramName, c.dialect, "$top"),
        match cfg.skip case None => None case Some(c) => InForce(c.paramName, c.dialect, "$skip"),
        match cfg.count case None => None case Some(c) => InForce(c.paramName, c.dialect, "$count") ]
  {
    hide Defaulted, InForce, Known;
    if cfg.select.Some? { KnownInForce(cfg.select.value.paramName, cfg.select.value.dialect, "$select"); }
    if cfg.filter.Some? { KnownInForce(cfg.filter.value.paramName, cfg.filter.value.dialect, "$filter"); }
    if cfg.orderBy.Some? { KnownInForce(cfg.orderBy.value.paramName, cfg.orderBy.value.dialect, "$orderby"); }
    if cfg.top.Some? { KnownInForce(cfg.top.value.paramName, cfg.top.value.dialect, "$top"); }
    if cfg.skip.Some? { KnownInForce(cfg.skip.value.paramName, cfg.skip.value.dialect, "$skip"); }
    if cfg.count.Some? { KnownInForce(cfg.count.value.paramName, cfg.count.value.dialect, "$count"); }
  }

  // --- the filter -------------------------------------------------------------------------------

  /** The config lets this predicate go to the server. */
  ghost predicate Accepts(fil: FilterConfig, p: Pred) {
    && ODataSyntax(fil.syntax, fil.dialect) && InForce(fil.paramName, fil.dialect, "$filter").Some?
    && Allows(fil.columns, p.column)
    && exists c :: Spells(p.operator, c) && Allows(fil.operators, ODataName(c))
  }

  lemma {:induction false} PushableExactly(fil: FilterConfig, p: Pred)
    ensures Pushable(fil, p) <==> Accepts(fil, p)
  {
    hide Defaulted, NormalizeOperator, Spells, ODataName, IsItemSupported, Allows, EqualFold, InForce, ODataSyntax;
    var op := NormalizeOperator(p.operator);
    SyntaxExactly(fil.syntax, fil.dialect);
    KnownInForce(fil.paramName, fil.dialect, "$filter");
    ItemSupportedExactly(p.column, fil.columns);
    ItemSupportedExactly(op, fil.operators);
    NotNormalizedExactly(p.operator);
    forall c ensures op == ODataName(c) <==> Spells(p.operator, c) {
      NormalizedExactly(p.operator, c);
    }
  }

  lemma {:induction false} PushablesExactly(fil: FilterConfig, ps: seq<Pred>)
    ensures Pushables(fil, ps) == Filter(p => Accepts(fil, p), ps)
    ensures Unpushables(fil, ps) == Filter(p => !Accepts(fil, p), ps)
  {
    hide Pushable, Accepts;
    if ps != [] {
      PushableExactly(fil, ps[0]);
      PushablesExactly(fil, ps[1..]);
    }
  }

  /**
   All predicates that the config accepts are pushed, in their order, or only the first if it does not allow
   "and"; the others are residual, refused ones before those that were cut off.
   */
  lemma {:induction false} PushedExactly(cfg: Config, intent: Intent, fil: FilterConfig)
    requires cfg.filter == Some(fil)
    ensures var accepted := Filter(p => Accepts(fil, p), intent.predicates);
      var n := if |accepted| > 1 && !Allows(fil.operators, "and") then 1 else |accepted|;
      && n <= |accepted| && Pushed(cfg, intent) == accepted[..n]
      && Residual(cfg, intent) == Filter(p => !Accepts(fil, p), intent.predicates) + accepted[n..]
  {
    hide Pushables, Unpushables, IsItemSupported, Allows, Accepts;
    PushablesExactly(fil, intent.predicates);
    ItemSupportedExactly("and", fil.operators);
  }

  // --- the other clauses ----------------------------------------------------------------------------

  /** Projections and orderings are emitted whole or not at all. */
  lemma {:induction false} ListsEmittedExactly(cfg: Config, intent: Intent)
    ensures SelectParam(cfg, intent).Some? <==>
      match cfg.select case None => false case Some(c) =>
        && intent.projection != [] && InForce(c.paramName, c.dialect, "$select").Some?
        && forall column :: column in intent.projection ==> Allows(c.columns, column)
    ensures OrderByParam(cfg, intent).Some? <==>
      match cfg.orderBy case None => false case Some(c) =>
        && intent.orderBy != [] && InForce(c.paramName, c.dialect, "$orderby").Some?
        && ODataSyntax(c.syntax, c.dialect) && forall o :: o in intent.orderBy ==> Allows(c.columns, o.column)
    ensures cfg.select.Some? ==>
      Delimiter(cfg.select.value) == if cfg.select.value.delimiter == "" then "," else cfg.select.value.delimiter
  {
    hide Defaulted, IsItemSupported, Allows, EqualFold, ODataSyntax, InForce, FormatOrderBy;
    forall item, listed ensures IsItemSupported(item, listed) <==> Allows(listed, item) {
      ItemSupportedExactly(item, listed);
    }
    if cfg.select.Some? {
      KnownInForce(cfg.select.value.paramName, cfg.select.value.dialect, "$select");
    }
    if cfg.orderBy.Some? {
      KnownInForce(cfg.orderBy.value.paramName, cfg.orderBy.value.dialect, "$orderby");
      SyntaxExactly(cfg.orderBy.value.syntax, cfg.orderBy.value.dialect);
    }
  }

  /** A bound is emitted if it is given and not negative, and never above a positive maximum. */
  lemma {:induction false} BoundEmittedExactly(v: Option<int>, c: BoundConfig, standard: string)
    requires standard != ""
    ensures var p := BoundParam(v, Some(c), Defaulted(c.paramName, c.dialect, standard));
      && (p.Some? <==> v.Some? && v.value >= 0 && InForce(c.paramName, c.dialect, standard).Some?)
      && (p.Some? ==>
            EmittedBound(p, v, Some(c)) == Some(if c.maxValue > 0 then Min(v.value, c.maxValue) else v.value))
  {
    hide Defaulted, InForce;
    KnownInForce(c.paramName, c.dialect, standard);
  }

  function Min(a: int, b: int): int { if a <= b then a else b }

  /** A count is asked for, with the text and the response key in force. */
  lemma {:induction false} CountEmittedExactly(cfg: Config, intent: Intent)
    ensures CountParam(cfg, intent).Some? <==>
      match cfg.count case None => false case Some(c) =>
        intent.count && InForce(c.paramName, c.dialect, "$count").Some?
    ensures CountParam(cfg, intent).Some? ==> var c := cfg.count.value;
      && Known(CountParam(cfg, intent).value.text) == InForce(c.paramValue, c.dialect, "true")
      && Known(CountKey(cfg, intent)) == InForce(c.responseKey, c.dialect, "@odata.count")
    ensures CountParam(cfg, intent) == None ==> CountKey(cfg, intent) == ""
  {
    hide Defaulted, InForce;
    if cfg.count.Some? {
      var c := cfg.count.value;
      KnownInForce(c.paramName, c.dialect, "$count");
      KnownInForce(c.paramValue, c.dialect, "true");
      KnownInForce(c.responseKey, c.dialect, "@odata.count");
    }
  }
}
