/** The `$orderby` and `$select` texts of the push-down, and their readers. */
module ODataOptions {
  import opened Wrappers
  import opened GoStrings
  import opened ODataFilter

  datatype Order = Order(column: string, descending: bool)

  function FormatOrderItem(o: Order): string {
    o.column + " " + if o.descending then "desc" else "asc"
  }

  function FormatOrderItems(os: seq<Order>): seq<string> {
    if os == [] then [] else [FormatOrderItem(os[0])] + FormatOrderItems(os[1..])
  }

  function FormatOrderBy(os: seq<Order>): string {
    Join(FormatOrderItems(os), ",")
  }

  predicate IsColumn(column: string) {
    column != "" && forall i :: 0 <= i < |column| ==> WordChar(column[i])
  }

  predicate AllColumns(columns: seq<string>) {
    forall i :: 0 <= i < |columns| ==> IsColumn(columns[i])
  }

  predicate OrderColumns(os: seq<Order>) {
    forall i :: 0 <= i < |os| ==> IsColumn(os[i].column)
  }

  /** One item: a column, a space, a direction. */
  function ReadOrderItem(s: string): Option<(Order, string)> {
    var column := Word(s);
    match Skip(s[|column|..], " ") case None => None
    case Some(r) =>
      var dir := Word(r);
      if dir == "asc" then Some((Order(column, false), r[|dir|..]))
      else if dir == "desc" then Some((Order(column, true), r[|dir|..]))
      else None
  }

  function ReadOrderBy(s: string): Option<seq<Order>>
    decreases |s|
  {
    match ReadOrderItem(s) case None => None
    case Some(o) =>
      if o.1 == "" then Some([o.0])
      else match Skip(o.1, ",") case None => None
        case Some(rest) =>
          if |rest| >= |s| then None
          else match ReadOrderBy(rest) case None => None case Some(os) => Some([o.0] + os)
  }

  lemma {:induction false} ReadOrderItemUndoes(o: Order, rest: string)
    requires IsColumn(o.column) && (rest == "" || rest[0] == ',')
    ensures ReadOrderItem(FormatOrderItem(o) + rest) == Some((o, rest))
  {
    var dir := if o.descending then "desc" else "asc";
    assert "desc"[0] == 'd' && "asc"[0] == 'a';
    assert FormatOrderItem(o) + rest == o.column + (" " + (dir + rest));
    WordStops(o.column, " " + (dir + rest));
    SkipUndoes(" ", dir + rest);
    WordStops(dir, rest);
  }

  lemma {:induction false} FormatOrderByCons(os: seq<Order>)
    requires os != []
    ensures FormatOrderBy(os) == FormatOrderItem(os[0]) + (if |os| == 1 then "" else "," + FormatOrderBy(os[1..]))
  {
    var parts := FormatOrderItems(os);
    assert parts[1..] == FormatOrderItems(os[1..]);
    if |os| == 1 {
      assert parts == [FormatOrderItem(os[0])];
      assert FormatOrderItem(os[0]) + "" == FormatOrderItem(os[0]);
    } else {
      assert FormatOrderItems(os[1..]) == [FormatOrderItem(os[1])] + FormatOrderItems(os[1..][1..]);
    }
  }

  /** Reading the printed ordering gives it back. */
  lemma {:induction false} ReadOrderByUndoes(os: seq<Order>)
    requires os != [] && OrderColumns(os)
    ensures ReadOrderBy(FormatOrderBy(os)) == Some(os)
  {
    hide FormatOrderItem, ReadOrderItem, FormatOrderBy;
    FormatOrderByCons(os);
    if |os| == 1 {
      ReadOrderItemUndoes(os[0], "");
      assert FormatOrderItem(os[0]) + "" == FormatOrderBy(os);
      assert os == [os[0]];
    } else {
      var rest := FormatOrderBy(os[1..]);
      ReadOrderItemUndoes(os[0], "," + rest);
      SkipUndoes(",", rest);
      ReadOrderByUndoes(os[1..]);
      assert os == [os[0]] + os[1..];
    }
  }

  /** Columns separated by `delimiter`. */
  function ReadSelect(s: string, delimiter: string): Option<seq<string>>
    decreases |s|
  {
    var column := Word(s);
    var after := s[|column|..];
    if column == "" then None
    else if after == "" then Some([column])
    else match Skip(after, delimiter) case None => None
      case Some(rest) => match ReadSelect(rest, delimiter) case None => None case Some(cs) => Some([column] + cs)
  }

  lemma {:induction false} JoinCons(parts: seq<string>, sep: string)
    requires |parts| > 1
    ensures Join(parts, sep) == parts[0] + (sep + Join(parts[1..], sep))
  {
  }

  lemma {:induction false} ReadSelectStep(column: string, delimiter: string, rest: string)
    requires IsColumn(column) && delimiter != "" && !WordChar(delimiter[0])
    ensures ReadSelect(column + (delimiter + rest), delimiter)
      == match ReadSelect(rest, delimiter) case None => None case Some(cs) => Some([column] + cs)
  {
    WordStops(column, delimiter + rest);
    SkipUndoes(delimiter, rest);
  }

  lemma {:induction false} ReadSelectLast(column: string, delimiter: string)
    requires IsColumn(column)
    ensures ReadSelect(column, delimiter) == Some([column])
  {
    WordStops(column, "");
    assert column + "" == column;
  }

  /** Reading the printed projection gives it back, whatever the delimiter, if no column can run into it. */
  lemma {:induction false} ReadSelectUndoes(columns: seq<string>, delimiter: string)
    requires columns != [] && AllColumns(columns) && delimiter != "" && !WordChar(delimiter[0])
    ensures ReadSelect(Join(columns, delimiter), delimiter) == Some(columns)
  {
    hide Join, ReadSelect;
    if |columns| == 1 {
      ReadSelectLast(columns[0], delimiter);
      JoinOne(columns, delimiter);
      assert columns == [columns[0]];
    } else {
      var rest := Join(columns[1..], delimiter);
      ReadSelectUndoes(columns[1..], delimiter);
      JoinCons(columns, delimiter);
      ReadSelectStep(columns[0], delimiter, rest);
      assert columns == [columns[0]] + columns[1..];
    }
  }

  lemma {:induction false} JoinOne(parts: seq<string>, sep: string)
    requires |parts| == 1
    ensures Join(parts, sep) == parts[0]
  {
  }
}
