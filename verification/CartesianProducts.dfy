/**
 CartesianProduct of pkg/maths/common_maths.go and the stream collection of
 pkg/streaming/map_stream_collection.go that reads it.
 */
module CartesianProducts {
  type Row = map<string, string>

  // --- the loops ------------------------------------------------------------------------------------

  /** Every existing row with `row` merged over it. */
  function Cross(rv: seq<Row>, row: Row): seq<Row> {
    seq(|rv|, j requires 0 <= j < |rv| => rv[j] + row)
  }

  function CrossAll(rv: seq<Row>, rows: seq<Row>): seq<Row> {
    if rows == [] then [] else CrossAll(rv, rows[..|rows| - 1]) + Cross(rv, rows[|rows| - 1])
  }

  function Product(args: seq<seq<Row>>): seq<Row> {
    if args == [] then [] else if |args| == 1 then args[0] else CrossAll(Product(args[..|args| - 1]), args[|args| - 1])
  }

  method CartesianProduct(args: seq<seq<Row>>) returns (rv: seq<Row>)
    ensures rv == Product(args)
  {
    if |args| == 0 {
      return [];
    }
    rv := args[0];
    assert args[..1][0] == args[0];
    for i := 1 to |args|
      invariant rv == Product(args[..i])
    {
      var newRv := [];
      for r := 0 to |args[i]|
        invariant newRv == CrossAll(rv, args[i][..r])
      {
        var row := args[i][r];
        ghost var before := newRv;
        for e := 0 to |rv|
          invariant newRv == before + Cross(rv, row)[..e]
        {
          var newRow := rv[e] + row;
          newRv := newRv + [newRow];
        }
        assert Cross(rv, row)[..|rv|] == Cross(rv, row);
        assert args[i][..r + 1][..r] == args[i][..r];
      }
      assert args[i][..|args[i]|] == args[i];
      assert args[..i + 1][..i] == args[..i];
      rv := newRv;
    }
    assert args[..|args|] == args;
  }

  // --- index tuples ------------------------------------------------------------------------------------

  /** One row index for each argument. */
  predicate IsTuple(args: seq<seq<Row>>, t: seq<nat>) {
    |t| == |args| && forall i :: 0 <= i < |t| ==> t[i] < |args[i]|
  }

  /** The chosen rows merged, later arguments over earlier ones. */
  function Merged(args: seq<seq<Row>>, t: seq<nat>): Row
    requires IsTuple(args, t)
  {
    if args == [] then map[] else Merged(args[..|args| - 1], t[..|t| - 1]) + args[|args| - 1][t[|t| - 1]]
  }

  function Size(args: seq<seq<Row>>): nat {
    if args == [] then 1 else Size(args[..|args| - 1]) * |args[|args| - 1]|
  }

  /** Where the row of a tuple stands: the first argument varies fastest. */
  function Rank(args: seq<seq<Row>>, t: seq<nat>): nat
    requires IsTuple(args, t)
  {
    if args == [] then 0 else Rank(args[..|args| - 1], t[..|t| - 1]) + t[|t| - 1] * Size(args[..|args| - 1])
  }

  lemma {:induction false} Below(i: nat, n: nat, r: nat, m: nat)
    requires i < n && r < m
    ensures i + r * n < n * m
  {
    assert (r + 1) * n <= m * n;
  }

  lemma {:induction false} CrossAllSize(rv: seq<Row>, rows: seq<Row>)
    ensures |CrossAll(rv, rows)| == |rv| * |rows|
  {
    if rows != [] {
      CrossAllSize(rv, rows[..|rows| - 1]);
      assert |rv| * |rows| == |rv| * (|rows| - 1) + |rv|;
    }
  }

  lemma {:induction false} CrossAllRow(rv: seq<Row>, rows: seq<Row>, j: nat, r: nat)
    requires j < |rv| && r < |rows|
    ensures j + r * |rv| < |CrossAll(rv, rows)| && CrossAll(rv, rows)[j + r * |rv|] == rv[j] + rows[r]
    decreases |rows|
  {
    var front, n := rows[..|rows| - 1], |rv|;
    CrossAllSize(rv, rows);
    CrossAllSize(rv, front);
    Below(j, n, r, |rows|);
    if r < |front| {
      CrossAllRow(rv, front, j, r);
    } else {
      assert r * n == n * |front|;
    }
  }

  /** The product has one row for each tuple, and it is the merge of the rows the tuple picks. */
  lemma {:induction false} RowOfTuple(args: seq<seq<Row>>, t: seq<nat>)
    requires args != [] && IsTuple(args, t)
    ensures |Product(args)| == Size(args) && Rank(args, t) < Size(args)
    ensures Product(args)[Rank(args, t)] == Merged(args, t)
  {
    var front, last, u, r := args[..|args| - 1], args[|args| - 1], t[..|t| - 1], t[|t| - 1];
    if |args| == 1 {
      OneArgument(args, t);
    } else {
      RowOfTuple(front, u);
      hide Product, Rank, Size, Merged;
      CrossAllSize(Product(front), last);
      CrossAllRow(Product(front), last, Rank(front, u), r);
      Below(Rank(front, u), Size(front), r, |last|);
    }
  }

  lemma {:induction false} OneArgument(args: seq<seq<Row>>, t: seq<nat>)
    requires |args| == 1 && IsTuple(args, t)
    ensures Size(args) == |args[0]| && Rank(args, t) == t[0] && Merged(args, t) == args[0][t[0]] &&
        Product(args) == args[0]
  {
    assert args[..0] == [] && t[..0] == [];
    assert Size([]) == 1 && Rank([], []) == 0 && Merged([], []) == map[];
    assert map[] + args[0][t[0]] == args[0][t[0]];
  }

  /** The size also when some argument is empty. */
  lemma {:induction false} ProductSize(args: seq<seq<Row>>)
    requires args != []
    ensures |Product(args)| == Size(args)
  {
    var front := args[..|args| - 1];
    if |args| == 1 {
      assert front == [] && Size([]) == 1;
    } else {
      ProductSize(front);
      CrossAllSize(Product(front), args[|args| - 1]);
    }
  }

  lemma {:induction false} Scale(n: int, x: int, y: int)
    requires n >= 0
    ensures x <= y ==> n * x <= n * y
  {
  }

  lemma {:induction false} QuotientBelow(i: nat, n: nat, m: nat)
    requires i < n * m
    ensures n > 0 && 0 <= i / n < m && 0 <= i % n < n
  {
    Scale(m, n, 0);
    assert n > 0;
    assert i == n * (i / n) + i % n;
    Scale(n, m, i / n);
  }

  /** The tuple whose row stands at an index. */
  function TupleAt(args: seq<seq<Row>>, i: nat): (t: seq<nat>)
    requires i < Size(args)
    ensures IsTuple(args, t)
    decreases |args|
  {
    if args == [] then []
    else
      var front, last := args[..|args| - 1], args[|args| - 1];
      QuotientBelow(i, Size(front), |last|);
      var t := TupleAt(front, i % Size(front)) + [i / Size(front)];
      assert forall k :: 0 <= k < |t| - 1 ==> t[k] < |front[k]|;
      t
  }

  lemma {:induction false} SplitBack(j: nat, n: nat, r: nat)
    requires j < n
    ensures (j + r * n) % n == j && (j + r * n) / n == r
  {
    var i := j + r * n;
    assert i == n * (i / n) + i % n;
    assert n * (r - i / n) == i % n - j && n * (i / n - r) == j - i % n;
    Scale(n, 1, r - i / n);
    Scale(n, 1, i / n - r);
  }

  /** The tuple found at an index has that index. */
  lemma {:induction false} IndexOfTuple(args: seq<seq<Row>>, i: nat)
    requires i < Size(args)
    ensures Rank(args, TupleAt(args, i)) == i
    decreases |args|
  {
    if args != [] {
      var front, n := args[..|args| - 1], Size(args[..|args| - 1]);
      assert n > 0;
      IndexOfTuple(front, i % n);
      var u := TupleAt(args, i);
      assert u[..|u| - 1] == TupleAt(front, i % n) && u[|u| - 1] == i / n;
      hide TupleAt, Size;
    }
  }

  /** Every tuple is found at its own index. */
  lemma {:induction false} TupleOfIndex(args: seq<seq<Row>>, t: seq<nat>)
    requires IsTuple(args, t)
    ensures Rank(args, t) < Size(args) && TupleAt(args, Rank(args, t)) == t
    decreases |args|
  {
    if args != [] {
      var front, n := args[..|args| - 1], Size(args[..|args| - 1]);
      var u, r := t[..|t| - 1], t[|t| - 1];
      TupleOfIndex(front, u);
      Below(Rank(front, u), n, r, |args[|args| - 1]|);
      SplitBack(Rank(front, u), n, r);
      assert u + [r] == t;
      LastIndex(args, Rank(front, u), r);
    }
  }

  lemma {:induction false} LastIndex(args: seq<seq<Row>>, j: nat, r: nat)
    requires args != [] && j < Size(args[..|args| - 1]) && r < |args[|args| - 1]| &&
        j + r * Size(args[..|args| - 1]) < Size(args)
    ensures TupleAt(args, j + r * Size(args[..|args| - 1])) == TupleAt(args[..|args| - 1], j) + [r]
  {
    SplitBack(j, Size(args[..|args| - 1]), r);
    hide Size;
  }

  // --- reading streams -------------------------------------------------------------------------------------

  /** The error a child stream returns beside a read: EOF, none at all, or another one. */
  datatype Ending = Eof | NoError | Broken(text: string)

  /** A child stream: reading takes everything it holds. */
  class MapStream {
    var rows: seq<Row>
    var ending: Ending

    constructor (rows: seq<Row>, ending: Ending)
      ensures this.rows == rows && this.ending == ending
    {
      this.rows, this.ending := rows, ending;
    }

    method Read() returns (output: seq<Row>, err: Ending)
      modifies this
      ensures output == old(rows) && err == old(ending) && rows == [] && ending == err
    {
      output, err := rows, ending;
      rows := [];
    }
  }

  /** What the streams hand out one after another, leaving out empty reads; a stream read before is empty. */
  ghost function Gathered(streams: seq<MapStream>): seq<seq<Row>>
    reads streams
  {
    if streams == [] then []
    else Gathered(streams[..|streams| - 1]) + LastRead(streams)
  }

  ghost function LastRead(streams: seq<MapStream>): seq<seq<Row>>
    requires streams != []
    reads streams
  {
    var last, front := streams[|streams| - 1], streams[..|streams| - 1];
    if last in front || last.rows == [] then [] else [last.rows]
  }

  /** Stream `s` is one of the first `n`. */
  ghost predicate Among(streams: seq<MapStream>, n: nat, s: MapStream)
    requires n <= |streams|
  {
    s in streams[..n]
  }

  lemma {:induction false} AmongStep(streams: seq<MapStream>, n: nat)
    requires n < |streams|
    ensures forall s :: Among(streams, n + 1, s) <==> Among(streams, n, s) || s == streams[n]
  {
    assert streams[..n + 1] == streams[..n] + [streams[n]];
    forall s ensures Among(streams, n + 1, s) <==> Among(streams, n, s) || s == streams[n] {
      assert s in streams[..n] + [streams[n]] <==> s in streams[..n] || s == streams[n];
    }
  }

  lemma {:induction false} AmongEnds(streams: seq<MapStream>)
    ensures (forall s :: !Among(streams, 0, s)) && forall s :: Among(streams, |streams|, s) <==> s in streams
  {
    assert streams[..|streams|] == streams && streams[..0] == [];
    forall s ensures !Among(streams, 0, s) && (Among(streams, |streams|, s) <==> s in streams) {
      assert s in streams[..|streams|] <==> s in streams;
    }
  }

  /** What has been gathered after each stream. */
  lemma {:induction false} GatheredSteps(streams: seq<MapStream>) returns (gathered: seq<seq<seq<Row>>>)
    ensures |gathered| == |streams| + 1 && gathered[0] == [] && gathered[|streams|] == Gathered(streams)
    ensures forall i {:trigger streams[i]} :: 0 <= i < |streams| ==>
      gathered[i + 1] == gathered[i] +
          (if Among(streams, i, streams[i]) || streams[i].rows == [] then [] else [streams[i].rows])
  {
    if streams == [] {
      gathered := [[]];
    } else {
      var front, last := streams[..|streams| - 1], streams[|streams| - 1];
      var before := GatheredSteps(front);
      gathered := before + [Gathered(streams)];
      forall i | 0 <= i < |front| ensures Among(streams, i, streams[i]) <==> Among(front, i, front[i]) {
        assert streams[..i] == front[..i];
      }
      hide Among;
    }
  }

  class StreamCollection {
    var streams: seq<MapStream>

    constructor ()
      ensures streams == []
    {
      streams := [];
    }

    method Push(stream: MapStream)
      modifies this
      ensures streams == old(streams) + [stream]
    {
      streams := streams + [stream];
    }

    /** Reads the streams one after another, up to the first that does not end with EOF. */
    method Gather() returns (allOutputs: seq<seq<Row>>, maxLength: nat, output: seq<Row>, err: Ending, ghost at: nat)
      modifies streams
      ensures err == Eof ==> allOutputs == old(Gathered(streams)) && (maxLength == 0 <==> allOutputs == [])
      ensures err == Eof ==> output == [] && forall s :: s in streams ==> s.rows == [] && old(s.ending) == Eof
      ensures err != Eof ==> at < |streams| && StoppedAt(at, output, err)
    {
      hide Gathered, LastRead, Among;
      allOutputs, maxLength := [], 0;
      ghost var gathered := GatheredSteps(streams);
      AmongEnds(streams);
      for i := 0 to |streams|
        invariant allOutputs == gathered[i]
        invariant maxLength == 0 <==> allOutputs == []
        invariant forall s :: s in streams && Among(streams, i, s) ==> s.rows == [] && old(s.ending) == Eof
        invariant forall s :: s in streams && !Among(streams, i, s) ==> s.rows == old(s.rows)
        invariant forall s :: s in streams ==> s.ending == old(s.ending)
      {
        AmongStep(streams, i);
        output, err := streams[i].Read();
        if err != Eof {
          at := i;
          return;
        }
        var thisLen := |output|;
        if thisLen == 0 {
          continue;
        }
        allOutputs := allOutputs + [output];
        if thisLen > maxLength {
          maxLength := thisLen;
        }
      }
      output, err, at := [], Eof, 0;
    }

    /** Drains the streams up to the first that does not end with EOF; if all do, the product of what they held. */
    method Read() returns (rv: seq<Row>, err: Ending, ghost at: nat)
      modifies streams
      ensures err == Eof <==> forall s :: s in streams ==> old(s.ending) == Eof
      ensures err == Eof ==> rv == Product(old(Gathered(streams))) && forall s :: s in streams ==> s.rows == []
      ensures err != Eof ==> at < |streams| && StoppedAt(at, rv, err)
    {
      assert Product([]) == [];
      hide Product, Gathered;
      var allOutputs, maxLength;
      allOutputs, maxLength, rv, err, at := Gather();
      if err != Eof {
        assert streams[at] in streams;
        return;
      }
      if maxLength == 0 {
        return;
      }
      rv := CartesianProduct(allOutputs);
    }

    /**
     Stream `i` is the first not to end with EOF and its read was passed on; what the streams
     before it held is gone, and the streams after it were not read.
     */
    twostate predicate StoppedAt(i: nat, rv: seq<Row>, err: Ending)
      requires i < |streams| && streams == old(streams)
      reads this, streams
    {
      && err != Eof && err == old(streams[i].ending) && rv == old(streams[i].rows)
      && (forall s :: s in streams && Among(streams, i, s) ==> old(s.ending) == Eof)
      && (forall s :: s in streams && Among(streams, i + 1, s) ==> s.rows == [])
      && (forall s :: s in streams && !Among(streams, i + 1, s) ==> s.rows == old(s.rows))
    }
  }
}
