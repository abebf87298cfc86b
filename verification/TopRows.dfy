/** Ranking of report rows (scripts/log-analysis/clients.py): rows are sorted by a metric,
    largest first, and cut to the top; per-stream results are merged and cut again. */
module TopRows {
  import opened Wrappers

  /** A cell; a text cell carries the number it parses to, if any. */
  datatype Cell = Num(value: real) | Text(text: string, numeric: Option<real>)

  datatype Row = Cells(cells: seq<Cell>) | NotAList

  datatype Metric = NegInfinity | Finite(value: real)

  predicate AtLeast(a: Metric, b: Metric) {
    b.NegInfinity? || (a.Finite? && a.value >= b.value)
  }

  function CellMetric(c: Cell): Metric {
    match c
    case Num(v) => Finite(v)
    case Text(_, Some(v)) => Finite(v)
    case Text(_, None) => NegInfinity
  }

  /** metric_value raises IndexError on a row that is too short for the sort column. */
  predicate Scorable(row: Row, index: Option<nat>) {
    row.Cells? && row.cells != [] && index.Some? ==> index.value < |row.cells|
  }

  function MetricValue(row: Row, index: Option<nat>): Metric
    requires Scorable(row, index)
  {
    if row.NotAList? || row.cells == [] then NegInfinity
    else CellMetric(row.cells[if index.Some? then index.value else |row.cells| - 1])
  }

  predicate AllScorable(rows: seq<Row>, index: Option<nat>) {
    forall i | 0 <= i < |rows| :: Scorable(rows[i], index)
  }

  function IndexOf(columns: seq<string>, name: string): Option<nat> {
    if columns == [] then None
    else if columns[0] == name then Some(0)
    else match IndexOf(columns[1..], name) case None => None case Some(i) => Some(i + 1)
  }

  /** A row and its metric. Sorting looks at nothing else. */
  datatype Ranked = Ranked(row: Row, metric: Metric)

  // ------------------------------------------------------------------ stable descending sort

  /** Interleaves by metric; on a tie the left sequence goes first. */
  function Merge(x: seq<Ranked>, y: seq<Ranked>): (r: seq<Ranked>)
    ensures |r| == |x| + |y|
  {
    if x == [] then y
    else if y == [] then x
    else if AtLeast(x[0].metric, y[0].metric) then [x[0]] + Merge(x[1..], y)
    else [y[0]] + Merge(x, y[1..])
  }

  /** sorted(rows, key=metric_value, reverse=True). */
  function Sort(s: seq<Ranked>): (r: seq<Ranked>)
    ensures |r| == |s|
  {
    if s == [] then [] else Merge([s[0]], Sort(s[1..]))
  }

  /** rows[:k] */
  function Take(s: seq<Ranked>, k: nat): seq<Ranked> {
    if k == 0 || s == [] then [] else [s[0]] + Take(s[1..], k - 1)
  }

  lemma {:induction false} TakeIsPrefix(s: seq<Ranked>, k: nat)
    ensures Take(s, k) == if |s| <= k then s else s[..k]
  {
    if k > 0 && s != [] {
      TakeIsPrefix(s[1..], k - 1);
    }
  }

  function Top(s: seq<Ranked>, k: nat): seq<Ranked> {
    Take(Sort(s), k)
  }

  // ------------------------------------------------------------------ Sort is the stable sort

  ghost predicate Descending(s: seq<Ranked>) {
    forall i, j | 0 <= i < j < |s| :: AtLeast(s[i].metric, s[j].metric)
  }

  /** The rows with one metric, in order. */
  function WithMetric(s: seq<Ranked>, m: Metric): seq<Ranked> {
    if s == [] then [] else OneWithMetric(s[0], m) + WithMetric(s[1..], m)
  }

  function OneWithMetric(r: Ranked, m: Metric): seq<Ranked> {
    if r.metric == m then [r] else []
  }

  /** Same rows, and rows of equal metric in the same order: a stable rearrangement. */
  ghost predicate Stable(s: seq<Ranked>, t: seq<Ranked>) {
    forall m :: WithMetric(s, m) == WithMetric(t, m)
  }

  lemma {:induction false} WithMetricConcat(a: seq<Ranked>, b: seq<Ranked>, m: Metric)
    ensures WithMetric(a + b, m) == WithMetric(a, m) + WithMetric(b, m)
  {
    if a == [] {
      assert a + b == b;
    } else {
      WithMetricConcat(a[1..], b, m);
      assert (a + b)[1..] == a[1..] + b;
      Associative(OneWithMetric(a[0], m), WithMetric(a[1..], m), WithMetric(b, m));
    }
  }

  lemma {:induction false} WithMetricAbsent(s: seq<Ranked>, m: Metric)
    requires forall i | 0 <= i < |s| :: s[i].metric != m
    ensures WithMetric(s, m) == []
  {
    if s != [] {
      WithMetricAbsent(s[1..], m);
    }
  }

  lemma {:induction false} InsertDescends(x: Ranked, s: seq<Ranked>)
    requires Descending(s)
    ensures Descending(Merge([x], s))
    ensures forall r | r in Merge([x], s) :: r == x || r in s
  {
    if s != [] && !AtLeast(x.metric, s[0].metric) {
      InsertDescends(x, s[1..]);
      var rest := Merge([x], s[1..]);
      assert forall j | 0 <= j < |rest| :: rest[j] == x || rest[j] in s[1..];
    } else if s != [] {
      assert [x][1..] == [];
      assert Merge([x], s) == [x] + s;
      assert forall j | 0 <= j < |s| :: AtLeast(s[0].metric, s[j].metric) || j == 0;
    }
  }

  lemma WithMetricHead(x: Ranked, s: seq<Ranked>, m: Metric)
    ensures WithMetric([x] + s, m) == OneWithMetric(x, m) + WithMetric(s, m)
  {
    assert ([x] + s)[1..] == s;
  }

  lemma InsertBefore(x: Ranked, s: seq<Ranked>)
    requires s == [] || AtLeast(x.metric, s[0].metric)
    ensures Merge([x], s) == [x] + s
  {
    assert [x][1..] == [];
  }

  lemma {:induction false} InsertStable(x: Ranked, s: seq<Ranked>, m: Metric)
    ensures WithMetric(Merge([x], s), m) == OneWithMetric(x, m) + WithMetric(s, m)
    decreases |s|
  {
    if s == [] || AtLeast(x.metric, s[0].metric) {
      InsertBefore(x, s);
      WithMetricHead(x, s, m);
    } else {
      InsertStable(x, s[1..], m);
      WithMetricHead(s[0], Merge([x], s[1..]), m);
      assert OneWithMetric(x, m) == [] || OneWithMetric(s[0], m) == [];
      SwapOne(OneWithMetric(x, m), OneWithMetric(s[0], m), WithMetric(s[1..], m));
    }
  }

  lemma SwapOne<T>(a: seq<T>, b: seq<T>, c: seq<T>)
    requires a == [] || b == []
    ensures b + (a + c) == a + (b + c)
  {
    assert [] + c == c && a + ([] + c) == [] + (a + c) && b + ([] + c) == [] + (b + c);
  }

  lemma {:induction false} SortIsStableSort(s: seq<Ranked>)
    ensures Descending(Sort(s)) && Stable(Sort(s), s)
  {
    if s != [] {
      SortIsStableSort(s[1..]);
      InsertDescends(s[0], Sort(s[1..]));
      forall m
        ensures WithMetric(Sort(s), m) == WithMetric(s, m)
      {
        InsertStable(s[0], Sort(s[1..]), m);
      }
    }
  }

  lemma FirstHasMetric(s: seq<Ranked>)
    ensures s != [] ==> WithMetric(s, s[0].metric) != []
  {
  }

  /** There is only one: any stable descending rearrangement is what Sort returns. */
  lemma {:induction false} StableSortIsUnique(s: seq<Ranked>, t: seq<Ranked>)
    requires Descending(s) && Descending(t) && Stable(s, t)
    ensures s == t
  {
    if s == [] || t == [] {
      FirstHasMetric(s);
      FirstHasMetric(t);
    } else {
      SameMaximum(s, t);
      var m := s[0].metric;
      assert WithMetric(s, m)[0] == s[0] && WithMetric(t, m)[0] == t[0];
      assert s == [s[0]] + s[1..] && t == [t[0]] + t[1..];
      forall k
        ensures WithMetric(s[1..], k) == WithMetric(t[1..], k)
      {
        WithMetricConcat([s[0]], s[1..], k);
        WithMetricConcat([t[0]], t[1..], k);
        assert WithMetric([s[0]], k) == WithMetric([t[0]], k);
        assert WithMetric(s[1..], k) == WithMetric(s, k)[|WithMetric([s[0]], k)|..];
        assert WithMetric(t[1..], k) == WithMetric(t, k)[|WithMetric([t[0]], k)|..];
      }
      StableSortIsUnique(s[1..], t[1..]);
    }
  }

  lemma SameMaximum(s: seq<Ranked>, t: seq<Ranked>)
    requires s != [] && t != [] && Descending(s) && Descending(t) && Stable(s, t)
    ensures s[0].metric == t[0].metric
  {
    MaximumOccurs(s, t);
    MaximumOccurs(t, s);
  }

  lemma MaximumOccurs(s: seq<Ranked>, t: seq<Ranked>)
    requires s != [] && t != [] && Descending(t) && WithMetric(s, s[0].metric) == WithMetric(t, s[0].metric)
    ensures AtLeast(t[0].metric, s[0].metric)
  {
    if forall i | 0 <= i < |t| :: t[i].metric != s[0].metric {
      WithMetricAbsent(t, s[0].metric);
    }
    var i :| 0 <= i < |t| && t[i].metric == s[0].metric;
    assert i == 0 || AtLeast(t[0].metric, t[i].metric);
  }

  // ------------------------------------------------------------------ cutting before merging

  lemma {:induction false} MergeAssociative(x: seq<Ranked>, y: seq<Ranked>, z: seq<Ranked>)
    ensures Merge(Merge(x, y), z) == Merge(x, Merge(y, z))
    decreases |x| + |y| + |z|
  {
    if x != [] && y != [] && z != [] {
      if AtLeast(x[0].metric, y[0].metric) {
        if AtLeast(x[0].metric, z[0].metric) {
          MergeAssociative(x[1..], y, z);
        } else {
          MergeAssociative(x, y, z[1..]);
        }
      } else {
        if AtLeast(y[0].metric, z[0].metric) {
          MergeAssociative(x, y[1..], z);
        } else {
          MergeAssociative(x, y, z[1..]);
        }
      }
    }
  }

  lemma {:induction false} SortConcat(a: seq<Ranked>, b: seq<Ranked>)
    ensures Sort(a + b) == Merge(Sort(a), Sort(b))
  {
    if a == [] {
      assert a + b == b;
    } else {
      SortConcat(a[1..], b);
      assert (a + b)[1..] == a[1..] + b;
      MergeAssociative([a[0]], Sort(a[1..]), Sort(b));
    }
  }

  /** The first k of a merge need only the first k of either side. */
  lemma {:induction false} TakeMerge(x: seq<Ranked>, y: seq<Ranked>, k: nat)
    ensures Take(Merge(x, y), k) == Take(Merge(Take(x, k), Take(y, k)), k)
    decreases k, 0
  {
    if k == 0 || x == [] || y == [] {
      TakeMergeEmpty(x, y, k);
    } else {
      TakeRestAgrees(x, y, k);
      TakeRestAgrees(y, x, k);
      if AtLeast(x[0].metric, y[0].metric) {
        TakeMergeRest(x[1..], y, Take(x, k)[1..], Take(y, k), k - 1);
      } else {
        TakeMergeRest(x, y[1..], Take(x, k), Take(y, k)[1..], k - 1);
      }
      TakeMergeHeads(x, y, k);
    }
  }

  lemma TakeMergeEmpty(x: seq<Ranked>, y: seq<Ranked>, k: nat)
    requires k == 0 || x == [] || y == []
    ensures Take(Merge(x, y), k) == Take(Merge(Take(x, k), Take(y, k)), k)
  {
    TakeTwice(x, k, k);
    TakeTwice(y, k, k);
  }

  lemma TakeRestAgrees(x: seq<Ranked>, y: seq<Ranked>, k: nat)
    requires k > 0 && x != []
    ensures Take(x, k) != [] && Take(x[1..], k - 1) == Take(Take(x, k)[1..], k - 1) && Take(y, k - 1) == Take(Take(y, k), k - 1)
  {
    TakeHead(x, k);
    TakeTwice(x[1..], k - 1, k - 1);
    TakeTwice(y, k, k - 1);
  }

  lemma TakeMergeHeads(x: seq<Ranked>, y: seq<Ranked>, k: nat)
    requires k > 0 && x != [] && y != []
    requires if AtLeast(x[0].metric, y[0].metric)
             then Take(Merge(x[1..], y), k - 1) == Take(Merge(Take(x, k)[1..], Take(y, k)), k - 1)
             else Take(Merge(x, y[1..]), k - 1) == Take(Merge(Take(x, k), Take(y, k)[1..]), k - 1)
    ensures Take(Merge(x, y), k) == Take(Merge(Take(x, k), Take(y, k)), k)
  {
    TakeHead(x, k);
    TakeHead(y, k);
    TakeMergeHead(x, y, k);
    TakeMergeHead(Take(x, k), Take(y, k), k);
  }

  lemma TakeMergeHead(x: seq<Ranked>, y: seq<Ranked>, k: nat)
    requires k > 0 && x != [] && y != []
    ensures Take(Merge(x, y), k) == if AtLeast(x[0].metric, y[0].metric) then [x[0]] + Take(Merge(x[1..], y), k - 1)
                                    else [y[0]] + Take(Merge(x, y[1..]), k - 1)
  {
    TakeHead(Merge(x, y), k);
  }

  lemma {:induction false} TakeTwice(s: seq<Ranked>, k: nat, j: nat)
    requires j <= k
    ensures Take(Take(s, k), j) == Take(s, j)
  {
    if j > 0 && s != [] {
      TakeTwice(s[1..], k - 1, j - 1);
      TakeHead(s, k);
    }
  }

  lemma TakeHead(s: seq<Ranked>, k: nat)
    requires k > 0 && s != []
    ensures Take(s, k) != [] && Take(s, k)[0] == s[0] && Take(s, k)[1..] == Take(s[1..], k - 1)
  {
  }

  lemma {:induction false} TakeMergeRest(x: seq<Ranked>, y: seq<Ranked>, x': seq<Ranked>, y': seq<Ranked>, k: nat)
    requires Take(x, k) == Take(x', k) && Take(y, k) == Take(y', k)
    ensures Take(Merge(x, y), k) == Take(Merge(x', y'), k)
    decreases k, 1
  {
    TakeMerge(x, y, k);
    TakeMerge(x', y', k);
  }

  lemma SortOfTop(s: seq<Ranked>, k: nat)
    ensures Sort(Top(s, k)) == Top(s, k)
  {
    SortIsStableSort(s);
    TakeIsPrefix(Sort(s), k);
    assert Descending(Top(s, k));
    SortIsStableSort(Top(s, k));
    StableSortIsUnique(Sort(Top(s, k)), Top(s, k));
  }

  function Concat(streams: seq<seq<Ranked>>): seq<Ranked> {
    if streams == [] then [] else streams[0] + Concat(streams[1..])
  }

  function EachTop(streams: seq<seq<Ranked>>, k: nat): seq<seq<Ranked>> {
    seq(|streams|, i requires 0 <= i < |streams| => Top(streams[i], k))
  }

  /** Merging the per-stream tops loses nothing: for any number of streams, any ties and any
      limit, the result is the same sequence as from the uncut rows. */
  lemma {:induction false} TopOfTops(streams: seq<seq<Ranked>>, k: nat)
    ensures Top(Concat(EachTop(streams, k)), k) == Top(Concat(streams), k)
  {
    if streams != [] {
      TopOfTops(streams[1..], k);
      assert EachTop(streams, k)[1..] == EachTop(streams[1..], k);
      assert Concat(EachTop(streams, k)) == Top(streams[0], k) + Concat(EachTop(streams[1..], k));
      TopOfTwo(streams[0], Concat(streams[1..]), Concat(EachTop(streams[1..], k)), k);
    }
  }

  lemma TopOfTwo(s: seq<Ranked>, rest: seq<Ranked>, cutRest: seq<Ranked>, k: nat)
    requires Top(cutRest, k) == Top(rest, k)
    ensures Top(Top(s, k) + cutRest, k) == Top(s + rest, k)
  {
    var cut := Top(s, k);
    SortConcat(s, rest);
    SortConcat(cut, cutRest);
    SortOfTop(s, k);
    TakeMerge(Sort(s), Sort(rest), k);
    TakeMerge(cut, Sort(cutRest), k);
    TakeTwice(Sort(s), k, k);
  }

  // ------------------------------------------------------------------ the per-stream report

  function Rank(rows: seq<Row>, index: Option<nat>): (r: seq<Ranked>)
    requires AllScorable(rows, index)
    ensures |r| == |rows|
  {
    if rows == [] then [] else [Ranked(rows[0], MetricValue(rows[0], index))] + Rank(rows[1..], index)
  }

  function RowsOf(s: seq<Ranked>): seq<Row> {
    if s == [] then [] else [s[0].row] + RowsOf(s[1..])
  }

  /** sorted_limited_rows; None when a row is too short and sorting raises. */
  function SortedLimitedRows(rows: seq<Row>, columns: seq<string>, sortBy: string, topLimit: nat): Option<seq<Row>> {
    var index := IndexOf(columns, sortBy);
    if AllScorable(rows, index) then Some(RowsOf(Top(Rank(rows, index), topLimit))) else None
  }

  /** What the backend returns for one stream. */
  datatype StreamRows = StreamRows(title: string, rows: seq<Row>)

  /** [title, *row] */
  function Tag(title: string, row: Row): Row {
    match row
    case Cells(cells) => Cells([Text(title, None)] + cells)
    case NotAList => NotAList
  }

  function TagRows(title: string, rows: seq<Row>): seq<Row> {
    if rows == [] then [] else [Tag(title, rows[0])] + TagRows(title, rows[1..])
  }

  function AllTagged(streams: seq<StreamRows>): seq<Row> {
    if streams == [] then [] else TagRows(streams[0].title, streams[0].rows) + AllTagged(streams[1..])
  }

  /** The loop of stream_storage_report that collects the rows of all streams. */
  method CollectRows(streams: seq<StreamRows>) returns (rows: seq<Row>)
    ensures rows == AllTagged(streams)
  {
    rows := [];
    for i := 0 to |streams|
      invariant rows + AllTagged(streams[i..]) == AllTagged(streams)
    {
      var tagged := CollectStream(streams[i]);
      assert streams[i..][1..] == streams[i + 1..];
      Associative(rows, tagged, AllTagged(streams[i + 1..]));
      rows := rows + tagged;
    }
  }

  method CollectStream(stream: StreamRows) returns (rows: seq<Row>)
    ensures rows == TagRows(stream.title, stream.rows)
  {
    rows := [];
    for j := 0 to |stream.rows|
      invariant rows + TagRows(stream.title, stream.rows[j..]) == TagRows(stream.title, stream.rows)
    {
      var tagged := [Tag(stream.title, stream.rows[j])];
      assert stream.rows[j..][1..] == stream.rows[j + 1..];
      Associative(rows, tagged, TagRows(stream.title, stream.rows[j + 1..]));
      rows := rows + tagged;
    }
  }

  /** The rows are lists that reach column `column`. */
  predicate Reach(rows: seq<Row>, column: nat) {
    forall i | 0 <= i < |rows| :: rows[i].Cells? && column < |rows[i].cells|
  }

  /** The backend sorts a stream's own rows by the same column and cuts them. */
  function BackendCut(stream: StreamRows, column: nat, k: nat): StreamRows
    requires Reach(stream.rows, column)
  {
    StreamRows(stream.title, RowsOf(Top(Rank(stream.rows, Some(column)), k)))
  }

  function Retag(title: string, s: seq<Ranked>): (r: seq<Ranked>)
    ensures |r| == |s|
  {
    if s == [] then [] else [Ranked(Tag(title, s[0].row), s[0].metric)] + Retag(title, s[1..])
  }

  lemma {:induction false} RetagMerge(title: string, x: seq<Ranked>, y: seq<Ranked>)
    ensures Retag(title, Merge(x, y)) == Merge(Retag(title, x), Retag(title, y))
    decreases |x| + |y|
  {
    if x != [] && y != [] {
      if AtLeast(x[0].metric, y[0].metric) {
        RetagMerge(title, x[1..], y);
      } else {
        RetagMerge(title, x, y[1..]);
      }
    }
  }

  lemma {:induction false} RetagTop(title: string, s: seq<Ranked>, k: nat)
    ensures Top(Retag(title, s), k) == Retag(title, Top(s, k))
  {
    RetagSort(title, s);
    RetagTake(title, Sort(s), k);
  }

  lemma {:induction false} RetagSort(title: string, s: seq<Ranked>)
    ensures Sort(Retag(title, s)) == Retag(title, Sort(s))
  {
    if s != [] {
      RetagSort(title, s[1..]);
      RetagMerge(title, [s[0]], Sort(s[1..]));
      assert Retag(title, [s[0]]) == [Retag(title, s)[0]];
    }
  }

  lemma {:induction false} RetagTake(title: string, s: seq<Ranked>, k: nat)
    ensures Take(Retag(title, s), k) == Retag(title, Take(s, k))
  {
    if k > 0 && s != [] {
      RetagTake(title, s[1..], k - 1);
      assert Take(s, k) == [s[0]] + Take(s[1..], k - 1);
      assert Take(s, k)[1..] == Take(s[1..], k - 1);
    }
  }

  /** Ranking tagged rows by the shifted column is tagging the ranked rows. */
  lemma {:induction false} RankTagged(title: string, rows: seq<Row>, column: nat)
    requires Reach(rows, column)
    ensures AllScorable(TagRows(title, rows), Some(column + 1)) && AllScorable(rows, Some(column))
    ensures Rank(TagRows(title, rows), Some(column + 1)) == Retag(title, Rank(rows, Some(column)))
  {
    if rows != [] {
      RankTagged(title, rows[1..], column);
      var tagged := TagRows(title, rows);
      assert tagged[1..] == TagRows(title, rows[1..]);
      assert forall i | 1 <= i < |tagged| :: tagged[i] == tagged[1..][i - 1];
      assert Tag(title, rows[0]).cells[column + 1] == rows[0].cells[column];
    }
  }

  /** Ranked rows that are ranked again by the column they were ranked by. */
  ghost predicate RankedBy(s: seq<Ranked>, column: nat) {
    forall i | 0 <= i < |s| :: s[i].row.Cells? && column < |s[i].row.cells| && s[i].metric == CellMetric(s[i].row.cells[column])
  }

  lemma {:induction false} RankOfRows(s: seq<Ranked>, column: nat)
    requires RankedBy(s, column)
    ensures Reach(RowsOf(s), column) && AllScorable(RowsOf(s), Some(column)) && Rank(RowsOf(s), Some(column)) == s
  {
    if s != [] {
      RankOfRows(s[1..], column);
      var rows := RowsOf(s);
      assert rows[1..] == RowsOf(s[1..]);
      assert forall i | 1 <= i < |rows| :: rows[i] == rows[1..][i - 1];
    }
  }

  lemma {:induction false} RankIsRankedBy(rows: seq<Row>, column: nat)
    requires Reach(rows, column)
    ensures RankedBy(Rank(rows, Some(column)), column)
  {
    if rows != [] {
      RankIsRankedBy(rows[1..], column);
    }
  }

  lemma {:induction false} MergeRankedBy(x: seq<Ranked>, y: seq<Ranked>, column: nat)
    requires RankedBy(x, column) && RankedBy(y, column)
    ensures RankedBy(Merge(x, y), column)
    decreases |x| + |y|
  {
    if x != [] && y != [] {
      if AtLeast(x[0].metric, y[0].metric) {
        MergeRankedBy(x[1..], y, column);
      } else {
        MergeRankedBy(x, y[1..], column);
      }
    }
  }

  lemma {:induction false} SortRankedBy(s: seq<Ranked>, column: nat)
    requires RankedBy(s, column)
    ensures RankedBy(Sort(s), column)
  {
    if s != [] {
      SortRankedBy(s[1..], column);
      MergeRankedBy([s[0]], Sort(s[1..]), column);
    }
  }

  lemma CutKeepsRanks(stream: StreamRows, column: nat, k: nat)
    requires Reach(stream.rows, column)
    ensures Reach(BackendCut(stream, column, k).rows, column)
    ensures Rank(BackendCut(stream, column, k).rows, Some(column)) == Top(Rank(stream.rows, Some(column)), k)
  {
    var ranked := Rank(stream.rows, Some(column));
    RankIsRankedBy(stream.rows, column);
    SortRankedBy(ranked, column);
    TakeIsPrefix(Sort(ranked), k);
    RankOfRows(Top(ranked, k), column);
  }

  predicate AllReach(streams: seq<StreamRows>, column: nat) {
    forall i | 0 <= i < |streams| :: Reach(streams[i].rows, column)
  }

  function CutStreams(streams: seq<StreamRows>, column: nat, k: nat): seq<StreamRows>
    requires AllReach(streams, column)
  {
    seq(|streams|, i requires 0 <= i < |streams| => BackendCut(streams[i], column, k))
  }

  function RankedStreams(streams: seq<StreamRows>, column: nat): seq<seq<Ranked>>
    requires AllReach(streams, column)
  {
    seq(|streams|, i requires 0 <= i < |streams| => Retag(streams[i].title, Rank(streams[i].rows, Some(column))))
  }

  lemma {:induction false} RankConcat(a: seq<Row>, b: seq<Row>, index: Option<nat>)
    requires AllScorable(a, index) && AllScorable(b, index)
    ensures AllScorable(a + b, index) && Rank(a + b, index) == Rank(a, index) + Rank(b, index)
  {
    if a == [] {
      assert a + b == b;
    } else {
      RankConcat(a[1..], b, index);
      assert (a + b)[1..] == a[1..] + b;
    }
  }

  lemma {:induction false} RankAllTagged(streams: seq<StreamRows>, column: nat)
    requires AllReach(streams, column)
    ensures AllScorable(AllTagged(streams), Some(column + 1))
    ensures Rank(AllTagged(streams), Some(column + 1)) == Concat(RankedStreams(streams, column))
  {
    if streams != [] {
      RankAllTagged(streams[1..], column);
      RankTagged(streams[0].title, streams[0].rows, column);
      RankConcat(TagRows(streams[0].title, streams[0].rows), AllTagged(streams[1..]), Some(column + 1));
      assert RankedStreams(streams, column)[1..] == RankedStreams(streams[1..], column);
    }
  }

  lemma CutStreamsAreTops(streams: seq<StreamRows>, column: nat, k: nat)
    requires AllReach(streams, column)
    ensures AllReach(CutStreams(streams, column, k), column)
    ensures RankedStreams(CutStreams(streams, column, k), column) == EachTop(RankedStreams(streams, column), k)
  {
    forall i | 0 <= i < |streams|
      ensures Reach(CutStreams(streams, column, k)[i].rows, column)
      ensures Retag(streams[i].title, Rank(BackendCut(streams[i], column, k).rows, Some(column)))
              == Top(Retag(streams[i].title, Rank(streams[i].rows, Some(column))), k)
    {
      CutKeepsRanks(streams[i], column, k);
      RetagTop(streams[i].title, Rank(streams[i].rows, Some(column)), k);
    }
  }

  /** The report table is the same whether or not the backend cut every stream first. The
      streams may come in any order, since the concatenation follows the order given. */
  lemma ReportUnaffectedByCutting(streams: seq<StreamRows>, columns: seq<string>, sortBy: string, column: nat, k: nat)
    requires AllReach(streams, column) && IndexOf(columns, sortBy) == Some(column + 1)
    ensures SortedLimitedRows(AllTagged(streams), columns, sortBy, k).Some?
    ensures SortedLimitedRows(AllTagged(CutStreams(streams, column, k)), columns, sortBy, k)
            == SortedLimitedRows(AllTagged(streams), columns, sortBy, k)
  {
    var cut := CutStreams(streams, column, k);
    CutStreamsAreTops(streams, column, k);
    RankAllTagged(streams, column);
    RankAllTagged(cut, column);
    TopOfTops(RankedStreams(streams, column), k);
  }

  // ------------------------------------------------------------------ the report in terms of its cells

  lemma {:induction false} IndexOfIff(columns: seq<string>, name: string)
    ensures match IndexOf(columns, name)
            case None => name !in columns
            case Some(i) => i < |columns| && columns[i] == name && forall j | 0 <= j < i :: columns[j] != name
  {
    if columns != [] && columns[0] != name {
      IndexOfIff(columns[1..], name);
      assert forall j | 1 <= j < |columns| :: columns[j] == columns[1..][j - 1];
    }
  }

  /** Rows are ranked by this cell: the first column of that name, else a row's last cell. */
  ghost predicate SortCell(columns: seq<string>, sortBy: string, width: nat, at: nat) {
    if sortBy in columns then at < |columns| && columns[at] == sortBy && forall j | 0 <= j < at :: columns[j] != sortBy
    else at + 1 == width
  }

  /** The row has the number in that cell, be it written as a number or as a text. */
  ghost predicate Shows(row: Row, columns: seq<string>, sortBy: string, number: real) {
    row.Cells? && exists at: nat | at < |row.cells| ::
      SortCell(columns, sortBy, |row.cells|, at) && (row.cells[at] == Num(number) || (row.cells[at].Text? && row.cells[at].numeric == Some(number)))
  }

  lemma ShowsIff(row: Row, columns: seq<string>, sortBy: string, number: real)
    requires Scorable(row, IndexOf(columns, sortBy))
    ensures Shows(row, columns, sortBy, number) <==> MetricValue(row, IndexOf(columns, sortBy)) == Finite(number)
  {
    IndexOfIff(columns, sortBy);
    if row.Cells? && row.cells != [] {
      var i := IndexOf(columns, sortBy);
      var at := if i.Some? then i.value else |row.cells| - 1;
      assert SortCell(columns, sortBy, |row.cells|, at);
      assert forall other: nat | SortCell(columns, sortBy, |row.cells|, other) :: other == at;
    }
  }

  lemma {:induction false} RankAt(rows: seq<Row>, index: Option<nat>, i: nat)
    requires AllScorable(rows, index) && i < |rows|
    ensures Rank(rows, index)[i] == Ranked(rows[i], MetricValue(rows[i], index))
  {
    if i > 0 {
      RankAt(rows[1..], index, i - 1);
    }
  }

  lemma {:induction false} RowsOfAt(s: seq<Ranked>)
    ensures |RowsOf(s)| == |s| && forall i | 0 <= i < |s| :: RowsOf(s)[i] == s[i].row
  {
    if s != [] {
      RowsOfAt(s[1..]);
    }
  }

  lemma {:induction false} WithMetricMember(s: seq<Ranked>, r: Ranked)
    ensures r in WithMetric(s, r.metric) <==> r in s
  {
    if s != [] {
      WithMetricMember(s[1..], r);
      assert s == [s[0]] + s[1..];
    }
  }

  lemma SortMember(s: seq<Ranked>, r: Ranked)
    ensures r in Sort(s) <==> r in s
  {
    SortIsStableSort(s);
    WithMetricMember(s, r);
    WithMetricMember(Sort(s), r);
    assert WithMetric(Sort(s), r.metric) == WithMetric(s, r.metric);
  }

  lemma TopMember(rows: seq<Row>, index: Option<nat>, k: nat, i: nat)
    requires AllScorable(rows, index) && i < |Top(Rank(rows, index), k)|
    ensures var r := Top(Rank(rows, index), k)[i]; r.row in rows && r.metric == MetricValue(r.row, index)
  {
    var ranked := Rank(rows, index);
    TakeIsPrefix(Sort(ranked), k);
    var r := Top(ranked, k)[i];
    assert r == Sort(ranked)[i];
    SortMember(ranked, r);
    var n :| 0 <= n < |ranked| && ranked[n] == r;
    RankAt(rows, index, n);
  }

  /** A row that is not among the top is no larger than any that is. */
  lemma LeftOutIsSmaller(rows: seq<Row>, index: Option<nat>, k: nat, row: Row, i: nat)
    requires AllScorable(rows, index) && i < |Top(Rank(rows, index), k)|
    requires row in rows && row !in RowsOf(Top(Rank(rows, index), k))
    ensures Scorable(row, index) && AtLeast(Top(Rank(rows, index), k)[i].metric, MetricValue(row, index))
  {
    var ranked := Rank(rows, index);
    var sorted, top := Sort(ranked), Top(ranked, k);
    var n :| 0 <= n < |rows| && rows[n] == row;
    RankAt(rows, index, n);
    SortMember(ranked, ranked[n]);
    var m :| 0 <= m < |sorted| && sorted[m] == ranked[n];
    TakeIsPrefix(sorted, k);
    RowsOfAt(top);
    SortIsStableSort(ranked);
    assert top[i] == sorted[i];
  }

  /** If `other` shows a number, `row` shows one at least as large. */
  ghost predicate NoSmaller(row: Row, other: Row, columns: seq<string>, sortBy: string) {
    forall number | Shows(other, columns, sortBy, number) :: exists larger :: larger >= number && Shows(row, columns, sortBy, larger)
  }

  lemma AtLeastIsNoSmaller(row: Row, other: Row, columns: seq<string>, sortBy: string)
    requires Scorable(row, IndexOf(columns, sortBy)) && Scorable(other, IndexOf(columns, sortBy))
    requires AtLeast(MetricValue(row, IndexOf(columns, sortBy)), MetricValue(other, IndexOf(columns, sortBy)))
    ensures NoSmaller(row, other, columns, sortBy)
  {
    forall number | Shows(other, columns, sortBy, number)
      ensures exists larger :: larger >= number && Shows(row, columns, sortBy, larger)
    {
      ShowsIff(other, columns, sortBy, number);
      ShowsIff(row, columns, sortBy, MetricValue(row, IndexOf(columns, sortBy)).value);
    }
  }

  /** The report holds as many rows as fit, all of them given ones; by the numbers in the sort
      cells they descend, rows without a number come last, and no larger row is left out. */
  lemma ReportDescends(rows: seq<Row>, columns: seq<string>, sortBy: string, k: nat, report: seq<Row>)
    requires SortedLimitedRows(rows, columns, sortBy, k) == Some(report)
    ensures |report| == (if |rows| <= k then |rows| else k) && forall row | row in report :: row in rows
    ensures forall i, j | 0 <= i < j < |report| :: NoSmaller(report[i], report[j], columns, sortBy)
    ensures forall i, row | 0 <= i < |report| && row in rows && row !in report :: NoSmaller(report[i], row, columns, sortBy)
  {
    var index := IndexOf(columns, sortBy);
    var top := Top(Rank(rows, index), k);
    TakeIsPrefix(Sort(Rank(rows, index)), k);
    RowsOfAt(top);
    forall i | 0 <= i < |report|
      ensures report[i] in rows && Scorable(report[i], index) && top[i].metric == MetricValue(report[i], index)
    {
      TopMember(rows, index, k, i);
    }
    SortIsStableSort(Rank(rows, index));
    forall i, j | 0 <= i < j < |report|
      ensures NoSmaller(report[i], report[j], columns, sortBy)
    {
      assert AtLeast(top[i].metric, top[j].metric);
      AtLeastIsNoSmaller(report[i], report[j], columns, sortBy);
    }
    forall i, row | 0 <= i < |report| && row in rows && row !in report
      ensures NoSmaller(report[i], row, columns, sortBy)
    {
      LeftOutIsSmaller(rows, index, k, row, i);
      AtLeastIsNoSmaller(report[i], row, columns, sortBy);
    }
  }

  /** Sorting raises exactly if some row that is not empty ends before the sort column. */
  lemma RaisesIff(rows: seq<Row>, columns: seq<string>, sortBy: string, k: nat)
    ensures SortedLimitedRows(rows, columns, sortBy, k) == None <==>
            exists i | 0 <= i < |rows| ::
              rows[i].Cells? && rows[i].cells != [] && sortBy in columns && sortBy !in columns[..EndOf(rows[i], columns)]
  {
    IndexOfIff(columns, sortBy);
    var index := IndexOf(columns, sortBy);
    forall i | 0 <= i < |rows|
      ensures !Scorable(rows[i], index) <==>
              rows[i].Cells? && rows[i].cells != [] && sortBy in columns && sortBy !in columns[..EndOf(rows[i], columns)]
    {
      if index.Some? && index.value < EndOf(rows[i], columns) {
        assert columns[..EndOf(rows[i], columns)][index.value] == sortBy;
      }
    }
  }

  /** How many of the columns a row reaches. */
  function EndOf(row: Row, columns: seq<string>): (n: nat)
    ensures n <= |columns|
  {
    if row.NotAList? || |row.cells| > |columns| then |columns| else |row.cells|
  }

  /** Tagging puts the title in front of every row and keeps the order of streams and rows. */
  lemma {:induction false} TaggedExact(streams: seq<StreamRows>, row: Row)
    ensures row in AllTagged(streams) <==>
            exists i, j | 0 <= i < |streams| && 0 <= j < |streams[i].rows| :: TaggedFrom(streams[i], j, row)
  {
    if streams != [] {
      TaggedExact(streams[1..], row);
      TagRowsExact(streams[0].title, streams[0].rows);
      assert streams == [streams[0]] + streams[1..];
      if i, j :| 0 <= i < |streams| && 0 <= j < |streams[i].rows| && TaggedFrom(streams[i], j, row) {
        if i == 0 {
          assert TagRows(streams[0].title, streams[0].rows)[j] == row;
        } else {
          assert streams[1..][i - 1] == streams[i] && TaggedFrom(streams[1..][i - 1], j, row);
        }
      }
      if i, j :| 0 <= i < |streams[1..]| && 0 <= j < |streams[1..][i].rows| && TaggedFrom(streams[1..][i], j, row) {
        assert TaggedFrom(streams[i + 1], j, row);
      }
      if row in TagRows(streams[0].title, streams[0].rows) {
        var j :| 0 <= j < |streams[0].rows| && TagRows(streams[0].title, streams[0].rows)[j] == row;
        assert TaggedFrom(streams[0], j, row);
      }
    }
  }

  ghost predicate TaggedFrom(stream: StreamRows, j: nat, row: Row)
    requires j < |stream.rows|
  {
    match stream.rows[j]
    case Cells(cells) => row == Cells([Text(stream.title, None)] + cells)
    case NotAList => row == NotAList
  }

  lemma {:induction false} TagRowsExact(title: string, rows: seq<Row>)
    ensures |TagRows(title, rows)| == |rows|
    ensures forall j | 0 <= j < |rows| :: TaggedFrom(StreamRows(title, rows), j, TagRows(title, rows)[j])
  {
    if rows != [] {
      TagRowsExact(title, rows[1..]);
      assert forall j | 1 <= j < |rows| :: rows[j] == rows[1..][j - 1];
    }
  }
}
