/**
 * The "Analytic Query" step: for every input row it appends LEAD and LAG
 * values of subject fields, computed within the group of consecutive rows
 * that share the same values in the group fields.
 *
 * The step keeps a bounded queue of the current group's most recent rows.
 * A row is emitted once the queue holds `window_size` rows after it (or when
 * its group ends), and its LEAD/LAG values are read from inside the queue.
 *
 * The reference meaning is `AnalyticOutput`, a closed form per input row;
 * `Step` is the step itself, with `getRow` reading from a fixed input
 * sequence and `putRow` appending to `output`.
 */
module AnalyticQuery {
  import opened JavaLang

  /** The two analytic functions of the step. */
  datatype AggregateType = Lead | Lag

  /** One computed field: LEAD or LAG of the field `subject` by `offset` rows. */
  datatype AnalyticField = AnalyticField(aggregateType: AggregateType, subject: string, offset: int)

  /** A row of values; `None` is a Java null value. */
  type Row<V> = seq<Option<V>>

  /**
   * The configuration the step runs with: the names of the input fields (the
   * input row meta), the group field names and the computed fields.
   *
   * `normal` stands for the input row meta's value comparison: two values of
   * column c compare as equal (`compare(...) == 0`) exactly when
   * `normal(c, ·)` maps them to the same value. The identity is plain
   * equality; a case-insensitive string column maps each value to its lower
   * case, a number column each value to a canonical scale, and so on.
   */
  datatype Meta<!V> = Meta(rowMeta: seq<string>, groupFields: seq<string>, fields: seq<AnalyticField>,
                          normal: (int, Option<V>) -> Option<V>) {
    predicate GroupsFound() {
      forall k :: 0 <= k < |groupFields| ==> groupFields[k] in rowMeta
    }
    predicate SubjectsFound() {
      forall j :: 0 <= j < |fields| ==> fields[j].subject in rowMeta
    }
  }

  function Max(a: int, b: int): int { if a < b then b else a }
  function Min(a: int, b: int): int { if a < b then a else b }

  /** `RowMeta.indexOfValue`: the position of the first field called `name`, or -1. */
  function IndexOfValue(names: seq<string>, name: string): (r: int)
    ensures -1 <= r < |names|
    ensures r == -1 <==> name !in names
    ensures r >= 0 ==> names[r] == name && forall k :: 0 <= k < r ==> names[k] != name
  {
    if |names| == 0 then -1
    else if names[0] == name then 0
    else
      var k := IndexOfValue(names[1..], name);
      if k < 0 then -1 else k + 1
  }

  /** The positions of the group fields in the input row (`data.groupnrs`). */
  function GroupNrs<V>(m: Meta<V>): (nrs: seq<int>)
    ensures |nrs| == |m.groupFields|
    ensures m.GroupsFound() ==> forall k :: 0 <= k < |nrs| ==> 0 <= nrs[k] < |m.rowMeta|
  {
    seq(|m.groupFields|, k requires 0 <= k < |m.groupFields| => IndexOfValue(m.rowMeta, m.groupFields[k]))
  }

  /**
   * The window size: the largest configured offset, and 0 when there is none
   * larger. The step's queue holds up to 2 * window size + 1 rows.
   */
  function WindowSize(fields: seq<AnalyticField>): (w: nat)
    ensures forall j :: 0 <= j < |fields| ==> fields[j].offset <= w
    ensures w == 0 || exists j :: 0 <= j < |fields| && fields[j].offset == w
  {
    if fields == [] then 0
    else
      var w0 := WindowSize(fields[..|fields| - 1]);
      var last := fields[|fields| - 1].offset;
      if last > w0 then last else w0
  }

  function QueueSize(w: nat): nat { 2 * w + 1 }

  /** Every input row has one value per field of the input row meta. */
  predicate Shaped<V>(m: Meta<V>, rows: seq<Row<V>>) {
    forall t :: 0 <= t < |rows| ==> |rows[t]| == |m.rowMeta|
  }

  predicate Ready<V>(m: Meta<V>, input: seq<Row<V>>) {
    m.GroupsFound() && m.SubjectsFound() && Shaped(m, input)
  }

  /** The values of a row in the group fields, as the comparison sees them. */
  function KeyAt<V>(normal: (int, Option<V>) -> Option<V>, row: Row<V>, nrs: seq<int>): seq<Option<V>>
    requires forall k :: 0 <= k < |nrs| ==> 0 <= nrs[k] < |row|
  {
    seq(|nrs|, k requires 0 <= k < |nrs| => normal(nrs[k], row[nrs[k]]))
  }

  function Key<V>(m: Meta<V>, row: Row<V>): seq<Option<V>>
    requires m.GroupsFound() && |row| == |m.rowMeta|
  {
    KeyAt(m.normal, row, GroupNrs(m))
  }

  /**
   * `sameGroup(previous, r)` for a non-null `r`: false when there is no
   * previous row, otherwise whether `compare` finds every group field equal.
   */
  function SameGroup<V(==)>(normal: (int, Option<V>) -> Option<V>, nrs: seq<int>, previous: Option<Row<V>>, r: Row<V>): (same: bool)
    requires forall k :: 0 <= k < |nrs| ==> 0 <= nrs[k] < |r|
    requires previous.Some? ==> forall k :: 0 <= k < |nrs| ==> 0 <= nrs[k] < |previous.value|
    ensures same <==> previous.Some? &&
                      forall k :: 0 <= k < |nrs| ==> normal(nrs[k], previous.value[nrs[k]]) == normal(nrs[k], r[nrs[k]])
  {
    if previous.None? then false
    else
      var before, after := KeyAt(normal, previous.value, nrs), KeyAt(normal, r, nrs);
      assert |before| == |after| == |nrs|;
      assert forall k :: 0 <= k < |nrs| ==>
        before[k] == normal(nrs[k], previous.value[nrs[k]]) && after[k] == normal(nrs[k], r[nrs[k]]);
      assert before == after <==> forall k :: 0 <= k < |nrs| ==> before[k] == after[k];
      before == after
  }

  /** The first index of the run of equal keys that contains index i. */
  function RunStart<V(==)>(m: Meta<V>, input: seq<Row<V>>, i: nat): (s: nat)
    requires Ready(m, input) && i < |input|
    ensures s <= i
    decreases i
  {
    if i == 0 || Key(m, input[i - 1]) != Key(m, input[i]) then i
    else RunStart(m, input, i - 1)
  }

  /** One past the last index of the run of equal keys that contains index i. */
  function RunEnd<V(==)>(m: Meta<V>, input: seq<Row<V>>, i: nat): (e: nat)
    requires Ready(m, input) && i < |input|
    ensures i < e <= |input|
    decreases |input| - i
  {
    if i + 1 == |input| || Key(m, input[i + 1]) != Key(m, input[i]) then i + 1
    else RunEnd(m, input, i + 1)
  }

  /**
   * When the row at position p of a group of n rows is emitted, the queue
   * holds the group positions [WindowFront, WindowFront + WindowLength).
   */
  function WindowFront(w: nat, n: nat, p: nat): nat {
    Max(0, Min(p - w, n - QueueSize(w)))
  }

  function WindowLength(w: nat, n: nat): nat {
    Min(n, QueueSize(w))
  }

  /** The row a computed field reads, relative to the row being emitted. */
  function Target(f: AnalyticField, i: int): int {
    match f.aggregateType
    case Lag => i - f.offset
    case Lead => i + f.offset
  }

  /**
   * The window of group position p holds every position at most w away
   * from p that lies inside the group.
   */
  lemma WindowCovers(w: nat, n: nat, p: nat, k: nat)
    requires p < n && k <= w
    ensures var front := WindowFront(w, n, p);
            front <= p < front + WindowLength(w, n) <= n &&
            (p - k >= 0 ==> front <= p - k) &&
            (p + k < n ==> p + k < front + WindowLength(w, n))
  {
  }

  /**
   * The rows [lo, hi) the queue holds when row i of the group [s, e) is
   * emitted, for window size w.
   */
  function GroupWindow(w: nat, s: nat, e: nat, i: nat): (b: (nat, nat))
    requires s <= i < e
    ensures s <= b.0 <= i < b.1 <= e
  {
    WindowCovers(w, e - s, i - s, 0);
    (s + WindowFront(w, e - s, i - s), s + WindowFront(w, e - s, i - s) + WindowLength(w, e - s))
  }

  /** The window of a row holds every row of its group at most w away. */
  lemma GroupWindowCovers(w: nat, s: nat, e: nat, i: nat, k: nat)
    requires s <= i < e && k <= w
    ensures var b := GroupWindow(w, s, e, i);
            (i - k >= s ==> b.0 <= i - k) && (i + k < e ==> i + k < b.1)
  {
    WindowCovers(w, e - s, i - s, k);
  }

  /**
   * The input rows [lo, hi) the queue holds when input row i is emitted:
   * a stretch of i's own group around i.
   */
  function WindowOf<V(==)>(m: Meta<V>, input: seq<Row<V>>, i: nat): (b: (nat, nat))
    requires Ready(m, input) && i < |input|
    ensures RunStart(m, input, i) <= b.0 <= i < b.1 <= RunEnd(m, input, i)
  {
    GroupWindow(WindowSize(m.fields), RunStart(m, input, i), RunEnd(m, input, i), i)
  }

  /** The input window of row i: from `lo` up to, not including, `hi`. */
  ghost predicate Aligned<V>(m: Meta<V>, input: seq<Row<V>>, i: nat, lo: int, hi: int)
    requires Ready(m, input) && i < |input|
  {
    WindowOf(m, input, i) == (lo, hi)
  }

  /** The window of row i, given the bounds [s, e) of its group. */
  lemma AlignedFrom<V>(m: Meta<V>, input: seq<Row<V>>, i: nat, s: nat, e: nat, lo: nat, hi: nat)
    requires Ready(m, input) && i < |input|
    requires RunStart(m, input, i) == s && RunEnd(m, input, i) == e
    requires s <= i < e && GroupWindow(WindowSize(m.fields), s, e, i) == (lo, hi)
    ensures Aligned(m, input, i, lo, hi)
  {
  }

  /** The value of computed field f for input row i. */
  function SpecValue<V(==)>(m: Meta<V>, input: seq<Row<V>>, i: nat, f: AnalyticField): Option<V>
    requires Ready(m, input) && i < |input| && f.subject in m.rowMeta
  {
    var (lo, hi) := WindowOf(m, input, i);
    var t := Target(f, i);
    if lo <= t < hi then input[t][IndexOfValue(m.rowMeta, f.subject)] else None
  }

  /** The computed fields of input row i, one per configured field. */
  function SpecValues<V(==)>(m: Meta<V>, input: seq<Row<V>>, i: nat): seq<Option<V>>
    requires Ready(m, input) && i < |input|
  {
    seq(|m.fields|, j requires 0 <= j < |m.fields| => SpecValue(m, input, i, m.fields[j]))
  }

  /** The output row for input row i: the row itself, then its computed fields. */
  function SpecRow<V(==)>(m: Meta<V>, input: seq<Row<V>>, i: nat): Row<V>
    requires Ready(m, input) && i < |input|
  {
    input[i] + SpecValues(m, input, i)
  }

  /**
   * Everything the step writes for a given input: each input row exactly
   * once, in input order, with the computed fields appended after the input
   * fields.
   */
  function AnalyticOutput<V(==)>(m: Meta<V>, input: seq<Row<V>>): (out: seq<Row<V>>)
    requires Ready(m, input)
    ensures |out| == |input|
  {
    OutputPrefix(m, input, |input|)
  }

  /** The output rows for the first n input rows. */
  function OutputPrefix<V(==)>(m: Meta<V>, input: seq<Row<V>>, n: nat): (out: seq<Row<V>>)
    requires Ready(m, input) && n <= |input|
    ensures |out| == n
  {
    if n == 0 then [] else OutputPrefix(m, input, n - 1) + [SpecRow(m, input, n - 1)]
  }

  /** Output row i is the reference row for input row i. */
  lemma {:induction false} OutputAt<V>(m: Meta<V>, input: seq<Row<V>>, n: nat, i: nat)
    requires Ready(m, input) && i < n <= |input|
    ensures OutputPrefix(m, input, n)[i] == SpecRow(m, input, i)
    decreases n
  {
    if i < n - 1 {
      OutputAt(m, input, n - 1, i);
    }
  }

  /** Output row i is input row i followed by one value per computed field. */
  lemma OutputRows<V>(m: Meta<V>, input: seq<Row<V>>, i: nat)
    requires Ready(m, input) && i < |input|
    ensures var out := AnalyticOutput(m, input);
            |out[i]| == |m.rowMeta| + |m.fields| && out[i][..|m.rowMeta|] == input[i]
  {
    OutputAt(m, input, |input|, i);
    assert AnalyticOutput(m, input)[i] == input[i] + SpecValues(m, input, i);
  }

  // ---------------------------------------------------------------------
  // Properties of the reference output
  // ---------------------------------------------------------------------

  /** The run containing i is a block of equal keys bounded by a key change or the input's end. */
  lemma {:induction false} RunEndBounds<V>(m: Meta<V>, input: seq<Row<V>>, i: nat)
    requires Ready(m, input) && i < |input|
    ensures var e := RunEnd(m, input, i);
            (forall t :: i <= t < e ==> Key(m, input[t]) == Key(m, input[i])) &&
            (e == |input| || Key(m, input[e]) != Key(m, input[e - 1]))
    decreases |input| - i
  {
    if !(i + 1 == |input| || Key(m, input[i + 1]) != Key(m, input[i])) {
      RunEndBounds(m, input, i + 1);
    }
  }

  lemma {:induction false} RunStartBounds<V>(m: Meta<V>, input: seq<Row<V>>, i: nat)
    requires Ready(m, input) && i < |input|
    ensures var s := RunStart(m, input, i);
            (forall t :: s <= t <= i ==> Key(m, input[t]) == Key(m, input[i])) &&
            (s == 0 || Key(m, input[s - 1]) != Key(m, input[s]))
    decreases i
  {
    if !(i == 0 || Key(m, input[i - 1]) != Key(m, input[i])) {
      RunStartBounds(m, input, i - 1);
    }
  }

  /**
   * A computed value never crosses a group boundary: when it is not null it
   * is the subject field of a row of the same group.
   */
  lemma ValueFromSameGroup<V>(m: Meta<V>, input: seq<Row<V>>, i: nat, f: AnalyticField)
    requires Ready(m, input) && i < |input| && f.subject in m.rowMeta
    ensures SpecValue(m, input, i, f).Some? ==>
      var t := Target(f, i);
      RunStart(m, input, i) <= t < RunEnd(m, input, i) &&
      Key(m, input[t]) == Key(m, input[i]) &&
      SpecValue(m, input, i, f) == input[t][IndexOfValue(m.rowMeta, f.subject)]
  {
    RunStartBounds(m, input, i);
    RunEndBounds(m, input, i);
  }

  /** The reference value of field j for row i, with the window written out. */
  lemma SpecValueInGroup<V>(m: Meta<V>, input: seq<Row<V>>, i: nat, j: nat) returns (s: nat, e: nat, lo: nat, hi: nat)
    requires Ready(m, input) && i < |input| && j < |m.fields| && m.fields[j].offset >= 0
    ensures s == RunStart(m, input, i) && e == RunEnd(m, input, i)
    ensures var k := m.fields[j].offset;
            s <= lo <= i < hi <= e &&
            (i - k >= s ==> lo <= i - k) && (i + k < e ==> i + k < hi)
    ensures var t := Target(m.fields[j], i);
            SpecValue(m, input, i, m.fields[j]) ==
              if lo <= t < hi then input[t][IndexOfValue(m.rowMeta, m.fields[j].subject)] else None
  {
    var w := WindowSize(m.fields);
    assert m.fields[j].offset <= w;
    s := RunStart(m, input, i);
    e := RunEnd(m, input, i);
    lo := GroupWindow(w, s, e, i).0;
    hi := GroupWindow(w, s, e, i).1;
    GroupWindowCovers(w, s, e, i, m.fields[j].offset);
    AlignedFrom(m, input, i, s, e, lo, hi);
  }

  /**
   * For a non-negative offset k, LAG k is the subject value k rows earlier in
   * the same group, and null when the group has no such row.
   */
  lemma LagWithinGroup<V>(m: Meta<V>, input: seq<Row<V>>, i: nat, j: nat)
    requires Ready(m, input) && i < |input| && j < |m.fields| && m.fields[j].offset >= 0
    requires m.fields[j].aggregateType == Lag
    ensures var k := m.fields[j].offset;
            SpecValue(m, input, i, m.fields[j]) ==
              if i - k >= RunStart(m, input, i)
              then input[i - k][IndexOfValue(m.rowMeta, m.fields[j].subject)]
              else None
  {
    var s, e, lo, hi := SpecValueInGroup(m, input, i, j);
  }

  /**
   * For a non-negative offset k, LEAD k is the subject value k rows later in
   * the same group, and null when the group has no such row.
   */
  lemma LeadWithinGroup<V>(m: Meta<V>, input: seq<Row<V>>, i: nat, j: nat)
    requires Ready(m, input) && i < |input| && j < |m.fields| && m.fields[j].offset >= 0
    requires m.fields[j].aggregateType == Lead
    ensures var k := m.fields[j].offset;
            SpecValue(m, input, i, m.fields[j]) ==
              if i + k < RunEnd(m, input, i)
              then input[i + k][IndexOfValue(m.rowMeta, m.fields[j].subject)]
              else None
  {
    var s, e, lo, hi := SpecValueInGroup(m, input, i, j);
  }

  // ---------------------------------------------------------------------
  // What `processQueueObjectAt` emits, and why it is the reference row
  // ---------------------------------------------------------------------

  /**
   * The value of field f for the row at `index` of the queue `rows`: null
   * when the row it reads lies outside the queue. (A subject missing from
   * the input is only ever looked up outside the queue when nothing throws;
   * see `ReadsMissingSubject`.)
   */
  function QueueValue<V>(m: Meta<V>, rows: seq<Row<V>>, index: int, f: AnalyticField): Option<V>
    requires Shaped(m, rows)
  {
    var rowIndex := Target(f, index);
    if rowIndex < |rows| && rowIndex >= 0 && f.subject in m.rowMeta then rows[rowIndex][IndexOfValue(m.rowMeta, f.subject)]
    else None
  }

  /**
   * Field f of the queue row at `index` reads a row inside the queue at the
   * position of a subject the input does not have: `singleRow[-1]`, which
   * throws ArrayIndexOutOfBoundsException.
   */
  predicate ReadsMissingSubject<V>(m: Meta<V>, rows: seq<Row<V>>, index: int, f: AnalyticField) {
    f.subject !in m.rowMeta && 0 <= Target(f, index) < |rows|
  }

  /** The computed fields `processQueueObjectAt(index + 1)` collects. */
  function QueueValues<V>(m: Meta<V>, rows: seq<Row<V>>, index: nat): seq<Option<V>>
    requires Shaped(m, rows)
  {
    seq(|m.fields|, j requires 0 <= j < |m.fields| => QueueValue(m, rows, index, m.fields[j]))
  }

  /** The row `processQueueObjectAt(index + 1)` puts. */
  function QueueEmit<V>(m: Meta<V>, rows: seq<Row<V>>, index: nat): Row<V>
    requires Shaped(m, rows) && index < |rows|
  {
    rows[index] + QueueValues(m, rows, index)
  }

  /** The rows emitted for the queue indices [from, to). */
  function QueueEmits<V>(m: Meta<V>, rows: seq<Row<V>>, from: nat, to: nat): seq<Row<V>>
    requires Shaped(m, rows) && from <= to <= |rows|
  {
    seq(to - from, k requires 0 <= k < to - from => QueueEmit(m, rows, from + k))
  }

  /** `q` holds the input rows [lo, hi), in order. */
  ghost predicate IsSlice<V>(q: seq<Row<V>>, input: seq<Row<V>>, lo: nat, hi: nat) {
    lo <= hi <= |input| && |q| == hi - lo && forall t :: 0 <= t < |q| ==> q[t] == input[lo + t]
  }

  /** When the queue is exactly the window of row i, its value for field f is the reference value. */
  lemma ValueAlignment<V>(m: Meta<V>, input: seq<Row<V>>, i: nat, lo: nat, hi: nat, q: seq<Row<V>>, f: AnalyticField)
    requires Ready(m, input) && i < |input| && Aligned(m, input, i, lo, hi) && f.subject in m.rowMeta
    requires IsSlice(q, input, lo, hi) && Shaped(m, q)
    ensures lo <= i < hi
    ensures QueueValue(m, q, i - lo, f) == SpecValue(m, input, i, f)
  {
    var t := Target(f, i);
    assert Target(f, i - lo) == t - lo;
    if lo <= t < hi {
      assert q[t - lo] == input[t];
    }
  }

  /** When the queue is exactly the window of row i, it emits the reference row for i. */
  lemma WindowAlignment<V>(m: Meta<V>, input: seq<Row<V>>, i: nat, lo: nat, hi: nat, q: seq<Row<V>>)
    requires Ready(m, input) && i < |input| && Aligned(m, input, i, lo, hi)
    requires IsSlice(q, input, lo, hi) && Shaped(m, q)
    ensures lo <= i < hi
    ensures QueueEmit(m, q, i - lo) == SpecRow(m, input, i)
  {
    assert lo <= i < hi;
    var a := QueueValues(m, q, i - lo);
    var b := SpecValues(m, input, i);
    forall j | 0 <= j < |m.fields| ensures a[j] == b[j] {
      ValueAlignment(m, input, i, lo, hi, q, m.fields[j]);
    }
    assert q[i - lo] == input[i];
  }

  /** A queue holding a stretch of well-shaped input rows is well shaped. */
  lemma SliceShaped<V>(m: Meta<V>, input: seq<Row<V>>, lo: nat, hi: nat, q: seq<Row<V>>)
    requires Shaped(m, input) && IsSlice(q, input, lo, hi)
    ensures Shaped(m, q)
  {
    forall t | 0 <= t < |q| ensures |q[t]| == |m.rowMeta| {
      assert q[t] == input[lo + t];
    }
  }

  /** A run of aligned queue positions emits the matching slice of the reference output. */
  lemma EmitsMatch<V>(m: Meta<V>, input: seq<Row<V>>, lo: nat, hi: nat, q: seq<Row<V>>, from: nat, to: nat)
    requires Ready(m, input) && IsSlice(q, input, lo, hi) && Shaped(m, q) && from <= to <= |q|
    requires forall i :: lo + from <= i < lo + to ==> Aligned(m, input, i, lo, hi)
    ensures QueueEmits(m, q, from, to) == AnalyticOutput(m, input)[lo + from..lo + to]
  {
    var a := QueueEmits(m, q, from, to);
    var b := AnalyticOutput(m, input)[lo + from..lo + to];
    assert |a| == |b|;
    forall k | 0 <= k < |a| ensures a[k] == b[k] {
      WindowAlignment(m, input, lo + from + k, lo, hi, q);
      OutputAt(m, input, |input|, lo + from + k);
    }
  }

  /** The group of rows [gs, read) read so far, all of one run that may continue. */
  ghost predicate OpenGroup<V>(m: Meta<V>, input: seq<Row<V>>, gs: nat, read: nat)
    requires Ready(m, input) && read <= |input|
  {
    gs < read && RunStart(m, input, read - 1) == gs
  }

  /** Every row between the start of a run and a row i of it lies in the same run. */
  lemma {:induction false} SameRun<V>(m: Meta<V>, input: seq<Row<V>>, t: nat, i: nat)
    requires Ready(m, input) && i < |input| && RunStart(m, input, i) <= t <= i
    ensures RunStart(m, input, t) == RunStart(m, input, i) && RunEnd(m, input, t) == RunEnd(m, input, i)
    decreases i - t
  {
    if t < i {
      assert RunStart(m, input, i - 1) == RunStart(m, input, i);
      assert RunEnd(m, input, i - 1) == RunEnd(m, input, i);
      SameRun(m, input, t, i - 1);
    }
  }

  /** How many rows have been emitted while the group [gs, read) is open. */
  function Emitted(w: nat, gs: nat, read: nat): nat
    requires gs <= read
  {
    gs + (if read - gs < QueueSize(w) then 0 else read - gs - w)
  }

  /** The queue has just filled up: its first w + 1 rows are emitted. */
  lemma BurstEmits<V>(m: Meta<V>, input: seq<Row<V>>, gs: nat, read: nat, q: seq<Row<V>>)
    requires Ready(m, input) && read <= |input| && OpenGroup(m, input, gs, read)
    requires IsSlice(q, input, gs, read) && Shaped(m, q)
    requires |q| == QueueSize(WindowSize(m.fields))
    ensures QueueEmits(m, q, 0, WindowSize(m.fields) + 1) == AnalyticOutput(m, input)[gs..gs + WindowSize(m.fields) + 1]
  {
    var w := WindowSize(m.fields);
    var e := RunEnd(m, input, read - 1);
    forall i | gs <= i < gs + w + 1 ensures Aligned(m, input, i, gs, read) {
      SameRun(m, input, i, read - 1);
      BurstWindow(w, gs, read, e, i);
      AlignedFrom(m, input, i, gs, e, gs, read);
    }
    EmitsMatch(m, input, gs, read, q, 0, w + 1);
  }

  /** With a full queue, the middle row is the next one due. */
  lemma SteadyEmit<V>(m: Meta<V>, input: seq<Row<V>>, gs: nat, read: nat, lo: nat, q: seq<Row<V>>)
    requires Ready(m, input) && read <= |input| && OpenGroup(m, input, gs, read)
    requires read - gs > QueueSize(WindowSize(m.fields)) && lo == read - QueueSize(WindowSize(m.fields))
    requires IsSlice(q, input, lo, read) && Shaped(m, q)
    ensures [QueueEmit(m, q, WindowSize(m.fields))] == AnalyticOutput(m, input)[lo + WindowSize(m.fields)..lo + WindowSize(m.fields) + 1]
  {
    var w := WindowSize(m.fields);
    var e := RunEnd(m, input, read - 1);
    SameRun(m, input, lo + w, read - 1);
    SteadyWindow(w, gs, read, e, lo);
    AlignedFrom(m, input, lo + w, gs, e, lo, read);
    WindowAlignment(m, input, lo + w, lo, read, q);
    OutputAt(m, input, |input|, lo + w);
  }

  /** When the queue first fills up, each of its first w + 1 rows has the whole queue as window. */
  lemma BurstWindow(w: nat, gs: nat, read: nat, e: nat, i: nat)
    requires gs <= i < gs + w + 1 && read - gs == QueueSize(w) && read <= e
    ensures GroupWindow(w, gs, e, i) == (gs, read)
  {
  }

  /** Later, the row w places behind the newest one has the whole queue as window. */
  lemma SteadyWindow(w: nat, gs: nat, read: nat, e: nat, lo: nat)
    requires read - gs > QueueSize(w) && lo == read - QueueSize(w) && read <= e
    ensures GroupWindow(w, gs, e, lo + w) == (lo, read)
  {
  }

  /** When a group [gs, e) ends, each row not yet emitted has the remaining queue as window. */
  lemma ClosingWindow(w: nat, gs: nat, e: nat, lo: nat, i: nat)
    requires gs <= i < e && lo == Max(gs, e - QueueSize(w))
    requires e - gs >= QueueSize(w) ==> i >= lo + w + 1
    ensures GroupWindow(w, gs, e, i) == (lo, e)
  {
  }

  /** At the end of a group, the queue emits the group's remaining rows. */
  lemma ClearEmits<V>(m: Meta<V>, input: seq<Row<V>>, gs: nat, read: nat, lo: nat, q: seq<Row<V>>, c: nat)
    requires Ready(m, input) && read <= |input| && OpenGroup(m, input, gs, read)
    requires RunEnd(m, input, read - 1) == read
    requires lo == Max(gs, read - QueueSize(WindowSize(m.fields)))
    requires IsSlice(q, input, lo, read) && Shaped(m, q)
    requires c == if read - gs < QueueSize(WindowSize(m.fields)) then 0 else WindowSize(m.fields) + 1
    ensures c <= |q| && lo + c == Emitted(WindowSize(m.fields), gs, read)
    ensures QueueEmits(m, q, c, |q|) == AnalyticOutput(m, input)[lo + c..read]
  {
    ClearCount(WindowSize(m.fields), gs, read, lo, c);
    forall i | lo + c <= i < lo + |q| ensures Aligned(m, input, i, lo, read) {
      ClosingAligned(m, input, gs, read, lo, i);
    }
    EmitsMatch(m, input, lo, read, q, c, |q|);
  }

  /** The cursor of a group's queue never passes its end, and counts the rows already emitted. */
  lemma ClearCount(w: nat, gs: nat, read: nat, lo: nat, c: nat)
    requires gs < read && lo == Max(gs, read - QueueSize(w))
    requires c == if read - gs < QueueSize(w) then 0 else w + 1
    ensures lo + c <= read && lo + c == Emitted(w, gs, read)
  {
  }

  /** A row still queued when its group [gs, read) ends has the queue as its window. */
  lemma ClosingAligned<V>(m: Meta<V>, input: seq<Row<V>>, gs: nat, read: nat, lo: nat, i: nat)
    requires Ready(m, input) && read <= |input| && OpenGroup(m, input, gs, read) && RunEnd(m, input, read - 1) == read
    requires lo == Max(gs, read - QueueSize(WindowSize(m.fields))) && gs <= i < read
    requires read - gs >= QueueSize(WindowSize(m.fields)) ==> i >= lo + WindowSize(m.fields) + 1
    ensures Aligned(m, input, i, lo, read)
  {
    SameRun(m, input, i, read - 1);
    ClosingWindow(WindowSize(m.fields), gs, read, lo, i);
    AlignedFrom(m, input, i, gs, read, lo, read);
  }

  /** When row `read - 1` continues the group, every row of the group runs at least to `read`. */
  lemma ExtendGroup<V>(m: Meta<V>, input: seq<Row<V>>, gs: nat, n: nat, read: nat)
    requires Ready(m, input) && read == n + 1 <= |input| && OpenGroup(m, input, gs, n)
    requires Key(m, input[n - 1]) == Key(m, input[n])
    ensures OpenGroup(m, input, gs, read)
  {
    assert RunStart(m, input, n) == RunStart(m, input, n - 1);
  }

  /** When row `read` starts a new group (or there is none), the open group ends at `read`. */
  lemma CloseGroup<V>(m: Meta<V>, input: seq<Row<V>>, gs: nat, read: nat)
    requires Ready(m, input) && read <= |input| && OpenGroup(m, input, gs, read)
    requires read < |input| ==> Key(m, input[read - 1]) != Key(m, input[read])
    ensures RunEnd(m, input, read - 1) == read
  {
  }

  /** A row whose key differs from the row before it (or the first row) opens a group. */
  lemma NewGroup<V>(m: Meta<V>, input: seq<Row<V>>, gs: nat, read: nat)
    requires Ready(m, input) && read == gs + 1 <= |input|
    requires gs == 0 || Key(m, input[gs - 1]) != Key(m, input[gs])
    ensures OpenGroup(m, input, gs, read)
  {
    assert RunStart(m, input, gs) == gs;
  }

  lemma PrefixExtend<T>(s: seq<T>, a: nat, b: nat)
    requires a <= b <= |s|
    ensures s[..a] + s[a..b] == s[..b]
  {
  }

  /** The rows `processQueue` puts for a queue `q` whose first `c` rows are already out. */
  function Due<V>(m: Meta<V>, q: seq<Row<V>>, c: nat, w: nat): seq<Row<V>>
    requires Shaped(m, q) && m.SubjectsFound() && |q| <= QueueSize(w)
  {
    if |q| < QueueSize(w) then []
    else if c <= w then QueueEmits(m, q, c, w + 1)
    else [QueueEmit(m, q, w)]
  }

  /** The queue cursor after `processQueue`. */
  function DueCursor<V>(q: seq<Row<V>>, c: nat, w: nat): nat {
    if |q| == QueueSize(w) && c <= w then w + 1 else c
  }

  /**
   * After row `read - 1` joins the open group [gs, read), `processQueue`
   * puts exactly the reference rows that have become due, and the cursor
   * keeps its meaning.
   */
  lemma DueRows<V>(m: Meta<V>, input: seq<Row<V>>, gs: nat, read: nat, lo: nat, q: seq<Row<V>>, c: nat)
    requires Ready(m, input) && read <= |input| && OpenGroup(m, input, gs, read)
    requires lo == Max(gs, read - QueueSize(WindowSize(m.fields)))
    requires IsSlice(q, input, lo, read) && Shaped(m, q)
    requires c == if read - 1 - gs < QueueSize(WindowSize(m.fields)) then 0 else WindowSize(m.fields) + 1
    ensures |q| <= QueueSize(WindowSize(m.fields))
    ensures Emitted(WindowSize(m.fields), gs, read - 1) <= Emitted(WindowSize(m.fields), gs, read) <= |input|
    ensures Due(m, q, c, WindowSize(m.fields)) ==
      AnalyticOutput(m, input)[Emitted(WindowSize(m.fields), gs, read - 1)..Emitted(WindowSize(m.fields), gs, read)]
    ensures DueCursor(q, c, WindowSize(m.fields)) ==
      if read - gs < QueueSize(WindowSize(m.fields)) then 0 else WindowSize(m.fields) + 1
  {
    var w := WindowSize(m.fields);
    var g := read - gs;
    if g == QueueSize(w) {
      assert c == 0 && |q| == QueueSize(w) && lo == gs;
      BurstEmits(m, input, gs, read, q);
    } else if g > QueueSize(w) {
      assert c == w + 1 && |q| == QueueSize(w) && Emitted(w, gs, read - 1) == lo + w;
      SteadyEmit(m, input, gs, read, lo, q);
    }
  }

  /**
   * The step's queue `q`, cursor `c` and output `out` after the first n input
   * rows, with the current group starting at gs: the queue holds the group's
   * last rows (at most 2w + 1 of them) and the output is the due prefix of
   * the reference output.
   */
  ghost predicate QueueState<V>(m: Meta<V>, input: seq<Row<V>>, gs: nat, n: nat, q: seq<Row<V>>, c: nat, out: seq<Row<V>>)
    requires Ready(m, input) && n <= |input|
  {
    var w := WindowSize(m.fields);
    gs <= n &&
    IsSlice(q, input, Max(gs, n - QueueSize(w)), n) && Shaped(m, q) &&
    c == (if n - gs < QueueSize(w) then 0 else w + 1) &&
    out == AnalyticOutput(m, input)[..Emitted(w, gs, n)]
  }

  /** Adding row `read - 1` to its open group and running `processQueue` keeps the state. */
  lemma QueueAdvance<V>(m: Meta<V>, input: seq<Row<V>>, gs: nat, n: nat, read: nat, w: nat, qs: nat,
                        q0: seq<Row<V>>, q: seq<Row<V>>, c: nat, out: seq<Row<V>>, c': nat, out': seq<Row<V>>)
    requires Ready(m, input) && read == n + 1 <= |input| && OpenGroup(m, input, gs, read)
    requires QueueState(m, input, gs, n, q0, c, out)
    requires w == WindowSize(m.fields) && qs == QueueSize(w)
    requires IsSlice(q, input, Max(gs, read - qs), read) && Shaped(m, q) && |q| <= qs
    requires c' == DueCursor(q, c, w) && out' == out + Due(m, q, c, w)
    ensures QueueState(m, input, gs, read, q, c', out')
  {
    DueRows(m, input, gs, read, Max(gs, read - qs), q, c);
    PrefixExtend(AnalyticOutput(m, input), Emitted(w, gs, n), Emitted(w, gs, read));
  }

  /**
   * When the group [gs, n) has ended (row n starts another group, or there
   * is no row n), `clearQueue` completes the reference output up to n.
   */
  lemma FlushState<V>(m: Meta<V>, input: seq<Row<V>>, gs: nat, n: nat, q: seq<Row<V>>, c: nat, out: seq<Row<V>>)
    requires Ready(m, input) && n <= |input| && QueueState(m, input, gs, n, q, c, out)
    requires gs < n ==> OpenGroup(m, input, gs, n)
    requires 0 < n < |input| ==> Key(m, input[n - 1]) != Key(m, input[n])
    ensures c <= |q|
    ensures out + QueueEmits(m, q, c, |q|) == AnalyticOutput(m, input)[..n]
  {
    var w := WindowSize(m.fields);
    if gs < n {
      CloseGroup(m, input, gs, n);
      ClearEmits(m, input, gs, n, Max(gs, n - QueueSize(w)), q, c);
      PrefixExtend(AnalyticOutput(m, input), Emitted(w, gs, n), n);
    } else {
      assert q == [] && c == 0;
    }
  }

  /** A new group starting at row n begins with an empty queue. */
  lemma FreshState<V>(m: Meta<V>, input: seq<Row<V>>, gs: nat, n: nat, q: seq<Row<V>>, c: nat, out: seq<Row<V>>)
    requires Ready(m, input) && n <= |input| && out == AnalyticOutput(m, input)[..n]
    requires gs == n && q == [] && c == 0
    ensures QueueState(m, input, gs, n, q, c, out)
  {
  }

  /** With the resolved group field positions, `sameGroup` compares the group keys. */
  lemma SameGroupKey<V>(m: Meta<V>, input: seq<Row<V>>, n: nat, previous: Option<Row<V>>)
    requires Ready(m, input) && n < |input|
    requires n == 0 ==> previous.None?
    requires n > 0 ==> previous == Some(input[n - 1])
    ensures forall k :: 0 <= k < |GroupNrs(m)| ==> 0 <= GroupNrs(m)[k] < |input[n]|
    ensures previous.Some? ==> forall k :: 0 <= k < |GroupNrs(m)| ==> 0 <= GroupNrs(m)[k] < |previous.value|
    ensures SameGroup(m.normal, GroupNrs(m), previous, input[n]) <==> n > 0 && Key(m, input[n - 1]) == Key(m, input[n])
  {
  }

  /** The resolved set-up: group field positions, window size and queue size. */
  ghost predicate Configuration<V>(m: Meta<V>, nrs: seq<int>, w: nat, qs: nat) {
    m.GroupsFound() && nrs == GroupNrs(m) && w == WindowSize(m.fields) && qs == QueueSize(w)
  }

  /**
   * The step's state after the first n input rows: the queue as due, and the
   * previous row remembered with its group still open.
   */
  ghost predicate AfterRows<V>(m: Meta<V>, input: seq<Row<V>>, n: nat, gs: nat, q: seq<Row<V>>, c: nat,
                               out: seq<Row<V>>, previous: Option<Row<V>>)
    requires Ready(m, input) && n <= |input|
  {
    QueueState(m, input, gs, n, q, c, out) &&
    (n == 0 ==> gs == 0 && previous.None?) &&
    (n > 0 ==> OpenGroup(m, input, gs, n) && previous == Some(input[n - 1]))
  }

  // ---------------------------------------------------------------------
  // The step
  // ---------------------------------------------------------------------

  class Step<V(==)> {
    const meta: Meta<V>
    /** The rows `getRow` hands out, in order; after the last one it returns null. */
    const input: seq<Row<V>>

    var read: nat
    var first: bool
    var groupNrs: seq<int>
    var windowSize: nat
    var queueSize: nat
    /** `data.data`: the queue of the current group's latest rows. */
    var queue: seq<Row<V>>
    /** `data.queue_cursor`: how many rows at the queue's front have been emitted. */
    var cursor: nat
    var previous: Option<Row<V>>
    /** The rows passed to `putRow`, in order. */
    var output: seq<Row<V>>
    var errors: nat
    var outputDone: bool
    var stopped: bool
    /** The input index of the current group's first row. */
    ghost var groupStart: nat

    /** The state between two calls of `processRow` while rows are still flowing. */
    ghost predicate Running()
      reads this
      requires Shaped(meta, input) && meta.SubjectsFound() && read <= |input|
    {
      !stopped && !outputDone && errors == 0 &&
      (first ==> read == 0 && queue == [] && cursor == 0 && previous.None? && output == []) &&
      (!first ==> Configuration(meta, groupNrs, windowSize, queueSize) && 1 <= read &&
                  AfterRows(meta, input, read, groupStart, queue, cursor, output, previous))
    }

    ghost predicate Valid()
      reads this
    {
      Shaped(meta, input) && meta.SubjectsFound() && read <= |input| &&
      (stopped ==> errors == 1 && output == [] && !meta.GroupsFound()) &&
      (outputDone ==> !stopped && errors == 0 && meta.GroupsFound() && output == AnalyticOutput(meta, input)) &&
      (!stopped && !outputDone ==> Running())
    }

    constructor (meta: Meta<V>, input: seq<Row<V>>)
      requires Shaped(meta, input) && meta.SubjectsFound()
      ensures Valid() && first && !stopped && !outputDone
      ensures this.meta == meta && this.input == input && read == 0 && output == []
    {
      this.meta := meta;
      this.input := input;
      read := 0;
      first := true;
      groupNrs := [];
      windowSize := 0;
      queueSize := 1;
      queue := [];
      cursor := 0;
      previous := None;
      output := [];
      errors := 0;
      outputDone := false;
      stopped := false;
      groupStart := 0;
    }

    /**
     * `processQueueObjectAt(pos)`: put the queue row at `pos - 1` with its
     * computed fields. When a computed field reads a queued row at the
     * position of a subject the input lacks, the row access throws
     * (`thrown`) and nothing is put.
     */
    method ProcessQueueObjectAt(pos: nat) returns (thrown: bool)
      requires Shaped(meta, queue) && 1 <= pos <= |queue|
      modifies this`output
      ensures thrown <==> exists j :: 0 <= j < |meta.fields| && ReadsMissingSubject(meta, queue, pos - 1, meta.fields[j])
      ensures thrown ==> output == old(output)
      ensures !thrown ==> output == old(output) + [QueueEmit(meta, queue, pos - 1)]
    {
      var index := pos - 1;
      var rows := queue;
      var values: seq<Option<V>> := [];
      var j := 0;
      while j < |meta.fields|
        invariant 0 <= j <= |meta.fields| && |values| == j
        invariant forall k :: 0 <= k < j ==> values[k] == QueueValue(meta, rows, index, meta.fields[k])
        invariant forall k :: 0 <= k < j ==> !ReadsMissingSubject(meta, rows, index, meta.fields[k])
      {
        var f := meta.fields[j];
        var fieldIndex := IndexOfValue(meta.rowMeta, f.subject);
        var rowIndex := 0;
        match f.aggregateType {
          case Lag => rowIndex := index - f.offset;
          case Lead => rowIndex := index + f.offset;
        }
        var v: Option<V>;
        if rowIndex < |rows| && rowIndex >= 0 {
          var singleRow := rows[rowIndex];
          if fieldIndex < 0 {
            assert ReadsMissingSubject(meta, rows, index, meta.fields[j]);
            return true;
          }
          v := singleRow[fieldIndex];
        } else {
          v := None;
        }
        values := values + [v];
        j := j + 1;
      }
      assert values == QueueValues(meta, rows, index);
      output := output + [rows[index] + values];
      thrown := false;
    }

    /** `processQueue`: once the queue is full, emit up to its middle row. */
    method ProcessQueue()
      requires Shaped(meta, queue) && meta.SubjectsFound()
      requires queueSize == QueueSize(windowSize) && |queue| <= queueSize
      modifies this`output, this`cursor
      ensures output == old(output) + Due(meta, queue, old(cursor), windowSize)
      ensures cursor == DueCursor(queue, old(cursor), windowSize)
    {
      if |queue| == queueSize {
        if cursor <= windowSize {
          ghost var c0 := cursor;
          while cursor <= windowSize
            invariant c0 <= cursor <= windowSize + 1
            invariant output == old(output) + QueueEmits(meta, queue, c0, cursor)
          {
            var thrown := ProcessQueueObjectAt(cursor + 1);
            cursor := cursor + 1;
          }
        } else {
          var thrown := ProcessQueueObjectAt(windowSize + 1);
        }
      }
    }

    /** `clearQueue`: emit every queue row from the cursor on. */
    method ClearQueue()
      requires Shaped(meta, queue) && meta.SubjectsFound() && cursor <= |queue|
      modifies this`output
      ensures output == old(output) + QueueEmits(meta, queue, cursor, |queue|)
    {
      var numberOfRows := |queue|;
      var i := cursor;
      while i < numberOfRows
        invariant cursor <= i <= numberOfRows
        invariant output == old(output) + QueueEmits(meta, queue, cursor, i)
      {
        var thrown := ProcessQueueObjectAt(i + 1);
        i := i + 1;
      }
    }

    /** `resetGroup`: start an empty queue. */
    method ResetGroup()
      modifies this`queue, this`cursor
      ensures queue == [] && cursor == 0
    {
      queue := [];
      cursor := 0;
    }

    /**
     * The set-up done on the first call of `processRow`: resolve the group
     * fields, failing with one error when one is missing, and size the window.
     */
    method Configure() returns (ok: bool)
      requires first
      modifies this`groupNrs, this`windowSize, this`queueSize, this`first, this`errors, this`stopped
      ensures ok <==> meta.GroupsFound()
      ensures ok ==> Configuration(meta, groupNrs, windowSize, queueSize) && !first && errors == old(errors) && stopped == old(stopped)
      ensures !ok ==> first && errors == 1 && stopped
    {
      var nrs: seq<int> := [];
      var i := 0;
      while i < |meta.groupFields|
        invariant 0 <= i <= |meta.groupFields| && |nrs| == i
        invariant forall k :: 0 <= k < i ==>
          nrs[k] == IndexOfValue(meta.rowMeta, meta.groupFields[k]) && meta.groupFields[k] in meta.rowMeta
      {
        var nr := IndexOfValue(meta.rowMeta, meta.groupFields[i]);
        if nr < 0 {
          errors := 1;
          stopped := true;
          return false;
        }
        nrs := nrs + [nr];
        i := i + 1;
      }
      groupNrs := nrs;

      var maxOffset := 0;
      var j := 0;
      while j < |meta.fields|
        invariant 0 <= j <= |meta.fields|
        invariant maxOffset == WindowSize(meta.fields[..j])
      {
        assert meta.fields[..j + 1][..j] == meta.fields[..j];
        if meta.fields[j].offset > maxOffset {
          maxOffset := meta.fields[j].offset;
        }
        j := j + 1;
      }
      assert meta.fields[..j] == meta.fields;
      windowSize := maxOffset;
      queueSize := maxOffset * 2 + 1;
      first := false;
      ok := true;
    }

    /**
     * Add the row just read at the end of the queue and drop rows from its
     * front until it holds at most `queueSize` rows.
     */
    method Enqueue(row: Row<V>, ghost n: nat)
      requires Shaped(meta, input)
      requires read == n + 1 <= |input| && row == input[n] && groupStart <= n
      requires IsSlice(queue, input, Max(groupStart, n - queueSize), n)
      modifies this`queue
      ensures IsSlice(queue, input, Max(groupStart, read - queueSize), read) && Shaped(meta, queue) && |queue| <= queueSize
    {
      queue := queue + [row];
      ghost var lo := Max(groupStart, n - queueSize);
      assert IsSlice(queue, input, lo, read);
      while |queue| > queueSize
        invariant groupStart <= lo <= read && IsSlice(queue, input, lo, read)
        invariant lo == Max(groupStart, read - queueSize) || lo == read - queueSize - 1
        decreases |queue|
      {
        queue := queue[1..];
        lo := lo + 1;
      }
      SliceShaped(meta, input, lo, read, queue);
    }

    /**
     * Add the row just read (input row n) to the queue of its open group,
     * remember it as the previous row and emit what the queue now allows.
     */
    method AddRow(row: Row<V>, ghost n: nat)
      requires Shaped(meta, input) && meta.SubjectsFound() && Configuration(meta, groupNrs, windowSize, queueSize)
      requires read == n + 1 <= |input| && row == input[n]
      requires OpenGroup(meta, input, groupStart, read) && QueueState(meta, input, groupStart, n, queue, cursor, output)
      modifies this`queue, this`previous, this`output, this`cursor
      ensures AfterRows(meta, input, read, groupStart, queue, cursor, output, previous)
    {
      ghost var q0, c0, out0 := queue, cursor, output;
      Enqueue(row, n);
      previous := Some(row);
      ProcessQueue();
      QueueAdvance(meta, input, groupStart, n, read, windowSize, queueSize, q0, queue, c0, out0, cursor, output);
    }

    /** The end of the input: flush the last group and finish. */
    method Finish(ghost n: nat)
      requires Shaped(meta, input) && meta.SubjectsFound() && Configuration(meta, groupNrs, windowSize, queueSize)
      requires n == |input| && AfterRows(meta, input, n, groupStart, queue, cursor, output, previous)
      modifies this`output
      ensures output == AnalyticOutput(meta, input)
    {
      FlushState(meta, input, groupStart, n, queue, cursor, output);
      ClearQueue();
      assert AnalyticOutput(meta, input)[..n] == AnalyticOutput(meta, input);
    }

    /**
     * The group check for the row just read, input row n:
     * when its group fields differ from the previous row's, flush the old
     * group and start a new queue. Either way the row's group is open
     * afterwards.
     */
    method CheckGroup(row: Row<V>, ghost n: nat)
      requires Shaped(meta, input) && meta.SubjectsFound() && Configuration(meta, groupNrs, windowSize, queueSize)
      requires read == n + 1 <= |input| && row == input[n]
      requires AfterRows(meta, input, n, groupStart, queue, cursor, output, previous)
      modifies this`queue, this`cursor, this`output, this`groupStart
      ensures OpenGroup(meta, input, groupStart, read) && QueueState(meta, input, groupStart, n, queue, cursor, output)
    {
      SameGroupKey(meta, input, n, previous);
      if !SameGroup(meta.normal, groupNrs, previous, row) {
        StartGroup(n);
      } else {
        ExtendGroup(meta, input, groupStart, n, read);
      }
    }

    /**
     * Input row n starts a new group: flush the old group
     * and start an empty queue.
     */
    method StartGroup(ghost n: nat)
      requires Shaped(meta, input) && meta.SubjectsFound() && Configuration(meta, groupNrs, windowSize, queueSize)
      requires read == n + 1 <= |input| && AfterRows(meta, input, n, groupStart, queue, cursor, output, previous)
      requires n > 0 ==> Key(meta, input[n - 1]) != Key(meta, input[n])
      modifies this`queue, this`cursor, this`output, this`groupStart
      ensures groupStart == n && QueueState(meta, input, groupStart, n, queue, cursor, output)
      ensures OpenGroup(meta, input, groupStart, read)
    {
      FlushState(meta, input, groupStart, n, queue, cursor, output);
      ClearQueue();
      ResetGroup();
      groupStart := n;
      FreshState(meta, input, groupStart, n, queue, cursor, output);
      NewGroup(meta, input, groupStart, read);
    }

    /**
     * `processRow`: read one row; on the first call resolve the group fields
     * and the window size; flush on a group change and at the end of input.
     */
    method ProcessRow() returns (more: bool)
      requires Valid() && !stopped && !outputDone
      modifies this
      ensures Valid()
      ensures more ==> !stopped && !outputDone && read == old(read) + 1
      ensures !more ==> stopped || outputDone
    {
      ghost var n := read;
      var r: Option<Row<V>>;
      if read < |input| {
        r := Some(input[read]);
        read := read + 1;
      } else {
        r := None;
      }

      if first {
        var ok := Configure();
        if !ok {
          return false;
        }
        groupStart := 0;
        FreshState(meta, input, groupStart, n, queue, cursor, output);
      }
      more := Handle(r, n);
    }

    /**
     * The rest of `processRow` once the step is configured: at the end of
     * input flush the last group and signal that output is done, otherwise
     * take in the row.
     */
    method Handle(r: Option<Row<V>>, ghost n: nat) returns (more: bool)
      requires Shaped(meta, input) && meta.SubjectsFound() && Configuration(meta, groupNrs, windowSize, queueSize)
      requires n <= |input| && !first && !stopped && !outputDone && errors == 0
      requires AfterRows(meta, input, n, groupStart, queue, cursor, output, previous)
      requires r.None? ==> read == n == |input|
      requires r.Some? ==> read == n + 1 <= |input| && r.value == input[n]
      modifies this`queue, this`cursor, this`output, this`previous, this`groupStart, this`outputDone
      ensures Valid()
      ensures more <==> r.Some?
      ensures outputDone <==> r.None?
    {
      if r.None? {
        Finish(n);
        outputDone := true;
        return false;
      }
      CheckGroup(r.value, n);
      AddRow(r.value, n);
      more := true;
    }

    /**
     * The engine's loop around the step: call `processRow` until it returns
     * false. With every group field present, the output is the reference
     * output; otherwise the step fails with one error and writes nothing.
     */
    method Run()
      requires Valid() && first && !stopped && !outputDone
      modifies this
      ensures Valid()
      ensures meta.GroupsFound() ==> outputDone && errors == 0 && output == AnalyticOutput(meta, input)
      ensures !meta.GroupsFound() ==> stopped && errors == 1 && output == []
    {
      var more := true;
      while more
        invariant Valid()
        invariant more <==> !stopped && !outputDone
        decreases if more then |input| - read + 1 else 0
      {
        more := ProcessRow();
      }
    }
  }
}
