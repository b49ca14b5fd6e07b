/**
 * The self-contained rules of the QC report (bin/workflow_glue/report_qc.py):
 * read N50, moving a column of a table, the mapped/unmapped status of a
 * flagstat row and the coverage PASS/FAIL label. Tables are modelled by
 * their column names only.
 */
module ReportQc {
  import opened Wrappers

  // ---------------------------------------------------------------------
  // Read N50

  function Sum(s: seq<nat>): nat
  {
    if s == [] then 0 else s[0] + Sum(s[1..])
  }

  /** Each element is at least the next one. */
  predicate SortedDesc(s: seq<nat>)
  {
    forall i :: 0 < i < |s| ==> s[i - 1] >= s[i]
  }

  lemma {:induction false} SortedDescBetween(s: seq<nat>, i: nat, j: nat)
    requires SortedDesc(s) && i <= j < |s|
    ensures s[i] >= s[j]
    decreases j - i
  {
    if i < j {
      SortedDescBetween(s, i + 1, j);
    }
  }

  /** `x` inserted into a descending sequence before the first element smaller than it. */
  function InsertDesc(x: nat, s: seq<nat>): (r: seq<nat>)
    ensures |r| == |s| + 1 && (r[0] == x || (|s| > 0 && r[0] == s[0]))
    ensures multiset(r) == multiset(s) + multiset{x}
    ensures Sum(r) == x + Sum(s)
  {
    if s == [] || x >= s[0] then [x] + s
    else
      assert s == [s[0]] + s[1..];
      [s[0]] + InsertDesc(x, s[1..])
  }

  /** Inserting into a descending sequence keeps it descending. */
  lemma {:induction false} InsertDescSorted(x: nat, s: seq<nat>)
    requires SortedDesc(s)
    ensures SortedDesc(InsertDesc(x, s))
  {
    if s != [] && x < s[0] {
      InsertDescSorted(x, s[1..]);
      var t := InsertDesc(x, s[1..]);
      assert InsertDesc(x, s) == [s[0]] + t;
    }
  }

  /** The read lengths in descending order, as `np.sort(lengths)[::-1]` gives them. */
  function SortDesc(s: seq<nat>): (r: seq<nat>)
    ensures SortedDesc(r)
    ensures multiset(r) == multiset(s)
    ensures Sum(r) == Sum(s)
  {
    if s == [] then []
    else
      assert s == [s[0]] + s[1..];
      InsertDescSorted(s[0], SortDesc(s[1..]));
      InsertDesc(s[0], SortDesc(s[1..]))
  }

  /**
   * Whether sorted position `i` is selected: its suffix sum exceeds half the
   * total (`sumlen > total / 2` with true division, stated without division).
   */
  predicate Qualifies(sorted: seq<nat>, total: nat, i: int)
  {
    0 <= i < |sorted| && 2 * Sum(sorted[i..]) > total
  }

  /** `v` is the least element of `sorted` at a selected position. */
  predicate LeastSelected(sorted: seq<nat>, total: nat, v: nat)
  {
    (exists i :: 0 <= i < |sorted| && Qualifies(sorted, total, i) && sorted[i] == v) &&
    forall i :: 0 <= i < |sorted| && Qualifies(sorted, total, i) ==> v <= sorted[i]
  }

  /** `v` is the N50 of `lengths`: the least sorted length at a selected position. */
  predicate IsN50(lengths: seq<nat>, v: nat)
    ensures IsN50(lengths, v) ==> v in multiset(lengths)
  {
    LeastSelected(SortDesc(lengths), Sum(lengths), v)
  }

  /**
   * The N50 of the read lengths; `None` where taking the minimum of an empty
   * selection raises in report_qc.py.
   */
  method ComputeN50(lengths: seq<nat>) returns (n50: Option<nat>)
    ensures n50.None? ==> forall i :: !Qualifies(SortDesc(lengths), Sum(lengths), i)
    ensures n50.Some? ==> IsN50(lengths, n50.value)
  {
    var sorted := SortDesc(lengths);
    n50 := LeastSelectedLength(sorted, Sum(lengths));
  }

  /**
   * The suffix sums of `sorted` in an array, then the least length at a
   * position whose suffix sum exceeds half of `total`.
   */
  method LeastSelectedLength(sorted: seq<nat>, total: nat) returns (n50: Option<nat>)
    ensures n50.None? ==> forall i :: !Qualifies(sorted, total, i)
    ensures n50.Some? ==> LeastSelected(sorted, total, n50.value)
  {
    var n := |sorted|;
    var sumlen := new int[n];
    for i := 0 to n
      invariant forall k {:trigger sumlen[k]} :: 0 <= k < i ==> sumlen[k] == Sum(sorted[k..])
    {
      sumlen[i] := Sum(sorted[i..]);
    }
    n50 := None;
    ghost var best := 0;
    for i := 0 to n
      invariant n50.None? ==> forall k :: 0 <= k < i ==> 2 * sumlen[k] <= total
      invariant n50.Some? ==> best < i && 2 * sumlen[best] > total && sorted[best] == n50.value
      invariant n50.Some? ==> forall k :: 0 <= k < i && 2 * sumlen[k] > total ==> n50.value <= sorted[k]
    {
      if 2 * sumlen[i] > total && (n50.None? || sorted[i] < n50.value) {
        n50 := Some(sorted[i]);
        best := i;
      }
    }
    forall k | 0 <= k < n
      ensures (2 * sumlen[k] > total) == Qualifies(sorted, total, k)
    {
    }
  }

  lemma {:induction false} SuffixSumStep(s: seq<nat>, i: nat)
    requires i < |s|
    ensures Sum(s[i..]) == s[i] + Sum(s[i + 1..])
  {
    assert s[i..][1..] == s[i + 1..];
  }

  /** Suffix sums of read lengths never increase along the sequence. */
  lemma {:induction false} SuffixSumNonIncreasing(s: seq<nat>, i: nat, j: nat)
    requires i <= j <= |s|
    ensures Sum(s[j..]) <= Sum(s[i..])
    decreases j - i
  {
    if i < j {
      SuffixSumStep(s, i);
      SuffixSumNonIncreasing(s, i + 1, j);
    }
  }

  /** The first suffix sum is the whole total, so position 0 is selected when the total is positive. */
  lemma FirstPositionQualifies(lengths: seq<nat>)
    requires Sum(lengths) > 0
    ensures Qualifies(SortDesc(lengths), Sum(lengths), 0)
  {
    var sorted := SortDesc(lengths);
    assert sorted[0..] == sorted;
  }

  /** Selected positions form a prefix of the sorted lengths. */
  lemma QualifyingPrefix(sorted: seq<nat>, total: nat, i: nat, j: nat)
    requires j <= i && Qualifies(sorted, total, i)
    ensures Qualifies(sorted, total, j)
  {
    SuffixSumNonIncreasing(sorted, j, i);
  }

  /** The N50 is undefined exactly when the lengths sum to zero (an empty input among them). */
  lemma N50DefinedIff(lengths: seq<nat>)
    ensures (exists i :: Qualifies(SortDesc(lengths), Sum(lengths), i)) <==> Sum(lengths) > 0
  {
    var sorted := SortDesc(lengths);
    if Sum(lengths) > 0 {
      FirstPositionQualifies(lengths);
      assert Qualifies(SortDesc(lengths), Sum(lengths), 0);
      assert exists i :: Qualifies(SortDesc(lengths), Sum(lengths), i);
    } else {
      forall i | 0 <= i < |sorted|
        ensures !Qualifies(sorted, Sum(lengths), i)
      {
        SuffixSumNonIncreasing(sorted, 0, i);
        assert sorted[0..] == sorted;
      }
    }
  }

  /** The last selected position at or after a selected position `i`. */
  lemma {:induction false} LastQualifying(sorted: seq<nat>, total: nat, i: nat) returns (last: nat)
    requires Qualifies(sorted, total, i)
    ensures i <= last && Qualifies(sorted, total, last) && !Qualifies(sorted, total, last + 1)
    decreases |sorted| - i
  {
    if Qualifies(sorted, total, i + 1) {
      last := LastQualifying(sorted, total, i + 1);
    } else {
      last := i;
    }
  }

  /**
   * The N50 is one of the input lengths, and it is the length at the last
   * selected position of the sorted order.
   */
  lemma N50IsLastSelected(lengths: seq<nat>, v: nat)
    requires IsN50(lengths, v)
    ensures v in multiset(lengths)
    ensures exists i :: Qualifies(SortDesc(lengths), Sum(lengths), i) &&
              !Qualifies(SortDesc(lengths), Sum(lengths), i + 1) && SortDesc(lengths)[i] == v
  {
    var sorted := SortDesc(lengths);
    var total := Sum(lengths);
    var i :| 0 <= i < |sorted| && Qualifies(sorted, total, i) && sorted[i] == v;
    var last := LastQualifying(sorted, total, i);
    SortedDescBetween(sorted, i, last);
    assert v <= sorted[last];
    assert sorted[last] in multiset(sorted);
  }

  // ---------------------------------------------------------------------
  // Moving a column

  /** Why a column operation raises: the column is missing, or the position is out of range. */
  datatype FrameError = KeyError(column: string) | IndexError(pos: nat)

  predicate Distinct(cols: seq<string>)
  {
    forall i, j :: 0 <= i < j < |cols| ==> cols[i] != cols[j]
  }

  /** The columns other than `name`, in their order. */
  function Without(cols: seq<string>, name: string): (r: seq<string>)
    ensures name !in r
    ensures multiset(r) == multiset(cols)[name := 0]
  {
    if cols == [] then []
    else
      assert cols == [cols[0]] + cols[1..];
      if cols[0] == name then Without(cols[1..], name) else [cols[0]] + Without(cols[1..], name)
  }

  lemma {:induction false} WithoutConcat(a: seq<string>, b: seq<string>, name: string)
    ensures Without(a + b, name) == Without(a, name) + Without(b, name)
    decreases |a|
  {
    if a == [] {
      assert a + b == b;
    } else {
      assert (a + b)[0] == a[0];
      assert (a + b)[1..] == a[1..] + b;
      WithoutConcat(a[1..], b, name);
    }
  }

  lemma WithoutDropsOne(a: seq<string>, b: seq<string>, name: string)
    ensures Without(a + [name] + b, name) == Without(a + b, name)
  {
    var wa := Without(a, name);
    calc {
      Without(a + [name] + b, name);
    == { WithoutConcat(a + [name], b, name); }
      Without(a + [name], name) + Without(b, name);
    == { WithoutConcat(a, [name], name);
         assert Without([name], name) == [] by { assert [name][1..] == []; }
         assert wa + [] == wa; }
      wa + Without(b, name);
    == { WithoutConcat(a, b, name); }
      Without(a + b, name);
    }
  }

  function IndexOf(cols: seq<string>, name: string): (i: nat)
    requires name in cols
    ensures i < |cols| && cols[i] == name
    ensures forall j :: 0 <= j < i ==> cols[j] != name
  {
    if cols[0] == name then 0 else 1 + IndexOf(cols[1..], name)
  }

  /**
   * The columns after `name` is popped and inserted again at `pos`. The move
   * succeeds exactly when the column exists and the position is in range;
   * otherwise a missing column raises a key error before the position is
   * looked at.
   */
  function MoveCol(cols: seq<string>, name: string, pos: nat): (r: Result<seq<string>, FrameError>)
    requires Distinct(cols)
    ensures r.Ok? <==> name in cols && pos < |cols|
    ensures r.Err? ==> r.error == if name in cols then IndexError(pos) else KeyError(name)
  {
    if name !in cols then Err(KeyError(name))
    else
      var i := IndexOf(cols, name);
      var rest := cols[..i] + cols[i + 1..];
      if pos > |rest| then Err(IndexError(pos))
      else Ok(rest[..pos] + [name] + rest[pos..])
  }

  /**
   * After a successful move the column sits at `pos`, no column is gained
   * or lost, the other columns keep their order and all stay distinct.
   */
  lemma MoveColSpec(cols: seq<string>, name: string, pos: nat)
    requires Distinct(cols) && name in cols && pos < |cols|
    ensures MoveCol(cols, name, pos).Ok?
    ensures var r := MoveCol(cols, name, pos).value;
            |r| == |cols| && r[pos] == name && multiset(r) == multiset(cols) &&
            Without(r, name) == Without(cols, name) && Distinct(r)
  {
    var i := IndexOf(cols, name);
    var rest := cols[..i] + cols[i + 1..];
    var r := rest[..pos] + [name] + rest[pos..];
    assert MoveCol(cols, name, pos) == Ok(r);
    assert cols == cols[..i] + [name] + cols[i + 1..];
    assert rest == rest[..pos] + rest[pos..];
    WithoutDropsOne(cols[..i], cols[i + 1..], name);
    WithoutDropsOne(rest[..pos], rest[pos..], name);
    assert multiset(r) == multiset(rest) + multiset{name};
    assert multiset(cols) == multiset(rest) + multiset{name};
    DistinctAfterMove(cols, i, pos);
  }

  /** Popping column `i` leaves distinct columns, none of them named as the popped one. */
  lemma DistinctAfterPop(cols: seq<string>, i: nat)
    requires Distinct(cols) && i < |cols|
    ensures Distinct(cols[..i] + cols[i + 1..]) && cols[i] !in cols[..i] + cols[i + 1..]
  {
    var rest := cols[..i] + cols[i + 1..];
    forall a | 0 <= a < |rest|
      ensures rest[a] == cols[if a < i then a else a + 1]
    {
    }
  }

  /** Inserting a new name anywhere keeps the columns distinct. */
  lemma DistinctAfterInsert(rest: seq<string>, name: string, pos: nat)
    requires Distinct(rest) && name !in rest && pos <= |rest|
    ensures Distinct(rest[..pos] + [name] + rest[pos..])
  {
    var r := rest[..pos] + [name] + rest[pos..];
    forall a | 0 <= a < |r| && a != pos
      ensures r[a] == rest[if a < pos then a else a - 1]
    {
    }
  }

  /** Removing one column and putting it back elsewhere keeps the names distinct. */
  lemma DistinctAfterMove(cols: seq<string>, i: nat, pos: nat)
    requires Distinct(cols) && i < |cols| && pos < |cols|
    ensures var rest := cols[..i] + cols[i + 1..];
            Distinct(rest[..pos] + [cols[i]] + rest[pos..])
  {
    DistinctAfterPop(cols, i);
    DistinctAfterInsert(cols[..i] + cols[i + 1..], cols[i], pos);
  }

  // ---------------------------------------------------------------------
  // Flagstat status and coverage threshold

  datatype Status = Mapped | Unmapped

  /** `np.select`: the choice of the first true condition, or the default when none holds. */
  function Select<T>(conditions: seq<bool>, choices: seq<T>, default: T): (r: T)
    requires |conditions| == |choices|
    ensures forall i :: (0 <= i < |conditions| && conditions[i] &&
                         (forall j :: 0 <= j < i ==> !conditions[j])) ==> r == choices[i]
    ensures (forall i :: 0 <= i < |conditions| ==> !conditions[i]) ==> r == default
  {
    if |conditions| == 0 then default
    else if conditions[0] then choices[0]
    else Select(conditions[1..], choices[1..], default)
  }

  /** The status of a flagstat row with reference name `ref` (`*` marks unaligned reads). */
  function RowStatus(ref: string): (s: Status)
    ensures s == Unmapped <==> ref == "*"
  {
    var conditions, choices := [ref == "*", ref != "*"], [Unmapped, Mapped];
    var s := Select(conditions, choices, Unmapped);
    assert ref == "*" ==> s == Unmapped;
    assert ref != "*" ==> s == choices[1];
    s
  }

  datatype Verdict = Pass | Fail

  /** The coverage label of a sample: PASS only above the threshold. */
  function CoverageLabel(meanCoverage: real, threshold: real): (r: Verdict)
    ensures meanCoverage == threshold ==> r == Fail
  {
    if meanCoverage > threshold then Pass else Fail
  }

  /**
   * Raising a passing coverage or lowering the threshold cannot make it
   * fail, and PASS means strictly above the threshold.
   */
  lemma CoverageLabelMonotone(cov: real, thr: real, cov': real, thr': real)
    ensures CoverageLabel(cov, thr) == Pass && cov <= cov' && thr' <= thr ==> CoverageLabel(cov', thr') == Pass
    ensures CoverageLabel(cov, thr) == Pass <==> cov > thr
  {
  }
}
