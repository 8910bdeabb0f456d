/** The optimize engine: each AND branch of the OR condition is resolved column
    by column into sharding values; branches with a contradictory column are
    dropped, and the result is always false when a non-empty OR condition
    leaves no branch standing. */
module OptimizeEngine {
  import opened ShardingModel
  import opened ValueMerge

  /** A branch resolves to its per-column values, or is always false. */
  datatype BranchResult = Resolved(values: seq<ColumnValue>) | AlwaysFalse

  /** Whether some atom of the branch constrains column col. */
  predicate Mentions(branch: AndCondition, col: Column) {
    exists i :: 0 <= i < |branch| && branch[i].column == col
  }

  /** Every atom of the branch on column col is a BETWEEN. */
  predicate OnlyRanges(branch: AndCondition, col: Column) {
    forall c :: c in branch && c.column == col ==> c.operand.Between?
  }

  /** The atoms of the branch on column col, in branch order. */
  function Group(branch: AndCondition, col: Column): (g: seq<Condition>)
    ensures forall c :: c in g <==> c in branch && c.column == col
    ensures Mentions(branch, col) ==> |g| > 0
    decreases |branch|
  {
    if |branch| == 0 then []
    else
      var rest := Group(branch[1..], col);
      assert forall c :: c in branch <==> c == branch[0] || c in branch[1..];
      if branch[0].column == col then [branch[0]] + rest else rest
  }

  /** The distinct columns of the branch, in the order they are first seen. */
  function Columns(branch: AndCondition): (cols: seq<Column>)
    ensures forall i, j :: 0 <= i < j < |cols| ==> cols[i] != cols[j]
    ensures forall col :: col in cols <==> Mentions(branch, col)
    decreases |branch|
  {
    if |branch| == 0 then []
    else
      var init := branch[..|branch| - 1];
      var cols := Columns(init);
      var col := branch[|branch| - 1].column;
      assert forall c :: Mentions(init, c) ==> Mentions(branch, c) by {
        forall c | Mentions(init, c) ensures Mentions(branch, c) {
          var i :| 0 <= i < |init| && init[i].column == c;
          assert branch[i].column == c;
        }
      }
      assert forall c :: Mentions(branch, c) ==> Mentions(init, c) || c == col;
      if col in cols then cols else cols + [col]
  }

  /** The position of the first atom of the branch on column col, or |branch| if there is none. */
  function FirstIndex(branch: AndCondition, col: Column): (p: nat)
    ensures p <= |branch|
    ensures p < |branch| <==> Mentions(branch, col)
    ensures p < |branch| ==> branch[p].column == col
    ensures forall j :: 0 <= j < p ==> branch[j].column != col
    decreases |branch|
  {
    if |branch| == 0 then 0
    else if branch[0].column == col then 0
    else
      var p := 1 + FirstIndex(branch[1..], col);
      assert forall j :: 1 <= j < |branch| ==> branch[j] == branch[1..][j - 1];
      p
  }

  /** Columns lists the columns in the order of their first atom. */
  lemma {:induction false} ColumnsFirstSeenOrder(branch: AndCondition)
    ensures forall i, j :: 0 <= i < j < |Columns(branch)| ==>
      FirstIndex(branch, Columns(branch)[i]) < FirstIndex(branch, Columns(branch)[j])
    decreases |branch|
  {
    if |branch| > 0 {
      var n := |branch|;
      var init := branch[..n - 1];
      ColumnsFirstSeenOrder(init);
      var cols := Columns(branch);
      var initCols := Columns(init);
      forall c | Mentions(init, c)
        ensures FirstIndex(branch, c) == FirstIndex(init, c)
      {
        var p := FirstIndex(init, c);
        assert branch[p].column == c;
        assert forall j :: 0 <= j < p ==> branch[j] == init[j];
      }
      assert forall c :: c in initCols ==> Mentions(init, c);
      var last := branch[n - 1].column;
      if last !in initCols {
        assert !Mentions(init, last);
        assert forall j :: 0 <= j < n - 1 ==> branch[j] == init[j];
        assert FirstIndex(branch, last) == n - 1;
        assert cols == initCols + [last];
      }
    }
  }

  /** Resolves the columns cols of the branch in order, stopping at the first
      column whose atoms cannot all hold. */
  function ResolveColumns(branch: AndCondition, cols: seq<Column>): (r: BranchResult)
    requires forall col :: col in cols ==> Mentions(branch, col)
    ensures r.Resolved? ==> |r.values| == |cols|
    ensures r.Resolved? ==> forall i :: 0 <= i < |cols| ==>
      && r.values[i].column == cols[i]
      && NonEmpty(r.values[i].value)
      && (forall x :: Admits(r.values[i].value, x) <==> SatisfiesColumn(branch, cols[i], x))
      && (r.values[i].value.Range? <==> OnlyRanges(branch, cols[i]))
    ensures r.AlwaysFalse? <==> exists i :: 0 <= i < |cols| && ColumnUnsatisfiable(branch, cols[i])
    decreases |cols|
  {
    if |cols| == 0 then Resolved([])
    else
      var g := Group(branch, cols[0]);
      assert forall x :: SatisfiesAll(g, x) <==> SatisfiesColumn(branch, cols[0], x);
      MergeColumnContradictionIffUnsatisfiable(g);
      match MergeColumn(g)
      case Contradiction => AlwaysFalse
      case Ok(v) =>
        match ResolveColumns(branch, cols[1..])
        case AlwaysFalse => AlwaysFalse
        case Resolved(vs) => Resolved([ColumnValue(cols[0], v)] + vs)
  }

  /** Some column of cols is unsatisfiable exactly when some atom's column is,
      when cols lists exactly the columns the branch mentions. */
  lemma ColumnsUnsatisfiableAgree(branch: AndCondition, cols: seq<Column>)
    requires forall col :: col in cols <==> Mentions(branch, col)
    ensures (exists k :: 0 <= k < |cols| && ColumnUnsatisfiable(branch, cols[k]))
        <==> (exists i :: 0 <= i < |branch| && ColumnUnsatisfiable(branch, branch[i].column))
  {
    if exists k :: 0 <= k < |cols| && ColumnUnsatisfiable(branch, cols[k]) {
      var k :| 0 <= k < |cols| && ColumnUnsatisfiable(branch, cols[k]);
      assert Mentions(branch, cols[k]);
      var i :| 0 <= i < |branch| && branch[i].column == cols[k];
      assert ColumnUnsatisfiable(branch, branch[i].column);
    }
    if exists i :: 0 <= i < |branch| && ColumnUnsatisfiable(branch, branch[i].column) {
      var i :| 0 <= i < |branch| && ColumnUnsatisfiable(branch, branch[i].column);
      assert Mentions(branch, branch[i].column);
      assert branch[i].column in cols;
      var k :| 0 <= k < |cols| && cols[k] == branch[i].column;
      assert ColumnUnsatisfiable(branch, cols[k]);
    }
  }

  /** Resolves one AND branch: one value per column it mentions, in first-seen
      order, each admitting exactly the values every atom on that column admits;
      always false exactly when some column's atoms cannot all hold. */
  function ResolveBranch(branch: AndCondition): (r: BranchResult)
    ensures r.Resolved? ==> |r.values| == |Columns(branch)|
    ensures r.Resolved? ==> forall i :: 0 <= i < |r.values| ==>
      && r.values[i].column == Columns(branch)[i]
      && NonEmpty(r.values[i].value)
      && (forall x :: Admits(r.values[i].value, x) <==> SatisfiesColumn(branch, r.values[i].column, x))
      && (r.values[i].value.Range? <==> OnlyRanges(branch, r.values[i].column))
    ensures r.AlwaysFalse? <==> exists i :: 0 <= i < |branch| && ColumnUnsatisfiable(branch, branch[i].column)
  {
    var cols := Columns(branch);
    var r := ResolveColumns(branch, cols);
    ColumnsUnsatisfiableAgree(branch, cols);
    r
  }

  /** The sharding conditions of the resolved branches from position start
      on, each tagged with its branch position, in branch order. */
  function CollectFrom(results: seq<BranchResult>, start: nat): (r: seq<ShardingCondition>)
    requires start <= |results|
    ensures forall k :: 0 <= k < |r| ==>
      start <= r[k].branch < |results| && results[r[k].branch] == Resolved(r[k].values)
    ensures forall k, l :: 0 <= k < l < |r| ==> r[k].branch < r[l].branch
    ensures |r| <= |results| - start
    decreases |results| - start
  {
    if start == |results| then []
    else
      var rest := CollectFrom(results, start + 1);
      match results[start]
      case AlwaysFalse => rest
      case Resolved(vs) => [ShardingCondition(start, vs)] + rest
  }

  /** No resolved branch is dropped. */
  lemma {:induction false} CollectFromComplete(results: seq<BranchResult>, start: nat, i: nat)
    requires start <= i < |results| && results[i].Resolved?
    ensures exists k :: 0 <= k < |CollectFrom(results, start)| && CollectFrom(results, start)[k].branch == i
    decreases i - start
  {
    var r := CollectFrom(results, start);
    if i == start {
      assert r[0].branch == i;
    } else {
      CollectFromComplete(results, start + 1, i);
      var rest := CollectFrom(results, start + 1);
      var k :| 0 <= k < |rest| && rest[k].branch == i;
      if results[start].Resolved? {
        assert r[k + 1].branch == i;
      } else {
        assert r[k].branch == i;
      }
    }
  }

  /** Nothing is collected exactly when every branch from start on is always false. */
  lemma {:induction false} CollectFromEmpty(results: seq<BranchResult>, start: nat)
    requires start <= |results|
    ensures |CollectFrom(results, start)| == 0 <==> forall i :: start <= i < |results| ==> results[i].AlwaysFalse?
  {
    if exists i :: start <= i < |results| && results[i].Resolved? {
      var i :| start <= i < |results| && results[i].Resolved?;
      CollectFromComplete(results, start, i);
    }
    var r := CollectFrom(results, start);
    if |r| > 0 {
      assert results[r[0].branch].Resolved?;
    }
  }

  /** Optimizes an OR condition into sharding conditions. */
  function Optimize(or: OrCondition): (r: ShardingConditions)
    // every emitted condition is a resolved branch, in input order
    ensures forall k :: 0 <= k < |r.conditions| ==>
      r.conditions[k].branch < |or| && ResolveBranch(or[r.conditions[k].branch]) == Resolved(r.conditions[k].values)
    ensures forall k, l :: 0 <= k < l < |r.conditions| ==> r.conditions[k].branch < r.conditions[l].branch
    // and every resolvable branch is emitted
    ensures forall i :: 0 <= i < |or| && ResolveBranch(or[i]).Resolved? ==>
      exists k :: 0 <= k < |r.conditions| && r.conditions[k].branch == i
    // always false iff there is a branch and every branch is always false
    ensures r.alwaysFalse <==> |or| > 0 && forall i :: 0 <= i < |or| ==> ResolveBranch(or[i]).AlwaysFalse?
    ensures r.alwaysFalse <==> |or| > 0 && |r.conditions| == 0
    ensures |r.conditions| <= |or|
    ensures |or| == 0 ==> r == ShardingConditions([], false)
  {
    var results := seq(|or|, i requires 0 <= i < |or| => ResolveBranch(or[i]));
    var conditions := CollectFrom(results, 0);
    assert forall i :: 0 <= i < |or| && ResolveBranch(or[i]).Resolved? ==>
      exists k :: 0 <= k < |conditions| && conditions[k].branch == i by {
      forall i | 0 <= i < |or| && ResolveBranch(or[i]).Resolved?
        ensures exists k :: 0 <= k < |conditions| && conditions[k].branch == i
      {
        CollectFromComplete(results, 0, i);
      }
    }
    CollectFromEmpty(results, 0);
    ShardingConditions(conditions, |or| > 0 && |conditions| == 0)
  }
}
