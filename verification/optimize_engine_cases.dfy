/** The six optimizer scenarios of the engine's unit test, each on one branch
    holding two atoms on the column `test`.`test`. */
module OptimizeEngineCases {
  import opened ShardingModel
  import opened OptimizeEngine

  const TestColumn := Column("test", "test")

  /** One OR condition with a single branch of two atoms on the test column. */
  function TwoAtoms(first: Operand, second: Operand): OrCondition {
    [[Condition(TestColumn, first), Condition(TestColumn, second)]]
  }

  /** A satisfiable two-atom branch yields one sharding condition, at branch 0,
      holding one value for the test column that admits exactly the values both
      atoms admit; it is a range only when both atoms are. */
  lemma {:induction false} SatisfiableTwoAtoms(first: Operand, second: Operand, w: int)
    requires Satisfies(first, w) && Satisfies(second, w)
    ensures var r := Optimize(TwoAtoms(first, second));
      && !r.alwaysFalse
      && |r.conditions| == 1
      && r.conditions[0].branch == 0
      && |r.conditions[0].values| == 1
      && r.conditions[0].values[0].column == TestColumn
      && (forall x :: Admits(r.conditions[0].values[0].value, x) <==> Satisfies(first, x) && Satisfies(second, x))
      && (r.conditions[0].values[0].value.Range? <==> first.Between? && second.Between?)
  {
    var or := TwoAtoms(first, second);
    var res := ResolveBranch(or[0]);
    TwoAtomsResolve(first, second, w);
    var r := Optimize(or);
    assert |r.conditions| > 0;
    assert r.conditions[0].values == res.values;
  }

  /** The one branch of a satisfiable two-atom condition resolves to one value
      for the test column, admitting exactly what both atoms admit. */
  lemma {:induction false} TwoAtomsResolve(first: Operand, second: Operand, w: int)
    requires Satisfies(first, w) && Satisfies(second, w)
    ensures var res := ResolveBranch(TwoAtoms(first, second)[0]);
      && res.Resolved?
      && |res.values| == 1
      && res.values[0].column == TestColumn
      && (forall x :: Admits(res.values[0].value, x) <==> Satisfies(first, x) && Satisfies(second, x))
      && (res.values[0].value.Range? <==> first.Between? && second.Between?)
  {
    var branch := TwoAtoms(first, second)[0];
    assert forall c :: c in branch <==> c == branch[0] || c == branch[1];
    assert SatisfiesColumn(branch, TestColumn, w);
    assert !ColumnUnsatisfiable(branch, TestColumn);
    assert branch[..1] == [branch[0]] && [branch[0]][..0] == [];
    assert Columns([branch[0]]) == [TestColumn];
    assert Columns(branch) == [TestColumn];
  }

  /** {1, 2} and = 3 have no common value. */
  lemma AlwaysFalseListConditions()
    ensures Optimize(TwoAtoms(In([1, 2]), Equal(3))).alwaysFalse
  {
  }

  /** [1, 2] and [3, 4] do not overlap. */
  lemma AlwaysFalseRangeConditions()
    ensures Optimize(TwoAtoms(Between(1, 2), Between(3, 4))).alwaysFalse
  {
  }

  /** No value of {1, 2} lies in [3, 4]. */
  lemma AlwaysFalseListAndRangeConditions()
    ensures Optimize(TwoAtoms(In([1, 2]), Between(3, 4))).alwaysFalse
  {
  }

  /** {1, 2} and = 1 leave the one-element list {1}. */
  lemma ListConditions()
    ensures var r := Optimize(TwoAtoms(In([1, 2]), Equal(1)));
      && !r.alwaysFalse
      && |r.conditions| == 1
      && r.conditions[0].branch == 0
      && r.conditions[0].values == [ColumnValue(TestColumn, List({1}))]
  {
    SatisfiableTwoAtoms(In([1, 2]), Equal(1), 1);
    var v := Optimize(TwoAtoms(In([1, 2]), Equal(1))).conditions[0].values[0].value;
    assert v.List?;
    assert forall x :: Admits(v, x) <==> x == 1;
    forall x ensures x in v.values <==> x == 1 {
      assert Admits(v, x) <==> x in v.values;
    }
    assert v.values == {1};
  }

  /** [1, 2] and [1, 3] meet at [1, 2]. */
  lemma RangeConditions()
    ensures var r := Optimize(TwoAtoms(Between(1, 2), Between(1, 3)));
      && !r.alwaysFalse
      && |r.conditions| == 1
      && r.conditions[0].values == [ColumnValue(TestColumn, Range(1, 2))]
  {
    SatisfiableTwoAtoms(Between(1, 2), Between(1, 3), 1);
    var v := Optimize(TwoAtoms(Between(1, 2), Between(1, 3))).conditions[0].values[0].value;
    assert Admits(v, 1) && Admits(v, 2) && !Admits(v, 0) && !Admits(v, 3);
  }

  /** {1, 2} inside [1, 2] stays the list {1, 2}. */
  lemma ListConditionsAndRangeConditions()
    ensures var r := Optimize(TwoAtoms(In([1, 2]), Between(1, 2)));
      && !r.alwaysFalse
      && |r.conditions| == 1
      && r.conditions[0].values == [ColumnValue(TestColumn, List({1, 2}))]
  {
    SatisfiableTwoAtoms(In([1, 2]), Between(1, 2), 1);
    var v := Optimize(TwoAtoms(In([1, 2]), Between(1, 2))).conditions[0].values[0].value;
    assert v.List?;
    assert forall x :: Admits(v, x) <==> x == 1 || x == 2;
    forall x ensures x in v.values <==> x == 1 || x == 2 {
      assert Admits(v, x) <==> x in v.values;
    }
    assert v.values == {1, 2};
  }

  /** IN (1, 5), then BETWEEN 4 AND 6, then = 1: the range prunes the list to
      {5}, so the later equality leaves nothing. Keeping the list unpruned
      after the range would wrongly let 1 through. */
  lemma PrunedListMeetsLaterEquality()
    ensures Optimize([[Condition(TestColumn, In([1, 5])), Condition(TestColumn, Between(4, 6)),
                       Condition(TestColumn, Equal(1))]]).alwaysFalse
  {
    var branch := [Condition(TestColumn, In([1, 5])), Condition(TestColumn, Between(4, 6)),
                   Condition(TestColumn, Equal(1))];
    forall x
      ensures !SatisfiesColumn(branch, TestColumn, x)
    {
      assert branch[1] in branch && branch[2] in branch;
    }
    assert ColumnUnsatisfiable(branch, TestColumn) && branch[0].column == TestColumn;
  }
}
