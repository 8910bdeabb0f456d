/** Data model of the sharding-condition optimizer: predicate atoms grouped into
    AND branches of a top-level OR, the per-column sharding values the optimizer
    produces, and the meaning of each as a set of admitted integer values. */
module ShardingModel {

  /** A sharding column, identified by its name and owning table. */
  datatype Column = Column(name: string, tableName: string)

  /** The operand of one predicate atom: an IN list (an equality is the
      one-element list) or the two inclusive bounds of a BETWEEN. */
  datatype Operand = In(values: seq<int>) | Between(lower: int, upper: int)

  /** `column = v` is the one-element IN list. */
  function Equal(v: int): Operand {
    In([v])
  }

  datatype Condition = Condition(column: Column, operand: Operand)

  /** One conjunctive branch, and the disjunction of branches. */
  type AndCondition = seq<Condition>
  type OrCondition = seq<AndCondition>

  /** The value domain a column is restricted to: a set of values or an inclusive range. */
  datatype ShardingValue = List(values: set<int>) | Range(lower: int, upper: int)

  /** The outcome of merging domains: a value, or the proof that none is possible. */
  datatype Merged = Ok(value: ShardingValue) | Contradiction

  datatype ColumnValue = ColumnValue(column: Column, value: ShardingValue)

  /** The resolved values of one satisfiable branch, with that branch's position in the input. */
  datatype ShardingCondition = ShardingCondition(branch: nat, values: seq<ColumnValue>)

  datatype ShardingConditions = ShardingConditions(conditions: seq<ShardingCondition>, alwaysFalse: bool)

  /** Whether value x satisfies a predicate atom. */
  predicate Satisfies(op: Operand, x: int) {
    match op
    case In(vs) => x in vs
    case Between(l, u) => l <= x <= u
  }

  /** Whether value x lies in a sharding value's domain. */
  predicate Admits(v: ShardingValue, x: int) {
    match v
    case List(s) => x in s
    case Range(l, u) => l <= x <= u
  }

  predicate Allows(m: Merged, x: int) {
    m.Ok? && Admits(m.value, x)
  }

  /** A domain the optimizer emits is never empty. */
  predicate NonEmpty(v: ShardingValue) {
    match v
    case List(s) => s != {}
    case Range(l, u) => l <= u
  }

  /** x satisfies every atom in cs. */
  predicate SatisfiesAll(cs: seq<Condition>, x: int) {
    forall c :: c in cs ==> Satisfies(c.operand, x)
  }

  /** x satisfies every atom of the branch that constrains column col. */
  predicate SatisfiesColumn(branch: AndCondition, col: Column, x: int) {
    forall c :: c in branch && c.column == col ==> Satisfies(c.operand, x)
  }

  /** No value satisfies all the atoms of the branch on column col. */
  ghost predicate ColumnUnsatisfiable(branch: AndCondition, col: Column) {
    forall x :: !SatisfiesColumn(branch, col, x)
  }

  lemma SetWitness(s: set<int>)
    requires s != {}
    ensures exists x :: x in s
  {
    if forall x :: x !in s {
      assert false;
    }
  }

  lemma NonEmptyHasWitness(v: ShardingValue)
    requires NonEmpty(v)
    ensures exists x :: Admits(v, x)
  {
    if v.List? {
      SetWitness(v.values);
      var x :| x in v.values;
      assert Admits(v, x);
    } else {
      assert Admits(v, v.lower);
    }
  }
}
