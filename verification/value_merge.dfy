/** The column value merger: every atom on one column within a branch is turned
    into a domain and folded, left to right, into a single sharding value, or
    into a contradiction as soon as the domains cannot overlap.

    List and List intersect; Range and Range meet at [max lower, min upper];
    List and Range keep the list values that lie inside the range. */
module ValueMerge {
  import opened ShardingModel

  function Max(a: int, b: int): int { if a < b then b else a }
  function Min(a: int, b: int): int { if a < b then a else b }

  /** The list values that lie in the inclusive range [l, u]. */
  function Prune(s: set<int>, l: int, u: int): (p: set<int>)
    ensures p <= s
    ensures forall x :: x in p <==> x in s && l <= x <= u
  {
    set x | x in s && l <= x <= u
  }

  /** An empty list is a contradiction, not a domain. */
  function ListOrContradiction(s: set<int>): (m: Merged)
    ensures forall x :: Allows(m, x) <==> x in s
    ensures m.Contradiction? <==> s == {}
    ensures m.Ok? ==> m.value == List(s)
  {
    if s == {} then Contradiction else Ok(List(s))
  }

  /** The domain of a single atom; an empty IN list, or a BETWEEN whose lower
      bound exceeds its upper bound, admits nothing. */
  function DomainOf(op: Operand): (m: Merged)
    ensures forall x :: Allows(m, x) <==> Satisfies(op, x)
    ensures m.Ok? ==> NonEmpty(m.value)
    ensures m.Ok? ==> (m.value.Range? <==> op.Between?)
    ensures m.Ok? && op.In? ==> m.value.values == set v | v in op.values
  {
    match op
    case In(vs) => ListOrContradiction(set v | v in vs)
    case Between(l, u) => if l <= u then Ok(Range(l, u)) else Contradiction
  }

  /** Merges two domains of the same column. */
  function MergeValues(a: ShardingValue, b: ShardingValue): (m: Merged)
    // exact: the merged domain admits precisely the values both inputs admit
    ensures forall x :: Allows(m, x) <==> Admits(a, x) && Admits(b, x)
    ensures m.Ok? ==> NonEmpty(m.value)
    // a list anywhere keeps the result a list; two ranges give a range
    ensures m.Ok? ==> (m.value.Range? <==> a.Range? && b.Range?)
    // never widens
    ensures m.Ok? && a.List? ==> m.value.values <= a.values
    ensures m.Ok? && b.List? ==> m.value.values <= b.values
    ensures m.Ok? && a.Range? && b.Range? ==>
      a.lower <= m.value.lower && b.lower <= m.value.lower &&
      m.value.upper <= a.upper && m.value.upper <= b.upper
  {
    match (a, b)
    case (List(s), List(t)) => ListOrContradiction(s * t)
    case (Range(l1, u1), Range(l2, u2)) =>
      var l := Max(l1, l2);
      var u := Min(u1, u2);
      if l <= u then Ok(Range(l, u)) else Contradiction
    case (List(s), Range(l, u)) => ListOrContradiction(Prune(s, l, u))
    case (Range(l, u), List(s)) => ListOrContradiction(Prune(s, l, u))
  }

  /** Folds the atoms cs, in order, into the running value acc; stops at the
      first contradiction. */
  function MergeFrom(acc: ShardingValue, cs: seq<Condition>): (m: Merged)
    requires NonEmpty(acc)
    ensures forall x :: Allows(m, x) <==> Admits(acc, x) && SatisfiesAll(cs, x)
    ensures m.Ok? ==> NonEmpty(m.value)
    ensures m.Ok? ==> (m.value.Range? <==> acc.Range? && forall c :: c in cs ==> c.operand.Between?)
    decreases |cs|
  {
    if |cs| == 0 then Ok(acc)
    else
      match DomainOf(cs[0].operand)
      case Contradiction => Contradiction
      case Ok(d) =>
        match MergeValues(acc, d)
        case Contradiction => Contradiction
        case Ok(v) => MergeFrom(v, cs[1..])
  }

  /** Merges every atom on one column into one sharding value. */
  function MergeColumn(cs: seq<Condition>): (m: Merged)
    requires |cs| > 0
    ensures forall x :: Allows(m, x) <==> SatisfiesAll(cs, x)
    ensures m.Ok? ==> NonEmpty(m.value)
    ensures m.Ok? ==> (m.value.Range? <==> forall c :: c in cs ==> c.operand.Between?)
  {
    match DomainOf(cs[0].operand)
    case Contradiction => Contradiction
    case Ok(d) => MergeFrom(d, cs[1..])
  }

  /** Two domains merge to a contradiction exactly when no value lies in both. */
  lemma MergeValuesContradictionIffDisjoint(a: ShardingValue, b: ShardingValue)
    ensures MergeValues(a, b).Contradiction? <==> forall x :: !(Admits(a, x) && Admits(b, x))
  {
    var m := MergeValues(a, b);
    if m.Ok? {
      NonEmptyHasWitness(m.value);
      var x :| Admits(m.value, x);
      assert Allows(m, x);
    }
  }

  /** Merging is commutative: the order of two atoms does not change the result. */
  lemma MergeValuesCommutes(a: ShardingValue, b: ShardingValue)
    ensures MergeValues(a, b) == MergeValues(b, a)
  {
  }

  /** A column's atoms merge to a contradiction exactly when no value satisfies them all. */
  lemma MergeColumnContradictionIffUnsatisfiable(cs: seq<Condition>)
    requires |cs| > 0
    ensures MergeColumn(cs).Contradiction? <==> forall x :: !SatisfiesAll(cs, x)
  {
    var m := MergeColumn(cs);
    if m.Ok? {
      NonEmptyHasWitness(m.value);
    }
  }
}
