/** Whether every INSERT column of an INSERT ... SELECT uses the same encryptor
    as the SELECT projection at the same position. Encryptors are found by an
    encrypt rule lookup on the original table and column, passed in as a function. */
module InsertSelectColumnsSameEncryptorUsageChecker {
  import opened Wrappers
  import opened SameEncryptorComparator

  /** The original table and column a segment is bound to. */
  datatype BoundInfo = BoundInfo(originalTable: string, originalColumn: string)

  /** An INSERT column with its binding. */
  datatype ColumnSegment = ColumnSegment(name: string, columnBoundInfo: BoundInfo)

  /** A SELECT projection: a column with its origin, or any other projection,
      known only by its column label. */
  datatype Projection =
    | ColumnProjection(name: string, originalTable: string, originalColumn: string)
    | OtherProjection(columnLabel: string)

  /** The encrypt rule's lookup from original table and column to encryptor. */
  type EncryptorLookup = (string, string) -> Option<Encryptor>

  /** The binding of a projection: a column projection's own origin; for any
      other projection, its label as the column of an unnamed table. */
  function GetColumnSegmentBoundInfo(projection: Projection): (info: BoundInfo)
    ensures projection.ColumnProjection? ==>
      info.originalTable == projection.originalTable && info.originalColumn == projection.originalColumn
    ensures projection.OtherProjection? ==> info.originalColumn == projection.columnLabel
  {
    match projection
    case ColumnProjection(_, table, column) => BoundInfo(table, column)
    case OtherProjection(columnLabel) => BoundInfo("", columnLabel)
  }

  function ColumnEncryptor(findQueryEncryptor: EncryptorLookup, column: ColumnSegment): Option<Encryptor> {
    findQueryEncryptor(column.columnBoundInfo.originalTable, column.columnBoundInfo.originalColumn)
  }

  function ProjectionEncryptor(findQueryEncryptor: EncryptorLookup, projection: Projection): Option<Encryptor> {
    var info := GetColumnSegmentBoundInfo(projection);
    findQueryEncryptor(info.originalTable, info.originalColumn)
  }

  /** The pair at one position uses the same encryptor on both sides. */
  predicate PairIsSame(findQueryEncryptor: EncryptorLookup, column: ColumnSegment, projection: Projection) {
    SameEncryptorComparator.IsSame(ColumnEncryptor(findQueryEncryptor, column), ProjectionEncryptor(findQueryEncryptor, projection))
  }

  /** There are enough projections for every INSERT column, and every INSERT
      column agrees with the projection at its position. */
  predicate AllPairsSame(findQueryEncryptor: EncryptorLookup, insertColumns: seq<ColumnSegment>, projections: seq<Projection>) {
    && |projections| >= |insertColumns|
    && forall i :: 0 <= i < |insertColumns| ==> PairIsSame(findQueryEncryptor, insertColumns[i], projections[i])
  }

  /** The walk never asks for a projection past the last one: either there is
      one per INSERT column, or some pair within the projections disagrees, so
      the walk stops there at the latest. */
  predicate ProjectionsSuffice(findQueryEncryptor: EncryptorLookup, insertColumns: seq<ColumnSegment>, projections: seq<Projection>) {
    || |projections| >= |insertColumns|
    || exists k :: 0 <= k < |projections| && k < |insertColumns|
         && !PairIsSame(findQueryEncryptor, insertColumns[k], projections[k])
  }

  /** Walks the INSERT columns and the projections together and answers false
      at the first pair whose encryptors differ. Each INSERT column consumes one
      projection, so the projections must not run out before that answer. */
  method IsSame(insertColumns: seq<ColumnSegment>, projections: seq<Projection>, findQueryEncryptor: EncryptorLookup)
    returns (same: bool)
    requires ProjectionsSuffice(findQueryEncryptor, insertColumns, projections)
    ensures same <==> AllPairsSame(findQueryEncryptor, insertColumns, projections)
    ensures !same ==> exists k :: (0 <= k < |insertColumns| && k < |projections|
      && !PairIsSame(findQueryEncryptor, insertColumns[k], projections[k])
      && forall j :: 0 <= j < k ==> PairIsSame(findQueryEncryptor, insertColumns[j], projections[j]))
  {
    var i := 0;
    while i < |insertColumns|
      invariant 0 <= i <= |insertColumns|
      invariant i <= |projections|
      invariant forall j :: 0 <= j < i ==> PairIsSame(findQueryEncryptor, insertColumns[j], projections[j])
    {
      if i == |projections| {
        // the mismatch the precondition promises lies below i, yet every pair below i agrees
        assert false;
      }
      var columnEncryptor := ColumnEncryptor(findQueryEncryptor, insertColumns[i]);
      var projectionEncryptor := ProjectionEncryptor(findQueryEncryptor, projections[i]);
      if !SameEncryptorComparator.IsSame(columnEncryptor, projectionEncryptor) {
        return false;
      }
      i := i + 1;
    }
    return true;
  }

  /** With no INSERT columns there is nothing to disagree. */
  lemma NoInsertColumnsIsSame(findQueryEncryptor: EncryptorLookup, projections: seq<Projection>)
    ensures AllPairsSame(findQueryEncryptor, [], projections)
  {
  }

  /** Projections past the last INSERT column are never consulted. */
  lemma ExtraProjectionsIgnored(findQueryEncryptor: EncryptorLookup, insertColumns: seq<ColumnSegment>,
                                projections: seq<Projection>, extra: seq<Projection>)
    requires |projections| >= |insertColumns|
    ensures AllPairsSame(findQueryEncryptor, insertColumns, projections + extra)
        == AllPairsSame(findQueryEncryptor, insertColumns, projections)
  {
  }

  /** A mismatch at position k decides the answer whatever follows it. */
  lemma MismatchDecides(findQueryEncryptor: EncryptorLookup, insertColumns: seq<ColumnSegment>,
                        projections: seq<Projection>, k: nat)
    requires |projections| >= |insertColumns| && k < |insertColumns|
    requires !PairIsSame(findQueryEncryptor, insertColumns[k], projections[k])
    ensures !AllPairsSame(findQueryEncryptor, insertColumns, projections)
  {
  }

  /** Selecting a column into the very column it was read from always agrees. */
  lemma SameOriginAgrees(findQueryEncryptor: EncryptorLookup, column: ColumnSegment, projection: Projection)
    requires projection.ColumnProjection?
    requires column.columnBoundInfo == BoundInfo(projection.originalTable, projection.originalColumn)
    ensures PairIsSame(findQueryEncryptor, column, projection)
  {
  }
}
