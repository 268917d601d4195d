/**
 * The part of Apache Arrow the converter relies on: typed arrays built from
 * scalars (`IntoArrowArray`), and record batches assembled from named
 * columns, with the checks `RecordBatch::try_from_iter_with_nullable` makes.
 */
module Arrow {
  import opened Wrappers
  import opened Number

  /** A typed array; each slot holds a value, or None for a null. */
  datatype Array = Array(dataType: ElementType, slots: seq<Option<Scalar>>)

  /** A schema entry: column name, element type, and whether nulls are allowed. */
  datatype Field = Field(name: string, dataType: ElementType, nullable: bool)

  /** A record batch: its schema and one array per field. */
  datatype RecordBatch = RecordBatch(schema: seq<Field>, columns: seq<Array>)

  /** A column as handed to `try_from_iter_with_nullable`: name, array, nullable. */
  type NamedColumn = (string, Array, bool)

  predicate NoNulls(a: Array) {
    forall k :: 0 <= k < |a.slots| ==> a.slots[k].Some?
  }

  /** The values of an array without nulls, in slot order. */
  function Values(a: Array): (vs: seq<Scalar>)
    requires NoNulls(a)
    ensures |vs| == |a.slots|
  {
    seq(|a.slots|, k requires 0 <= k < |a.slots| => a.slots[k].value)
  }

  /**
   * `IntoArrowArray::into_arrow_array`: an array of the element type holding
   * every value, present and in order.
   */
  function IntoArrowArray(t: ElementType, values: seq<Scalar>): (a: Array)
    ensures a.dataType == t && NoNulls(a) && Values(a) == values
  {
    Array(t, seq(|values|, k requires 0 <= k < |values| => Some(values[k])))
  }

  /** What a record batch demands of its columns. */
  predicate AcceptableColumns(columns: seq<NamedColumn>) {
    && |columns| > 0
    && (forall k :: 0 <= k < |columns| && !columns[k].2 ==> NoNulls(columns[k].1))
    && (forall k :: 0 <= k < |columns| ==> |columns[k].1.slots| == |columns[0].1.slots|)
  }

  /** Why a record batch is refused (each an `ArrowError::InvalidArgumentError`). */
  datatype ArrowError = NoColumns | NullInNonNullable | UnequalLengths

  /**
   * `RecordBatch::try_from_iter_with_nullable`: a batch whose schema lists the
   * columns' names, types and nullability in order. It is refused when there
   * is no column at all (the row count cannot be inferred), when a
   * non-nullable column holds a null, or when the columns differ in length.
   */
  function TryFromIterWithNullable(columns: seq<NamedColumn>): (r: Result<RecordBatch, ArrowError>)
    ensures r.Ok? <==> AcceptableColumns(columns)
    ensures columns == [] ==> r == Err(NoColumns)
    ensures r.Ok? ==> |r.value.schema| == |r.value.columns| == |columns|
    ensures r.Ok? ==> forall k :: 0 <= k < |columns| ==>
      r.value.schema[k] == Field(columns[k].0, columns[k].1.dataType, columns[k].2) &&
      r.value.columns[k] == columns[k].1
  {
    if |columns| == 0 then
      Err(NoColumns)
    else if exists k :: 0 <= k < |columns| && !columns[k].2 && !NoNulls(columns[k].1) then
      Err(NullInNonNullable)
    else if exists k :: 0 <= k < |columns| && |columns[k].1.slots| != |columns[0].1.slots| then
      Err(UnequalLengths)
    else
      Ok(RecordBatch(
        seq(|columns|, k requires 0 <= k < |columns| => Field(columns[k].0, columns[k].1.dataType, columns[k].2)),
        seq(|columns|, k requires 0 <= k < |columns| => columns[k].1)))
  }
}
