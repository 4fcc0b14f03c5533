/**
 * The settings of the "Null if" step: an array of (field name, value)
 * pairs, each pair an object of its own, with allocation, cloning, the
 * rule that turns a null value into "" when empty strings differ from
 * null, and the two remarks of the step's `check`.
 *
 * The system property that says whether empty strings differ from null is
 * read through code that is not part of this model; it arrives here as a
 * boolean.
 */
module NullIf {
  import opened JavaLang

  /** One (field name, value) pair; both may be null. */
  class Field {
    var fieldName: Option<string>
    var fieldValue: Option<string>

    constructor ()
      ensures fieldName.None? && fieldValue.None?
    {
      fieldName := None;
      fieldValue := None;
    }

    /** A pair with the given name and value: what `super.clone()` makes of a pair. */
    constructor Copy(name: Option<string>, value: Option<string>)
      ensures fieldName == name && fieldValue == value
    {
      fieldName := name;
      fieldValue := value;
    }

    /** `setFieldName`: replace the name, keeping the value. */
    method SetFieldName(name: Option<string>)
      modifies this`fieldName
      ensures fieldName == name
    {
      fieldName := name;
    }

    /**
     * `setFieldValue`: a null value is stored as "" when empty strings
     * differ from null, and as null otherwise; any other value is stored as
     * given.
     */
    method SetFieldValue(value: Option<string>, emptyDiffersFromNull: bool)
      modifies this`fieldValue
      ensures fieldValue == StoredValue(value, emptyDiffersFromNull)
    {
      fieldValue := if value.None? && emptyDiffersFromNull then Some("") else value;
    }

    /** `clone`: a new pair with the same name and value. */
    method Clone() returns (f: Field)
      ensures fresh(f) && f.fieldName == fieldName && f.fieldValue == fieldValue
    {
      f := new Field.Copy(fieldName, fieldValue);
    }
  }

  /** The value `setFieldValue` stores. */
  function StoredValue(value: Option<string>, emptyDiffersFromNull: bool): (r: Option<string>)
    ensures value.Some? ==> r == value
    ensures value.None? ==> (r == Some("") <==> emptyDiffersFromNull)
    ensures value.None? && !emptyDiffersFromNull ==> r.None?
  {
    if value.None? && emptyDiffersFromNull then Some("") else value
  }

  /** Storing a stored value again changes nothing, whatever the setting. */
  lemma StoredValueIdempotent(value: Option<string>, emptyDiffersFromNull: bool)
    ensures StoredValue(StoredValue(value, emptyDiffersFromNull), emptyDiffersFromNull) == StoredValue(value, emptyDiffersFromNull)
  {
  }

  datatype ResultType = ResultOk | ResultWarning | ResultError

  /** A check remark: its type and the key of its message. */
  datatype CheckResult = CheckResult(kind: ResultType, message: string)

  /**
   * The two remarks `check` makes: a warning when no fields reach the step
   * (`prev` null or empty), else OK; then OK when other steps send it rows,
   * else an error.
   */
  function CheckRemarks(prevSize: Option<nat>, inputCount: nat): (r: seq<CheckResult>)
    ensures |r| == 2
    ensures r[0].kind == (if prevSize.None? || prevSize.value == 0 then ResultWarning else ResultOk)
    ensures r[1].kind == (if inputCount > 0 then ResultOk else ResultError)
  {
    [ if prevSize.None? || prevSize.value == 0
      then CheckResult(ResultWarning, "NullIfMeta.CheckResult.NoReceivingFieldsError")
      else CheckResult(ResultOk, "NullIfMeta.CheckResult.StepReceivingFieldsOK"),
      if inputCount > 0
      then CheckResult(ResultOk, "NullIfMeta.CheckResult.StepRecevingInfoFromOtherSteps")
      else CheckResult(ResultError, "NullIfMeta.CheckResult.NoInputReceivedError") ]
  }

  /** The check never reports an error about the incoming fields, only about the input streams. */
  lemma CheckErrorsOnlyForInput(prevSize: Option<nat>, inputCount: nat)
    ensures (exists i :: 0 <= i < 2 && CheckRemarks(prevSize, inputCount)[i].kind == ResultError) <==> inputCount == 0
    ensures CheckRemarks(prevSize, inputCount)[0].kind != ResultError
  {
    if inputCount == 0 {
      assert CheckRemarks(prevSize, inputCount)[1].kind == ResultError;
    }
  }

  /** The list of remarks `check` appends to. */
  class Remarks {
    var items: seq<CheckResult>

    constructor ()
      ensures items == []
    {
      items := [];
    }

    method Add(cr: CheckResult)
      modifies this
      ensures items == old(items) + [cr]
    {
      items := items + [cr];
    }
  }

  class NullIfMeta {
    var fields: array?<Field?>

    constructor ()
      ensures fields == null
    {
      fields := null;
    }

    /** Every entry of the array is a pair, and no pair appears twice. */
    ghost predicate Distinct()
      reads this, fields
    {
      fields != null &&
      (forall i :: 0 <= i < fields.Length ==> fields[i] != null) &&
      (forall i, j :: 0 <= i < j < fields.Length ==> fields[i] != fields[j])
    }

    /** `allocate`: a fresh array of `count` fresh, distinct pairs with null name and value. */
    method Allocate(count: nat)
      modifies this`fields
      ensures fields != null && fresh(fields) && fields.Length == count && Distinct()
      ensures forall i :: 0 <= i < count ==> fresh(fields[i]) && fields[i].fieldName.None? && fields[i].fieldValue.None?
    {
      var a := new Field?[count];
      var i := 0;
      while i < count
        invariant 0 <= i <= count
        invariant forall j :: 0 <= j < i ==> a[j] != null && fresh(a[j]) && a[j].fieldName.None? && a[j].fieldValue.None?
        invariant forall j, k :: 0 <= j < k < i ==> a[j] != a[k]
      {
        var f := new Field();
        a[i] := f;
        i := i + 1;
      }
      fields := a;
    }

    /** `setDefault`: no pairs at all. */
    method SetDefault()
      modifies this`fields
      ensures fields != null && fresh(fields) && fields.Length == 0
    {
      Allocate(0);
    }

    /**
     * `clone`: a new settings object with as many pairs, each a fresh copy
     * of the pair at the same position (same name, same value), so the
     * clone shares no pair with the original.
     */
    method Clone() returns (retval: NullIfMeta)
      requires fields != null && forall i :: 0 <= i < fields.Length ==> fields[i] != null
      ensures fresh(retval) && retval.fields != null && fresh(retval.fields)
      ensures retval.fields.Length == fields.Length && retval.Distinct()
      ensures forall i :: 0 <= i < fields.Length ==>
                fresh(retval.fields[i]) &&
                retval.fields[i].fieldName == fields[i].fieldName && retval.fields[i].fieldValue == fields[i].fieldValue
    {
      retval := new NullIfMeta();
      var count := fields.Length;
      retval.Allocate(count);
      var copies := retval.fields;
      var i := 0;
      while i < count
        invariant 0 <= i <= count && retval.fields == copies
        invariant forall j :: 0 <= j < count ==> copies[j] != null && fresh(copies[j])
        invariant forall j, k :: 0 <= j < k < count ==> copies[j] != copies[k]
        invariant forall j :: 0 <= j < i ==>
                    copies[j].fieldName == fields[j].fieldName && copies[j].fieldValue == fields[j].fieldValue
      {
        var f := fields[i].Clone();
        copies[i] := f;
        i := i + 1;
      }
    }

    /** `check`: append the two remarks, leaving the earlier ones as they were. */
    method Check(remarks: Remarks, prevSize: Option<nat>, inputCount: nat)
      modifies remarks
      ensures remarks.items == old(remarks.items) + CheckRemarks(prevSize, inputCount)
    {
      if prevSize.None? || prevSize.value == 0 {
        remarks.Add(CheckResult(ResultWarning, "NullIfMeta.CheckResult.NoReceivingFieldsError"));
      } else {
        remarks.Add(CheckResult(ResultOk, "NullIfMeta.CheckResult.StepReceivingFieldsOK"));
      }
      if inputCount > 0 {
        remarks.Add(CheckResult(ResultOk, "NullIfMeta.CheckResult.StepRecevingInfoFromOtherSteps"));
      } else {
        remarks.Add(CheckResult(ResultError, "NullIfMeta.CheckResult.NoInputReceivedError"));
      }
    }
  }
}
