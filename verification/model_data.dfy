/**
 * `validate_model_data`: a structural check of a loaded catalogue, returning
 * one message per problem found among its first ten records.
 */
module ModelData {
  import opened Json
  import opened Text

  const NotAList := "Model data must be a list"
  const EmptyData := "Model data is empty"

  /** Only this many records are looked at. */
  const Inspected: nat := 10

  const RequiredFields: seq<string> := ["modelName", "fileSize", "quantFormat"]

  function Prefix(i: nat): string {
    "Model " + NatToString(i)
  }

  function MissingField(i: nat, f: string): string {
    Prefix(i) + " missing required field: " + f
  }

  function EmptyField(i: nat, f: string): string {
    Prefix(i) + " has empty required field: " + f
  }

  function NotNumericMessage(i: nat, f: string): string {
    Prefix(i) + " " + f + " must be numeric"
  }

  /** The messages for the required fields, in field order: missing, or present but falsy. */
  function FieldErrors(i: nat, fields: map<string, Value>, names: seq<string>): (r: seq<string>)
    ensures r == [] <==> forall k :: 0 <= k < |names| ==> names[k] in fields && Truthy(fields[names[k]])
  {
    if names == [] then []
    else
      var f := names[0];
      var here :=
        if f !in fields then [MissingField(i, f)]
        else if !Truthy(fields[f]) then [EmptyField(i, f)]
        else [];
      var rest := FieldErrors(i, fields, names[1..]);
      assert forall k :: 1 <= k < |names| ==> names[k] == names[1..][k - 1];
      here + rest
  }

  /** Present and not a number. */
  predicate NotNumeric(fields: map<string, Value>, f: string) {
    f in fields && !IsNumber(fields[f])
  }

  /** The messages for the record at index `i`. */
  function ModelErrors(i: nat, m: Value): seq<string> {
    if !m.Obj? then [Prefix(i) + " is not a dictionary"]
    else
      FieldErrors(i, m.fields, RequiredFields)
      + (if NotNumeric(m.fields, "fileSize") then [NotNumericMessage(i, "fileSize")] else [])
      + (if NotNumeric(m.fields, "downloadCount") then [NotNumericMessage(i, "downloadCount")] else [])
  }

  /** The messages for `models`, the first of which sits at index `start`. */
  function ErrorsFrom(models: seq<Value>, start: nat): seq<string> {
    if models == [] then []
    else ModelErrors(start, models[0]) + ErrorsFrom(models[1..], start + 1)
  }

  function Min(a: nat, b: nat): nat {
    if a <= b then a else b
  }

  /** `validate_model_data` on any JSON value. */
  function ValidateModelData(v: Value): (r: seq<string>)
    ensures !v.Arr? ==> r == [NotAList]
    ensures v.Arr? && v.items == [] ==> r == [EmptyData]
  {
    if !v.Arr? then [NotAList]
    else if v.items == [] then [EmptyData]
    else ErrorsFrom(v.items[..Min(Inspected, |v.items|)], 0)
  }

  /** A record the validator has nothing to say about. */
  predicate WellFormed(m: Value) {
    && m.Obj?
    && (forall k :: 0 <= k < |RequiredFields| ==>
          RequiredFields[k] in m.fields && Truthy(m.fields[RequiredFields[k]]))
    && "fileSize" in m.fields && IsNumber(m.fields["fileSize"])
    && ("downloadCount" in m.fields ==> IsNumber(m.fields["downloadCount"]))
  }

  /** A model gets no messages exactly when it is well formed. */
  lemma ModelErrorsEmpty(i: nat, m: Value)
    ensures ModelErrors(i, m) == [] <==> WellFormed(m)
  {
    if m.Obj? && ModelErrors(i, m) == [] {
      assert FieldErrors(i, m.fields, RequiredFields) == [];
      assert RequiredFields[1] == "fileSize";
    }
  }

  /** A list gets no messages exactly when every model is well formed. */
  lemma {:induction false} ErrorsFromEmpty(models: seq<Value>, start: nat)
    ensures ErrorsFrom(models, start) == [] <==> forall k :: 0 <= k < |models| ==> WellFormed(models[k])
  {
    if models != [] {
      ErrorsFromEmpty(models[1..], start + 1);
      ModelErrorsEmpty(start, models[0]);
      assert forall k :: 1 <= k < |models| ==> models[k] == models[1..][k - 1];
    }
  }

  /** A non-empty list passes exactly when each of its first ten records is well formed. */
  lemma ValidIff(items: seq<Value>)
    requires items != []
    ensures ValidateModelData(Arr(items)) == []
        <==> forall k :: 0 <= k < |items| && k < Inspected ==> WellFormed(items[k])
  {
    var n := Min(Inspected, |items|);
    ErrorsFromEmpty(items[..n], 0);
    assert forall k :: 0 <= k < n ==> items[..n][k] == items[k];
  }

  /** Records after the tenth never change the outcome. */
  lemma OnlyFirstTen(items: seq<Value>)
    requires |items| >= Inspected
    ensures ValidateModelData(Arr(items)) == ValidateModelData(Arr(items[..Inspected]))
  {
    assert items[..Inspected][..Inspected] == items[..Inspected];
  }

  /** Each record's messages appear among the messages for the list. */
  lemma {:induction false} ErrorsFromContains(models: seq<Value>, start: nat, k: nat, msg: string)
    requires k < |models| && msg in ModelErrors(start + k, models[k])
    ensures msg in ErrorsFrom(models, start)
  {
    if k > 0 {
      ErrorsFromContains(models[1..], start + 1, k - 1, msg);
    }
  }

  /** A zero file size is reported as an empty required field. */
  lemma ZeroSizeReported(items: seq<Value>, k: nat)
    requires k < |items| && k < Inspected
    requires items[k].Obj? && "fileSize" in items[k].fields && items[k].fields["fileSize"] == Int(0)
    ensures EmptyField(k, "fileSize") in ValidateModelData(Arr(items))
  {
    var n := Min(Inspected, |items|);
    var m := items[k];
    var msg := EmptyField(k, "fileSize");
    assert m.fields["fileSize"] == Int(0);
    assert RequiredFields[1] == "fileSize";
    var fe := FieldErrors(k, m.fields, RequiredFields);
    var tail := RequiredFields[1..];
    assert tail[0] == "fileSize" && !Truthy(m.fields["fileSize"]);
    assert FieldErrors(k, m.fields, tail) == [msg] + FieldErrors(k, m.fields, tail[1..]);
    assert msg in FieldErrors(k, m.fields, tail);
    assert msg in fe;
    assert msg in ModelErrors(k, m);
    assert items[..n][k] == m;
    ErrorsFromContains(items[..n], 0, k, msg);
  }
}
