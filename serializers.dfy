/**
 * The request-validation rules of `deeputils/django/serializers.py`, without the framework.
 *
 * The object store behind `model.objects.get(pk=...)` is a map from primary key to the
 * stored object's `public` flag and owning account; validated request data is a
 * map from field name to value.
 */
module Serializers {
  import opened Results
  import opened Strings

  /** A value in validated request data: a string, an integer primary key, or `None`. */
  datatype Value = Text(s: string) | Int(n: int) | Null

  type Data = map<string, Value>

  /** What validation raises. */
  datatype Failure =
    | FieldNotAllowed(allowed: seq<string>)  // a requested field is outside the allow-list
    | LengthMismatch                         // the field and value lists differ in length
    | NotText(field: string)                 // `capitalize()` applied to a value that is not a string
    | NoSplit                                // `split(',')` applied to a value that is not a string
    | ModelInvalid                           // the model serializer rejected the data
    | NotFound                               // the id is missing or names no object
    | NotAuthenticated                       // the object belongs to another account
    | Conflict                               // an object with this id already exists

  /** What the lookup of one stored object yields: its `public` flag and its owner. */
  datatype Stored<A> = Stored(public: bool, owner: Option<A>)

  /** The object `oid` exists and `account` may see it. */
  predicate Visible<A(==)>(objects: map<int, Stored<A>>, modelPublic: bool, account: Option<A>, oid: int) {
    oid in objects &&
    ((modelPublic && objects[oid].public) || account.None? || objects[oid].owner == account)
  }

  /**
   * Module function `validate_id(model, account, oid, allow_none)`. `modelPublic` is
   * the truthiness of the model's `public` attribute (`False` when it has none).
   */
  function ValidateId<A(==)>(objects: map<int, Stored<A>>, modelPublic: bool, account: Option<A>,
                             oid: Option<int>, allowNone: bool): (r: Result<Option<int>, Failure>)
    ensures r.Ok? ==> r.value == oid
    ensures r.Err? ==> r.error == NotFound || r.error == NotAuthenticated
    ensures oid.None? ==> r == (if allowNone then Ok(None) else Err(NotFound))
    ensures oid.Some? ==> (r == Err(NotFound) <==> oid.value !in objects)
    ensures oid.Some? ==> (r.Ok? <==> Visible(objects, modelPublic, account, oid.value))
  {
    if oid.Some? then
      if oid.value !in objects then Err(NotFound)
      else
        var obj := objects[oid.value];
        if modelPublic && obj.public then Ok(oid)
        else if account.Some? && obj.owner != account then Err(NotAuthenticated)
        else Ok(oid)
    else if !allowNone then Err(NotFound)
    else Ok(oid)
  }

  /** A public object of a public model passes whoever asks. */
  lemma PublicObjectPasses<A>(objects: map<int, Stored<A>>, account: Option<A>, oid: int, allowNone: bool)
    requires oid in objects && objects[oid].public
    ensures ValidateId(objects, true, account, Some(oid), allowNone) == Ok(Some(oid))
  {
  }

  /** `ObjectPostViewSerializer.validate_id`: a new object's id must not be taken. */
  function PostValidateId<A>(objects: map<int, Stored<A>>, value: Option<int>): (r: Result<Option<int>, Failure>)
    ensures r.Err? <==> value.Some? && value.value in objects
    ensures r.Err? ==> r.error == Conflict
    ensures r.Ok? ==> r.value == value
  {
    if value.Some? && value.value in objects then Err(Conflict) else Ok(value)
  }

  /**
   * `ArrayField.to_representation` and `ArrayField.to_internal_value`, which are the same:
   * `None` stays `None`, a string is split on `,`, and any other value has no `.split`.
   */
  function ArrayFieldValue(data: Value): (r: Result<Option<seq<string>>, Failure>)
    ensures r == Ok(None) <==> data.Null?
    ensures r.Err? <==> data.Int?
    ensures r.Err? ==> r.error == NoSplit
    ensures data.Text? ==> r.Ok? && r.value.Some?
    ensures data.Text? ==> |r.value.value| == Occurrences(data.s, ',') + 1
    ensures data.Text? ==> forall i :: 0 <= i < |r.value.value| ==> ',' !in r.value.value[i]
    ensures data.Text? ==> Join(r.value.value, ',') == data.s
  {
    match data
    case Null => Ok(None)
    case Int(_) => Err(NoSplit)
    case Text(s) => JoinSplit(s, ','); SplitCount(s, ','); Ok(Some(Split(s, ',')))
  }

  /** A list of comma-free items survives the trip through its comma-joined form. */
  lemma ArrayFieldOfJoin(items: seq<string>)
    requires |items| > 0
    requires forall i :: 0 <= i < |items| ==> ',' !in items[i]
    ensures ArrayFieldValue(Text(Join(items, ','))) == Ok(Some(items))
  {
    SplitJoin(items, ',');
  }

  /** `ModifyViewSerializer.validate_field`: every comma-separated name must be allowed. */
  method ValidateField(value: string, allowedFields: seq<string>) returns (r: Result<string, Failure>)
    ensures r.Ok? <==> forall p :: p in Split(value, ',') ==> p in allowedFields
    ensures r.Ok? ==> r.value == value
    ensures r.Err? ==> r.error == FieldNotAllowed(allowedFields)
  {
    var names := Split(value, ',');
    for i := 0 to |names|
      invariant forall j :: 0 <= j < i ==> names[j] in allowedFields
    {
      if names[i] !in allowedFields {
        return Err(FieldNotAllowed(allowedFields));
      }
    }
    return Ok(value);
  }

  /** `[i.strip() for i in s.split(',')]`: the comma-separated items without surrounding white space. */
  function Pieces(s: string): (r: seq<string>)
    ensures |r| == |Split(s, ',')| == Occurrences(s, ',') + 1
    ensures forall i :: 0 <= i < |r| ==> r[i] == Strip(Split(s, ',')[i])
    ensures forall i :: 0 <= i < |r| ==> ',' !in r[i]
    ensures forall i :: 0 <= i < |r| && r[i] != [] ==> !IsSpace(r[i][0]) && !IsSpace(r[i][|r[i]| - 1])
  {
    var parts := Split(s, ',');
    SplitCount(s, ',');
    var r := seq(|parts|, i requires 0 <= i < |parts| => Strip(parts[i]));
    forall i | 0 <= i < |r|
      ensures ',' !in r[i]
    {
      var a, b :| 0 <= a <= b <= |parts[i]| && r[i] == parts[i][a..b];
      assert forall c :: c in r[i] ==> c in parts[i];
    }
    r
  }

  /** No later position of `keys` holds `keys[i]`. */
  ghost predicate LastOccurrence(keys: seq<string>, i: nat)
    requires i < |keys|
  {
    forall j :: i < j < |keys| ==> keys[j] != keys[i]
  }

  /** `dict(zip(keys, vals))` for lists of equal length: a later pair overrides an earlier one. */
  function ZipToMap(keys: seq<string>, vals: seq<string>): (m: Data)
    requires |keys| == |vals|
    ensures m.Keys == set k | k in keys
    ensures forall i :: 0 <= i < |keys| && LastOccurrence(keys, i) ==> m[keys[i]] == Text(vals[i])
    decreases |keys|
  {
    if |keys| == 0 then map[]
    else
      var n := |keys| - 1;
      assert keys == keys[..n] + [keys[n]];
      ZipToMap(keys[..n], vals[..n])[keys[n] := Text(vals[n])]
  }

  /**
   * The data of `validate` once `field` and `value` are deleted and the pairs are
   * merged in: `{**data, **dict(zip(fields, values))}`.
   */
  function Merge(data: Data, fields: seq<string>, values: seq<string>): (m: Data)
    requires |fields| == |values|
    ensures m.Keys == (data.Keys - {"field", "value"}) + (set k | k in fields)
    ensures forall i :: 0 <= i < |fields| && LastOccurrence(fields, i) ==> m[fields[i]] == Text(values[i])
    ensures forall k :: k in data && k != "field" && k != "value" && k !in fields ==> m[k] == data[k]
  {
    (data - {"field", "value"}) + ZipToMap(fields, values)
  }

  /** Some boolean field holds a value that is not a string. */
  predicate HasNonTextBoolean(data: Data, booleanFields: set<string>) {
    exists f :: f in data && f in booleanFields && !data[f].Text?
  }

  /** `ModifyViewSerializer.fix_boolean`: capitalise the value of every boolean field. */
  method FixBoolean(data: Data, booleanFields: set<string>) returns (r: Result<Data, Failure>)
    ensures r.Err? <==> HasNonTextBoolean(data, booleanFields)
    ensures r.Err? ==>
      r.error.NotText? && r.error.field in data && r.error.field in booleanFields && !data[r.error.field].Text?
    ensures r.Ok? ==> r.value.Keys == data.Keys
    ensures r.Ok? ==> forall f :: f in data && f in booleanFields ==> r.value[f] == Text(Capitalize(data[f].s))
    ensures r.Ok? ==> forall f :: f in data && f !in booleanFields ==> r.value[f] == data[f]
  {
    var todo := data.Keys;
    var out := data;
    while todo != {}
      invariant todo <= data.Keys
      invariant out.Keys == data.Keys
      invariant forall f :: f in data && f !in todo && f in booleanFields ==>
        data[f].Text? && out[f] == Text(Capitalize(data[f].s))
      invariant forall f :: f in data && (f in todo || f !in booleanFields) ==> out[f] == data[f]
      decreases todo
    {
      var f :| f in todo;
      if f in booleanFields {
        if !data[f].Text? {
          return Err(NotText(f));
        }
        out := out[f := Text(Capitalize(data[f].s))];
      }
      todo := todo - {f};
    }
    return Ok(out);
  }

  /** The data with every `''` replaced by `None`. */
  function EmptiesNulled(data: Data): (r: Data)
    ensures r.Keys == data.Keys
    ensures forall f :: f in data && data[f] == Text("") ==> r[f] == Null
    ensures forall f :: f in data && data[f] != Text("") ==> r[f] == data[f]
    ensures Text("") !in r.Values
  {
    map f | f in data :: if data[f] == Text("") then Null else data[f]
  }

  /** Replacing `''` by `None` a second time changes nothing. */
  lemma EmptiesNulledIdempotent(data: Data)
    ensures EmptiesNulled(EmptiesNulled(data)) == EmptiesNulled(data)
  {
  }

  /** `ModifyViewSerializer.fix_empty`: every `''` becomes `None`. */
  method FixEmpty(data: Data) returns (out: Data)
    ensures out == EmptiesNulled(data)
  {
    var todo := data.Keys;
    out := data;
    while todo != {}
      invariant todo <= data.Keys
      invariant out.Keys == data.Keys
      invariant forall f :: f in data && f !in todo ==> out[f] == EmptiesNulled(data)[f]
      invariant forall f :: f in todo ==> out[f] == data[f]
      decreases todo
    {
      var f :| f in todo;
      if data[f] == Text("") {
        out := out[f := Null];
      }
      todo := todo - {f};
    }
  }

  /** What one merged entry becomes after `fix_boolean` and then `fix_empty`. */
  function Normalized(f: string, v: Value, booleanFields: set<string>): Value {
    var w := if f in booleanFields && v.Text? then Text(Capitalize(v.s)) else v;
    if w == Text("") then Null else w
  }

  /** Every entry of `m` normalised. */
  function NormalizedAll(m: Data, booleanFields: set<string>): (r: Data)
    ensures r.Keys == m.Keys
  {
    map f | f in m :: Normalized(f, m[f], booleanFields)
  }

  /** `fix_empty` after a successful `fix_boolean` normalises every entry. */
  lemma FixesNormalize(m: Data, booleanFields: set<string>, capitalized: Data)
    requires capitalized.Keys == m.Keys
    requires forall f :: f in m && f in booleanFields ==> m[f].Text? && capitalized[f] == Text(Capitalize(m[f].s))
    requires forall f :: f in m && f !in booleanFields ==> capitalized[f] == m[f]
    ensures EmptiesNulled(capitalized) == NormalizedAll(m, booleanFields)
  {
    var e, n := EmptiesNulled(capitalized), NormalizedAll(m, booleanFields);
    forall f | f in m
      ensures e[f] == n[f]
    {
    }
  }

  /** Taking `id` out and putting it back unless it is `None` drops exactly a `None` id. */
  lemma PopRestoreId(fixed: Data)
    ensures var oid := if "id" in fixed then fixed["id"] else Null;
      var popped := fixed - {"id"};
      (if oid != Null then popped["id" := oid] else popped) ==
      (if "id" in fixed && fixed["id"] == Null then fixed - {"id"} else fixed)
  {
    if "id" !in fixed {
      assert fixed - {"id"} == fixed;
    } else if fixed["id"] != Null {
      assert (fixed - {"id"})["id" := fixed["id"]] == fixed;
    }
  }

  /**
   * The data `validate` returns for merged data `m`: every entry normalised, and an
   * `id` that became `None` dropped (it is taken out and only put back when not `None`).
   */
  function Finished(m: Data, booleanFields: set<string>): (r: Data)
    ensures "id" in m && Normalized("id", m["id"], booleanFields) == Null ==> r.Keys == m.Keys - {"id"}
    ensures !("id" in m && Normalized("id", m["id"], booleanFields) == Null) ==> r.Keys == m.Keys
    ensures forall f :: f in r ==> r[f] == Normalized(f, m[f], booleanFields)
    ensures Text("") !in r.Values
  {
    var fixed := NormalizedAll(m, booleanFields);
    if "id" in fixed && fixed["id"] == Null then fixed - {"id"} else fixed
  }

  /**
   * `ModifyViewSerializer.validate`. `booleanFields` are the model's boolean fields and
   * `modelAccepts` is the verdict of the model serializer on the finished data.
   */
  method Validate(data: Data, booleanFields: set<string>, modelAccepts: Data -> bool) returns (r: Result<Data, Failure>)
    requires "field" in data && data["field"].Text?
    requires "value" in data && data["value"].Text?
    ensures var fields, values := Pieces(data["field"].s), Pieces(data["value"].s);
      |fields| != |values| ==> r == Err(LengthMismatch)
    ensures var fields, values := Pieces(data["field"].s), Pieces(data["value"].s);
      |fields| == |values| ==> Completed(Merge(data, fields, values), booleanFields, modelAccepts, r)
  {
    var fields := Pieces(data["field"].s);
    var values := Pieces(data["value"].s);
    if |fields| != |values| {
      return Err(LengthMismatch);
    }
    var merged := Merge(data, fields, values);
    r := FixAndCheck(merged, booleanFields, modelAccepts);
  }

  /**
   * How `validate` ends for merged data `m`: with the non-string boolean value
   * `capitalize()` fails on, or with the model serializer's verdict on the finished data.
   */
  ghost predicate Completed(m: Data, booleanFields: set<string>, modelAccepts: Data -> bool, r: Result<Data, Failure>) {
    if HasNonTextBoolean(m, booleanFields) then
      r.Err? && r.error.NotText? && r.error.field in m && r.error.field in booleanFields && !m[r.error.field].Text?
    else
      var done := Finished(m, booleanFields);
      r == if modelAccepts(done) then Ok(done) else Err(ModelInvalid)
  }

  /** The second half of `validate`: the two fixes, the `id` round trip and the model check. */
  method FixAndCheck(merged: Data, booleanFields: set<string>, modelAccepts: Data -> bool) returns (r: Result<Data, Failure>)
    ensures Completed(merged, booleanFields, modelAccepts, r)
  {
    var capitalized := FixBoolean(merged, booleanFields);
    if capitalized.Err? {
      return Err(capitalized.error);
    }
    var fixed := FixEmpty(capitalized.value);
    FixesNormalize(merged, booleanFields, capitalized.value);
    PopRestoreId(fixed);
    // extend_validate is the identity here
    var oid := Null;
    if "id" in fixed {
      oid := fixed["id"];
      fixed := fixed - {"id"};
    }
    if oid != Null {
      fixed := fixed["id" := oid];
    }
    assert fixed == Finished(merged, booleanFields);
    if modelAccepts(fixed) {
      return Ok(fixed);
    }
    return Err(ModelInvalid);
  }

  /**
   * What `validate` does to each entry: a listed field gets the value at its last
   * occurrence, an unlisted key keeps its own, and `field` and `value` are gone
   * unless listed again; every one of them is then normalised.
   */
  lemma FinishedEntries(data: Data, fields: seq<string>, values: seq<string>, booleanFields: set<string>)
    requires |fields| == |values|
    ensures var done := Finished(Merge(data, fields, values), booleanFields);
      && (forall i :: 0 <= i < |fields| && LastOccurrence(fields, i) && fields[i] != "id" ==>
            fields[i] in done && done[fields[i]] == Normalized(fields[i], Text(values[i]), booleanFields))
      && (forall k :: k in data && k !in {"field", "value", "id"} && k !in fields ==>
            k in done && done[k] == Normalized(k, data[k], booleanFields))
      && (forall i :: 0 <= i < |fields| && LastOccurrence(fields, i) && fields[i] == "id" ==>
            ("id" in done <==> Normalized("id", Text(values[i]), booleanFields) != Null) &&
            ("id" in done ==> done["id"] == Normalized("id", Text(values[i]), booleanFields)))
      && ("id" in data && "id" !in fields ==>
            ("id" in done <==> Normalized("id", data["id"], booleanFields) != Null) &&
            ("id" in done ==> done["id"] == Normalized("id", data["id"], booleanFields)))
      && ("field" !in fields ==> "field" !in done)
      && ("value" !in fields ==> "value" !in done)
  {
    var m := Merge(data, fields, values);
    var done := Finished(m, booleanFields);
    forall i | 0 <= i < |fields| && LastOccurrence(fields, i) && fields[i] != "id"
      ensures fields[i] in done && done[fields[i]] == Normalized(fields[i], Text(values[i]), booleanFields)
    {
      assert fields[i] in m && m[fields[i]] == Text(values[i]);
    }
    forall k | k in data && k !in {"field", "value", "id"} && k !in fields
      ensures k in done && done[k] == Normalized(k, data[k], booleanFields)
    {
      assert k in m && m[k] == data[k];
    }
    if "id" in data && "id" !in fields {
      assert "id" in m && m["id"] == data["id"];
    }
  }
}
