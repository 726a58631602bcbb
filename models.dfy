/**
 * The `TaskData` record (back-end/models.py) and the validation that building
 * it from a dictionary of field values performs.
 *
 * A record is built from a field dictionary: a field that is present is
 * checked against its declared type (and coerced where the record type allows
 * it), a field that is absent takes its default, and a missing required field
 * or a value of the wrong type rejects the whole dictionary. Keys that are not
 * fields are ignored. The two default factories (a fresh uuid string and the
 * current time) are inputs, collected in `Generated`.
 */
module Models {
  import opened Wrappers

  /** A value as it appears in a field dictionary. */
  datatype Value = Str(s: string) | Int(i: int) | Float(f: real) | Null

  /** The declared type of a field. */
  datatype Kind = StrKind | IntKind | FloatKind | OptStrKind

  datatype TaskData = TaskData(
    taskId: string,
    status: string,
    progress: int,
    fileLocation: string,
    originalFilename: string,
    createdAt: real,
    errorMessage: Option<string>)

  /** What the default factories would produce for this construction. */
  datatype Generated = Generated(id: string, now: real)

  datatype ValidationError = Missing(field: string) | WrongType(field: string)

  /** The declared type of each field of the record; `None` for any other key. */
  function KindOf(name: string): Option<Kind>
  {
    if name == "task_id" || name == "status" || name == "file_location" || name == "original_filename" then Some(StrKind)
    else if name == "progress" then Some(IntKind)
    else if name == "created_at" then Some(FloatKind)
    else if name == "error_message" then Some(OptStrKind)
    else None
  }

  predicate IsField(name: string)
  {
    KindOf(name).Some?
  }

  /** A value already in the form a field of kind `k` stores. */
  predicate Canonical(k: Kind, v: Value)
  {
    match k
    case StrKind => v.Str?
    case IntKind => v.Int?
    case FloatKind => v.Float?
    case OptStrKind => v.Str? || v.Null?
  }

  predicate IsIntegral(f: real)
  {
    f == f.Floor as real
  }

  /** Two values denote the same thing, an int and a float being compared as numbers. */
  predicate SameValue(a: Value, b: Value)
  {
    match (a, b)
    case (Int(i), Float(f)) => i as real == f
    case (Float(f), Int(i)) => i as real == f
    case _ => a == b
  }

  /**
   * Checks one value against a field type. An int field also takes a float
   * without fractional part, a float field also takes an int; everything
   * else must already have the field's type.
   */
  function Validate(k: Kind, v: Value): (r: Option<Value>)
    ensures r.Some? <==> Canonical(k, v) || (k == IntKind && v.Float? && IsIntegral(v.f)) || (k == FloatKind && v.Int?)
    ensures r.Some? ==> Canonical(k, r.value) && SameValue(v, r.value)
    ensures Canonical(k, v) ==> r == Some(v)
  {
    match (k, v)
    case (IntKind, Float(f)) => if IsIntegral(f) then Some(Int(f.Floor)) else None
    case (FloatKind, Int(i)) => Some(Float(i as real))
    case _ => if Canonical(k, v) then Some(v) else None
  }

  /** The default of a field: `None` for the two required ones. */
  function Default(name: string, gen: Generated): (r: Option<Value>)
    requires IsField(name)
    ensures r.None? <==> name == "file_location" || name == "original_filename"
    ensures r.Some? ==> Canonical(KindOf(name).value, r.value)
  {
    if name == "task_id" then Some(Str(gen.id))
    else if name == "status" then Some(Str("pending"))
    else if name == "progress" then Some(Int(0))
    else if name == "created_at" then Some(Float(gen.now))
    else if name == "error_message" then Some(Null)
    else None
  }

  /** The validated value of one field, taken from `fields` or from its default. */
  function FieldValue(fields: map<string, Value>, name: string, gen: Generated): (r: Result<Value, ValidationError>)
    requires IsField(name)
    ensures r.Ok? ==> Canonical(KindOf(name).value, r.value)
  {
    if name in fields then
      match Validate(KindOf(name).value, fields[name])
      case Some(v) => Ok(v)
      case None => Err(WrongType(name))
    else
      match Default(name, gen)
      case Some(v) => Ok(v)
      case None => Err(Missing(name))
  }

  /** The fields of the record, in declaration order. */
  const FieldNames: seq<string> := ["task_id", "status", "progress", "file_location", "original_filename", "created_at", "error_message"]

  /** Validates the fields in `names`, in order, stopping at the first that fails. */
  function ValidateFields(fields: map<string, Value>, names: seq<string>, gen: Generated): (r: Result<map<string, Value>, ValidationError>)
    requires forall name :: name in names ==> IsField(name)
    ensures r.Ok? <==> forall name :: name in names ==> FieldValue(fields, name, gen).Ok?
    ensures r.Ok? ==> forall name :: name in r.value <==> name in names
    ensures r.Ok? ==> forall name :: name in names ==> r.value[name] == FieldValue(fields, name, gen).value
    decreases |names|
  {
    if names == [] then Ok(map[])
    else
      match FieldValue(fields, names[0], gen)
      case Err(e) => Err(e)
      case Ok(v) =>
        match ValidateFields(fields, names[1..], gen)
        case Err(e) => Err(e)
        case Ok(m) => Ok(m[names[0] := v])
  }

  /** The string held under `name`; validation guarantees there is one where it is used. */
  function StrAt(m: map<string, Value>, name: string): string
  {
    if name in m && m[name].Str? then m[name].s else ""
  }

  /**
   * The record whose dump is `m`, for a validated `m`. (On other maps the
   * missing parts read as "", 0 and 0.0; `FromFields` never builds those.)
   */
  function Record(m: map<string, Value>): TaskData
  {
    TaskData(
      StrAt(m, "task_id"),
      StrAt(m, "status"),
      if "progress" in m && m["progress"].Int? then m["progress"].i else 0,
      StrAt(m, "file_location"),
      StrAt(m, "original_filename"),
      if "created_at" in m && m["created_at"].Float? then m["created_at"].f else 0.0,
      if "error_message" in m && m["error_message"].Str? then Some(m["error_message"].s) else None)
  }

  /** `TaskData(**fields)`: builds a record or reports the first field that fails. */
  function FromFields(fields: map<string, Value>, gen: Generated): Result<TaskData, ValidationError>
  {
    match ValidateFields(fields, FieldNames, gen)
    case Err(e) => Err(e)
    case Ok(m) => Ok(Record(m))
  }

  /** `model_dump()`: the record as a field dictionary. */
  function ToFields(t: TaskData): (r: map<string, Value>)
    ensures forall name :: name in r <==> IsField(name)
    ensures forall name :: IsField(name) ==> name in r && Canonical(KindOf(name).value, r[name])
  {
    map[
      "task_id" := Str(t.taskId),
      "status" := Str(t.status),
      "progress" := Int(t.progress),
      "file_location" := Str(t.fileLocation),
      "original_filename" := Str(t.originalFilename),
      "created_at" := Float(t.createdAt),
      "error_message" := if t.errorMessage.None? then Null else Str(t.errorMessage.value)]
  }

  /** The record rebuilt from a dump has that dump. */
  lemma RecordDump(m: map<string, Value>)
    requires forall name :: IsField(name) ==> name in m && Canonical(KindOf(name).value, m[name])
    requires forall name :: name in m ==> IsField(name)
    ensures ToFields(Record(m)) == m
  {
    var d := ToFields(Record(m));
    forall name | name in m
      ensures name in d && d[name] == m[name]
    {
      if name == "task_id" {
      } else if name == "status" {
      } else if name == "progress" {
      } else if name == "file_location" {
      } else if name == "original_filename" {
      } else if name == "created_at" {
      } else {
        assert name == "error_message";
      }
    }
  }

  /** The declared list names exactly the fields of the record. */
  lemma FieldNamesAreFields()
    ensures forall name :: name in FieldNames <==> IsField(name)
  {
  }

  /** A successful build validates every field and is the record of the validated values. */
  lemma BuiltRecord(fields: map<string, Value>, gen: Generated)
    requires FromFields(fields, gen).Ok?
    ensures forall name :: IsField(name) ==> FieldValue(fields, name, gen).Ok?
    ensures forall name :: IsField(name) ==> ToFields(FromFields(fields, gen).value)[name] == FieldValue(fields, name, gen).value
  {
    FieldNamesAreFields();
    var m := ValidateFields(fields, FieldNames, gen).value;
    RecordDump(m);
  }

  /** Dumping a record and building it again gives back the same record, whatever the factories would produce. */
  lemma DumpRoundTrip(t: TaskData, gen: Generated)
    ensures FromFields(ToFields(t), gen) == Ok(t)
  {
    var f := ToFields(t);
    forall name | IsField(name)
      ensures FieldValue(f, name, gen) == Ok(f[name])
    {
    }
    FromFieldsOk(f, gen);
    BuiltRecord(f, gen);
    SameFields(FromFields(f, gen).value, t);
  }

  /** Two records with the same dump are the same record. */
  lemma DumpInjective(t: TaskData, u: TaskData)
    requires ToFields(t) == ToFields(u)
    ensures t == u
  {
    assert ToFields(t)["task_id"] == ToFields(u)["task_id"];
    assert ToFields(t)["status"] == ToFields(u)["status"];
    assert ToFields(t)["progress"] == ToFields(u)["progress"];
    assert ToFields(t)["file_location"] == ToFields(u)["file_location"];
    assert ToFields(t)["original_filename"] == ToFields(u)["original_filename"];
    assert ToFields(t)["created_at"] == ToFields(u)["created_at"];
    assert ToFields(t)["error_message"] == ToFields(u)["error_message"];
  }

  /** Records that agree on every field are the same record. */
  lemma SameFields(t: TaskData, u: TaskData)
    requires forall name :: IsField(name) ==> ToFields(t)[name] == ToFields(u)[name]
    ensures t == u
  {
    assert ToFields(t) == ToFields(u);
    DumpInjective(t, u);
  }

  /** The condition under which a dictionary builds a record: the two required fields are present and every field given validates. */
  predicate Acceptable(fields: map<string, Value>)
  {
    && "file_location" in fields
    && "original_filename" in fields
    && forall name :: name in fields && IsField(name) ==> Validate(KindOf(name).value, fields[name]).Some?
  }

  /** A record is built exactly when every field has a valid value or a default. */
  lemma FromFieldsOk(fields: map<string, Value>, gen: Generated)
    ensures FromFields(fields, gen).Ok? <==> forall name :: IsField(name) ==> FieldValue(fields, name, gen).Ok?
  {
    FieldNamesAreFields();
  }

  /** Each field of a built record is the value `FieldValue` chose for it. */
  lemma FromFieldsField(fields: map<string, Value>, gen: Generated, name: string)
    requires FromFields(fields, gen).Ok? && IsField(name)
    ensures FieldValue(fields, name, gen).Ok?
    ensures ToFields(FromFields(fields, gen).value)[name] == FieldValue(fields, name, gen).value
  {
    BuiltRecord(fields, gen);
  }

  lemma AcceptableFieldValues(fields: map<string, Value>, gen: Generated)
    ensures Acceptable(fields) <==> forall name :: IsField(name) ==> FieldValue(fields, name, gen).Ok?
  {
    if forall name :: IsField(name) ==> FieldValue(fields, name, gen).Ok? {
      assert FieldValue(fields, "file_location", gen).Ok?;
      assert FieldValue(fields, "original_filename", gen).Ok?;
      forall name | name in fields && IsField(name)
        ensures Validate(KindOf(name).value, fields[name]).Some?
      {
        assert FieldValue(fields, name, gen).Ok?;
      }
    }
  }

  /**
   * Building from a dictionary succeeds exactly when it is acceptable, and then
   * every field of the record is the validated given value or, when absent,
   * the default.
   */
  lemma FromFieldsMeaning(fields: map<string, Value>, gen: Generated)
    ensures FromFields(fields, gen).Ok? <==> Acceptable(fields)
    ensures FromFields(fields, gen).Ok? ==>
      forall name :: IsField(name) ==>
        ToFields(FromFields(fields, gen).value)[name] ==
          if name in fields then Validate(KindOf(name).value, fields[name]).value else Default(name, gen).value
  {
    FromFieldsOk(fields, gen);
    AcceptableFieldValues(fields, gen);
    if FromFields(fields, gen).Ok? {
      forall name | IsField(name)
        ensures ToFields(FromFields(fields, gen).value)[name] ==
          if name in fields then Validate(KindOf(name).value, fields[name]).value else Default(name, gen).value
      {
        FromFieldsField(fields, gen, name);
      }
    }
  }

  /** Dictionaries on which every listed field validates alike validate alike. */
  lemma {:induction false} ValidateFieldsAgree(f: map<string, Value>, g: map<string, Value>, names: seq<string>, gen: Generated)
    requires forall name :: name in names ==> IsField(name) && FieldValue(f, name, gen) == FieldValue(g, name, gen)
    ensures ValidateFields(f, names, gen) == ValidateFields(g, names, gen)
    decreases |names|
  {
    if names != [] {
      ValidateFieldsAgree(f, g, names[1..], gen);
    }
  }

  /** Keys that are not fields of the record are ignored. */
  lemma UnknownKeysIgnored(fields: map<string, Value>, key: string, v: Value, gen: Generated)
    requires !IsField(key)
    ensures FromFields(fields[key := v], gen) == FromFields(fields, gen)
  {
    var f' := fields[key := v];
    assert forall name :: IsField(name) ==> FieldValue(f', name, gen) == FieldValue(fields, name, gen);
    ValidateFieldsAgree(f', fields, FieldNames, gen);
  }

  /** The dictionary `create_task` passes: only the two required fields. */
  function RequiredOnly(fileLocation: string, originalFilename: string): map<string, Value>
  {
    map["file_location" := Str(fileLocation), "original_filename" := Str(originalFilename)]
  }

  /**
   * A fresh record: the id and timestamp come from the factories, the status is
   * "pending", progress 0, no error message, and the location and filename are
   * stored as given.
   */
  lemma FreshRecordDefaults(fileLocation: string, originalFilename: string, gen: Generated)
    ensures FromFields(RequiredOnly(fileLocation, originalFilename), gen)
      == Ok(TaskData(gen.id, "pending", 0, fileLocation, originalFilename, gen.now, None))
  {
    var f := RequiredOnly(fileLocation, originalFilename);
    var t := TaskData(gen.id, "pending", 0, fileLocation, originalFilename, gen.now, None);
    forall name | IsField(name)
      ensures FieldValue(f, name, gen) == Ok(ToFields(t)[name])
    {
      if name == "task_id" {
      } else if name == "status" {
      } else if name == "progress" {
      } else if name == "file_location" {
      } else if name == "original_filename" {
      } else if name == "created_at" {
      } else {
        assert name == "error_message";
      }
    }
    FromFieldsOk(f, gen);
    BuiltRecord(f, gen);
    SameFields(FromFields(f, gen).value, t);
  }
}
