/**
 * The field rules the serializers rely on, as Django REST framework applies
 * them to the declared and model-derived fields: required or optional, null
 * and blank allowed or not, maximum lengths, slug syntax, and primary keys
 * that must name an existing row.
 */
module Fields {
  import opened Base
  import opened Json

  /** The error detail of one field; the errors of a payload are keyed by field name. */
  datatype FieldError =
    | Required
    | NotNull
    | Blank
    | MaxLength(limit: nat)
    | InvalidSlug
    | IncorrectType
    | NotAList
    | DoesNotExist(pk: Uuid)
    | PasswordsDoNotMatch

  type Errors = map<string, FieldError>

  /** Whether an optional field was present in the payload. */
  datatype Field<+T> = Absent | Given(value: T)

  /** Two payloads agree on one key: both lack it, or both hold the same value there. */
  predicate SameEntry(p: map<string, Json>, q: map<string, Json>, key: string)
  {
    (key in p <==> key in q) && (key in p ==> p[key] == q[key])
  }

  /** A missing field error when required, otherwise the field is simply absent. */
  function Missing<T>(required: bool): (r: Result<Field<T>, FieldError>)
    ensures r.Failure? <==> required
    ensures r.Success? ==> r.value == Absent
  {
    if required then Failure(Required) else Success(Absent)
  }

  /** A text value: null only when allowed, the empty string only when blank is allowed, at most maxLength characters. */
  function ParseText(j: Json, allowBlank: bool, allowNull: bool, maxLength: Option<nat>): (r: Result<Option<string>, FieldError>)
    ensures r.Success? <==>
      (j.JNull? && allowNull) ||
      (j.JString? && (j.text != "" || allowBlank) && (maxLength.None? || |j.text| <= maxLength.value))
    ensures r.Success? ==> r.value == (if j.JNull? then None else Some(j.text))
  {
    match j
    case JNull => if allowNull then Success(None) else Failure(NotNull)
    case JString(s) =>
      if s == "" then (if allowBlank then Success(Some("")) else Failure(Blank))
      else if maxLength.Some? && |s| > maxLength.value then Failure(MaxLength(maxLength.value))
      else Success(Some(s))
    case _ => Failure(IncorrectType)
  }

  /** A text field of a payload; `maxLength` is the column's max_length (None for a TextField). */
  function TextField(p: map<string, Json>, key: string, required: bool, allowBlank: bool, allowNull: bool, maxLength: Option<nat>)
    : (r: Result<Field<Option<string>>, FieldError>)
    ensures key !in p ==> r == Missing(required)
    ensures key in p ==> (r.Success? <==> ParseText(p[key], allowBlank, allowNull, maxLength).Success?)
    ensures key in p && r.Success? ==> r.value == Given(ParseText(p[key], allowBlank, allowNull, maxLength).value)
  {
    if key !in p then Missing(required)
    else match ParseText(p[key], allowBlank, allowNull, maxLength)
      case Success(v) => Success(Given(v))
      case Failure(e) => Failure(e)
  }

  predicate IsSlugChar(c: char)
  {
    c == '-' || c == '_' || ('a' <= c <= 'z') || ('A' <= c <= 'Z') || ('0' <= c <= '9')
  }

  /** The slug syntax `^[-a-zA-Z0-9_]+$`. */
  predicate IsSlug(s: string)
  {
    |s| > 0 && forall i :: 0 <= i < |s| ==> IsSlugChar(s[i])
  }

  /** A slug field (blank allowed, not null): the empty string, or a slug of at most maxLength characters. */
  function SlugField(p: map<string, Json>, key: string, maxLength: nat): (r: Result<Field<string>, FieldError>)
    ensures key !in p ==> r == Success(Absent)
    ensures key in p ==> (r.Success? <==> p[key].JString? && (p[key].text == "" || (IsSlug(p[key].text) && |p[key].text| <= maxLength)))
    ensures key in p && r.Success? ==> r.value == Given(p[key].text)
  {
    if key !in p then Success(Absent)
    else match p[key]
      case JNull => Failure(NotNull)
      case JString(s) =>
        if s == "" then Success(Given(""))
        else if !IsSlug(s) then Failure(InvalidSlug)
        else if |s| > maxLength then Failure(MaxLength(maxLength))
        else Success(Given(s))
      case _ => Failure(IncorrectType)
  }

  /** A primary key that must name a row of `table`. */
  function ResolvePk<V>(table: map<Uuid, V>, j: Json): (r: Result<Uuid, FieldError>)
    ensures r.Success? <==> j.JUuid? && j.uuid in table
    ensures r.Success? ==> r.value == j.uuid
    ensures j.JUuid? && j.uuid !in table ==> r == Failure(DoesNotExist(j.uuid))
  {
    match j
    case JNull => Failure(NotNull)
    case JUuid(id) => if id in table then Success(id) else Failure(DoesNotExist(id))
    case _ => Failure(IncorrectType)
  }

  /** A list of primary keys, each of which must name a row; the first one that does not is reported. */
  function ResolvePks<V>(table: map<Uuid, V>, items: seq<Json>): (r: Result<seq<Uuid>, FieldError>)
    ensures r.Success? <==> forall i :: 0 <= i < |items| ==> items[i].JUuid? && items[i].uuid in table
    ensures r.Success? ==> |r.value| == |items| && forall i :: 0 <= i < |items| ==> r.value[i] == items[i].uuid
  {
    if items == [] then Success([])
    else match ResolvePk(table, items[0])
      case Failure(e) => Failure(e)
      case Success(id) =>
        match ResolvePks(table, items[1..])
        case Failure(e) => Failure(e)
        case Success(ids) =>
          assert forall i :: 1 <= i < |items| ==> items[i] == items[1..][i - 1];
          Success([id] + ids)
  }

  /** A many-to-many key list field: must be a list when present. */
  function PkListField<V>(table: map<Uuid, V>, p: map<string, Json>, key: string, required: bool)
    : (r: Result<Field<seq<Uuid>>, FieldError>)
    ensures key !in p ==> r == Missing(required)
    ensures key in p ==> (r.Success? <==> p[key].JArray? && ResolvePks(table, p[key].items).Success?)
    ensures key in p && r.Success? ==> r.value == Given(ResolvePks(table, p[key].items).value)
  {
    if key !in p then Missing(required)
    else match p[key]
      case JArray(items) =>
        (match ResolvePks(table, items)
         case Success(ids) => Success(Given(ids))
         case Failure(e) => Failure(e))
      case JNull => Failure(NotNull)
      case _ => Failure(NotAList)
  }

  /** The error map entry of one field's outcome. */
  function ErrorOf<T>(key: string, r: Result<T, FieldError>): (e: Errors)
    ensures e.Keys == if r.Failure? then {key} else {}
    ensures r.Failure? ==> e[key] == r.error
  {
    if r.Failure? then map[key := r.error] else map[]
  }

  /** The text of a field that does not allow null. */
  function NonNull(f: Field<Option<string>>): (g: Field<string>)
    ensures f.Given? && f.value.Some? ==> g == Given(f.value.value)
    ensures f.Absent? ==> g.Absent?
  {
    if f.Given? && f.value.Some? then Given(f.value.value) else Absent
  }

  function FieldOr<T>(f: Field<T>, current: T): (v: T)
    ensures f.Given? ==> v == f.value
    ensures f.Absent? ==> v == current
  {
    if f.Given? then f.value else current
  }
}
