/** jsonb values and the operators the migrations use on them. */
module Json {
  import opened Basics

  /** Numbers are exact, as `numeric` is. A present `null` is `JNull`, a missing SQL value is `None`. */
  datatype Json =
    | JNull
    | JBool(bit: bool)
    | JNumber(number: real)
    | JString(text: string)
    | JArray(elements: seq<Json>)
    | JObject(fields: Object)

  type Object = map<string, Json>

  /** The text a number, boolean, array or object is printed as by `->>`. */
  type Rendering = Json -> string

  /** One argument of `jsonb_build_object`: an SQL NULL becomes a JSON null. */
  function Field(v: Option<Json>): Json {
    v.GetOr(JNull)
  }

  function TextField(v: Option<string>): Json {
    if v.Some? then JString(v.value) else JNull
  }

  /** `jsonb_strip_nulls`: object members that are null go, at every depth; null array elements stay. */
  function StripNulls(j: Json): Json
    decreases j
  {
    match j
    case JObject(fields) => JObject(map k | k in fields && fields[k] != JNull :: StripNulls(fields[k]))
    case JArray(elements) => JArray(seq(|elements|, i requires 0 <= i < |elements| => StripNulls(elements[i])))
    case _ => j
  }

  function StripObject(fields: Object): Object {
    map k | k in fields && fields[k] != JNull :: StripNulls(fields[k])
  }

  /** `j -> key` */
  function Get(j: Option<Json>, key: string): Option<Json> {
    if j.Some? && j.value.JObject? && key in j.value.fields then Some(j.value.fields[key]) else None
  }

  /** `j ->> key` */
  function GetText(j: Option<Json>, key: string, render: Rendering): Option<string> {
    match Get(j, key)
    case None => None
    case Some(JNull) => None
    case Some(JString(text)) => Some(text)
    case Some(v) => Some(render(v))
  }

  /** `NULLIF(text, '')` */
  function NonEmpty(v: Option<string>): Option<string> {
    if v == Some("") then None else v
  }

  /** `NULLIF(object, '{}')` */
  function NonEmptyObject(fields: Object): Option<Json> {
    if fields == map[] then None else Some(JObject(fields))
  }

  /** No object anywhere inside has a null member. */
  predicate NullFree(j: Json)
    decreases j
  {
    match j
    case JObject(fields) => forall k :: k in fields ==> fields[k] != JNull && NullFree(fields[k])
    case JArray(elements) => forall i :: 0 <= i < |elements| ==> NullFree(elements[i])
    case _ => true
  }

  /** Stripping leaves no null member, and changes a value exactly when it had one. */
  lemma {:induction false} StripIff(j: Json)
    ensures NullFree(StripNulls(j))
    ensures StripNulls(j) == j <==> NullFree(j)
    ensures StripNulls(j) == JNull <==> j == JNull
    decreases j
  {
    match j
    case JObject(fields) =>
      forall k | k in fields
        ensures NullFree(StripNulls(fields[k])) && (StripNulls(fields[k]) == fields[k] <==> NullFree(fields[k]))
        ensures StripNulls(fields[k]) == JNull <==> fields[k] == JNull
      {
        StripIff(fields[k]);
      }
      var stripped := StripNulls(j).fields;
      if StripNulls(j) == j {
        assert stripped == fields;
        forall k | k in fields ensures fields[k] != JNull && NullFree(fields[k]) {
          assert k in stripped;
        }
      }
      assert NullFree(j) ==> stripped == fields;
    case JArray(elements) =>
      forall i | 0 <= i < |elements|
        ensures NullFree(StripNulls(elements[i])) && (StripNulls(elements[i]) == elements[i] <==> NullFree(elements[i]))
      {
        StripIff(elements[i]);
      }
      var stripped := StripNulls(j).elements;
      if StripNulls(j) == j {
        forall i | 0 <= i < |elements| ensures NullFree(elements[i]) {
          assert stripped[i] == elements[i];
        }
      }
      assert NullFree(j) ==> stripped == elements;
    case _ =>
  }

  /** What stripping leaves: the members that are not null and every element, each stripped; else the value itself. */
  lemma StripMembers(j: Json)
    ensures j.JObject? ==>
      && StripNulls(j).JObject?
      && forall k :: Get(Some(StripNulls(j)), k)
                     == if k in j.fields && j.fields[k] != JNull then Some(StripNulls(j.fields[k])) else None
    ensures j.JArray? ==>
      && StripNulls(j).JArray? && |StripNulls(j).elements| == |j.elements|
      && forall i :: 0 <= i < |j.elements| ==> StripNulls(j).elements[i] == StripNulls(j.elements[i])
    ensures !j.JObject? && !j.JArray? ==> StripNulls(j) == j
  {
  }

  /** A member read as text: nothing for a null, a string without its quotes, anything else as it is printed. */
  lemma TextOfMember(j: Option<Json>, key: string, render: Rendering)
    ensures GetText(j, key, render).None? <==>
      !(j.Some? && j.value.JObject? && key in j.value.fields && j.value.fields[key] != JNull)
    ensures GetText(j, key, render).Some? ==>
      var v := j.value.fields[key];
      GetText(j, key, render).value == if v.JString? then v.text else render(v)
  {
  }

  lemma StripTwice(j: Json)
    ensures StripNulls(StripNulls(j)) == StripNulls(j)
  {
    StripIff(j);
    StripIff(StripNulls(j));
  }
}
