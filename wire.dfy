/** The objects that client and server exchange: serialized Java values and
    the string-keyed maps (request and response "envelopes") that carry them. */
module Wire {

  datatype Option<T> = None | Some(value: T)

  /** A Java reference that may be null. */
  datatype Nullable<T> = NullRef | Ref(deref: T)

  /** The runtime classes the model distinguishes (java.lang.Integer, Long,
      Boolean, String, java.util.Date and Object[]). */
  datatype Tag = IntegerClass | LongClass | BooleanClass | StringClass | DateClass | ObjectArrayClass

  /** A serialized Java object: null or one of the kinds the services exchange. */
  datatype Value =
    | Null
    | Int(i: int)
    | Long(l: int)
    | Bool(b: bool)
    | Str(s: string)
    | Date(millis: int)
    | Array(elems: seq<Value>)

  /** A `Map<String, Object>` as written to and read from the object streams. */
  type Envelope = map<string, Value>

  /** `Map.get`: null when the key is absent. */
  function Get(m: Envelope, key: string): (v: Value)
    ensures key !in m ==> v.Null?
    ensures !v.Null? ==> key in m && m[key] == v
  {
    if key in m then m[key] else Null
  }

  /** `v.getClass()`; None when `v` is null and the call throws NullPointerException. */
  function ClassOf(v: Value): (t: Option<Tag>)
    ensures t.None? <==> v.Null?
    ensures v.Int? <==> t == Some(IntegerClass)
    ensures v.Array? <==> t == Some(ObjectArrayClass)
  {
    match v
    case Null => None
    case Int(_) => Some(IntegerClass)
    case Long(_) => Some(LongClass)
    case Bool(_) => Some(BooleanClass)
    case Str(_) => Some(StringClass)
    case Date(_) => Some(DateClass)
    case Array(_) => Some(ObjectArrayClass)
  }

  /** `(int) v`: unboxing an Integer; None when `v` is null (NullPointerException)
      or of another class (ClassCastException). */
  function CastInt(v: Value): (r: Option<int>)
    ensures r.Some? <==> v.Int?
    ensures r.Some? ==> Int(r.value) == v
  {
    if v.Int? then Some(v.i) else None
  }

  /** `(String) v`; None on ClassCastException. */
  function CastString(v: Value): (r: Option<Nullable<string>>)
    ensures r.Some? <==> v.Null? || v.Str?
    ensures r.Some? ==> StringValue(r.value) == v
  {
    match v
    case Null => Some(NullRef)
    case Str(s) => Some(Ref(s))
    case _ => None
  }

  /** `(Object[]) v`; None on ClassCastException. */
  function CastArray(v: Value): (r: Option<Nullable<seq<Value>>>)
    ensures r.Some? <==> v.Null? || v.Array?
    ensures r.Some? ==> ArrayValue(r.value) == v
  {
    match v
    case Null => Some(NullRef)
    case Array(elems) => Some(Ref(elems))
    case _ => None
  }

  /** Storing a possibly null String into a map. */
  function StringValue(s: Nullable<string>): Value
  {
    match s
    case NullRef => Null
    case Ref(t) => Str(t)
  }

  /** Storing a possibly null Object[] into a map. */
  function ArrayValue(a: Nullable<seq<Value>>): Value
  {
    match a
    case NullRef => Null
    case Ref(elems) => Array(elems)
  }
}
