/** Raw points as the source store returns them, reclassified points as the
    converter emits them, the fatal errors, and the two value conversions the
    converter applies: `str()` and the typed coercion of a field. */
module Points {
  import opened Wrappers
  import opened Schema

  /** A value of a raw point: what the store returns for a key. `Float` keeps a
      float opaque, as the text `str()` prints for it. */
  datatype Value = Null | Str(s: string) | Int(i: int) | Float(text: string) | Bool(b: bool)

  /** One key of a raw point with its value. */
  type Column = (string, Value)

  /** A raw point: its timestamp in microseconds and its keys with their values,
      in the point's own iteration order. */
  datatype RawPoint = RawPoint(time: int, columns: seq<Column>)

  /** A field value after coercion to its declared type. */
  datatype Typed = IntVal(i: int) | FloatVal(text: string) | StrVal(s: string)

  /** `int(v)` and `float(v)`: a typed value, or None where Python raises. */
  type Coercion = (FieldType, Value) -> Option<Typed>

  /** A reclassified point as it is handed to the sink. */
  datatype OutPoint = OutPoint(measurement: string, time: int,
                               tags: map<string, string>, fields: map<string, Typed>)

  /** The conditions that abort the whole conversion. */
  datatype Error =
    | UnknownMeasurement(name: string)   // the schema has no entry for the name
    | MissingTag(tag: string)            // a declared tag other than the excused server_id is absent
    | ShiftForbidden(name: string)       // a restricted measurement would need its timestamp moved
    | Unclassifiable(key: string)        // a key is neither a declared tag nor a declared field
    | CoercionFailed(key: string)        // a field value does not convert to its declared type

  function DigitChar(d: nat): (c: char)
    requires d < 10
    ensures '0' <= c <= '9'
  {
    ('0' as int + d) as char
  }

  /** The decimal text of a natural number, as Python's `str()` prints it. */
  function NatToString(n: nat): (s: string)
    ensures |s| >= 1 && (n >= 10 ==> |s| >= 2)
    ensures forall i :: 0 <= i < |s| ==> '0' <= s[i] <= '9'
  {
    if n < 10 then [DigitChar(n)] else NatToString(n / 10) + [DigitChar(n % 10)]
  }

  /** Distinct numbers print differently, so successive synthetic ids give
      distinct tag values. */
  lemma {:induction false} NatToStringInjective(a: nat, b: nat)
    requires NatToString(a) == NatToString(b)
    ensures a == b
  {
    var s := NatToString(a);
    if a < 10 && b < 10 {
      assert DigitChar(a) == s[0] == DigitChar(b);
    } else if 10 <= a && 10 <= b {
      assert NatToString(a / 10) == s[..|s| - 1] == NatToString(b / 10);
      NatToStringInjective(a / 10, b / 10);
      assert DigitChar(a % 10) == s[|s| - 1] == DigitChar(b % 10);
    }
  }

  /** Python's `str()` of a raw value. */
  function Show(v: Value): string {
    match v
    case Null => "None"
    case Str(s) => s
    case Int(i) => if i < 0 then "-" + NatToString(-i) else NatToString(i)
    case Float(text) => text
    case Bool(b) => if b then "True" else "False"
  }

  /** The value of key `k` in a raw point's columns, if the point has that key. */
  function Lookup(columns: seq<Column>, k: string): (r: Option<Value>)
    ensures r.Some? <==> exists i :: 0 <= i < |columns| && columns[i].0 == k
  {
    if columns == [] then None
    else if columns[0].0 == k then Some(columns[0].1)
    else Lookup(columns[1..], k)
  }

  /** No two columns share a key, as in the dictionary a raw point is read from. */
  predicate UniqueKeys(columns: seq<Column>) {
    forall a, b :: 0 <= a < b < |columns| ==> columns[a].0 != columns[b].0
  }

  /** With unique keys, looking up a column's key finds that column's value. */
  lemma {:induction false} LookupFinds(columns: seq<Column>, j: int)
    requires UniqueKeys(columns) && 0 <= j < |columns|
    ensures Lookup(columns, columns[j].0) == Some(columns[j].1)
    decreases j
  {
    if j > 0 {
      var rest := columns[1..];
      assert columns[0].0 != columns[j].0 && rest[j - 1] == columns[j];
      assert UniqueKeys(rest) by {
        forall a, b | 0 <= a < b < |rest| ensures rest[a].0 != rest[b].0 {
          assert rest[a] == columns[a + 1] && rest[b] == columns[b + 1];
        }
      }
      LookupFinds(rest, j - 1);
    }
  }

  function KindOf(x: Typed): FieldType {
    match x
    case IntVal(_) => IntType
    case FloatVal(_) => FloatType
    case StrVal(_) => StrType
  }

  /** A coercion that, where it succeeds, yields a value of the requested type. */
  ghost predicate Sound(coerce: Coercion) {
    forall t, v :: coerce(t, v).Some? ==> KindOf(coerce(t, v).value) == t
  }

  /** Calling the declared type on a value: `str` always succeeds with the
      printed text, `int` and `float` are left to the coercion. */
  function Coerce(coerce: Coercion, t: FieldType, v: Value): (r: Option<Typed>)
    ensures t == StrType ==> r == Some(StrVal(Show(v)))
    ensures Sound(coerce) && r.Some? ==> KindOf(r.value) == t
  {
    if t == StrType then Some(StrVal(Show(v))) else coerce(t, v)
  }
}
