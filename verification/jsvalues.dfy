/** The JavaScript values the tracker handles: what `JSON.parse` returns,
    `undefined`, truthiness, property access with and without optional
    chaining, and the string conversion `String(v)` that both a regex `test`
    and the `+` operator apply to a non-string operand. */
module JsValues {
  import opened Text

  /** A value `JSON.parse` can produce. Numbers are integers here. */
  datatype Json =
    | Null
    | Bool(b: bool)
    | Num(n: int)
    | Str(s: string)
    | Arr(items: seq<Json>)
    | Obj(fields: map<string, Json>)

  /** A parsed JSON object: one product record as found in the page. */
  type Record = map<string, Json>

  /** A property read yields a JSON value or `undefined`. */
  datatype JsVal = Undefined | Def(json: Json)

  /** `null` or `undefined`: the values a property access throws on. */
  predicate Nullish(v: JsVal)
  {
    v == Undefined || v == Def(Null)
  }

  /** The values JSON can produce that JavaScript converts to `false`.
      `JSON.parse` turns `-0` into negative zero, which is falsy; with integer
      numbers it is `Num(0)` here, also falsy. `NaN` is not a JSON value. */
  const Falsy: set<JsVal> := {Undefined, Def(Null), Def(Bool(false)), Def(Num(0)), Def(Str(""))}

  /** JavaScript truthiness of a value. */
  predicate Truthy(v: JsVal)
    ensures Truthy(v) <==> v !in Falsy
  {
    match v
    case Undefined => false
    case Def(j) =>
      match j
      case Null => false
      case Bool(b) => b
      case Num(n) => n != 0
      case Str(s) => s != ""
      case Arr(_) => true
      case Obj(_) => true
  }

  /** `record.key` on a parsed object */
  function Field(r: Record, key: string): (v: JsVal)
    ensures v == Undefined <==> key !in r
    ensures key in r ==> v.json == r[key]
  {
    if key in r then Def(r[key]) else Undefined
  }

  /** The outcome of evaluating an expression that may throw. */
  datatype Completion<T> = Normal(value: T) | Throw

  /** `v.key`: throws on `null` and `undefined`; a primitive or an array has
      none of the keys this program reads. */
  function Member(v: JsVal, key: string): (c: Completion<JsVal>)
    ensures c == Throw <==> Nullish(v)
    ensures v.Def? && v.json.Obj? ==> c == Normal(Field(v.json.fields, key))
    ensures !Nullish(v) && !v.json.Obj? ==> c == Normal(Undefined)
  {
    match v
    case Undefined => Throw
    case Def(j) =>
      match j
      case Null => Throw
      case Obj(m) => Normal(Field(m, key))
      case _ => Normal(Undefined)
  }

  /** `v?.key`: `undefined` when `v` is nullish, a plain read otherwise. */
  function OptionalMember(v: JsVal, key: string): (r: JsVal)
    ensures Nullish(v) ==> r == Undefined
    ensures !Nullish(v) ==> Member(v, key) == Normal(r)
  {
    match Member(v, key)
    case Throw => Undefined
    case Normal(x) => x
  }

  /** `String(v)`; an array renders as its elements joined by commas, with
      `null` elements as empty text. */
  function ToJsString(v: JsVal): (s: string)
    ensures v == Undefined ==> s == "undefined"
    ensures v == Def(Null) ==> s == "null"
    ensures v.Def? && v.json.Str? ==> s == v.json.s
    ensures v.Def? && v.json.Bool? ==> s == (if v.json.b then "true" else "false")
    ensures v.Def? && v.json.Num? ==> |s| >= 1 && forall k :: 0 <= k < |s| ==> s[k] == '-' || '0' <= s[k] <= '9'
    ensures v.Def? && v.json.Num? && v.json.n >= 0 ==> s[0] != '-' && DigitsValue(s) == v.json.n
    ensures v.Def? && v.json.Num? && v.json.n < 0 ==> |s| >= 2 && s[0] == '-' && DigitsValue(s[1..]) == -v.json.n
    ensures v.Def? && v.json.Num? ==> s == IntToString(v.json.n)
    ensures v.Def? && v.json.Obj? ==> s == "[object Object]"
    ensures v == Def(Arr([])) ==> s == ""
    ensures v.Def? && v.json.Arr? && |v.json.items| == 1 ==> s == ElementText(v.json.items[0])
    ensures v.Def? && v.json.Arr? && |v.json.items| >= 2 ==>
              s == ElementText(v.json.items[0]) + "," + JsonToString(Arr(v.json.items[1..]))
  {
    match v
    case Undefined => "undefined"
    case Def(j) => ArrayRenderingSplits(j); JsonToString(j)
  }

  /** An array of two or more elements renders as its first element, a comma,
      and the rendering of the remaining elements. */
  lemma ArrayRenderingSplits(j: Json)
    ensures j.Arr? && |j.items| >= 2 ==>
              JsonToString(j) == ElementText(j.items[0]) + "," + JsonToString(Arr(j.items[1..]))
  {
    if j.Arr? && |j.items| >= 2 {
      var items := j.items;
      RenderedItemsTail(items);
      assert JsonToString(Arr(items[1..])) == Join(RenderedItems(items)[1..], ",");
      assert RenderedItems(items)[0] == ElementText(items[0]);
    }
  }

  /** The texts `join` glues together for an array, one per element. */
  function RenderedItems(items: seq<Json>): (parts: seq<string>)
    ensures |parts| == |items|
    ensures JsonToString(Arr(items)) == Join(parts, ",")
  {
    seq(|items|, i requires 0 <= i < |items| => ElementText(items[i]))
  }

  /** Dropping the first element drops its text. */
  lemma RenderedItemsTail(items: seq<Json>)
    ensures |items| >= 1 ==> RenderedItems(items)[1..] == RenderedItems(items[1..])
  {
    if |items| >= 1 {
      var parts := RenderedItems(items);
      var rest := RenderedItems(items[1..]);
      forall k | 0 <= k < |rest| ensures parts[1..][k] == rest[k] {
        assert items[1..][k] == items[k + 1];
      }
    }
  }

  function JsonToString(j: Json): string
    decreases j, 0
  {
    match j
    case Null => "null"
    case Bool(b) => if b then "true" else "false"
    case Num(n) => IntToString(n)
    case Str(s) => s
    case Arr(items) =>
      Join(seq(|items|, i requires 0 <= i < |items| => ElementText(items[i])), ",")
    case Obj(_) => "[object Object]"
  }

  /** How `Array.prototype.join` renders one element: `null` and `undefined`
      become empty text, anything else its `String` form. */
  function JoinElement(v: JsVal): (s: string)
    ensures Nullish(v) ==> s == ""
    ensures !Nullish(v) ==> s == ToJsString(v)
  {
    match v
    case Undefined => ""
    case Def(j) => ElementText(j)
  }

  /** How a parsed array element renders inside `join`: `null` becomes empty
      text, anything else its `String` form. */
  function ElementText(j: Json): string
    decreases j, 1
  {
    if j == Null then "" else JsonToString(j)
  }
}
