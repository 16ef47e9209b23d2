/** JavaScript values as the contract-object normaliser sees them.

    Objects are finite maps from property name to value.  A property may be
    present and hold `Undefined` (the normaliser writes such keys), which is
    different from being absent; reading an absent property yields `Undefined`.
    Numbers are integers: the normaliser tests them for truthiness, turns them
    into property names, joins them into the string of a prefixed array
    bytecode, and passes them to the date conversion. */
module JsValues {

  datatype Option<+T> = None | Some(value: T)

  datatype Value =
    | Undefined
    | Null
    | Bool(b: bool)
    | Num(n: int)
    | Str(s: string)
    | Arr(elems: seq<Value>)
    | Obj(fields: map<string, Value>)

  const EmptyObject: Value := Obj(map[])

  /** The TypeErrors the normaliser raises and does not catch. */
  datatype Failure =
    | KeysOfNullish        // `Object.keys(x)` with `x` null or undefined
    | IndexOfNotAFunction  // `value.indexOf(...)` on a truthy value that has no indexOf method
    | SetOnNullish         // `x[k] = v` with `x` null or undefined

  datatype Result<+T> = Ok(value: T) | Err(failure: Failure)

  /** JavaScript truthiness: "", 0, false, null and undefined are falsy. */
  predicate Truthy(v: Value) {
    match v
    case Undefined => false
    case Null => false
    case Bool(b) => b
    case Num(n) => n != 0
    case Str(s) => s != ""
    case Arr(_) => true
    case Obj(_) => true
  }

  /** Loose equality with undefined: `v == undefined`. */
  predicate Nullish(v: Value) {
    v.Undefined? || v.Null?
  }

  /** The JavaScript expression `a || b`. */
  function Or(a: Value, b: Value): (r: Value)
    ensures Truthy(b) ==> Truthy(r)
    ensures Truthy(a) ==> r == a
  {
    if Truthy(a) then a else b
  }

  /** Reading property `k` of an object: `obj[k]`. */
  function Lookup(m: map<string, Value>, k: string): Value {
    if k in m then m[k] else Undefined
  }

  /** The getter built by `getter(key)`: reads `v[key]`, and a failing read
      (of null or undefined) is caught and gives `Undefined`.  Reads on other
      non-objects give `Undefined` as well. */
  function Getter(key: string, v: Value): (r: Value)
    ensures !v.Obj? ==> r == Undefined
    ensures v.Obj? ==> (r != Undefined <==> key in v.fields && v.fields[key] != Undefined)
  {
    match v
    case Obj(m) => Lookup(m, key)
    case _ => Undefined
  }

  /** The property names of the indices `0`, ..., `n - 1` of a string or an
      array: their decimal spellings. */
  function IndexKeys(n: nat): (r: set<string>)
    ensures r == {} <==> n == 0
    ensures forall k :: k in r ==> !IsCustomKey(k)
  {
    var r := set i: nat | i < n :: NatToDecimal(i);
    assert n > 0 ==> NatToDecimal(0) in r;
    r
  }

  /** Whether `Object.keys(v)` lists any key: an object with a property, or
      a non-empty string or array. */
  predicate HasOwnKey(v: Value) {
    (v.Obj? && v.fields != map[]) || (v.Str? && v.s != "") || (v.Arr? && v.elems != [])
  }

  /** `Object.keys(v)` as a set: it throws on null and undefined, lists the
      indices of a string or an array, and nothing for a number or a
      boolean. */
  function OwnKeys(v: Value): (r: Result<set<string>>)
    ensures r.Err? <==> Nullish(v)
    ensures v.Obj? ==> r == Ok(v.fields.Keys)
  {
    match v
    case Undefined => Err(KeysOfNullish)
    case Null => Err(KeysOfNullish)
    case Obj(m) => Ok(m.Keys)
    case Str(s) => Ok(IndexKeys(|s|))
    case Arr(a) => Ok(IndexKeys(|a|))
    case _ => Ok({})
  }

  /** The keys `Object.keys` lists for a value that is not an object: the
      indices of a string or an array, none of them an extension key, and
      nothing for a number or a boolean.  Some key is listed exactly when
      `HasOwnKey` holds. */
  lemma OwnKeysListed(v: Value)
    requires !Nullish(v)
    ensures v.Str? ==> OwnKeys(v) == Ok(IndexKeys(|v.s|))
    ensures v.Arr? ==> OwnKeys(v) == Ok(IndexKeys(|v.elems|))
    ensures v.Bool? || v.Num? ==> OwnKeys(v) == Ok({})
    ensures OwnKeys(v).value != {} <==> HasOwnKey(v)
    ensures !v.Obj? ==> forall k :: k in OwnKeys(v).value ==> !IsCustomKey(k)
  {
    if v.Obj? && v.fields != map[] {
      var k :| k in v.fields;
      assert k in OwnKeys(v).value;
    }
  }

  /** `s.indexOf(prefix) == 0`. */
  predicate StartsWith(s: string, prefix: string) {
    |prefix| <= |s| && s[..|prefix|] == prefix
  }

  /** The extension keys that `copyCustomOptions` lets through: those for
      which `key.indexOf("x-") == 0`. */
  predicate IsCustomKey(k: string) {
    |k| >= 2 && k[0] == 'x' && k[1] == '-'
  }

  lemma CustomKeyPrefix(k: string)
    ensures IsCustomKey(k) <==> StartsWith(k, "x-")
  {
    if |k| >= 2 {
      assert k[..2][0] == k[0] && k[..2][1] == k[1];
      assert IsCustomKey(k) ==> k[..2] == "x-";
    }
  }

  function DigitChar(d: nat): char
    requires d < 10
  {
    "0123456789"[d]
  }

  /** The decimal spelling of a natural number. */
  function NatToDecimal(n: nat): (r: string)
    ensures |r| >= 1
    ensures forall i :: 0 <= i < |r| ==> '0' <= r[i] <= '9'
    decreases n
  {
    if n < 10 then [DigitChar(n)] else NatToDecimal(n / 10) + [DigitChar(n % 10)]
  }

  /** `String(n)` for an integer `n`. */
  function IntToDecimal(n: int): string {
    if n < 0 then "-" + NatToDecimal(-n) else NatToDecimal(n)
  }

  /** `String(v)`: the conversion JavaScript applies when a value becomes a
      property name (`networks[network_id]`) or is concatenated to a string. */
  function ToJsString(v: Value): string
    decreases v
  {
    match v
    case Undefined => "undefined"
    case Null => "null"
    case Bool(b) => if b then "true" else "false"
    case Num(n) => IntToDecimal(n)
    case Str(s) => s
    case Arr(a) => JoinElems(a)
    case Obj(_) => "[object Object]"
  }

  /** `Array.prototype.join(",")`: null and undefined elements become "". */
  function JoinElems(a: seq<Value>): string
    decreases a
  {
    if a == [] then ""
    else
      var head := if Nullish(a[0]) then "" else ToJsString(a[0]);
      if |a| == 1 then head else head + "," + JoinElems(a[1..])
  }

  /** The entries of `m` outside `s` grow by one when `k` leaves `s`. */
  lemma ExceptOneLess(m: map<string, Value>, s: set<string>, k: string)
    requires k in s
    ensures m - (s - {k}) == if k in m then (m - s)[k := m[k]] else m - s
  {
    var lhs := m - (s - {k});
    var rhs := if k in m then (m - s)[k := m[k]] else m - s;
    assert lhs.Keys == rhs.Keys;
  }
}
