/**
 * The JavaScript values the bot passes around as configuration, language
 * data and JSON resources, with the few operations its code applies to
 * them: truthiness, property reads, `Object.keys`, the type tests in the
 * field setters and in `Resource#isObject`.
 */
module JsValues {
  import opened Wrappers
  import opened Strings

  /**
   * A JavaScript value. `Obj` is an object literal or parsed JSON object
   * (its inherited constructor is `Object`, unless an own `constructor`
   * property hides it), `Instance` any other object with own properties (a class
   * instance such as a `Collection`), `StringObject` a `new String(..)`
   * wrapper. Numbers are integers; property order is not kept.
   */
  datatype JsValue =
    | Undefined
    | Null
    | Bool(b: bool)
    | Num(n: int)
    | Str(s: string)
    | StringObject(text: string)
    | Arr(elems: seq<JsValue>)
    | Obj(props: map<string, JsValue>)
    | Instance(fields: map<string, JsValue>)

  /** `undefined` or `null`: the values whose property reads throw. */
  predicate Nullish(v: JsValue) {
    v.Undefined? || v.Null?
  }

  /** The empty plain object `{}`. */
  const EmptyObject: JsValue := Obj(map[])

  /** JavaScript truthiness: `undefined`, `null`, `false`, `0` and `""` are falsy. */
  predicate Truthy(v: JsValue) {
    match v
    case Undefined => false
    case Null => false
    case Bool(b) => b
    case Num(n) => n != 0
    case Str(s) => s != ""
    case _ => true
  }

  /** `typeof v === "object"`: true for `null` as well as for every object. */
  predicate TypeofObject(v: JsValue) {
    v.Null? || v.StringObject? || v.Arr? || v.Obj? || v.Instance?
  }

  /**
   * The key-to-element map `Object.keys` and property reads see in a
   * sequence: element `i` under the key `String(i)`.
   */
  function IndexEntries(xs: seq<JsValue>): map<string, JsValue> {
    if xs == [] then map[]
    else IndexEntries(xs[..|xs| - 1])[NatToString(|xs| - 1) := xs[|xs| - 1]]
  }

  /** Every key of `IndexEntries(xs)` is `String(i)` of an index `i`, and holds `xs[i]`. */
  lemma {:induction false} IndexEntriesKey(xs: seq<JsValue>, k: string)
    requires k in IndexEntries(xs)
    ensures 0 <= DigitsValue(k) < |xs| && k == NatToString(DigitsValue(k))
    ensures IndexEntries(xs)[k] == xs[DigitsValue(k)]
  {
    var n := |xs| - 1;
    if k != NatToString(n) {
      IndexEntriesKey(xs[..n], k);
    }
  }

  /** Every index `i` of `xs` is a key of `IndexEntries(xs)`, holding `xs[i]`. */
  lemma {:induction false} IndexEntriesAt(xs: seq<JsValue>, i: nat)
    requires i < |xs|
    ensures NatToString(i) in IndexEntries(xs) && IndexEntries(xs)[NatToString(i)] == xs[i]
  {
    var n := |xs| - 1;
    if i < n {
      IndexEntriesAt(xs[..n], i);
      assert DigitsValue(NatToString(i)) != DigitsValue(NatToString(n));
    }
  }

  /** The one-character strings a string's indices read. */
  function Chars(s: string): (r: seq<JsValue>)
    ensures |r| == |s|
  {
    if s == [] then [] else [Str([s[0]])] + Chars(s[1..])
  }

  /** Index `i` of a string reads its `i`-th character as a string. */
  lemma {:induction false} CharsAt(s: string, i: nat)
    requires i < |s|
    ensures Chars(s)[i] == Str([s[i]])
  {
    if i > 0 {
      CharsAt(s[1..], i - 1);
    }
  }

  /**
   * The own enumerable properties of `v`, as `Object.keys(v)` lists them and
   * `v[key]` reads them: an object's properties, an array's or a string's
   * indices; numbers and booleans have none.
   */
  function OwnEntries(v: JsValue): map<string, JsValue> {
    match v
    case Obj(m) => m
    case Instance(m) => m
    case Arr(e) => IndexEntries(e)
    case Str(s) => IndexEntries(Chars(s))
    case StringObject(s) => IndexEntries(Chars(s))
    case _ => map[]
  }

  /**
   * `v[key]`: `None` when the read throws (`v` is `undefined` or `null`),
   * otherwise the own property, or `undefined` when there is none.
   */
  function Member(v: JsValue, key: string): (r: Option<JsValue>)
    ensures r.None? <==> Nullish(v)
    ensures r.Some? && key in OwnEntries(v) ==> r.value == OwnEntries(v)[key]
    ensures r.Some? && key !in OwnEntries(v) ==> r.value == Undefined
  {
    if Nullish(v) then None
    else if key in OwnEntries(v) then Some(OwnEntries(v)[key])
    else Some(Undefined)
  }

  /**
   * `v.k1.k2…` along `path`: `None` when one of the reads throws, because
   * a value on the way is `undefined` or `null`.
   */
  function Read(v: JsValue, path: seq<string>): (r: Option<JsValue>)
    decreases |path|
  {
    if path == [] then Some(v)
    else
      match Member(v, path[0])
      case None => None
      case Some(w) => Read(w, path[1..])
  }

  /** A path of two keys is read member by member: `v.a.b`. */
  lemma ReadPair(v: JsValue, a: string, b: string)
    ensures Read(v, [a, b]) == match Member(v, a) { case None => None case Some(w) => Member(w, b) }
  {
    assert [a, b][1..] == [b];
    assert [b][1..] == [];
    match Member(v, a) {
      case None =>
      case Some(w) =>
        assert Read(v, [a, b]) == Read(w, [b]);
        match Member(w, b) {
          case None =>
          case Some(x) =>
            assert Read(w, [b]) == Read(x, []);
        }
    }
  }

  // ---------------------------------------------------------------------
  // The field setters' coercions
  // ---------------------------------------------------------------------

  /** `typeof v === "string" || v instanceof String ? v : ""`. */
  function CoerceName(v: JsValue): (r: JsValue)
    ensures r.Str? || r.StringObject?
    ensures (v.Str? || v.StringObject?) <==> r == v
    ensures !(v.Str? || v.StringObject?) ==> r == Str("")
  {
    if v.Str? || v.StringObject? then v else Str("")
  }

  /** `typeof v === "boolean" ? v : false`. */
  function CoerceLoaded(v: JsValue): (r: bool)
    ensures r <==> v == Bool(true)
  {
    if v.Bool? then v.b else false
  }

  /**
   * `v.constructor === Object` as the setters read it: `None` when the
   * read throws, otherwise whether it holds. An own `constructor` property
   * is read instead of the inherited one, and no value here is the
   * `Object` function itself.
   */
  function ConstructorIsObject(v: JsValue): (r: Option<bool>)
    ensures r.None? <==> Nullish(v)
    ensures r == Some(true) <==> v.Obj? && "constructor" !in v.props
  {
    match v
    case Undefined => None
    case Null => None
    case Obj(p) => Some("constructor" !in p)
    case _ => Some(false)
  }

  /**
   * The `config`/`lang` setter exactly as written:
   * `typeof v === "object" && v.constructor === Object ? v : {}`.
   * `None` means the setter throws a `TypeError`.
   */
  function CoerceObjectAsWritten(v: JsValue): (r: Option<JsValue>)
    ensures r.None? <==> v == Null
    ensures r.Some? ==> IsObject(r.value) && (r.value == v <==> IsObject(v))
  {
    if !TypeofObject(v) then Some(EmptyObject)
    else
      match ConstructorIsObject(v)
      case None => None
      case Some(isObject) => Some(if isObject then v else EmptyObject)
  }

  /** The setters throw on `null`, since `typeof null` is `"object"` and `null.constructor` throws. */
  lemma NullSetterThrows()
    ensures CoerceObjectAsWritten(Null) == None
    ensures CoerceObjectAsWritten(Undefined) == Some(EmptyObject)
  {
  }

  /**
   * The `config`/`lang` setter as evidently intended: keep a plain object,
   * store `{}` for every other value, `null` included.
   */
  function CoerceObject(v: JsValue): (r: JsValue)
    ensures IsObject(r)
    ensures IsObject(v) <==> r == v
  {
    if IsObject(v) then v else EmptyObject
  }

  /** Both versions agree on every value except `null`. */
  lemma CoerceObjectAgrees(v: JsValue)
    requires v != Null
    ensures CoerceObjectAsWritten(v) == Some(CoerceObject(v))
  {
  }

  /** Storing a stored value again changes nothing: a getter's result fed to its setter. */
  lemma CoercionsIdempotent(v: JsValue)
    ensures CoerceName(CoerceName(v)) == CoerceName(v)
    ensures CoerceObject(CoerceObject(v)) == CoerceObject(v)
    ensures CoerceLoaded(Bool(CoerceLoaded(v))) == CoerceLoaded(v)
  {
  }

  /**
   * A plain object: a truthy object whose constructor is `Object` (arrays
   * are not, and neither is an object with an own `constructor` property).
   */
  predicate IsObject(v: JsValue) {
    v.Obj? && "constructor" !in v.props
  }

  /**
   * The four tests `Resource#isObject` chains (truthiness, `typeof` is
   * "object", the constructor is `Object`, the tag is that of a plain
   * object) hold together exactly for plain objects; the truthiness test
   * keeps `null` away from the constructor read.
   */
  lemma IsObjectAsWritten(v: JsValue)
    ensures IsObject(v) <==> Truthy(v) && TypeofObject(v) && ConstructorIsObject(v) == Some(true)
  {
  }
}
