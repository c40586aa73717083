/**
 * `Resource` (src/util/resource.js): a JSON resource is the default file
 * deep-merged with an optional custom file of the same name, by a
 * hand-written version of jQuery's deep `$.extend`.
 */
module Resources {
  import opened Wrappers
  import opened Strings
  import opened JsValues

  // ---------------------------------------------------------------------
  // The merge, stated structurally
  // ---------------------------------------------------------------------

  /** A plain-object own property of `v` is a proper part of `v`: strings' properties are strings. */
  lemma ObjectEntrySmaller(v: JsValue, k: string)
    requires k in OwnEntries(v) && OwnEntries(v)[k].Obj?
    ensures OwnEntries(v)[k] < v
  {
    match v
    case Arr(e) =>
      IndexEntriesKey(e, k);
    case Str(s) =>
      IndexEntriesKey(Chars(s), k);
      CharsAt(s, DigitsValue(k));
    case StringObject(s) =>
      IndexEntriesKey(Chars(s), k);
      CharsAt(s, DigitsValue(k));
    case _ =>
  }

  /**
   * `extend(v)` with a single argument: a fresh object holding `v`'s own
   * properties, with every plain-object property copied the same way.
   */
  function Copy(v: JsValue): (r: map<string, JsValue>)
    ensures r.Keys == OwnEntries(v).Keys
    decreases v
  {
    var e := OwnEntries(v);
    map k | k in e :: if IsObject(e[k]) then ObjectEntrySmaller(v, k); Obj(Copy(e[k])) else e[k]
  }

  /** `clone[key] || {}`: what a nested merge at `key` starts from. */
  function Seed(clone: map<string, JsValue>, key: string): (r: JsValue)
    ensures Truthy(r)
    ensures key in clone && Truthy(clone[key]) ==> r == clone[key]
  {
    if key in clone && Truthy(clone[key]) then clone[key] else EmptyObject
  }

  /**
   * One round of the outer loop: every own property `val` of `v` written
   * into `clone[k]`, where a plain object is merged into a copy of
   * `clone[k] || {}` and anything else replaces what was there; the other
   * properties of `clone` stay.
   */
  function MergeInto(clone: map<string, JsValue>, v: JsValue): (r: map<string, JsValue>)
    ensures r.Keys == clone.Keys + OwnEntries(v).Keys
    decreases v
  {
    var e := OwnEntries(v);
    clone + map k | k in e ::
      if IsObject(e[k]) then ObjectEntrySmaller(v, k); Obj(MergeInto(Copy(Seed(clone, k)), e[k])) else e[k]
  }

  /** The value `clone[key]` receives from an argument whose property `key` is `val`. */
  function Step(clone: map<string, JsValue>, key: string, val: JsValue): (r: JsValue)
    ensures !IsObject(val) ==> r == val
    ensures IsObject(val) ==> r.Obj? && r.props.Keys == OwnEntries(Seed(clone, key)).Keys + val.props.Keys
  {
    if IsObject(val) then Obj(MergeInto(Copy(Seed(clone, key)), val)) else val
  }

  /**
   * What `MergeInto` leaves at one key: `Step`'s value for an own key of
   * `v`, the old value for any other key.
   */
  lemma MergeIntoAt(clone: map<string, JsValue>, v: JsValue, k: string)
    ensures k in OwnEntries(v) ==> MergeInto(clone, v)[k] == Step(clone, k, OwnEntries(v)[k])
    ensures k in clone && k !in OwnEntries(v) ==> MergeInto(clone, v)[k] == clone[k]
  {
  }

  /** `extend(args[0], ..., args[n-1])`: the arguments merged in order into `{}`. */
  function Merged(args: seq<JsValue>): (r: map<string, JsValue>)
    ensures args != [] ==> Merged(args[..|args| - 1]).Keys <= r.Keys
    ensures args != [] ==> OwnEntries(args[|args| - 1]).Keys <= r.Keys
  {
    if args == [] then map[] else MergeInto(Merged(args[..|args| - 1]), args[|args| - 1])
  }

  /** The union of the own keys of `args`. */
  function AllKeys(args: seq<JsValue>): set<string> {
    if args == [] then {} else AllKeys(args[..|args| - 1]) + OwnEntries(args[|args| - 1]).Keys
  }

  // ---------------------------------------------------------------------
  // Properties of the merge
  // ---------------------------------------------------------------------

  /** `extend()` is `{}`, and the merged key set is the union of the arguments' key sets. */
  lemma {:induction false} MergedKeys(args: seq<JsValue>)
    ensures Merged(args).Keys == AllKeys(args)
    ensures args == [] ==> Merged(args) == map[]
  {
    if args != [] {
      MergedKeys(args[..|args| - 1]);
    }
  }

  /** `k` is an own key of `args[j]` and of no later argument. */
  predicate LastWriter(args: seq<JsValue>, k: string, j: int) {
    0 <= j < |args| && k in OwnEntries(args[j]) &&
    forall i :: j < i < |args| ==> k !in OwnEntries(args[i])
  }

  /** What the last argument leaves at key `k` of the merge. */
  lemma MergedAt(args: seq<JsValue>, k: string)
    requires args != []
    ensures var n := |args| - 1;
      k in OwnEntries(args[n]) ==> Merged(args)[k] == Step(Merged(args[..n]), k, OwnEntries(args[n])[k])
    ensures var n := |args| - 1;
      k in Merged(args[..n]) && k !in OwnEntries(args[n]) ==> Merged(args)[k] == Merged(args[..n])[k]
  {
    MergeIntoAt(Merged(args[..|args| - 1]), args[|args| - 1], k);
  }

  /** Dropping a later argument keeps the last writer of `k`. */
  lemma LastWriterFront(args: seq<JsValue>, k: string, j: int)
    requires LastWriter(args, k, j) && j < |args| - 1
    ensures LastWriter(args[..|args| - 1], k, j)
  {
    var front := args[..|args| - 1];
    forall i | j < i < |front| ensures k !in OwnEntries(front[i]) {
      assert front[i] == args[i];
    }
  }

  /**
   * Last writer wins: a key whose last value is not a plain object (an array
   * included) ends up holding exactly that value.
   */
  lemma {:induction false} LastWriterWins(args: seq<JsValue>, k: string, j: int)
    requires LastWriter(args, k, j)
    requires !IsObject(OwnEntries(args[j])[k])
    ensures k in Merged(args) && Merged(args)[k] == OwnEntries(args[j])[k]
  {
    var n := |args| - 1;
    var front := args[..n];
    MergedAt(args, k);
    if j < n {
      LastWriterFront(args, k, j);
      LastWriterWins(front, k, j);
    }
  }

  /**
   * A key whose last value is a plain object is merged: the result is an
   * object holding the keys the earlier arguments left there (when that was
   * truthy) together with the last value's keys.
   */
  lemma {:induction false} NestedKeysKept(args: seq<JsValue>, k: string, j: int)
    requires LastWriter(args, k, j)
    requires IsObject(OwnEntries(args[j])[k])
    ensures k in Merged(args) && Merged(args)[k].Obj?
    ensures Merged(args)[k].props.Keys ==
      OwnEntries(Seed(Merged(args[..j]), k)).Keys + OwnEntries(args[j])[k].props.Keys
  {
    var n := |args| - 1;
    var front := args[..n];
    MergedAt(args, k);
    if j < n {
      LastWriterFront(args, k, j);
      NestedKeysKept(front, k, j);
      assert front[..j] == args[..j];
    } else {
      assert args[..j] == front;
    }
  }

  /** `extend(v)` of a plain object is a copy equal to it in value. */
  lemma {:induction false} CopyOfObject(v: JsValue)
    requires IsObject(v)
    ensures Obj(Copy(v)) == v
    decreases v
  {
    var m := v.props;
    forall k | k in m ensures Copy(v)[k] == m[k] {
      if IsObject(m[k]) {
        CopyOfObject(m[k]);
      }
    }
  }

  /** `extend(v)` is the merge of `v` into `{}`. */
  lemma {:induction false} CopyIsMerge(v: JsValue)
    ensures Copy(v) == MergeInto(map[], v)
    decreases v
  {
    var e := OwnEntries(v);
    assert Copy(EmptyObject) == map[];
    forall k | k in e ensures Copy(v)[k] == MergeInto(map[], v)[k] {
      if IsObject(e[k]) {
        ObjectEntrySmaller(v, k);
        CopyIsMerge(e[k]);
      }
    }
  }

  /** The two-argument merge the recursion makes is `Step` on a plain object. */
  lemma MergedPair(seed: JsValue, val: JsValue)
    ensures Merged([seed, val]) == MergeInto(Copy(seed), val)
  {
    CopyIsMerge(seed);
    assert [seed, val][..1] == [seed];
    assert [seed][..0] == [];
    assert Merged([seed]) == MergeInto(map[], seed);
  }

  // ---------------------------------------------------------------------
  // The implementation
  // ---------------------------------------------------------------------

  /**
   * `Resource#extend`: copies every argument's own properties in order into
   * a fresh `clone`, merging plain objects recursively. `None` when
   * `Object.keys` throws on an `undefined` or `null` argument.
   */
  method Extend(args: seq<JsValue>) returns (r: Option<JsValue>)
    ensures r.Some? <==> forall i :: 0 <= i < |args| ==> !Nullish(args[i])
    ensures r.Some? ==> r.value == Obj(Merged(args))
  {
    var clone: map<string, JsValue> := map[];
    var i := 0;
    while i < |args|
      invariant 0 <= i <= |args|
      invariant clone == Merged(args[..i])
      invariant forall j :: 0 <= j < i ==> !Nullish(args[j])
    {
      var arg := args[i];
      if Nullish(arg) {
        return None;
      }
      clone := MergeArgument(clone, arg);
      assert args[..i + 1][..i] == args[..i];
      i := i + 1;
    }
    assert args[..i] == args;
    r := Some(Obj(clone));
  }

  /**
   * `clone` holds `target`'s value at the keys `done` and `base`'s value at
   * the other keys of `base`.
   */
  predicate Agrees(clone: map<string, JsValue>, base: map<string, JsValue>, target: map<string, JsValue>,
                   done: set<string>)
  {
    done <= target.Keys &&
    clone.Keys == base.Keys + done &&
    forall j :: j in clone ==> clone[j] == if j in done then target[j] else base[j]
  }

  /** Writing `target`'s value at one more key keeps `Agrees`. */
  lemma AgreesWrite(clone: map<string, JsValue>, base: map<string, JsValue>, target: map<string, JsValue>,
                    done: set<string>, k: string)
    requires Agrees(clone, base, target, done) && k in target
    ensures Agrees(clone[k := target[k]], base, target, done + {k})
  {
  }

  /** Once every key of `target` outside `base` is done, `clone` is `target`. */
  lemma AgreesAll(clone: map<string, JsValue>, base: map<string, JsValue>, target: map<string, JsValue>,
                  done: set<string>)
    requires Agrees(clone, base, target, done)
    requires target.Keys == base.Keys + done
    requires forall j :: j in base && j !in done ==> target[j] == base[j]
    ensures clone == target
  {
  }

  /**
   * The inner loop of `extend`: one argument's own properties written into
   * `clone`, in any key order.
   */
  method MergeArgument(clone0: map<string, JsValue>, arg: JsValue) returns (clone: map<string, JsValue>)
    ensures clone == MergeInto(clone0, arg)
    decreases arg, 1
  {
    ghost var target := MergeInto(clone0, arg);
    var keys := OwnEntries(arg).Keys;
    ghost var done: set<string> := {};
    clone := clone0;
    while keys != {}
      invariant keys !! done && keys + done == OwnEntries(arg).Keys
      invariant Agrees(clone, clone0, target, done)
      decreases keys
    {
      var k :| k in keys;
      AgreesWrite(clone, clone0, target, done, k);
      clone := WriteKey(clone, clone0, arg, k);
      keys := keys - {k};
      done := done + {k};
    }
    MergedAll(clone, clone0, arg, done);
  }

  /** After the inner loop, `clone` is the merge. */
  lemma MergedAll(clone: map<string, JsValue>, clone0: map<string, JsValue>, arg: JsValue, done: set<string>)
    requires done == OwnEntries(arg).Keys && Agrees(clone, clone0, MergeInto(clone0, arg), done)
    ensures clone == MergeInto(clone0, arg)
  {
    var target := MergeInto(clone0, arg);
    forall j | j in clone0 && j !in done ensures target[j] == clone0[j] {
      MergeIntoAt(clone0, arg, j);
    }
    AgreesAll(clone, clone0, target, done);
  }

  /**
   * One turn of the inner loop: `clone[key]` set from the property `key` of
   * `arg`, where `clone` still holds at `key` what `base` held. The nested
   * `extend(clone[key] || {}, value)` runs its outer loop over its two
   * arguments: the first round copies the seed into the empty clone, the
   * second merges `value` in.
   */
  method WriteKey(clone: map<string, JsValue>, ghost base: map<string, JsValue>, arg: JsValue, key: string)
      returns (next: map<string, JsValue>)
    requires key in OwnEntries(arg)
    requires key in clone <==> key in base
    requires key in base ==> clone[key] == base[key]
    ensures key in MergeInto(base, arg) && next == clone[key := MergeInto(base, arg)[key]]
    decreases arg, 0
  {
    var value := OwnEntries(arg)[key];
    MergeIntoAt(base, arg, key);
    if IsObject(value) {
      var seed := if key in clone && Truthy(clone[key]) then clone[key] else EmptyObject;
      assert seed == Seed(base, key);
      ObjectEntrySmaller(arg, key);
      var sub := CopyValue(seed);
      sub := MergeArgument(sub, value);
      next := clone[key := Obj(sub)];
    } else {
      next := clone[key := value];
    }
  }

  /**
   * `extend(v)`, and the first round of `extend(v, ...)`: `v`'s own
   * properties copied into a fresh clone, plain objects by `extend({}, ...)`.
   */
  method CopyValue(v: JsValue) returns (clone: map<string, JsValue>)
    ensures clone == Copy(v)
    decreases v
  {
    ghost var target := Copy(v);
    var keys := OwnEntries(v).Keys;
    ghost var done: set<string> := {};
    clone := map[];
    while keys != {}
      invariant keys !! done && keys + done == OwnEntries(v).Keys
      invariant Agrees(clone, map[], target, done)
      decreases keys
    {
      var k :| k in keys;
      var value := OwnEntries(v)[k];
      AgreesWrite(clone, map[], target, done, k);
      if IsObject(value) {
        ObjectEntrySmaller(v, k);
        var sub := CopyValue(value);
        clone := clone[k := Obj(sub)];
      } else {
        clone := clone[k := value];
      }
      keys := keys - {k};
      done := done + {k};
    }
    AgreesAll(clone, map[], target, done);
  }

  // ---------------------------------------------------------------------
  // Loading a resource
  // ---------------------------------------------------------------------

  /** The constructor's file name: `".json"` appended unless already there. */
  function JsonFileName(file: string): (r: string)
    ensures EndsWith(r, ".json")
    ensures EndsWith(file, ".json") ==> r == file
    ensures !EndsWith(file, ".json") ==> r == file + ".json"
  {
    if EndsWith(file, ".json") then file else
      var r := file + ".json";
      assert r[|r| - 5..] == ".json";
      r
  }

  /** Normalising a normalised name changes nothing. */
  lemma JsonFileNameIdempotent(file: string)
    ensures JsonFileName(JsonFileName(file)) == JsonFileName(file)
  {
  }

  /**
   * `new Resource(file)`: `defaults` and `home` stand for the files
   * `require` can read from the resources directory and the home
   * directory. `None` when the default file is missing (its `require`
   * throws) or when the merge throws.
   */
  method Load(file: string, defaults: map<string, JsValue>, home: map<string, JsValue>)
      returns (r: Option<JsValue>)
    ensures JsonFileName(file) !in defaults ==> r.None?
    ensures JsonFileName(file) in defaults && JsonFileName(file) !in home ==>
      r == Some(defaults[JsonFileName(file)])
    ensures JsonFileName(file) in defaults && JsonFileName(file) in home ==>
      var d := defaults[JsonFileName(file)];
      var c := home[JsonFileName(file)];
      if Nullish(d) || Nullish(c) then r.None?
      else r == Some(Obj(Merged([d, c])))
  {
    var name := file;
    if !EndsWith(name, ".json") {
      name := name + ".json";
    }
    if name !in defaults {
      return None;
    }
    var d := defaults[name];
    if name !in home {
      return Some(d);
    }
    var c := home[name];
    r := Extend([d, c]);
  }
}
