/**
 * The response envelope formatter (`ApiResponseService`): the recursive
 * rewrite of every array key to camelCase over the PHP values a controller
 * may hand it, the memo cache of rewritten keys, and the success and error
 * envelopes.
 */
module ApiResponse {
  import opened Wrappers
  import Decimal

  // ---------------------------------------------------------------------
  // PHP values
  // ---------------------------------------------------------------------

  /** A PHP array key: an int, or a string that is not the canonical text of an int. */
  datatype Key = IntKey(i: int) | StrKey(s: string)

  /** The scalars that pass through the transform unchanged (floats are left out). */
  datatype Scalar = Bool(b: bool) | Int(i: int) | Str(s: string)

  /** One `key => value` pair of an ordered PHP array. */
  datatype Entry = Entry(key: Key, value: Value)

  /**
   * What `transformToCamelCase` may receive. The framework objects appear
   * already resolved: a model as its `toArray()`, a resource as its
   * `resolve(request())`, a serializable object as its `jsonSerialize()`, any
   * other object as its `(array)` cast.
   */
  datatype Value =
    | Null
    | Prim(scalar: Scalar)
    | Arr(entries: seq<Entry>)
    | DateTime(seconds: int, micros: nat)
    | BackedEnum(backing: Scalar)
    | UnitEnum(name: string)
    | Model(attributes: seq<Entry>)
    | Collection(items: seq<Entry>)
    | JsonResource(resolved: seq<Entry>)
    | ResourceCollection(resolvedArray: seq<Entry>)
    | JsonSerializable(serialized: Value)
    | Object(properties: seq<Entry>)

  // ---------------------------------------------------------------------
  // PHP array semantics
  // ---------------------------------------------------------------------

  /** The keys present in an array. */
  function KeysOf(es: seq<Entry>): set<Key> {
    set i | 0 <= i < |es| :: es[i].key
  }

  predicate DistinctKeys(es: seq<Entry>) {
    forall i, j :: 0 <= i < j < |es| ==> es[i].key != es[j].key
  }

  /** The position of key k in the array, if it is there. */
  function IndexOf(es: seq<Entry>, k: Key): (r: Option<nat>)
    ensures r.Some? ==> r.value < |es| && es[r.value].key == k
    ensures r.Some? ==> forall j :: 0 <= j < r.value ==> es[j].key != k
    ensures r.None? ==> forall j :: 0 <= j < |es| ==> es[j].key != k
  {
    if es == [] then None
    else if es[0].key == k then Some(0)
    else
      match IndexOf(es[1..], k)
      case None => None
      case Some(i) => Some(i + 1)
  }

  /** `$array[$k]`, when the key is there. */
  function Lookup(es: seq<Entry>, k: Key): (r: Option<Value>)
    ensures r.Some? <==> k in KeysOf(es)
  {
    match IndexOf(es, k)
    case None => None
    case Some(i) => Some(es[i].value)
  }

  /** `isset($array[$k])`: the key is there and its value is not null. */
  predicate IsSet(es: seq<Entry>, k: string) {
    Lookup(es, StrKey(k)).Some? && Lookup(es, StrKey(k)).value != Null
  }

  /** `$array[$k] = $v`: overwrite in place when the key is there, append otherwise. */
  function Assign(es: seq<Entry>, k: Key, v: Value): seq<Entry> {
    match IndexOf(es, k)
    case None => es + [Entry(k, v)]
    case Some(i) => es[i := Entry(k, v)]
  }

  /**
   * Assignment keeps keys distinct, adds k to the keys, makes k hold v and
   * changes no other key; it only grows the array when k is new.
   */
  lemma {:induction false} AssignFacts(es: seq<Entry>, k: Key, v: Value)
    ensures var r := Assign(es, k, v);
      && KeysOf(r) == KeysOf(es) + {k}
      && (DistinctKeys(es) ==> DistinctKeys(r))
      && Lookup(r, k) == Some(v)
      && (forall k' :: k' != k ==> Lookup(r, k') == Lookup(es, k'))
      && (k !in KeysOf(es) ==> r == es + [Entry(k, v)])
      && (k in KeysOf(es) ==> |r| == |es|)
  {
    match IndexOf(es, k)
    case None =>
      AssignAppends(es, k, v);
    case Some(i) =>
      AssignOverwrites(es, k, v, i);
  }

  lemma {:induction false} AssignAppends(es: seq<Entry>, k: Key, v: Value)
    requires IndexOf(es, k).None?
    ensures var r := es + [Entry(k, v)];
      && KeysOf(r) == KeysOf(es) + {k}
      && (DistinctKeys(es) ==> DistinctKeys(r))
      && Lookup(r, k) == Some(v)
      && (forall k' :: k' != k ==> Lookup(r, k') == Lookup(es, k'))
      && k !in KeysOf(es)
  {
    var r := es + [Entry(k, v)];
    KeysOfSnoc(es, Entry(k, v));
    IndexOfFirst(r, k, |es|);
    forall k' | k' != k ensures Lookup(r, k') == Lookup(es, k') {
      var ie := IndexOf(es, k');
      if ie.Some? {
        IndexOfFirst(r, k', ie.value);
      }
    }
  }

  lemma {:induction false} AssignOverwrites(es: seq<Entry>, k: Key, v: Value, i: nat)
    requires IndexOf(es, k) == Some(i)
    ensures var r := es[i := Entry(k, v)];
      && KeysOf(r) == KeysOf(es)
      && (DistinctKeys(es) ==> DistinctKeys(r))
      && Lookup(r, k) == Some(v)
      && (forall k' :: k' != k ==> Lookup(r, k') == Lookup(es, k'))
      && k in KeysOf(es)
  {
    var r := es[i := Entry(k, v)];
    KeysOfUpdate(es, i, Entry(k, v));
    IndexOfFirst(r, k, i);
    forall k' | k' != k ensures Lookup(r, k') == Lookup(es, k') {
      var ie := IndexOf(es, k');
      if ie.Some? {
        IndexOfFirst(r, k', ie.value);
      }
    }
  }

  lemma {:induction false} KeysOfSnoc(es: seq<Entry>, e: Entry)
    ensures KeysOf(es + [e]) == KeysOf(es) + {e.key}
  {
    var r := es + [e];
    assert r[|es|] == e;
    forall x | x in KeysOf(r) ensures x in KeysOf(es) + {e.key} {
      var j :| 0 <= j < |r| && r[j].key == x;
      if j < |es| { assert r[j] == es[j]; }
    }
    forall x | x in KeysOf(es) ensures x in KeysOf(r) {
      var j :| 0 <= j < |es| && es[j].key == x;
      assert r[j] == es[j];
    }
  }

  lemma {:induction false} KeysOfUpdate(es: seq<Entry>, i: nat, e: Entry)
    requires i < |es| && es[i].key == e.key
    ensures KeysOf(es[i := e]) == KeysOf(es)
  {
    var r := es[i := e];
    forall x | x in KeysOf(es) ensures x in KeysOf(r) {
      var j :| 0 <= j < |es| && es[j].key == x;
      assert r[j].key == x;
    }
  }

  /** The first position holding key k is what IndexOf finds. */
  lemma {:induction false} IndexOfFirst(es: seq<Entry>, k: Key, i: nat)
    requires i < |es| && es[i].key == k
    requires forall j :: 0 <= j < i ==> es[j].key != k
    ensures IndexOf(es, k) == Some(i)
  {
    if i > 0 {
      IndexOfFirst(es[1..], k, i - 1);
    }
  }

  /**
   * PHP's normalisation of a string used as an array key: the canonical
   * decimal text of an integer (no sign but a leading minus, no leading zero)
   * becomes that integer.
   */
  function ArrayKey(s: string): (k: Key)
    ensures k.StrKey? ==> k.s == s
    ensures k.IntKey? ==> s == Decimal.FormatInt(k.i)
  {
    if s == Decimal.FormatInt(Decimal.IntCast(s)) then IntKey(Decimal.IntCast(s)) else StrKey(s)
  }

  /** A string holding a character that is neither a digit nor a minus sign stays a string key. */
  lemma {:induction false} WordIsStringKey(s: string, i: nat)
    requires i < |s| && !Decimal.IsDigit(s[i]) && s[i] != '-'
    ensures ArrayKey(s) == StrKey(s)
  {
  }

  /** The key `transformArray` writes for an input key: string keys through `transformKey`, int keys as they are. */
  function KeyOf(camel: string -> string, k: Key): Key {
    match k
    case IntKey(_) => k
    case StrKey(s) => ArrayKey(camel(s))
  }

  // ---------------------------------------------------------------------
  // The transform, as a function
  // ---------------------------------------------------------------------

  /** `transformToCamelCase` (with `transformObject` inlined): null, scalars, arrays and the object kinds. */
  function Transform(camel: string -> string, v: Value): Value
    decreases v
  {
    match v
    case Null => Null
    case Prim(_) => v
    case Arr(es) => Arr(TransformEntries(camel, es))
    case ResourceCollection(r) =>
      if IsSet(r, "data") then
        var i := IndexOf(r, StrKey("data")).value;
        var e := r[i];
        assert e in r;
        assert v decreases to r;
        assert r decreases to e;
        assert e decreases to e.value;
        Arr([Entry(StrKey("data"), Transform(camel, e.value)), Entry(StrKey("meta"), Arr(PaginationMeta(r)))])
      else
        Arr(TransformEntries(camel, r))
    case JsonResource(r) => Arr(TransformEntries(camel, r))
    case DateTime(s, u) => Prim(Int(DateTimeMicros(s, u)))
    case Model(attributes) => Arr(TransformEntries(camel, attributes))
    case Collection(items) => Arr(TransformItems(camel, items))
    case BackedEnum(b) => Prim(b)
    case UnitEnum(name) => Prim(Str(name))
    case JsonSerializable(s) => Transform(camel, s)
    case Object(properties) => Arr(TransformEntries(camel, properties))
  }

  /** `transformArray`: each key rewritten, each value transformed, assigned in order into a fresh array. */
  function TransformEntries(camel: string -> string, es: seq<Entry>): seq<Entry>
    decreases es
  {
    if es == [] then []
    else
      var e := es[|es| - 1];
      assert e in es;
      assert es decreases to e;
      assert e decreases to e.value;
      Assign(TransformEntries(camel, es[..|es| - 1]), KeyOf(camel, e.key), Transform(camel, e.value))
  }

  /** One more entry of the input is one more assignment into the output. */
  lemma {:induction false} TransformEntriesSnoc(camel: string -> string, es: seq<Entry>, i: nat)
    requires i < |es|
    ensures TransformEntries(camel, es[..i + 1]) ==
            Assign(TransformEntries(camel, es[..i]), KeyOf(camel, es[i].key), Transform(camel, es[i].value))
  {
    assert es[..i + 1][..i] == es[..i];
  }

  /** `$collection->map(transformToCamelCase)->all()`: keys kept, values transformed. */
  function TransformItems(camel: string -> string, items: seq<Entry>): seq<Entry>
    decreases items
  {
    if items == [] then []
    else
      var e := items[|items| - 1];
      assert e in items;
      assert items decreases to e;
      assert e decreases to e.value;
      TransformItems(camel, items[..|items| - 1]) + [Entry(e.key, Transform(camel, e.value))]
  }

  lemma {:induction false} TransformItemsSnoc(camel: string -> string, items: seq<Entry>, i: nat)
    requires i < |items|
    ensures TransformItems(camel, items[..i + 1]) ==
            TransformItems(camel, items[..i]) + [Entry(items[i].key, Transform(camel, items[i].value))]
  {
    assert items[..i + 1][..i] == items[..i];
  }

  /**
   * The `meta` of a paginated resource collection: `pagination` with the raw
   * `current_page`, `per_page` and `total` when all three are set, else empty.
   */
  function PaginationMeta(r: seq<Entry>): (meta: seq<Entry>)
    ensures meta == [] <==> !(IsSet(r, "current_page") && IsSet(r, "per_page") && IsSet(r, "total"))
  {
    if IsSet(r, "current_page") && IsSet(r, "per_page") && IsSet(r, "total") then
      [Entry(StrKey("pagination"), Arr([
        Entry(StrKey("currentPage"), Lookup(r, StrKey("current_page")).value),
        Entry(StrKey("perPage"), Lookup(r, StrKey("per_page")).value),
        Entry(StrKey("total"), Lookup(r, StrKey("total")).value)]))]
    else []
  }

  /** `(int) $date->format('Uu')`: the seconds' text followed by the six-digit microseconds, read back as an int. */
  function DateTimeMicros(seconds: int, micros: nat): int {
    Decimal.IntCast(Decimal.FormatInt(seconds) + Decimal.ZeroPad(micros, 6))
  }

  // ---------------------------------------------------------------------
  // What the transform does
  // ---------------------------------------------------------------------

  /**
   * A date becomes its microseconds since the epoch: seconds times a million
   * plus the microseconds. Before the epoch the digits are read after the
   * minus sign, so the microseconds count away from zero.
   */
  lemma {:induction false} DateTimeIsMicroseconds(camel: string -> string, seconds: int, micros: nat)
    requires micros < 1_000_000
    ensures Transform(camel, DateTime(seconds, micros)) ==
            Prim(Int(if seconds >= 0 then seconds * 1_000_000 + micros else seconds * 1_000_000 - micros))
  {
    DateTimeMicrosValue(seconds, micros);
    TransformDate(camel, seconds, micros);
  }

  lemma {:induction false} DateTimeMicrosValue(seconds: int, micros: nat)
    requires micros < 1_000_000
    ensures DateTimeMicros(seconds, micros) ==
            if seconds >= 0 then seconds * 1_000_000 + micros else seconds * 1_000_000 - micros
  {
    if seconds >= 0 {
      DigitsThenMicros(seconds, micros);
      assert Decimal.FormatInt(seconds) == Decimal.FormatNat(seconds);
    } else {
      DigitsThenMicros(-seconds, micros);
      assert Decimal.FormatInt(seconds) == "-" + Decimal.FormatNat(-seconds);
    }
  }

  lemma {:induction false} TransformDate(camel: string -> string, seconds: int, micros: nat)
    ensures Transform(camel, DateTime(seconds, micros)) == Prim(Int(DateTimeMicros(seconds, micros)))
  {
  }

  /** The digits of n followed by six digits of microseconds denote n * 1000000 + micros, with or without a minus sign. */
  lemma {:induction false} DigitsThenMicros(n: nat, micros: nat)
    requires micros < 1_000_000
    ensures Decimal.IntCast(Decimal.FormatNat(n) + Decimal.ZeroPad(micros, 6)) == n * 1_000_000 + micros
    ensures Decimal.IntCast(("-" + Decimal.FormatNat(n)) + Decimal.ZeroPad(micros, 6)) == -(n * 1_000_000 + micros)
  {
    var pad := Decimal.ZeroPad(micros, 6);
    var digits := Decimal.FormatNat(n);
    SixDigitMicros(micros);
    Decimal.DigitsValueConcat(digits, pad);
    Decimal.IntCastOfDigits(digits + pad);
    assert ("-" + digits) + pad == "-" + (digits + pad);
  }

  /** The microseconds are written as exactly six digits. */
  lemma {:induction false} SixDigitMicros(micros: nat)
    requires micros < 1_000_000
    ensures |Decimal.ZeroPad(micros, 6)| == 6
    ensures Decimal.Pow10(6) == 1_000_000
  {
    assert Decimal.Pow10(2) == 100;
    assert Decimal.Pow10(4) == 10_000;
  }

  /** Null stays null, scalars pass through, enums give their value or case name. */
  lemma {:induction false} TransformLeaves(camel: string -> string, p: Scalar, name: string)
    ensures Transform(camel, Null) == Null
    ensures Transform(camel, Prim(p)) == Prim(p)
    ensures Transform(camel, BackedEnum(p)) == Prim(p)
    ensures Transform(camel, UnitEnum(name)) == Prim(Str(name))
  {
  }

  /** A model, a resource, a plain object or a serializable object is transformed as the array it resolves to. */
  lemma {:induction false} TransformResolvedAsArray(camel: string -> string, es: seq<Entry>, s: Value)
    ensures Transform(camel, Model(es)) == Transform(camel, Arr(es))
    ensures Transform(camel, JsonResource(es)) == Transform(camel, Arr(es))
    ensures Transform(camel, Object(es)) == Transform(camel, Arr(es))
    ensures Transform(camel, JsonSerializable(s)) == Transform(camel, s)
  {
    var out := Transform(camel, Arr(es));
    assert out == Arr(TransformEntries(camel, es));
    assert Transform(camel, Model(es)) == out;
    assert Transform(camel, JsonResource(es)) == out;
    assert Transform(camel, Object(es)) == out;
  }

  /** A resource collection without a `data` entry is transformed as a plain array. */
  lemma {:induction false} TransformUnpaginatedResource(camel: string -> string, es: seq<Entry>)
    requires !IsSet(es, "data")
    ensures Transform(camel, ResourceCollection(es)) == Transform(camel, Arr(es))
  {
    assert Transform(camel, Arr(es)) == Arr(TransformEntries(camel, es));
  }

  /** The keys an array's entries are rewritten to. */
  function MappedKeys(camel: string -> string, es: seq<Entry>): set<Key> {
    set i | 0 <= i < |es| :: KeyOf(camel, es[i].key)
  }

  /** The transformed array has distinct keys, and they are exactly the rewritten input keys. */
  lemma {:induction false} TransformEntriesKeys(camel: string -> string, es: seq<Entry>)
    ensures DistinctKeys(TransformEntries(camel, es))
    ensures KeysOf(TransformEntries(camel, es)) == MappedKeys(camel, es)
  {
    if es != [] {
      var init := es[..|es| - 1];
      var e := es[|es| - 1];
      TransformEntriesKeys(camel, init);
      AssignFacts(TransformEntries(camel, init), KeyOf(camel, e.key), Transform(camel, e.value));
      MappedKeysInit(camel, es);
    }
  }

  lemma {:induction false} MappedKeysInit(camel: string -> string, es: seq<Entry>)
    requires es != []
    ensures MappedKeys(camel, es) == MappedKeys(camel, es[..|es| - 1]) + {KeyOf(camel, es[|es| - 1].key)}
  {
    var init := es[..|es| - 1];
    forall x | x in MappedKeys(camel, es) ensures x in MappedKeys(camel, init) + {KeyOf(camel, es[|es| - 1].key)} {
      var i :| 0 <= i < |es| && KeyOf(camel, es[i].key) == x;
      if i < |init| { assert init[i] == es[i]; }
    }
    forall x | x in MappedKeys(camel, init) ensures x in MappedKeys(camel, es) {
      var i :| 0 <= i < |init| && KeyOf(camel, init[i].key) == x;
      assert es[i] == init[i];
    }
  }

  /** The transformed value of the last input entry whose key is rewritten to k. */
  function LastWith(camel: string -> string, es: seq<Entry>, k: Key): Option<Value> {
    if es == [] then None
    else if KeyOf(camel, es[|es| - 1].key) == k then Some(Transform(camel, es[|es| - 1].value))
    else LastWith(camel, es[..|es| - 1], k)
  }

  /**
   * When several keys are rewritten to the same key, the last one's value
   * wins: every output key holds the transformed value of the last input
   * entry rewritten to it.
   */
  lemma {:induction false} TransformEntriesLastWins(camel: string -> string, es: seq<Entry>, k: Key)
    ensures Lookup(TransformEntries(camel, es), k) == LastWith(camel, es, k)
  {
    if es != [] {
      var init := es[..|es| - 1];
      var e := es[|es| - 1];
      TransformEntriesLastWins(camel, init, k);
      AssignFacts(TransformEntries(camel, init), KeyOf(camel, e.key), Transform(camel, e.value));
    }
  }

  /** No two input keys are rewritten to the same key. */
  predicate NoCollision(camel: string -> string, es: seq<Entry>) {
    forall i, j :: 0 <= i < j < |es| ==> KeyOf(camel, es[i].key) != KeyOf(camel, es[j].key)
  }

  /**
   * Without collisions the transform is pointwise: same length, same order,
   * entry i carries the rewritten key i and the transformed value i.
   */
  lemma {:induction false} TransformEntriesPointwise(camel: string -> string, es: seq<Entry>)
    requires NoCollision(camel, es)
    ensures |TransformEntries(camel, es)| == |es|
    ensures forall i :: 0 <= i < |es| ==>
      TransformEntries(camel, es)[i] == Entry(KeyOf(camel, es[i].key), Transform(camel, es[i].value))
  {
    if es != [] {
      var init := es[..|es| - 1];
      var e := es[|es| - 1];
      assert NoCollision(camel, init) by {
        forall i, j | 0 <= i < j < |init| ensures KeyOf(camel, init[i].key) != KeyOf(camel, init[j].key) {
          assert init[i] == es[i] && init[j] == es[j];
        }
      }
      TransformEntriesPointwise(camel, init);
      TransformEntriesKeys(camel, init);
      assert KeyOf(camel, e.key) !in MappedKeys(camel, init) by {
        forall i | 0 <= i < |init| ensures KeyOf(camel, init[i].key) != KeyOf(camel, e.key) {
          assert init[i] == es[i];
        }
      }
      AssignFacts(TransformEntries(camel, init), KeyOf(camel, e.key), Transform(camel, e.value));
      forall i | 0 <= i < |es| - 1
        ensures TransformEntries(camel, es)[i] == Entry(KeyOf(camel, es[i].key), Transform(camel, es[i].value))
      {
        assert init[i] == es[i];
      }
    }
  }

  /** A collection keeps its keys and order and transforms each item. */
  lemma {:induction false} TransformItemsPointwise(camel: string -> string, items: seq<Entry>)
    ensures |TransformItems(camel, items)| == |items|
    ensures forall i :: 0 <= i < |items| ==>
      TransformItems(camel, items)[i] == Entry(items[i].key, Transform(camel, items[i].value))
  {
    if items != [] {
      var init := items[..|items| - 1];
      TransformItemsPointwise(camel, init);
      forall i | 0 <= i < |items| - 1
        ensures TransformItems(camel, items)[i] == Entry(items[i].key, Transform(camel, items[i].value))
      {
        assert init[i] == items[i];
      }
    }
  }

  /**
   * A paginated resource collection (its resolved array sets `data`) becomes
   * `data` (transformed) beside `meta`, which holds the raw pagination fields
   * when `current_page`, `per_page` and `total` are all set and is empty
   * otherwise; nothing else of the resolved array survives.
   */
  lemma {:induction false} PaginatedCollection(camel: string -> string, r: seq<Entry>)
    requires IsSet(r, "data")
    ensures var out := Transform(camel, ResourceCollection(r));
      && out.Arr? && KeysOf(out.entries) == {StrKey("data"), StrKey("meta")}
      && Lookup(out.entries, StrKey("data")) == Some(Transform(camel, Lookup(r, StrKey("data")).value))
      && Lookup(out.entries, StrKey("meta")).Some? && Lookup(out.entries, StrKey("meta")).value.Arr?
      && var meta := Lookup(out.entries, StrKey("meta")).value.entries;
      && (meta == [] <==> !(IsSet(r, "current_page") && IsSet(r, "per_page") && IsSet(r, "total")))
      && (meta != [] ==>
            meta == [Entry(StrKey("pagination"), Arr([
              Entry(StrKey("currentPage"), Lookup(r, StrKey("current_page")).value),
              Entry(StrKey("perPage"), Lookup(r, StrKey("per_page")).value),
              Entry(StrKey("total"), Lookup(r, StrKey("total")).value)]))])
  {
    var out := Transform(camel, ResourceCollection(r));
    assert out.entries[0].key == StrKey("data");
    assert out.entries[1].key == StrKey("meta");
    assert KeysOf(out.entries) == {StrKey("data"), StrKey("meta")} by {
      forall x | x in KeysOf(out.entries) ensures x == StrKey("data") || x == StrKey("meta") {
        var j :| 0 <= j < |out.entries| && out.entries[j].key == x;
      }
    }
  }

  // ---------------------------------------------------------------------
  // The worked examples of the unit tests, under the rewritings they show
  // ---------------------------------------------------------------------

  function S(k: string, v: Value): Entry {
    Entry(StrKey(k), v)
  }

  function Text(s: string): Value {
    Prim(Str(s))
  }

  /** A key whose rewriting starts with a letter is written as that string. */
  lemma {:induction false} CamelKey(camel: string -> string, key: string, rewritten: string)
    requires camel(key) == rewritten && |rewritten| > 0 && !Decimal.IsDigit(rewritten[0]) && rewritten[0] != '-'
    ensures KeyOf(camel, StrKey(key)) == StrKey(rewritten)
  {
    WordIsStringKey(rewritten, 0);
  }

  /** Nested arrays are rewritten at every depth. */
  lemma {:induction false} NestedArraysExample(camel: string -> string)
    requires camel("user_info") == "userInfo" && camel("first_name") == "firstName"
    requires camel("last_name") == "lastName" && camel("contact_details") == "contactDetails"
    requires camel("phone_number") == "phoneNumber"
    ensures Transform(camel, Arr([S("user_info", Arr([
              S("first_name", Text("John")), S("last_name", Text("Doe")),
              S("contact_details", Arr([S("phone_number", Text("1234567890"))]))]))]))
         == Arr([S("userInfo", Arr([
              S("firstName", Text("John")), S("lastName", Text("Doe")),
              S("contactDetails", Arr([S("phoneNumber", Text("1234567890"))]))]))])
  {
    CamelKey(camel, "user_info", "userInfo");
    CamelKey(camel, "first_name", "firstName");
    CamelKey(camel, "last_name", "lastName");
    CamelKey(camel, "contact_details", "contactDetails");
    CamelKey(camel, "phone_number", "phoneNumber");
    var inner := [S("phone_number", Text("1234567890"))];
    var innerOut := [S("phoneNumber", Text("1234567890"))];
    TransformEntriesPointwise(camel, inner);
    assert TransformEntries(camel, inner) == innerOut;
    var mid := [S("first_name", Text("John")), S("last_name", Text("Doe")), S("contact_details", Arr(inner))];
    var midOut := [S("firstName", Text("John")), S("lastName", Text("Doe")), S("contactDetails", Arr(innerOut))];
    TransformEntriesPointwise(camel, mid);
    assert TransformEntries(camel, mid) == midOut;
    var outer := [S("user_info", Arr(mid))];
    TransformEntriesPointwise(camel, outer);
    assert TransformEntries(camel, outer) == [S("userInfo", Arr(midOut))];
  }

  /** A collection of arrays keeps its positions and rewrites the keys inside each item. */
  lemma {:induction false} CollectionExample(camel: string -> string)
    requires camel("user_name") == "userName"
    ensures Transform(camel, Collection([Entry(IntKey(0), Arr([S("user_name", Text("john_doe"))])),
                                        Entry(IntKey(1), Arr([S("user_name", Text("jane_doe"))]))]))
         == Arr([Entry(IntKey(0), Arr([S("userName", Text("john_doe"))])),
                 Entry(IntKey(1), Arr([S("userName", Text("jane_doe"))]))])
  {
    CamelKey(camel, "user_name", "userName");
    var a := [S("user_name", Text("john_doe"))];
    var b := [S("user_name", Text("jane_doe"))];
    TransformEntriesPointwise(camel, a);
    TransformEntriesPointwise(camel, b);
    assert Transform(camel, Arr(a)) == Arr([S("userName", Text("john_doe"))]);
    assert Transform(camel, Arr(b)) == Arr([S("userName", Text("jane_doe"))]);
    var items := [Entry(IntKey(0), Arr(a)), Entry(IntKey(1), Arr(b))];
    TransformItemsPointwise(camel, items);
  }

  /** Two keys with the same camelCase form: the later value lands in the earlier key's place. */
  lemma {:induction false} CollisionExample(camel: string -> string)
    requires camel("first_name") == "firstName" && camel("firstName") == "firstName" && camel("age") == "age"
    ensures Transform(camel, Arr([S("first_name", Text("a")), S("age", Text("b")), S("firstName", Text("c"))]))
         == Arr([S("firstName", Text("c")), S("age", Text("b"))])
  {
    CamelKey(camel, "first_name", "firstName");
    CamelKey(camel, "firstName", "firstName");
    CamelKey(camel, "age", "age");
    var es := [S("first_name", Text("a")), S("age", Text("b")), S("firstName", Text("c"))];
    var two := [S("firstName", Text("a")), S("age", Text("b"))];
    TransformEntriesPointwise(camel, es[..2]);
    assert TransformEntries(camel, es[..2]) == two;
    IndexOfFirst(two, StrKey("firstName"), 0);
  }

  // ---------------------------------------------------------------------
  // The envelopes
  // ---------------------------------------------------------------------

  /** `response()->json($body, $status)`: the array handed to the framework and the HTTP status. */
  datatype JsonResponse = JsonResponse(body: Value, status: int)

  function Envelope(success: bool, data: Value, meta: Value, error: Value): Value {
    Arr([S("success", Prim(Bool(success))), S("data", data), S("meta", meta), S("error", error)])
  }

  /** `successResponse($data = null, $meta = [], $status = 200)`. */
  function SuccessEnvelope(camel: string -> string, data: Value := Null, meta: seq<Entry> := [], status: int := 200): JsonResponse {
    JsonResponse(Envelope(true, Transform(camel, data), Transform(camel, Arr(meta)), Null), status)
  }

  /** `errorResponse($message, $code = 'ERROR', $status = 500, $details = [])`. */
  function ErrorEnvelope(camel: string -> string, message: string, code: string := "ERROR", status: int := 500,
                         details: seq<Entry> := []): JsonResponse {
    JsonResponse(
      Envelope(false, Null, Arr([]),
        Arr([S("code", Text(code)), S("message", Text(message)), S("details", Transform(camel, Arr(details)))])),
      status)
  }

  /** The four envelope keys, in order. */
  const ENVELOPE_KEYS: seq<Key> := [StrKey("success"), StrKey("data"), StrKey("meta"), StrKey("error")]

  function KeySeq(es: seq<Entry>): seq<Key> {
    seq(|es|, i requires 0 <= i < |es| => es[i].key)
  }

  /**
   * A success envelope has the four keys, `success` true, `error` null, the
   * transformed data and meta, and the given status (200 by default).
   */
  lemma {:induction false} SuccessEnvelopeShape(camel: string -> string, data: Value, meta: seq<Entry>, status: int)
    ensures var r := SuccessEnvelope(camel, data, meta, status);
      && r.body.Arr? && KeySeq(r.body.entries) == ENVELOPE_KEYS
      && Lookup(r.body.entries, StrKey("success")) == Some(Prim(Bool(true)))
      && Lookup(r.body.entries, StrKey("data")) == Some(Transform(camel, data))
      && Lookup(r.body.entries, StrKey("meta")) == Some(Arr(TransformEntries(camel, meta)))
      && Lookup(r.body.entries, StrKey("error")) == Some(Null)
      && r.status == status
    ensures SuccessEnvelope(camel).status == 200
    ensures SuccessEnvelope(camel).body == Envelope(true, Null, Arr([]), Null)
  {
    var es := SuccessEnvelope(camel, data, meta, status).body.entries;
    IndexOfFirst(es, StrKey("data"), 1);
    IndexOfFirst(es, StrKey("meta"), 2);
    IndexOfFirst(es, StrKey("error"), 3);
  }

  /**
   * An error envelope has the four keys, `success` false, `data` null,
   * `meta` empty, and an `error` whose code and message are the arguments
   * untouched and whose details alone are transformed; defaults are code
   * `ERROR` and status 500.
   */
  lemma {:induction false} ErrorEnvelopeShape(camel: string -> string, other: string -> string, message: string, code: string,
                           status: int, details: seq<Entry>)
    ensures var r := ErrorEnvelope(camel, message, code, status, details);
      && r.body.Arr? && KeySeq(r.body.entries) == ENVELOPE_KEYS
      && Lookup(r.body.entries, StrKey("success")) == Some(Prim(Bool(false)))
      && Lookup(r.body.entries, StrKey("data")) == Some(Null)
      && Lookup(r.body.entries, StrKey("meta")) == Some(Arr([]))
      && Lookup(r.body.entries, StrKey("error")) ==
           Some(Arr([S("code", Text(code)), S("message", Text(message)), S("details", Arr(TransformEntries(camel, details)))]))
      && r.status == status
    ensures ErrorEnvelope(camel, message) == ErrorEnvelope(camel, message, "ERROR", 500, [])
    ensures details == [] ==> ErrorEnvelope(camel, message, code, status, details) == ErrorEnvelope(other, message, code, status, details)
  {
    var es := ErrorEnvelope(camel, message, code, status, details).body.entries;
    IndexOfFirst(es, StrKey("data"), 1);
    IndexOfFirst(es, StrKey("meta"), 2);
    IndexOfFirst(es, StrKey("error"), 3);
  }

  /** A success envelope and an error envelope never coincide. */
  lemma {:induction false} EnvelopesDiffer(camel: string -> string, data: Value, meta: seq<Entry>, status: int,
                        message: string, code: string, status': int, details: seq<Entry>)
    ensures SuccessEnvelope(camel, data, meta, status) != ErrorEnvelope(camel, message, code, status', details)
  {
    assert SuccessEnvelope(camel, data, meta, status).body.entries[0] != ErrorEnvelope(camel, message, code, status', details).body.entries[0];
  }

  /** The success example of the unit tests: `test_key` comes back as `testKey`. */
  lemma {:induction false} SuccessExample(camel: string -> string)
    requires camel("test_key") == "testKey"
    ensures SuccessEnvelope(camel, Arr([S("test_key", Text("value"))])) ==
            JsonResponse(Envelope(true, Arr([S("testKey", Text("value"))]), Arr([]), Null), 200)
  {
    CamelKey(camel, "test_key", "testKey");
    TransformEntriesPointwise(camel, [S("test_key", Text("value"))]);
    assert TransformEntries(camel, [S("test_key", Text("value"))]) == [S("testKey", Text("value"))];
    assert TransformEntries(camel, []) == [];
  }

  /** The error example of the unit tests: code and message as given, the details key rewritten. */
  lemma {:induction false} ErrorExample(camel: string -> string)
    requires camel("error_detail") == "errorDetail"
    ensures ErrorEnvelope(camel, "Something went wrong", "CUSTOM_ERROR", 400, [S("error_detail", Text("Additional info"))]) ==
            JsonResponse(Envelope(false, Null, Arr([]),
              Arr([S("code", Text("CUSTOM_ERROR")), S("message", Text("Something went wrong")),
                   S("details", Arr([S("errorDetail", Text("Additional info"))]))])), 400)
  {
    CamelKey(camel, "error_detail", "errorDetail");
    TransformEntriesPointwise(camel, [S("error_detail", Text("Additional info"))]);
    assert TransformEntries(camel, [S("error_detail", Text("Additional info"))]) == [S("errorDetail", Text("Additional info"))];
  }

  // ---------------------------------------------------------------------
  // The service and its key cache
  // ---------------------------------------------------------------------

  /**
   * The string keys a transform of v sends through `transformKey`, that is
   * the keys the key cache holds afterwards: every string key of every array
   * the transform rewrites, at any depth; the keys of a collection and the
   * raw fields of a paginated collection are not rewritten.
   */
  ghost function RewrittenKeys(v: Value): set<string>
    decreases v
  {
    match v
    case Arr(es) => RewrittenEntryKeys(es)
    case ResourceCollection(r) =>
      if IsSet(r, "data") then
        var e := r[IndexOf(r, StrKey("data")).value];
        assert e in r;
        assert v decreases to r;
        assert r decreases to e;
        assert e decreases to e.value;
        RewrittenKeys(e.value)
      else
        RewrittenEntryKeys(r)
    case JsonResource(r) => RewrittenEntryKeys(r)
    case Model(attributes) => RewrittenEntryKeys(attributes)
    case Collection(items) => RewrittenItemKeys(items)
    case JsonSerializable(s) => RewrittenKeys(s)
    case Object(properties) => RewrittenEntryKeys(properties)
    case _ => {}
  }

  /** The keys `transformArray` rewrites: each string key, then the keys rewritten inside its value. */
  ghost function RewrittenEntryKeys(es: seq<Entry>): set<string>
    decreases es
  {
    if es == [] then {}
    else
      var e := es[|es| - 1];
      assert e in es;
      assert es decreases to e;
      assert e decreases to e.value;
      RewrittenEntryKeys(es[..|es| - 1]) + (if e.key.StrKey? then {e.key.s} else {}) + RewrittenKeys(e.value)
  }

  /** The keys rewritten inside the items of a collection, whose own keys are kept. */
  ghost function RewrittenItemKeys(items: seq<Entry>): set<string>
    decreases items
  {
    if items == [] then {}
    else
      var e := items[|items| - 1];
      assert e in items;
      assert items decreases to e;
      assert e decreases to e.value;
      RewrittenItemKeys(items[..|items| - 1]) + RewrittenKeys(e.value)
  }

  lemma {:induction false} RewrittenEntryKeysSnoc(es: seq<Entry>, i: nat)
    requires i < |es|
    ensures RewrittenEntryKeys(es[..i + 1]) ==
            RewrittenEntryKeys(es[..i]) + (if es[i].key.StrKey? then {es[i].key.s} else {}) + RewrittenKeys(es[i].value)
  {
    assert es[..i + 1][..i] == es[..i];
  }

  lemma {:induction false} RewrittenItemKeysSnoc(items: seq<Entry>, i: nat)
    requires i < |items|
    ensures RewrittenItemKeys(items[..i + 1]) == RewrittenItemKeys(items[..i]) + RewrittenKeys(items[i].value)
  {
    assert items[..i + 1][..i] == items[..i];
  }

  /**
   * The static state of `ApiResponseService`: the rewriting `Str::camel`
   * applies (fixed) and the `$keyCache` memo of keys already rewritten.
   */
  class ApiResponseService {
    const camel: string -> string
    var keyCache: map<string, string>

    /** The cache only remembers true rewritings. */
    ghost predicate Valid()
      reads this
    {
      forall k :: k in keyCache ==> keyCache[k] == camel(k)
    }

    constructor (camel: string -> string)
      ensures Valid()
      ensures this.camel == camel && keyCache == map[]
    {
      this.camel := camel;
      keyCache := map[];
    }

    /** `transformKey`: answer from the cache, filling it on a miss; an existing entry is never altered. */
    method TransformKey(key: string) returns (r: string)
      requires Valid()
      modifies this`keyCache
      ensures Valid()
      ensures r == camel(key)
      ensures keyCache == old(keyCache)[key := r]
      ensures key in old(keyCache) ==> keyCache == old(keyCache)
    {
      if key !in keyCache {
        keyCache := keyCache[key := camel(key)];
      }
      r := keyCache[key];
    }

    /** `clearCache`. */
    method ClearCache()
      modifies this`keyCache
      ensures Valid()
      ensures keyCache == map[]
    {
      keyCache := map[];
    }

    /** `transformToCamelCase`: null, arrays, objects, and everything else unchanged. */
    method TransformToCamelCase(v: Value) returns (r: Value)
      requires Valid()
      modifies this`keyCache
      ensures Valid()
      ensures r == Transform(camel, v)
      ensures keyCache.Keys == old(keyCache).Keys + RewrittenKeys(v)
      decreases v, 1
    {
      match v
      case Null => r := Null;
      case Arr(es) =>
        var t := TransformArray(es);
        r := Arr(t);
      case Prim(_) => r := v;
      case _ => r := TransformObject(v);
    }

    /** `transformArray`: a fresh array filled in input order with rewritten keys and transformed values. */
    method TransformArray(es: seq<Entry>) returns (r: seq<Entry>)
      requires Valid()
      modifies this`keyCache
      ensures Valid()
      ensures r == TransformEntries(camel, es)
      ensures keyCache.Keys == old(keyCache).Keys + RewrittenEntryKeys(es)
      decreases es, 2
    {
      r := [];
      var i := 0;
      while i < |es|
        invariant 0 <= i <= |es|
        invariant Valid()
        invariant r == TransformEntries(camel, es[..i])
        invariant keyCache.Keys == old(keyCache).Keys + RewrittenEntryKeys(es[..i])
      {
        var e := es[i];
        assert e in es;
        assert es decreases to e;
        assert e decreases to e.value;
        var key := e.key;
        if key.StrKey? {
          var s := TransformKey(key.s);
          key := ArrayKey(s);
        }
        var w := TransformToCamelCase(e.value);
        TransformEntriesSnoc(camel, es, i);
        RewrittenEntryKeysSnoc(es, i);
        r := Assign(r, key, w);
        i := i + 1;
      }
      assert es[..i] == es;
    }

    /** `$collection->map(...)->all()`: the same keys with each value transformed. */
    method TransformCollection(items: seq<Entry>) returns (r: seq<Entry>)
      requires Valid()
      modifies this`keyCache
      ensures Valid()
      ensures r == TransformItems(camel, items)
      ensures keyCache.Keys == old(keyCache).Keys + RewrittenItemKeys(items)
      decreases items, 2
    {
      r := [];
      var i := 0;
      while i < |items|
        invariant 0 <= i <= |items|
        invariant Valid()
        invariant r == TransformItems(camel, items[..i])
        invariant keyCache.Keys == old(keyCache).Keys + RewrittenItemKeys(items[..i])
      {
        var e := items[i];
        assert e in items;
        assert items decreases to e;
        assert e decreases to e.value;
        var w := TransformToCamelCase(e.value);
        TransformItemsSnoc(camel, items, i);
        RewrittenItemKeysSnoc(items, i);
        r := r + [Entry(e.key, w)];
        i := i + 1;
      }
      assert items[..i] == items;
    }

    /** `transformObject`: the object kinds, tested in the source's order. */
    method TransformObject(v: Value) returns (r: Value)
      requires Valid()
      requires !v.Null? && !v.Prim? && !v.Arr?
      modifies this`keyCache
      ensures Valid()
      ensures r == Transform(camel, v)
      ensures keyCache.Keys == old(keyCache).Keys + RewrittenKeys(v)
      decreases v, 0
    {
      match v
      case ResourceCollection(data) =>
        if IsSet(data, "data") {
          var meta := PaginationMeta(data);
          var e := data[IndexOf(data, StrKey("data")).value];
          assert e in data;
          assert v decreases to data;
          assert data decreases to e;
          assert e decreases to e.value;
          var inner := TransformToCamelCase(e.value);
          r := Arr([S("data", inner), S("meta", Arr(meta))]);
        } else {
          var t := TransformArray(data);
          r := Arr(t);
        }
      case JsonResource(resolved) =>
        var t := TransformArray(resolved);
        r := Arr(t);
      case DateTime(seconds, micros) =>
        r := Prim(Int(DateTimeMicros(seconds, micros)));
      case Model(attributes) =>
        var t := TransformArray(attributes);
        r := Arr(t);
      case Collection(items) =>
        var t := TransformCollection(items);
        r := Arr(t);
      case BackedEnum(b) => r := Prim(b);
      case UnitEnum(name) => r := Prim(Str(name));
      case JsonSerializable(s) => r := TransformToCamelCase(s);
      case Object(properties) =>
        var t := TransformArray(properties);
        r := Arr(t);
    }

    /** `successResponse`. */
    method SuccessResponse(data: Value := Null, meta: seq<Entry> := [], status: int := 200) returns (response: JsonResponse)
      requires Valid()
      modifies this`keyCache
      ensures Valid()
      ensures response == SuccessEnvelope(camel, data, meta, status)
      ensures keyCache.Keys == old(keyCache).Keys + RewrittenKeys(data) + RewrittenEntryKeys(meta)
    {
      var d := TransformToCamelCase(data);
      var m := TransformToCamelCase(Arr(meta));
      response := JsonResponse(Envelope(true, d, m, Null), status);
    }

    /** `errorResponse`. */
    method ErrorResponse(message: string, code: string := "ERROR", status: int := 500, details: seq<Entry> := [])
      returns (response: JsonResponse)
      requires Valid()
      modifies this`keyCache
      ensures Valid()
      ensures response == ErrorEnvelope(camel, message, code, status, details)
      ensures keyCache.Keys == old(keyCache).Keys + RewrittenEntryKeys(details)
    {
      var d := TransformToCamelCase(Arr(details));
      response := JsonResponse(
        Envelope(false, Null, Arr([]), Arr([S("code", Text(code)), S("message", Text(message)), S("details", d)])),
        status);
    }
  }
}
