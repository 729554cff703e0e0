/**
 * The packed form of messages: trees of lists, numbers and strings, with the keys of all objects in
 * one table.  Packing is what the server does, unpacking what its clients do.
 */
module WsPacked {
  import opened Wrappers

  /**
   * A payload.  Objects are in insertion order; `NonFinite` is an infinity or not a number, and
   * `Alien` any other Python value, with what `str` shows for it.
   */
  datatype Json =
    | Null
    | Bool(b: bool)
    | Num(n: real)
    | NonFinite
    | Str(s: string)
    | Arr(items: seq<Json>)
    | Obj(fields: seq<Field>)
    | Alien(shown: string)

  /** The key of an `AlienField` is what `str` shows for it; `which` tells apart keys shown alike. */
  datatype Field = Field(key: string, value: Json) | AlienField(key: string, which: nat, value: Json)

  /** A packed tree; `Other` is whatever else JSON has, which packing never produces. */
  datatype Wire = Number(n: real) | Text(s: string) | List(items: seq<Wire>) | Other

  const OBJECT: int := -1
  const ARRAY: int := -2
  const STRING: int := -3
  const BOOL: int := -4
  const NULL: int := -5

  const SCHEMA: string := "eta-mu.ws.arr.v1"

  function Tag(t: int): Wire {
    Number(t as real)
  }

  /** Towards zero. */
  function Trunc(x: real): int {
    if x >= 0.0 then x.Floor else -((-x).Floor)
  }

  predicate SameKey(f: Field, g: Field) {
    f.key == g.key && f.Field? == g.Field? && (f.AlienField? && g.AlienField? ==> f.which == g.which)
  }

  predicate DistinctKeys(fields: seq<Field>) {
    forall i, j :: 0 <= i < j < |fields| ==> !SameKey(fields[i], fields[j])
  }

  predicate ValidJson(v: Json) {
    match v
    case Arr(items) => forall x :: x in items ==> ValidJson(x)
    case Obj(fields) => DistinctKeys(fields) && forall f :: f in fields ==> ValidJson(f.value)
    case _ => true
  }

  // ---------------------------------------------------------------------------------------
  // Packing
  // ---------------------------------------------------------------------------------------

  function IndexOf(table: seq<string>, key: string): (i: nat)
    ensures i <= |table|
    ensures i < |table| ==> table[i] == key
    ensures i == |table| <==> key !in table
  {
    if table == [] || table[0] == key then 0 else 1 + IndexOf(table[1..], key)
  }

  function Interned(table: seq<string>, key: string): seq<string> {
    if key in table then table else table + [key]
  }

  /** The packed value, and the key table with the new keys added. */
  function Pack(v: Json, table: seq<string>): (Wire, seq<string>)
    decreases v, 1
  {
    match v
    case Null => (List([Tag(NULL)]), table)
    case Bool(b) => (List([Tag(BOOL), Number(if b then 1.0 else 0.0)]), table)
    case Num(n) => (Number(n), table)
    case NonFinite => (List([Tag(STRING), Text("0")]), table)
    case Str(s) => (List([Tag(STRING), Text(s)]), table)
    case Arr(items) =>
      var (ws, table') := PackItems(items, table);
      (List([Tag(ARRAY)] + ws), table')
    case Obj(fields) =>
      var (ws, table') := PackFields(fields, table);
      (List([Tag(OBJECT)] + ws), table')
    case Alien(shown) => (List([Tag(STRING), Text(shown)]), table)
  }

  function PackItems(items: seq<Json>, table: seq<string>): (seq<Wire>, seq<string>)
    decreases items, 0
  {
    if items == [] then ([], table)
    else
      var (w, table1) := Pack(items[0], table);
      var (ws, table2) := PackItems(items[1..], table1);
      ([w] + ws, table2)
  }

  /** Slot numbers and packed values by turns. */
  function PackFields(fields: seq<Field>, table: seq<string>): (seq<Wire>, seq<string>)
    decreases fields, 0
  {
    if fields == [] then ([], table)
    else
      var (w, table1) := Pack(fields[0].value, Interned(table, fields[0].key));
      var (ws, table2) := PackFields(fields[1..], table1);
      ([Number(IndexOf(table, fields[0].key) as real), w] + ws, table2)
  }

  // ---------------------------------------------------------------------------------------
  // Unpacking
  // ---------------------------------------------------------------------------------------

  /** How values of the wrong type become strings and integers; the latter may raise an exception. */
  datatype Coercions = Coercions(show: Wire -> string, toInt: Wire -> Option<int>)

  datatype Unpacked<+T> = Value(value: T) | Raised

  function AsInt(w: Wire, c: Coercions): Option<int> {
    if w.Number? then Some(Trunc(w.n)) else c.toInt(w)
  }

  function AsString(w: Wire, c: Coercions): string {
    if w.Text? then w.s else c.show(w)
  }

  function Unpack(w: Wire, table: seq<string>, c: Coercions): Unpacked<Json>
    decreases w, 1
  {
    match w
    case Number(n) => Value(Num(n))
    case List(items) =>
      if items == [] || !items[0].Number? then Value(Null)
      else
        var tag := Trunc(items[0].n);
        if tag == NULL then Value(Null)
        else if tag == BOOL then
          if |items| == 1 then Value(Bool(false))
          else if AsInt(items[1], c).None? then Raised
          else Value(Bool(AsInt(items[1], c).value != 0))
        else if tag == STRING then Value(Str(if |items| > 1 then AsString(items[1], c) else ""))
        else if tag == ARRAY then
          var vs := UnpackItems(items[1..], table, c);
          if vs.Raised? then Raised else Value(Arr(vs.value))
        else if tag != OBJECT then Value(Null)
        else
          var fields := UnpackFields(items[1..], table, c, []);
          if fields.Raised? then Raised else Value(Obj(fields.value))
    case _ => Value(Null)
  }

  function UnpackItems(ws: seq<Wire>, table: seq<string>, c: Coercions): Unpacked<seq<Json>>
    decreases ws, 0
  {
    if ws == [] then Value([])
    else
      var v := Unpack(ws[0], table, c);
      if v.Raised? then Raised
      else
        var vs := UnpackItems(ws[1..], table, c);
        if vs.Raised? then Raised else Value([v.value] + vs.value)
  }

  /** Setting a key of a dictionary. */
  function Assign(fields: seq<Field>, key: string, v: Json): seq<Field> {
    if fields == [] then [Field(key, v)]
    else if fields[0].key == key then [Field(key, v)] + fields[1..]
    else [fields[0]] + Assign(fields[1..], key, v)
  }

  function UnpackFields(ws: seq<Wire>, table: seq<string>, c: Coercions, output: seq<Field>): Unpacked<seq<Field>>
    decreases ws, 0
  {
    if |ws| < 2 then Value(output)
    else if ws[0].Number? && 0 <= Trunc(ws[0].n) < |table| then
      var v := Unpack(ws[1], table, c);
      if v.Raised? then Raised else UnpackFields(ws[2..], table, c, Assign(output, table[Trunc(ws[0].n)], v.value))
    else UnpackFields(ws[2..], table, c, output)
  }

  // ---------------------------------------------------------------------------------------
  // The round trip
  // ---------------------------------------------------------------------------------------

  /**
   * What comes back.  Infinities and not-a-numbers turn into the string "0", other Python values and
   * keys into what is shown for them, and of fields whose keys are shown alike the last one wins.
   */
  function Survivor(v: Json): Json
    decreases v, 1
  {
    match v
    case NonFinite => Str("0")
    case Alien(shown) => Str(shown)
    case Arr(items) => Arr(Survivors(items))
    case Obj(fields) => Obj(Settled(fields, []))
    case _ => v
  }

  function Survivors(items: seq<Json>): seq<Json>
    decreases items, 0
  {
    if items == [] then [] else [Survivor(items[0])] + Survivors(items[1..])
  }

  function Settled(fields: seq<Field>, output: seq<Field>): seq<Field>
    decreases fields, 0
  {
    if fields == [] then output
    else Settled(fields[1..], Assign(output, fields[0].key, Survivor(fields[0].value)))
  }

  /** Finite numbers, no values but those of JSON, and strings for keys. */
  predicate Plain(v: Json) {
    match v
    case NonFinite => false
    case Alien(_) => false
    case Arr(items) => forall x :: x in items ==> Plain(x)
    case Obj(fields) => forall f :: f in fields ==> f.Field? && Plain(f.value)
    case _ => true
  }

  /** The value under a key of strings. */
  function ValueOf(fields: seq<Field>, text: string): Option<Json> {
    if fields == [] then None
    else if fields[0].key == text then Some(fields[0].value)
    else ValueOf(fields[1..], text)
  }

  /** What survives of the last field whose key is shown so. */
  function LastShown(fields: seq<Field>, text: string): Option<Json> {
    if fields == [] then None
    else
      var later := LastShown(fields[1..], text);
      if later.Some? || fields[0].key != text then later else Some(Survivor(fields[0].value))
  }

  function Keys(fields: seq<Field>): seq<string> {
    if fields == [] then [] else [fields[0].key] + Keys(fields[1..])
  }

  /** The keys as they are shown, each where it is shown first. */
  function ShownOnce(fields: seq<Field>, before: seq<string>): seq<string> {
    if fields == [] then before else ShownOnce(fields[1..], Interned(before, fields[0].key))
  }

  lemma {:induction false} AssignIs(fields: seq<Field>, key: string, v: Json, text: string)
    ensures Keys(Assign(fields, key, v)) == if key in Keys(fields) then Keys(fields) else Keys(fields) + [key]
    ensures ValueOf(Assign(fields, key, v), text) == if key == text then Some(v) else ValueOf(fields, text)
  {
    if fields != [] {
      assert Assign(fields, key, v)[1..] == if fields[0].key == key then fields[1..] else Assign(fields[1..], key, v);
      AssignIs(fields[1..], key, v, text);
    }
  }

  /** Collisions, exactly: each key once, where it is shown first, with the last value for it. */
  lemma {:induction false} SettledIs(fields: seq<Field>, output: seq<Field>, text: string)
    ensures Keys(Settled(fields, output)) == ShownOnce(fields, Keys(output))
    ensures ValueOf(Settled(fields, output), text) ==
      if LastShown(fields, text).Some? then LastShown(fields, text) else ValueOf(output, text)
  {
    if fields != [] {
      var key, v := fields[0].key, Survivor(fields[0].value);
      AssignIs(output, key, v, text);
      SettledIs(fields[1..], Assign(output, key, v), text);
    }
  }

  lemma {:induction false} SettledNames(fields: seq<Field>, output: seq<Field>)
    requires forall f :: f in output ==> f.Field?
    ensures forall f :: f in Settled(fields, output) ==> f.Field?
  {
    if fields != [] {
      var key, v := fields[0].key, Survivor(fields[0].value);
      AssignNames(output, key, v);
      SettledNames(fields[1..], Assign(output, key, v));
    }
  }

  lemma {:induction false} AssignNames(fields: seq<Field>, key: string, v: Json)
    requires forall f :: f in fields ==> f.Field?
    ensures forall f :: f in Assign(fields, key, v) ==> f.Field?
  {
    if fields != [] { AssignNames(fields[1..], key, v); }
  }

  function Each(fields: seq<Field>): seq<Field> {
    if fields == [] then [] else [Field(fields[0].key, Survivor(fields[0].value))] + Each(fields[1..])
  }

  ghost predicate StringKeys(fields: seq<Field>) {
    forall i :: 0 <= i < |fields| ==> fields[i].Field?
  }

  ghost predicate Unset(key: string, fields: seq<Field>) {
    forall i :: 0 <= i < |fields| ==> fields[i].key != key
  }

  ghost predicate AllUnset(fields: seq<Field>, output: seq<Field>) {
    forall i :: 0 <= i < |fields| ==> Unset(fields[i].key, output)
  }

  lemma {:induction false} AssignNew(fields: seq<Field>, key: string, v: Json)
    requires Unset(key, fields)
    ensures Assign(fields, key, v) == fields + [Field(key, v)]
  {
    if fields != [] { AssignNew(fields[1..], key, v); }
  }

  /** Keys that are strings do not collide. */
  lemma {:induction false} SettledDistinct(fields: seq<Field>, output: seq<Field>)
    requires DistinctKeys(fields) && StringKeys(fields) && AllUnset(fields, output)
    ensures Settled(fields, output) == output + Each(fields)
  {
    if fields != [] {
      var key, v := fields[0].key, Survivor(fields[0].value);
      AssignNew(output, key, v);
      StillUnset(fields, output, v);
      SettledDistinct(fields[1..], output + [Field(key, v)]);
      assert output + [Field(key, v)] + Each(fields[1..]) == output + Each(fields);
    } else {
      assert output + [] == output;
    }
  }

  lemma StillUnset(fields: seq<Field>, output: seq<Field>, v: Json)
    requires fields != [] && DistinctKeys(fields) && StringKeys(fields) && AllUnset(fields, output)
    ensures DistinctKeys(fields[1..]) && StringKeys(fields[1..])
    ensures AllUnset(fields[1..], output + [Field(fields[0].key, v)])
  {
    forall i | 0 <= i < |fields[1..]| ensures Unset(fields[1..][i].key, output + [Field(fields[0].key, v)]) {
      assert !SameKey(fields[0], fields[i + 1]) && Unset(fields[i + 1].key, output);
    }
  }

  lemma {:induction false} EachAt(fields: seq<Field>)
    ensures |Each(fields)| == |fields|
    ensures forall i :: 0 <= i < |fields| ==> Each(fields)[i] == Field(fields[i].key, Survivor(fields[i].value))
  {
    if fields != [] { EachAt(fields[1..]); }
  }

  lemma {:induction false} SurvivorsAt(items: seq<Json>)
    ensures |Survivors(items)| == |items|
    ensures forall i :: 0 <= i < |items| ==> Survivors(items)[i] == Survivor(items[i])
  {
    if items != [] { SurvivorsAt(items[1..]); }
  }

  lemma PlainFields(fields: seq<Field>)
    requires DistinctKeys(fields) && StringKeys(fields)
    ensures Settled(fields, []) == fields <==> forall i :: 0 <= i < |fields| ==> Survivor(fields[i].value) == fields[i].value
  {
    SettledDistinct(fields, []);
    EachAt(fields);
    assert Settled(fields, []) == Each(fields);
    assert Each(fields) == fields <==> forall i :: 0 <= i < |fields| ==> Each(fields)[i] == fields[i];
  }

  /** A payload survives exactly if it is plain. */
  lemma {:induction false} SurvivesIff(v: Json)
    requires ValidJson(v)
    ensures Survivor(v) == v <==> Plain(v)
    decreases v
  {
    match v
    case Arr(items) =>
      forall i | 0 <= i < |items| ensures Survivor(items[i]) == items[i] <==> Plain(items[i]) { SurvivesIff(items[i]); }
      SurvivorsAt(items);
      assert Survivors(items) == items <==> forall i :: 0 <= i < |items| ==> Survivors(items)[i] == items[i];
    case Obj(fields) =>
      forall i | 0 <= i < |fields| ensures Survivor(fields[i].value) == fields[i].value <==> Plain(fields[i].value) {
        SurvivesIff(fields[i].value);
      }
      SettledNames(fields, []);
      if StringKeys(fields) { PlainFields(fields); }
    case _ =>
  }

  lemma TruncIs(x: real, k: int)
    ensures Trunc(x) == k <==> if x >= 0.0 then k as real <= x < k as real + 1.0 else k as real - 1.0 < x <= k as real
  {
  }

  lemma TruncOfInt(k: int)
    ensures Trunc(k as real) == k
  {
  }

  /** The table only grows, at its end. */
  lemma {:induction false} PackGrows(v: Json, table: seq<string>)
    ensures table <= Pack(v, table).1
    decreases v, 1
  {
    match v
    case Arr(items) => PackItemsGrows(items, table);
    case Obj(fields) => PackFieldsGrows(fields, table);
    case _ =>
  }

  lemma {:induction false} PackItemsGrows(items: seq<Json>, table: seq<string>)
    ensures table <= PackItems(items, table).1
    decreases items, 0
  {
    if items != [] {
      PackGrows(items[0], table);
      PackItemsGrows(items[1..], Pack(items[0], table).1);
    }
  }

  lemma {:induction false} PackFieldsGrows(fields: seq<Field>, table: seq<string>)
    ensures table <= PackFields(fields, table).1
    decreases fields, 0
  {
    if fields != [] {
      var table1 := Interned(table, fields[0].key);
      PackGrows(fields[0].value, table1);
      PackFieldsGrows(fields[1..], Pack(fields[0].value, table1).1);
    }
  }

  /** Unpacking undoes packing, with any table that extends the one packing ends with. */
  lemma {:induction false} UnpackPack(v: Json, table: seq<string>, full: seq<string>, c: Coercions)
    requires Pack(v, table).1 <= full
    ensures Unpack(Pack(v, table).0, full, c) == Value(Survivor(v))
    decreases v, 1
  {
    match v
    case Null => TruncOfInt(NULL);
    case Bool(b) => TruncOfInt(BOOL); TruncOfInt(0); TruncOfInt(1);
    case Num(n) =>
    case NonFinite => TruncOfInt(STRING);
    case Str(s) => TruncOfInt(STRING);
    case Arr(items) =>
      TruncOfInt(ARRAY);
      var ws := PackItems(items, table).0;
      assert ([Tag(ARRAY)] + ws)[1..] == ws;
      UnpackPackItems(items, table, full, c);
    case Obj(fields) =>
      TruncOfInt(OBJECT);
      var ws := PackFields(fields, table).0;
      assert ([Tag(OBJECT)] + ws)[1..] == ws;
      UnpackPackFields(fields, table, full, c, []);
    case Alien(_) => TruncOfInt(STRING);
  }

  lemma {:induction false} UnpackPackItems(items: seq<Json>, table: seq<string>, full: seq<string>, c: Coercions)
    requires PackItems(items, table).1 <= full
    ensures UnpackItems(PackItems(items, table).0, full, c) == Value(Survivors(items))
    decreases items, 0
  {
    if items != [] {
      var (w, table1) := Pack(items[0], table);
      var (ws, table2) := PackItems(items[1..], table1);
      PackItemsGrows(items[1..], table1);
      UnpackPack(items[0], table, full, c);
      UnpackPackItems(items[1..], table1, full, c);
      assert ([w] + ws)[1..] == ws;
    }
  }

  lemma {:induction false} UnpackPackFields(
      fields: seq<Field>, table: seq<string>, full: seq<string>, c: Coercions, output: seq<Field>)
    requires PackFields(fields, table).1 <= full
    ensures UnpackFields(PackFields(fields, table).0, full, c, output) == Value(Settled(fields, output))
    decreases fields, 0
  {
    if fields != [] {
      var key, v := fields[0].key, fields[0].value;
      var k := IndexOf(table, key);
      var table0 := Interned(table, key);
      var (w, table1) := Pack(v, table0);
      var (ws, table2) := PackFields(fields[1..], table1);
      PackGrows(v, table0);
      PackFieldsGrows(fields[1..], table1);
      assert table0[k] == key && full[k] == key;
      UnpackPack(v, table0, full, c);
      UnpackField(k, w, ws, full, c, Survivor(v), output);
      UnpackPackFields(fields[1..], table1, full, c, Assign(output, key, Survivor(v)));
    }
  }

  lemma UnpackField(k: nat, w: Wire, ws: seq<Wire>, full: seq<string>, c: Coercions, v: Json, output: seq<Field>)
    requires k < |full| && Unpack(w, full, c) == Value(v)
    ensures UnpackFields([Number(k as real), w] + ws, full, c, output) == UnpackFields(ws, full, c, Assign(output, full[k], v))
  {
  }

  // ---------------------------------------------------------------------------------------
  // Messages
  // ---------------------------------------------------------------------------------------

  function Texts(keys: seq<string>): seq<Wire> {
    seq(|keys|, i requires 0 <= i < |keys| => Text(keys[i]))
  }

  function PackMessage(payload: Json): Wire {
    var (encoded, table) := Pack(payload, []);
    List([Text(SCHEMA), List(Texts(table)), encoded])
  }

  /** The message {"a": [true, null, "x"]} with its tags and its table. */
  lemma PackedExample()
    ensures PackMessage(Obj([Field("a", Arr([Bool(true), Null, Str("x")]))])) ==
      List([Text("eta-mu.ws.arr.v1"), List([Text("a")]),
            List([Number(-1.0), Number(0.0),
                  List([Number(-2.0), List([Number(-4.0), Number(1.0)]), List([Number(-5.0)]), List([Number(-3.0), Text("x")])])])])
  {
    var x, n, b := List([Tag(STRING), Text("x")]), List([Tag(NULL)]), List([Tag(BOOL), Number(1.0)]);
    ItemInFront(Str("x"), [], ["a"], x, []);
    assert [x] + [] == [x] && [Str("x")] + [] == [Str("x")];
    ItemInFront(Null, [Str("x")], ["a"], n, [x]);
    ItemInFront(Bool(true), [Null] + [Str("x")], ["a"], b, [n] + [x]);
    var items, ws := [Bool(true), Null, Str("x")], [b, n, x];
    assert items == [Bool(true)] + ([Null] + [Str("x")]) && ws == [b] + ([n] + [x]);
    var field, packed := Field("a", Arr(items)), List([Tag(ARRAY)] + ws);
    assert Pack(field.value, ["a"]) == (packed, ["a"]);
    OneField(field, packed);
    assert [Tag(ARRAY)] + ws == [Tag(ARRAY), b, n, x];
    assert Texts(["a"]) == [Text("a")];
  }

  lemma ItemInFront(v: Json, items: seq<Json>, table: seq<string>, w: Wire, ws: seq<Wire>)
    requires Pack(v, table) == (w, table) && PackItems(items, table) == (ws, table)
    ensures PackItems([v] + items, table) == ([w] + ws, table)
  {
    assert ([v] + items)[1..] == items;
  }

  lemma OneField(f: Field, w: Wire)
    requires Pack(f.value, [f.key]) == (w, [f.key])
    ensures Pack(Obj([f]), []) == (List([Tag(OBJECT), Number(0.0), w]), [f.key])
  {
    assert Interned([], f.key) == [f.key] && [f][1..] == [] && IndexOf([], f.key) == 0;
    assert PackFields([f][1..], [f.key]) == ([], [f.key]);
    assert PackFields([f], []) == ([Number(0.0), w] + [], [f.key]);
    assert [Number(0.0), w] + [] == [Number(0.0), w];
    assert [Tag(OBJECT)] + [Number(0.0), w] == [Tag(OBJECT), Number(0.0), w];
  }

  function KeysIn(ws: seq<Wire>): seq<string> {
    if ws == [] then [] else (if ws[0].Text? then [ws[0].s] else []) + KeysIn(ws[1..])
  }

  /** A packed message, if it is one and comes to an object. */
  function UnpackMessage(w: Wire, c: Coercions): Unpacked<Option<Json>> {
    if !w.List? || |w.items| < 3 || AsString(w.items[0], c) != SCHEMA then Value(None)
    else
      var table := if w.items[1].List? then KeysIn(w.items[1].items) else [];
      var v := Unpack(w.items[2], table, c);
      if v.Raised? then Raised else Value(if v.value.Obj? then Some(v.value) else None)
  }

  /** What is too short, or under another name, is not a message. */
  lemma NoMessage(w: Wire, c: Coercions)
    ensures !w.List? || |w.items| < 3 || (w.items[0].Text? && w.items[0].s != SCHEMA) ==> UnpackMessage(w, c) == Value(None)
  {
  }

  lemma {:induction false} KeysInTexts(keys: seq<string>)
    ensures KeysIn(Texts(keys)) == keys
  {
    if keys != [] {
      assert Texts(keys)[1..] == Texts(keys[1..]);
      KeysInTexts(keys[1..]);
    }
  }

  /**
   * A client gets back the message that the server packed, unchanged exactly when it holds finite
   * numbers, no values but those of JSON, and strings for keys.
   */
  lemma MessageRoundTrip(fields: seq<Field>, c: Coercions)
    requires ValidJson(Obj(fields))
    ensures UnpackMessage(PackMessage(Obj(fields)), c) == Value(Some(Survivor(Obj(fields))))
    ensures UnpackMessage(PackMessage(Obj(fields)), c) == Value(Some(Obj(fields))) <==> Plain(Obj(fields))
  {
    var v := Obj(fields);
    KeysInTexts(Pack(v, []).1);
    UnpackPack(v, [], Pack(v, []).1, c);
    SurvivesIff(v);
  }

  /** The keys 1 and "1" are shown alike: only the value of the second is left, under the place of the first. */
  lemma OneShadowsOne(first: Json, second: Json, c: Coercions)
    requires Plain(first) && ValidJson(first) && Plain(second) && ValidJson(second)
    ensures var fields := [AlienField("1", 0, first), Field("1", second)];
      && ValidJson(Obj(fields))
      && UnpackMessage(PackMessage(Obj(fields)), c) == Value(Some(Obj([Field("1", second)])))
  {
    var fields := [AlienField("1", 0, first), Field("1", second)];
    assert fields[1..] == [fields[1]] && fields[1..][1..] == [];
    SurvivesIff(second);
    var once := Assign([], "1", Survivor(first));
    assert Settled(fields, []) == Settled([fields[1]], once) == Assign(once, "1", second);
    assert Assign(once, "1", second) == [Field("1", second)] + once[1..] == [Field("1", second)];
    assert ValidJson(Obj(fields));
    MessageRoundTrip(fields, c);
  }

  // ---------------------------------------------------------------------------------------
  // The unpacking loops
  // ---------------------------------------------------------------------------------------

  method DecodePackedNode(w: Wire, table: seq<string>, c: Coercions) returns (r: Unpacked<Json>)
    ensures r == Unpack(w, table, c)
    decreases w, 1
  {
    if w.Number? {
      return Value(Num(w.n));
    }
    if !w.List? || w.items == [] || !w.items[0].Number? {
      return Value(Null);
    }
    var node := w.items;
    var tag := Trunc(node[0].n);
    if tag == NULL {
      return Value(Null);
    }
    if tag == BOOL {
      if |node| == 1 {
        return Value(Bool(false));
      }
      var flag := AsInt(node[1], c);
      return if flag.None? then Raised else Value(Bool(flag.value != 0));
    }
    if tag == STRING {
      return Value(Str(if |node| > 1 then AsString(node[1], c) else ""));
    }
    if tag == ARRAY {
      var vs := DecodeItems(node[1..], table, c);
      return if vs.Raised? then Raised else Value(Arr(vs.value));
    }
    if tag != OBJECT {
      return Value(Null);
    }
    var fields := DecodeFields(node[1..], table, c);
    r := if fields.Raised? then Raised else Value(Obj(fields.value));
  }

  method DecodeItems(ws: seq<Wire>, table: seq<string>, c: Coercions) returns (r: Unpacked<seq<Json>>)
    ensures r == UnpackItems(ws, table, c)
    decreases ws, 0
  {
    var vs: seq<Json> := [];
    assert ws[0..] == ws;
    Prefixed([], [], UnpackItems(ws, table, c));
    for i := 0 to |ws|
      invariant UnpackItems(ws, table, c) == WithPrefix(vs, UnpackItems(ws[i..], table, c))
    {
      assert ws[i..][0] == ws[i] && ws[i..][1..] == ws[i + 1..];
      var v := DecodePackedNode(ws[i], table, c);
      if v.Raised? {
        return Raised;
      }
      Prefixed(vs, [v.value], UnpackItems(ws[i + 1..], table, c));
      vs := vs + [v.value];
    }
    assert vs + [] == vs;
    r := Value(vs);
  }

  method DecodeFields(ws: seq<Wire>, table: seq<string>, c: Coercions) returns (r: Unpacked<seq<Field>>)
    ensures r == UnpackFields(ws, table, c, [])
    decreases ws, 0
  {
    var output: seq<Field> := [];
    var index := 0;
    assert ws[0..] == ws;
    while index + 1 < |ws|
      invariant 0 <= index <= |ws|
      invariant UnpackFields(ws, table, c, []) == UnpackFields(ws[index..], table, c, output)
    {
      var slot := ws[index];
      assert ws[index..][0] == slot && ws[index..][1] == ws[index + 1] && ws[index..][2..] == ws[index + 2..];
      if slot.Number? {
        var slotIndex := Trunc(slot.n);
        if 0 <= slotIndex < |table| {
          var v := DecodePackedNode(ws[index + 1], table, c);
          if v.Raised? {
            return Raised;
          }
          output := Assign(output, table[slotIndex], v.value);
        }
      }
      index := index + 2;
    }
    r := Value(output);
  }

  function WithPrefix(vs: seq<Json>, more: Unpacked<seq<Json>>): Unpacked<seq<Json>> {
    if more.Raised? then Raised else Value(vs + more.value)
  }

  lemma Prefixed(a: seq<Json>, b: seq<Json>, more: Unpacked<seq<Json>>)
    ensures WithPrefix(a, WithPrefix(b, more)) == WithPrefix(a + b, more)
    ensures WithPrefix([], more) == more
  {
    if more.Value? {
      assert a + (b + more.value) == a + b + more.value && [] + more.value == more.value;
    }
  }

  // ---------------------------------------------------------------------------------------
  // The packing loop
  // ---------------------------------------------------------------------------------------

  ghost predicate DistinctStrings(table: seq<string>) {
    forall i, j :: 0 <= i < j < |table| ==> table[i] != table[j]
  }

  class Packer {
    var keyTable: seq<string>
    var keyIndex: map<string, nat>

    /** The index finds every key of the table where it is, once. */
    ghost predicate Valid()
      reads this
    {
      && DistinctStrings(keyTable)
      && (forall k :: k in keyIndex <==> k in keyTable)
      && (forall k :: k in keyIndex ==> keyIndex[k] == IndexOf(keyTable, k))
    }

    constructor ()
      ensures Valid() && keyTable == []
    {
      keyTable, keyIndex := [], map[];
    }

    method PackValue(v: Json) returns (w: Wire)
      requires Valid()
      modifies this
      ensures Valid() && (w, keyTable) == Pack(v, old(keyTable))
      decreases v, 1
    {
      match v
      case Null => w := List([Tag(NULL)]);
      case Bool(b) => w := List([Tag(BOOL), Number(if b then 1.0 else 0.0)]);
      case Num(n) => w := Number(n);
      case NonFinite => w := List([Tag(STRING), Text("0")]);
      case Str(s) => w := List([Tag(STRING), Text(s)]);
      case Arr(items) =>
        var encoded := PackAll(items);
        w := List([Tag(ARRAY)] + encoded);
      case Obj(fields) =>
        var encoded := PackPairs(fields);
        w := List([Tag(OBJECT)] + encoded);
      case Alien(shown) => w := List([Tag(STRING), Text(shown)]);
    }

    method PackAll(items: seq<Json>) returns (ws: seq<Wire>)
      requires Valid()
      modifies this
      ensures Valid() && (ws, keyTable) == PackItems(items, old(keyTable))
      decreases items, 0
    {
      ws := [];
      assert items[0..] == items;
      BehindNothing(PackItems(items, keyTable));
      for i := 0 to |items|
        invariant Valid()
        invariant PackItems(items, old(keyTable)) == Behind(ws, PackItems(items[i..], keyTable))
      {
        assert items[i..][0] == items[i] && items[i..][1..] == items[i + 1..];
        ghost var table := keyTable;
        var w := PackValue(items[i]);
        BehindAgain(ws, [w], PackItems(items[i + 1..], keyTable));
        ws := ws + [w];
      }
      assert ws + [] == ws;
    }

    method PackPairs(fields: seq<Field>) returns (ws: seq<Wire>)
      requires Valid()
      modifies this
      ensures Valid() && (ws, keyTable) == PackFields(fields, old(keyTable))
      decreases fields, 0
    {
      ws := [];
      assert fields[0..] == fields;
      BehindNothing(PackFields(fields, keyTable));
      for i := 0 to |fields|
        invariant Valid()
        invariant PackFields(fields, old(keyTable)) == Behind(ws, PackFields(fields[i..], keyTable))
      {
        assert fields[i..][0] == fields[i] && fields[i..][1..] == fields[i + 1..];
        var field := fields[i];
        assert field in fields;
        var slot := Intern(field.key);
        var w := PackValue(field.value);
        BehindAgain(ws, [Number(slot as real), w], PackFields(fields[i + 1..], keyTable));
        ws := ws + [Number(slot as real), w];
      }
      assert ws + [] == ws;
    }

    method Intern(key: string) returns (slot: nat)
      requires Valid()
      modifies this
      ensures Valid() && keyTable == Interned(old(keyTable), key)
      ensures slot == IndexOf(old(keyTable), key)
    {
      if key in keyIndex {
        return keyIndex[key];
      }
      slot := |keyTable|;
      forall k ensures IndexOf(keyTable + [key], k) ==
        (if k in keyTable || k == key then IndexOf(keyTable, k) else |keyTable| + 1) {
        IndexOfMore(keyTable, key, k);
      }
      keyIndex := keyIndex[key := slot];
      keyTable := keyTable + [key];
    }
  }

  lemma {:induction false} IndexOfMore(table: seq<string>, key: string, k: string)
    ensures IndexOf(table + [key], k) == if k in table || k == key then IndexOf(table, k) else |table| + 1
  {
    if table == [] {
      assert [key][1..] == [];
    } else {
      assert (table + [key])[1..] == table[1..] + [key];
      IndexOfMore(table[1..], key, k);
    }
  }

  function Behind(ws: seq<Wire>, more: (seq<Wire>, seq<string>)): (seq<Wire>, seq<string>) {
    (ws + more.0, more.1)
  }

  lemma BehindNothing(more: (seq<Wire>, seq<string>))
    ensures Behind([], more) == more
  {
    assert [] + more.0 == more.0;
  }

  lemma BehindAgain(a: seq<Wire>, b: seq<Wire>, more: (seq<Wire>, seq<string>))
    ensures Behind(a, Behind(b, more)) == Behind(a + b, more)
  {
    assert a + (b + more.0) == a + b + more.0;
  }
}
