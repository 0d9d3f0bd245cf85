/** Remotable objects: coercing setters, change tracking, serialisation and column-wise save
    (iotronic/objects/base.py, iotronic/objects/utils.py, iotronic/objects/board.py).

    Texts are abstract: a Codec supplies str(), int(), literal_eval and the ISO-8601 pair. */
module ObjectModel {
  import opened Collections

  type Name = string

  // Field values, and the contents of dictionaries as far as serialisation looks at them.
  datatype Value = Null | Int(i: int) | Bool(b: bool) | Str(s: string)
                 | Time(at: int, aware: bool) | Dict(entries: map<Name, Slot>)

  datatype Slot = Text(s: string) | Data(values: map<Name, Value>) | Names(names: set<Name>) | Opaque(id: int)

  datatype Codec = Codec(show: Value -> string, readInt: string -> Option<int>,
                         readDict: string -> Option<map<Name, Slot>>,
                         iso: int -> string, readIso: string -> Option<int>)

  // ---------- Coercion ----------

  datatype Coercer = IntField | IntOrNone | StrOrNone | DictOrNone | BoolField | TimeOrNone

  function CoerceInt(c: Codec, v: Value): Result<Value> {
    match v
    case Int(i) => Ok(Int(i))
    case Bool(b) => Ok(Int(if b then 1 else 0))
    case Str(s) => var n := c.readInt(s); if n.Some? then Ok(Int(n.value)) else Err("ValueError")
    case _ => Err("TypeError")
  }

  predicate Truth(v: Value) {
    match v
    case Null => false
    case Int(i) => i != 0
    case Bool(b) => b
    case Str(s) => s != ""
    case Time(_, _) => true
    case Dict(d) => d != map[]
  }

  function Coerce(c: Codec, f: Coercer, v: Value): Result<Value> {
    match f
    case IntField => CoerceInt(c, v)
    case IntOrNone => if v.Null? then Ok(Null) else CoerceInt(c, v)
    case StrOrNone => if v.Null? || v.Str? then Ok(v) else Ok(Str(c.show(v)))
    case BoolField => Ok(Bool(Truth(v)))
    case DictOrNone =>
      (match v
       case Null => Ok(Dict(map[]))
       case Str(s) => var d := c.readDict(s); if d.Some? then Ok(Dict(d.value)) else Err("ValueError")
       case Dict(d) => Ok(Dict(d))
       case _ => Err("TypeError"))
    case TimeOrNone =>
      (match v
       case Null => Ok(Null)
       case Str(s) => var t := c.readIso(s); if t.Some? then Ok(Time(t.value, true)) else Err("ValueError")
       case Time(at, _) => Ok(Time(at, true))
       case _ => Err("ValueError"))
  }

  // A stored value is left alone by its own setter.
  lemma CoerceIdempotent(c: Codec, f: Coercer, v: Value)
    requires Coerce(c, f, v).Ok?
    ensures Coerce(c, f, Coerce(c, f, v).value) == Coerce(c, f, v)
  {
  }

  // The values a field of each kind holds.
  predicate OfType(f: Coercer, v: Value) {
    match f
    case IntField => v.Int?
    case IntOrNone => v.Int? || v.Null?
    case StrOrNone => v.Str? || v.Null?
    case BoolField => v.Bool?
    case DictOrNone => v.Dict?
    case TimeOrNone => v.Null? || (v.Time? && v.aware)
  }

  // A coercion gives values of the field's type only, and leaves exactly those alone.
  lemma CoercedIsTyped(c: Codec, f: Coercer, v: Value)
    ensures Coerce(c, f, v) == Ok(v) <==> OfType(f, v)
    ensures Coerce(c, f, v).Ok? ==> OfType(f, Coerce(c, f, v).value)
  {
  }

  // What becomes of the other values.
  lemma CoercedTexts(c: Codec, f: Coercer, v: Value)
    requires !OfType(f, v)
    ensures f == StrOrNone ==> Coerce(c, f, v) == Ok(Str(c.show(v)))
    ensures f == BoolField ==>
              Coerce(c, f, v) == Ok(Bool(!(v.Null? || v == Int(0) || v == Str("") || v == Dict(map[]))))
    ensures f == DictOrNone && v.Null? ==> Coerce(c, f, v) == Ok(Dict(map[]))
    ensures f == TimeOrNone && v.Time? ==> Coerce(c, f, v) == Ok(Time(v.at, true))
    ensures (f == IntField || f == IntOrNone) && v.Bool? ==> Coerce(c, f, v) == Ok(Int(if v.b then 1 else 0))
    ensures v.Str? && (f == IntField || f == IntOrNone) ==>
              (Coerce(c, f, v).Ok? <==> c.readInt(v.s).Some?)
              && (Coerce(c, f, v).Ok? ==> Coerce(c, f, v).value == Int(c.readInt(v.s).value))
    ensures v.Str? && f == DictOrNone ==>
              (Coerce(c, f, v).Ok? <==> c.readDict(v.s).Some?)
              && (Coerce(c, f, v).Ok? ==> Coerce(c, f, v).value == Dict(c.readDict(v.s).value))
    ensures v.Str? && f == TimeOrNone ==>
              (Coerce(c, f, v).Ok? <==> c.readIso(v.s).Some?)
              && (Coerce(c, f, v).Ok? ==> Coerce(c, f, v).value == Time(c.readIso(v.s).value, true))
  {
  }

  // And which of them no field takes.
  lemma RefusedValues(c: Codec, f: Coercer, v: Value)
    requires !v.Str?
    ensures Coerce(c, f, v).Err? <==>
            match f
            case IntField => v.Null? || v.Time? || v.Dict?
            case IntOrNone => v.Time? || v.Dict?
            case DictOrNone => v.Int? || v.Bool? || v.Time?
            case TimeOrNone => v.Int? || v.Bool? || v.Dict?
            case _ => false
  {
  }

  // ---------- Objects as values ----------

  type Schema = map<Name, Coercer>

  // values holds the fields that are set; changed the names assigned since the last reset.
  datatype Object = Object(cls: string, version: string, values: map<Name, Value>, changed: set<Name>)

  datatype Class = Class(version: string, fields: Schema)

  type Registry = map<string, Class>

  function TimeFields(): set<Name> {
    {"created_at", "updated_at"}
  }

  ghost predicate StoredIn(c: Codec, fields: Schema, values: map<Name, Value>, changed: set<Name>) {
    && values.Keys <= fields.Keys && changed <= fields.Keys
    && forall n :: n in values ==> Coerce(c, fields[n], values[n]) == Ok(values[n])
  }

  ghost predicate GoodClass(k: Class) {
    forall n :: n in k.fields ==> (k.fields[n] == TimeOrNone <==> n in TimeFields())
  }

  // An object of a registered class, of its version or of one compatible with it: an object that
  // was hydrated keeps the version it came with.
  ghost predicate GoodObject(s: Service, o: Object) {
    && o.cls in s.reg && GoodClass(s.reg[o.cls])
    && (o.version == s.reg[o.cls].version || s.compatible(o.version, s.reg[o.cls].version))
    && StoredIn(s.c, s.reg[o.cls].fields, o.values, o.changed)
  }

  // ---------- Dehydration and hydration ----------

  const NAME := "iotronic_object.name"
  const NAMESPACE := "iotronic_object.namespace"
  const VERSION := "iotronic_object.version"
  const DATA := "iotronic_object.data"
  const CHANGES := "iotronic_object.changes"

  function AttrToPrimitive(c: Codec, n: Name, v: Value): Value {
    if n in TimeFields() && v.Time? then Str(c.iso(v.at)) else v
  }

  function AttrFromPrimitive(c: Codec, n: Name, v: Value): Result<Value> {
    if n !in TimeFields() || v.Null? then Ok(v)
    else if v.Str? && c.readIso(v.s).Some? then Ok(Time(c.readIso(v.s).value, true))
    else Err("ValueError")
  }

  function ToPrimitive(c: Codec, o: Object): map<Name, Slot> {
    var d := map[NAME := Text(o.cls), NAMESPACE := Text("iotronic"), VERSION := Text(o.version),
                 DATA := Data(map n | n in o.values :: AttrToPrimitive(c, n, o.values[n]))];
    if o.changed == {} then d else d[CHANGES := Names(o.changed)]
  }

  // What goes over the wire: exactly these keys, times as ISO text and the other values as they are.
  lemma PrimitiveLayout(c: Codec, o: Object)
    ensures var d := ToPrimitive(c, o);
            && d.Keys == {"iotronic_object.name", "iotronic_object.namespace", "iotronic_object.version",
                          "iotronic_object.data"} + (if o.changed == {} then {} else {"iotronic_object.changes"})
            && d["iotronic_object.name"] == Text(o.cls) && d["iotronic_object.version"] == Text(o.version)
            && d["iotronic_object.namespace"] == Text("iotronic")
            && (o.changed != {} ==> d["iotronic_object.changes"] == Names(o.changed))
            && d["iotronic_object.data"].Data? && d["iotronic_object.data"].values.Keys == o.values.Keys
            && forall n :: n in o.values ==>
                 d["iotronic_object.data"].values[n] ==
                 if (n == "created_at" || n == "updated_at") && o.values[n].Time? then Str(c.iso(o.values[n].at))
                 else o.values[n]
  {
  }

  // What setattr stores for one primitive attribute.
  function HydrateOne(c: Codec, f: Coercer, n: Name, v: Value): Result<Value> {
    var raw := AttrFromPrimitive(c, n, v);
    if raw.Ok? then Coerce(c, f, raw.value) else raw
  }

  function HydrateAll(c: Codec, fields: Schema, data: map<Name, Value>): Result<map<Name, Value>> {
    if forall n :: n in fields && n in data ==> HydrateOne(c, fields[n], n, data[n]).Ok? then
      Ok(map n | n in fields && n in data :: HydrateOne(c, fields[n], n, data[n]).value)
    else Err("error setting a field")
  }

  function FindClass(reg: Registry, compatible: (string, string) -> bool, cls: string, version: string): Result<Class> {
    if cls !in reg then Err("UnsupportedObjectError")
    else if reg[cls].version == version || compatible(version, reg[cls].version) then Ok(reg[cls])
    else Err("IncompatibleObjectVersion")
  }

  function FromPrimitive(c: Codec, reg: Registry, compatible: (string, string) -> bool,
                         d: map<Name, Slot>): Result<Object>
    requires NAME in d
  {
    if NAMESPACE !in d || VERSION !in d || DATA !in d then Err("KeyError")
    else if d[NAMESPACE] != Text("iotronic") then Err("UnsupportedObjectError")
    else if !d[NAME].Text? || !d[VERSION].Text? || !d[DATA].Data? then Err("TypeError")
    else
      var k := FindClass(reg, compatible, d[NAME].s, d[VERSION].s);
      if k.Err? then Err(k.reason)
      else
        var values := HydrateAll(c, k.value.fields, d[DATA].values);
        if values.Err? then Err(values.reason)
        else if CHANGES in d && !d[CHANGES].Names? then Err("TypeError")
        else
          var changed := if CHANGES in d then d[CHANGES].names else {};
          Ok(Object(d[NAME].s, d[VERSION].s, values.value, set n | n in changed && n in k.value.fields))
  }

  // Exactly which dictionaries hydrate: the four keys with their types, the right namespace, a
  // registered class, its version or a compatible one, and a value for every field that can be set.
  lemma HydratesIff(s: Service, d: map<Name, Slot>)
    requires NAME in d
    ensures FromPrimitive(s.c, s.reg, s.compatible, d).Ok? <==>
            && "iotronic_object.namespace" in d && d["iotronic_object.namespace"] == Text("iotronic")
            && d[NAME].Text? && d[NAME].s in s.reg
            && "iotronic_object.version" in d && d["iotronic_object.version"].Text?
            && (var version, known := d["iotronic_object.version"].s, s.reg[d[NAME].s].version;
                version == known || s.compatible(version, known))
            && "iotronic_object.data" in d && d["iotronic_object.data"].Data?
            && (var fields, data := s.reg[d[NAME].s].fields, d["iotronic_object.data"].values;
                forall n :: n in fields && n in data ==> HydrateOne(s.c, fields[n], n, data[n]).Ok?)
            && ("iotronic_object.changes" in d ==> d["iotronic_object.changes"].Names?)
  {
  }

  // ---------- Entities ----------

  datatype Entity = Plain(v: Value) | Obj(o: Object)
                  | List(items: seq<Entity>) | Tuple(items: seq<Entity>) | Set(items: seq<Entity>)

  function Serialize(c: Codec, e: Entity): Entity
    decreases e, 1
  {
    match e
    case Plain(v) => e
    case Obj(o) => Plain(Dict(ToPrimitive(c, o)))
    case List(xs) => List(SerializeAll(c, xs))
    case Tuple(xs) => Tuple(SerializeAll(c, xs))
    case Set(xs) => Tuple(SerializeAll(c, xs))
  }

  function SerializeAll(c: Codec, xs: seq<Entity>): seq<Entity>
    decreases xs, 0
  {
    if xs == [] then [] else [Serialize(c, xs[0])] + SerializeAll(c, xs[1..])
  }

  datatype Service = Service(c: Codec, reg: Registry, compatible: (string, string) -> bool)

  function Deserialize(s: Service, e: Entity): Result<Entity>
    decreases e, 1
  {
    match e
    case Plain(v) =>
      if v.Dict? && NAME in v.entries then
        var o := FromPrimitive(s.c, s.reg, s.compatible, v.entries);
        if o.Ok? then Ok(Obj(o.value)) else Err(o.reason)
      else Ok(e)
    case Obj(_) => Ok(e)
    case List(xs) => var r := DeserializeAll(s, xs); if r.Ok? then Ok(List(r.value)) else Err(r.reason)
    case Tuple(xs) => var r := DeserializeAll(s, xs); if r.Ok? then Ok(Tuple(r.value)) else Err(r.reason)
    case Set(xs) => var r := DeserializeAll(s, xs); if r.Ok? then Ok(Tuple(r.value)) else Err(r.reason)
  }

  function DeserializeAll(s: Service, xs: seq<Entity>): Result<seq<Entity>>
    decreases xs, 0
  {
    if xs == [] then Ok([])
    else
      var head := Deserialize(s, xs[0]);
      if head.Err? then Err(head.reason)
      else
        var tail := DeserializeAll(s, xs[1..]);
        if tail.Err? then tail else Ok([head.value] + tail.value)
  }

  // Sets come back as tuples, at every level.
  function SetsToTuples(e: Entity): Entity
    decreases e, 1
  {
    match e
    case Plain(_) => e
    case Obj(_) => e
    case List(xs) => List(SetsToTuplesAll(xs))
    case Tuple(xs) => Tuple(SetsToTuplesAll(xs))
    case Set(xs) => Tuple(SetsToTuplesAll(xs))
  }

  function SetsToTuplesAll(xs: seq<Entity>): seq<Entity>
    decreases xs, 0
  {
    if xs == [] then [] else [SetsToTuples(xs[0])] + SetsToTuplesAll(xs[1..])
  }

  // No plain dictionary, at any level, carries the key that marks a dehydrated object.
  predicate Unmarked(e: Entity)
    decreases e, 1
  {
    match e
    case Plain(v) => v.Dict? ==> NAME !in v.entries
    case Obj(_) => true
    case List(xs) => UnmarkedAll(xs)
    case Tuple(xs) => UnmarkedAll(xs)
    case Set(xs) => UnmarkedAll(xs)
  }

  predicate UnmarkedAll(xs: seq<Entity>)
    decreases xs, 0
  {
    xs == [] || (Unmarked(xs[0]) && UnmarkedAll(xs[1..]))
  }

  ghost predicate GoodEntity(s: Service, e: Entity)
    decreases e, 1
  {
    match e
    case Plain(_) => true
    case Obj(o) => GoodObject(s, o)
    case List(xs) => GoodAll(s, xs)
    case Tuple(xs) => GoodAll(s, xs)
    case Set(xs) => GoodAll(s, xs)
  }

  ghost predicate GoodAll(s: Service, xs: seq<Entity>)
    decreases xs, 0
  {
    xs == [] || (GoodEntity(s, xs[0]) && GoodAll(s, xs[1..]))
  }

  // The ISO pair loses nothing.
  ghost predicate IsoFaithful(c: Codec) {
    forall t :: c.readIso(c.iso(t)) == Some(t)
  }

  // ---------- Round trip ----------

  lemma HydrationRoundTrip(s: Service, o: Object)
    requires IsoFaithful(s.c) && GoodObject(s, o)
    ensures FromPrimitive(s.c, s.reg, s.compatible, ToPrimitive(s.c, o)) == Ok(o)
  {
    var c, fields, d := s.c, s.reg[o.cls].fields, ToPrimitive(s.c, o);
    var data := d[DATA].values;
    forall n | n in fields && n in data ensures HydrateOne(c, fields[n], n, data[n]) == Ok(o.values[n]) {
      AttributeRoundTrip(c, fields[n], n, o.values[n]);
    }
    var values := HydrateAll(c, fields, data).value;
    assert values.Keys == o.values.Keys;
    assert values == o.values;
    assert (set n | n in o.changed && n in fields) == o.changed;
  }

  lemma AttributeRoundTrip(c: Codec, f: Coercer, n: Name, v: Value)
    requires IsoFaithful(c) && (f == TimeOrNone <==> n in TimeFields())
    requires Coerce(c, f, v) == Ok(v)
    ensures HydrateOne(c, f, n, AttrToPrimitive(c, n, v)) == Ok(v)
  {
  }

  // Serialising and deserialising any nesting of objects, lists, tuples, sets and plain values
  // gives it back, sets as tuples, exactly when no plain dictionary looks like an object.
  lemma {:induction false} RoundTripIffUnmarked(s: Service, e: Entity)
    requires IsoFaithful(s.c) && GoodEntity(s, e)
    ensures Deserialize(s, Serialize(s.c, e)) == Ok(SetsToTuples(e)) <==> Unmarked(e)
    decreases e, 1
  {
    match e
    case Plain(_) =>
    case Obj(o) => HydrationRoundTrip(s, o);
    case List(xs) => RoundTripAll(s, xs);
    case Tuple(xs) => RoundTripAll(s, xs);
    case Set(xs) => RoundTripAll(s, xs);
  }

  lemma {:induction false} RoundTripAll(s: Service, xs: seq<Entity>)
    requires IsoFaithful(s.c) && GoodAll(s, xs)
    ensures DeserializeAll(s, SerializeAll(s.c, xs)) == Ok(SetsToTuplesAll(xs)) <==> UnmarkedAll(xs)
    decreases xs, 0
  {
    if xs != [] {
      RoundTripIffUnmarked(s, xs[0]);
      RoundTripAll(s, xs[1..]);
      var ys := SerializeAll(s.c, xs);
      assert ys[0] == Serialize(s.c, xs[0]) && ys[1..] == SerializeAll(s.c, xs[1..]);
      var head, tail := Deserialize(s, ys[0]), DeserializeAll(s, ys[1..]);
      if head.Ok? && tail.Ok? {
        var got, want := [head.value] + tail.value, SetsToTuplesAll(xs);
        assert got[0] == head.value && got[1..] == tail.value;
        assert want[0] == SetsToTuples(xs[0]) && want[1..] == SetsToTuplesAll(xs[1..]);
      }
    }
  }

  // ---------- The mutable object ----------

  lemma NamesInhabited(s: set<Name>)
    ensures s == {} || exists n :: n in s
  {
    if forall n :: n !in s {
      assert s == {};
    }
  }

  // What an assignment does: the name is marked before the coercion that may fail.
  function Assigned(c: Codec, fields: Schema, values: map<Name, Value>, n: Name, v: Value): map<Name, Value>
    requires n in fields
  {
    var stored := Coerce(c, fields[n], v);
    if stored.Ok? then values[n := stored.value] else values
  }

  class Board {
    const codec: Codec
    const fields: Schema
    var values: map<Name, Value>
    var changed: set<Name>

    ghost predicate Valid()
      reads this
    {
      StoredIn(codec, fields, values, changed)
    }

    constructor (codec: Codec, fields: Schema)
      ensures Valid() && this.codec == codec && this.fields == fields
      ensures values == map[] && changed == {}
    {
      this.codec, this.fields := codec, fields;
      values, changed := map[], {};
    }

    method Set(n: Name, v: Value) returns (r: Result<()>)
      requires Valid() && n in fields
      modifies this
      ensures Valid()
      ensures changed == old(changed) + {n}
      ensures r.Ok? <==> Coerce(codec, fields[n], v).Ok?
      ensures values == if r.Ok? then old(values)[n := Coerce(codec, fields[n], v).value] else old(values)
      ensures OfType(fields[n], v) ==> r.Ok? && values[n] == v
    {
      changed := changed + {n};
      var stored := Coerce(codec, fields[n], v);
      CoercedIsTyped(codec, fields[n], v);
      if stored.Err? {
        return Err(stored.reason);
      }
      CoerceIdempotent(codec, fields[n], v);
      values := values[n := stored.value];
      r := Ok(());
    }

    // _from_db_object: every field is assigned from its column, then the changes are reset.
    method FromDbObject(row: map<Name, Value>) returns (r: Result<()>)
      requires Valid()
      modifies this
      ensures Valid()
      ensures r.Ok? <==> forall n :: n in fields ==> n in row && Coerce(codec, fields[n], row[n]).Ok?
      ensures r.Ok? ==>
                && values == Loaded(codec, fields, row).value && changed == {}
                && values.Keys == fields.Keys
                && forall n :: n in fields ==> values[n] == Coerce(codec, fields[n], row[n]).value
    {
      var left := fields.Keys;
      while left != {}
        invariant Valid() && left <= fields.Keys
        invariant forall n :: n in fields && n !in left ==>
                    n in row && n in values && Coerce(codec, fields[n], row[n]) == Ok(values[n])
      {
        NamesInhabited(left);
        var n :| n in left;
        if n !in row {
          return Err("KeyError");
        }
        var outcome := Set(n, row[n]);
        if outcome.Err? {
          return outcome;
        }
        left := left - {n};
      }
      changed := {};
      assert values == Loaded(codec, fields, row).value;
      r := Ok(());
    }

    method GetChanges() returns (r: Result<map<Name, Value>>)
      requires Valid()
      ensures r == Changes(values, changed)
    {
      if exists n :: n in changed && n !in values {
        return Err("NotImplementedError");
      }
      r := Ok(map n | n in changed && n in values :: values[n]);
    }

    method Save(db: BoardTable) returns (r: Result<()>)
      requires Valid()
      modifies this, db
      ensures Valid() && values == old(values)
      ensures r.Ok? <==> (forall n :: n in old(changed) ==> n in values)
                         && "uuid" in values && "uuid" !in old(changed) && values["uuid"] in old(db.rows)
      ensures r.Ok? ==>
                && changed == {}
                && db.rows == Updated(old(db.rows), values["uuid"], Changes(old(values), old(changed)).value)
      ensures r.Err? ==> changed == old(changed) && db.rows == old(db.rows)
    {
      var updates := GetChanges();
      if updates.Err? {
        return Err(updates.reason);
      }
      if "uuid" !in values {
        return Err("NotImplementedError");
      }
      r := db.UpdateBoard(values["uuid"], updates.value);
      if r.Ok? {
        changed := {};
      }
    }

    // Every set field that differs from the database is assigned, and so becomes dirty.
    method Refresh(db: BoardTable) returns (r: Result<()>)
      requires Valid()
      modifies this
      ensures Valid()
      ensures r.Ok? <==>
                "uuid" in old(values) && old(values)["uuid"] in db.rows &&
                Loaded(codec, fields, db.rows[old(values)["uuid"]]).Ok?
      ensures r.Ok? ==>
                var current := Loaded(codec, fields, db.rows[old(values)["uuid"]]);
                && (forall n :: n in values <==> n in old(values))
                && (forall n :: n in values ==> n in current.value && values[n] == current.value[n])
                && changed == old(changed) + set n | n in old(values) && old(values)[n] != current.value[n]
    {
      if "uuid" !in values {
        return Err("NotImplementedError");
      }
      if values["uuid"] !in db.rows {
        return Err("BoardNotFound");
      }
      var current := new Board(codec, fields);
      r := current.FromDbObject(db.rows[values["uuid"]]);
      if r.Err? {
        return;
      }
      LoadedIsStored(codec, fields, db.rows[values["uuid"]]);
      Overwrite(current.values);
    }

    // The loop of refresh, for a given freshly loaded copy.
    method Overwrite(current: map<Name, Value>)
      requires Valid() && current.Keys == fields.Keys
      requires forall n :: n in fields ==> Coerce(codec, fields[n], current[n]) == Ok(current[n])
      modifies this
      ensures Valid() && values.Keys == old(values).Keys
      ensures forall n :: n in values ==> values[n] == current[n]
      ensures changed == old(changed) + Moved(old(values), current)
    {
      var left := values.Keys;
      ghost var was := values;
      while left != {}
        invariant Valid() && left <= was.Keys
        invariant values == Moving(was, current, left)
        invariant changed == old(changed) + (Moved(was, current) - left)
      {
        NamesInhabited(left);
        var n :| n in left;
        MovedGrows(was, current, left, n);
        MovingOn(was, current, left, n);
        if values[n] != current[n] {
          var done := Set(n, current[n]);
        }
        left := left - {n};
      }
    }
  }

  // The values while the fields in `left` have not been visited.
  function Moving(was: map<Name, Value>, current: map<Name, Value>, left: set<Name>): map<Name, Value>
    requires was.Keys <= current.Keys
  {
    map n | n in was :: if n in left then was[n] else current[n]
  }

  lemma MovingOn(was: map<Name, Value>, current: map<Name, Value>, left: set<Name>, n: Name)
    requires was.Keys <= current.Keys && n in was && n in left
    ensures Moving(was, current, left)[n] == was[n]
    ensures Moving(was, current, left - {n}) == Moving(was, current, left)[n := current[n]]
    ensures was[n] == current[n] ==> Moving(was, current, left - {n}) == Moving(was, current, left)
  {
  }

  lemma MovedGrows(was: map<Name, Value>, current: map<Name, Value>, left: set<Name>, n: Name)
    requires n in left && n in was && n in current
    ensures Moved(was, current) - (left - {n}) ==
            (Moved(was, current) - left) + if was[n] != current[n] then {n} else {}
  {
  }

  function Loaded(c: Codec, fields: Schema, row: map<Name, Value>): Result<map<Name, Value>> {
    if forall n :: n in fields ==> n in row && Coerce(c, fields[n], row[n]).Ok? then
      Ok(map n | n in fields :: Coerce(c, fields[n], row[n]).value)
    else Err("cannot load")
  }

  // A row of typed columns is loaded as it stands.
  lemma TypedRowLoads(c: Codec, fields: Schema, row: map<Name, Value>)
    requires forall n :: n in fields ==> n in row && OfType(fields[n], row[n])
    ensures Loaded(c, fields, row) == Ok(map n | n in fields :: row[n])
  {
    forall n | n in fields ensures Coerce(c, fields[n], row[n]) == Ok(row[n]) {
      CoercedIsTyped(c, fields[n], row[n]);
    }
    assert Loaded(c, fields, row).value == map n | n in fields :: row[n];
  }

  lemma LoadedIsStored(c: Codec, fields: Schema, row: map<Name, Value>)
    requires Loaded(c, fields, row).Ok?
    ensures forall n :: n in fields ==>
              Coerce(c, fields[n], Loaded(c, fields, row).value[n]) == Ok(Loaded(c, fields, row).value[n])
  {
    forall n | n in fields
      ensures Coerce(c, fields[n], Loaded(c, fields, row).value[n]) == Ok(Loaded(c, fields, row).value[n])
    {
      CoerceIdempotent(c, fields[n], row[n]);
    }
  }

  // The set fields whose stored value differs from the database's.
  function Moved(values: map<Name, Value>, current: map<Name, Value>): set<Name> {
    set n | n in values && n in current && values[n] != current[n]
  }

  // obj_get_changes reads every changed field; reading an unset one fails.
  function Changes(values: map<Name, Value>, changed: set<Name>): Result<map<Name, Value>> {
    if exists n :: n in changed && n !in values then Err("NotImplementedError")
    else Ok(map n | n in changed && n in values :: values[n])
  }

  type Rows = map<Value, map<Name, Value>>

  // The table after update_board, which refuses to overwrite a uuid or to update a missing row.
  function Updated(rows: Rows, uuid: Value, updates: map<Name, Value>): Rows {
    if "uuid" !in updates && uuid in rows then rows[uuid := rows[uuid] + updates] else rows
  }

  class BoardTable {
    var rows: Rows

    method UpdateBoard(uuid: Value, updates: map<Name, Value>) returns (r: Result<()>)
      modifies this
      ensures r.Ok? <==> "uuid" !in updates && uuid in old(rows)
      ensures rows == Updated(old(rows), uuid, updates)
    {
      if "uuid" in updates {
        return Err("Cannot overwrite UUID for an existing Board.");
      }
      if uuid !in rows {
        return Err("BoardNotFound");
      }
      rows := rows[uuid := rows[uuid] + updates];
      r := Ok(());
    }
  }

  // ---------- Column-wise save ----------

  // An object agrees with its row up to its dirty fields.
  ghost predicate InStep(c: Codec, fields: Schema, row: map<Name, Value>,
                         values: map<Name, Value>, changed: set<Name>)
  {
    && Loaded(c, fields, row).Ok?
    && values.Keys == fields.Keys
    && StoredIn(c, fields, values, changed)
    && forall n :: n in fields && n !in changed ==> values[n] == Loaded(c, fields, row).value[n]
  }

  lemma LoadedIsInStep(c: Codec, fields: Schema, row: map<Name, Value>)
    requires Loaded(c, fields, row).Ok?
    ensures InStep(c, fields, row, Loaded(c, fields, row).value, {})
  {
    LoadedIsStored(c, fields, row);
  }

  lemma AssignKeepsInStep(c: Codec, fields: Schema, row: map<Name, Value>, values: map<Name, Value>,
                          changed: set<Name>, n: Name, v: Value)
    requires InStep(c, fields, row, values, changed) && n in fields
    ensures InStep(c, fields, row, Assigned(c, fields, values, n, v), changed + {n})
  {
    if Coerce(c, fields[n], v).Ok? {
      CoerceIdempotent(c, fields[n], v);
    }
  }

  // Load, assign, save, load again: what was assigned is what is read.
  lemma SaveThenLoad(c: Codec, fields: Schema, row: map<Name, Value>, values: map<Name, Value>, changed: set<Name>)
    requires InStep(c, fields, row, values, changed)
    ensures Changes(values, changed).Ok?
    ensures Loaded(c, fields, row + Changes(values, changed).value) == Ok(values)
  {
    var row' := row + Changes(values, changed).value;
    forall n | n in fields ensures n in row' && Coerce(c, fields[n], row'[n]) == Ok(values[n]) {
      assert n in changed ==> row'[n] == values[n];
      assert n !in changed ==> row'[n] == row[n];
    }
    assert Loaded(c, fields, row').value == values;
  }

  // Values after a list of assignments, and the names they touch.
  function AssignedAll(c: Codec, fields: Schema, values: map<Name, Value>, what: seq<(Name, Value)>): map<Name, Value>
    requires Touched(what) <= fields.Keys
  {
    if what == [] then values
    else
      var front, last := what[..|what| - 1], what[|what| - 1];
      TouchedSnoc(front, last);
      assert what == front + [last];
      Assigned(c, fields, AssignedAll(c, fields, values, front), last.0, last.1)
  }

  function Touched(what: seq<(Name, Value)>): set<Name> {
    set a | a in what :: a.0
  }

  lemma TouchedSnoc(front: seq<(Name, Value)>, last: (Name, Value))
    ensures Touched(front + [last]) == Touched(front) + {last.0}
  {
    assert last in front + [last];
    assert forall a :: a in front ==> a in front + [last];
  }

  lemma {:induction false} AssignmentsKeepInStep(c: Codec, fields: Schema, row: map<Name, Value>,
                                                 what: seq<(Name, Value)>)
    requires Loaded(c, fields, row).Ok? && Touched(what) <= fields.Keys
    ensures InStep(c, fields, row, AssignedAll(c, fields, Loaded(c, fields, row).value, what), Touched(what))
  {
    if what == [] {
      LoadedIsInStep(c, fields, row);
    } else {
      var front, last := what[..|what| - 1], what[|what| - 1];
      assert what == front + [last];
      TouchedSnoc(front, last);
      AssignmentsKeepInStep(c, fields, row, front);
      AssignKeepsInStep(c, fields, row, AssignedAll(c, fields, Loaded(c, fields, row).value, front), Touched(front),
                        last.0, last.1);
    }
  }

  // The value last assigned to a field, if any.
  function LastValue(what: seq<(Name, Value)>, n: Name): Option<Value> {
    if what == [] then None
    else if what[|what| - 1].0 == n then Some(what[|what| - 1].1)
    else LastValue(what[..|what| - 1], n)
  }

  // Assigning values of the fields' types: a field ends with the value last assigned to it, and
  // keeps its own if there is none.
  lemma {:induction false} LastAssignmentHolds(c: Codec, fields: Schema, values: map<Name, Value>,
                                               what: seq<(Name, Value)>, n: Name)
    requires Touched(what) <= fields.Keys && n in values
    requires forall i :: 0 <= i < |what| ==> what[i].0 in fields && OfType(fields[what[i].0], what[i].1)
    ensures n in AssignedAll(c, fields, values, what)
    ensures AssignedAll(c, fields, values, what)[n] == LastValue(what, n).GetOr(values[n])
  {
    if what != [] {
      var front, last := what[..|what| - 1], what[|what| - 1];
      assert what == front + [last];
      TouchedSnoc(front, last);
      LastAssignmentHolds(c, fields, values, front, n);
      CoercedIsTyped(c, fields[last.0], last.1);
    }
  }

  // Load, assign values of the fields' types, save and load again: the second object has the very
  // values last assigned, and its former ones elsewhere.
  lemma AssignedIsLoaded(c: Codec, fields: Schema, rows: Rows, uuid: Value, what: seq<(Name, Value)>)
    requires uuid in rows && Loaded(c, fields, rows[uuid]).Ok?
    requires Touched(what) <= fields.Keys && "uuid" !in Touched(what)
    requires forall i :: 0 <= i < |what| ==> what[i].0 in fields && OfType(fields[what[i].0], what[i].1)
    ensures var was := Loaded(c, fields, rows[uuid]).value;
            var changes := Changes(AssignedAll(c, fields, was, what), Touched(what));
            && changes.Ok?
            && Loaded(c, fields, Updated(rows, uuid, changes.value)[uuid]) ==
               Ok(map n | n in fields :: LastValue(what, n).GetOr(was[n]))
  {
    LoadAssignSaveLoad(c, fields, rows, uuid, what);
    AssignmentsKeepInStep(c, fields, rows[uuid], what);
    var was := Loaded(c, fields, rows[uuid]).value;
    forall n | n in fields
      ensures n in AssignedAll(c, fields, was, what)
      ensures AssignedAll(c, fields, was, what)[n] == LastValue(what, n).GetOr(was[n])
    {
      LastAssignmentHolds(c, fields, was, what, n);
    }
    assert AssignedAll(c, fields, was, what) == map n | n in fields :: LastValue(what, n).GetOr(was[n]);
  }

  // Load, assign any list of fields (the uuid apart), save and load again: the second object has
  // the values the first one ended with.
  lemma LoadAssignSaveLoad(c: Codec, fields: Schema, rows: Rows, uuid: Value, what: seq<(Name, Value)>)
    requires uuid in rows && Loaded(c, fields, rows[uuid]).Ok?
    requires Touched(what) <= fields.Keys && "uuid" !in Touched(what)
    ensures var values := AssignedAll(c, fields, Loaded(c, fields, rows[uuid]).value, what);
            && Changes(values, Touched(what)).Ok?
            && Loaded(c, fields, Updated(rows, uuid, Changes(values, Touched(what)).value)[uuid]) == Ok(values)
  {
    AssignmentsKeepInStep(c, fields, rows[uuid], what);
    SaveThenLoad(c, fields, rows[uuid], AssignedAll(c, fields, Loaded(c, fields, rows[uuid]).value, what),
                 Touched(what));
  }

  // ---------- Two objects of one row ----------

  lemma ChangesAreDirty(c: Codec, fields: Schema, row: map<Name, Value>, values: map<Name, Value>, changed: set<Name>)
    requires InStep(c, fields, row, values, changed)
    ensures Changes(values, changed).Ok?
    ensures Changes(values, changed).value.Keys == changed
    ensures forall n :: n in changed ==> Changes(values, changed).value[n] == values[n]
  {
  }

  // Two objects loaded from one row and assigned to are saved with the same outcome in either order
  // exactly when they agree on every field both assigned, or the table refuses one of them.
  lemma SavesCommuteIff(c: Codec, fields: Schema, rows: Rows, uuid: Value, one: map<Name, Value>, dirtyOne: set<Name>,
                        other: map<Name, Value>, dirtyOther: set<Name>)
    requires uuid in rows
    requires InStep(c, fields, rows[uuid], one, dirtyOne) && InStep(c, fields, rows[uuid], other, dirtyOther)
    ensures var u, w := Changes(one, dirtyOne), Changes(other, dirtyOther);
            && u.Ok? && w.Ok?
            && (Updated(Updated(rows, uuid, u.value), uuid, w.value) ==
                Updated(Updated(rows, uuid, w.value), uuid, u.value)
                <==> "uuid" in dirtyOne + dirtyOther ||
                     forall n :: n in dirtyOne && n in dirtyOther ==> one[n] == other[n])
  {
    ChangesAreDirty(c, fields, rows[uuid], one, dirtyOne);
    ChangesAreDirty(c, fields, rows[uuid], other, dirtyOther);
    var u, w := Changes(one, dirtyOne).value, Changes(other, dirtyOther).value;
    UpdatesCommuteIff(rows, uuid, u, w);
  }

  lemma UpdatesCommuteIff(rows: Rows, uuid: Value, u: map<Name, Value>, w: map<Name, Value>)
    requires uuid in rows
    ensures Updated(Updated(rows, uuid, u), uuid, w) == Updated(Updated(rows, uuid, w), uuid, u) <==>
            "uuid" in u || "uuid" in w || forall n :: n in u && n in w ==> u[n] == w[n]
  {
    if "uuid" !in u && "uuid" !in w {
      ColumnsCommuteIff(rows[uuid], u, w);
      UpdatedTwice(rows, uuid, u, w);
      UpdatedTwice(rows, uuid, w, u);
    }
  }

  lemma UpdatedTwice(rows: Rows, uuid: Value, u: map<Name, Value>, w: map<Name, Value>)
    requires uuid in rows && "uuid" !in u && "uuid" !in w
    ensures Updated(Updated(rows, uuid, u), uuid, w) == rows[uuid := rows[uuid] + u + w]
    ensures Updated(Updated(rows, uuid, u), uuid, w)[uuid] == rows[uuid] + u + w
  {
  }

  lemma ColumnsCommuteIff(row: map<Name, Value>, u: map<Name, Value>, w: map<Name, Value>)
    ensures row + u + w == row + w + u <==> forall n :: n in u && n in w ==> u[n] == w[n]
  {
    if row + u + w == row + w + u {
      forall n | n in u && n in w ensures u[n] == w[n] {
        assert (row + u + w)[n] == (row + w + u)[n];
      }
    }
  }

  // The values with the fields in `dirty` taken from another object.
  function Merged(values: map<Name, Value>, other: map<Name, Value>, dirty: set<Name>): map<Name, Value> {
    map n | n in values :: if n in dirty && n in other then other[n] else values[n]
  }

  // With disjoint dirty fields neither save is lost: in either order the row then loads with the
  // fields each object assigned and its former values elsewhere.
  lemma DisjointSavesMerge(c: Codec, fields: Schema, rows: Rows, uuid: Value,
                           one: map<Name, Value>, dirtyOne: set<Name>,
                           other: map<Name, Value>, dirtyOther: set<Name>)
    requires uuid in rows && dirtyOne !! dirtyOther && "uuid" !in dirtyOne + dirtyOther
    requires InStep(c, fields, rows[uuid], one, dirtyOne) && InStep(c, fields, rows[uuid], other, dirtyOther)
    ensures var u, w := Changes(one, dirtyOne).value, Changes(other, dirtyOther).value;
            var rows' := Updated(Updated(rows, uuid, u), uuid, w);
            && rows' == Updated(Updated(rows, uuid, w), uuid, u)
            && rows'.Keys == rows.Keys && (forall k :: k in rows && k != uuid ==> rows'[k] == rows[k])
            && Loaded(c, fields, rows'[uuid]) ==
               Ok(Merged(Merged(Loaded(c, fields, rows[uuid]).value, one, dirtyOne), other, dirtyOther))
  {
    ChangesAreDirty(c, fields, rows[uuid], one, dirtyOne);
    ChangesAreDirty(c, fields, rows[uuid], other, dirtyOther);
    var u, w := Changes(one, dirtyOne).value, Changes(other, dirtyOther).value;
    UpdatesCommuteIff(rows, uuid, u, w);
    UpdatedTwice(rows, uuid, u, w);
    SaveThenLoad(c, fields, rows[uuid], one, dirtyOne);
    InStepMerged(c, fields, rows[uuid], one, dirtyOne);
    LoadsWith(c, fields, rows[uuid] + u, one, other, dirtyOther, w);
  }

  lemma InStepMerged(c: Codec, fields: Schema, row: map<Name, Value>, values: map<Name, Value>, changed: set<Name>)
    requires InStep(c, fields, row, values, changed)
    ensures Merged(Loaded(c, fields, row).value, values, changed) == values
  {
  }

  lemma LoadsWith(c: Codec, fields: Schema, row: map<Name, Value>, values: map<Name, Value>,
                  other: map<Name, Value>, dirty: set<Name>, updates: map<Name, Value>)
    requires Loaded(c, fields, row) == Ok(values) && dirty <= fields.Keys && dirty <= other.Keys
    requires updates.Keys == dirty && forall n :: n in dirty ==> updates[n] == other[n]
    requires forall n :: n in dirty ==> Coerce(c, fields[n], other[n]) == Ok(other[n])
    ensures Loaded(c, fields, row + updates) == Ok(Merged(values, other, dirty))
  {
    var row', merged := row + updates, Merged(values, other, dirty);
    forall n | n in fields ensures n in row' && Coerce(c, fields[n], row'[n]) == Ok(merged[n]) {
      assert row'[n] == if n in dirty then other[n] else row[n];
    }
    assert Loaded(c, fields, row').value == merged;
  }

  // Saving right after a refresh rewrites the row with what it already loads as: pending local
  // assignments are gone, although their fields still count as dirty.
  lemma SaveAfterRefreshChangesNothing(c: Codec, fields: Schema, row: map<Name, Value>,
                                       values: map<Name, Value>, changed: set<Name>)
    requires Loaded(c, fields, row).Ok? && values.Keys <= fields.Keys && changed <= values.Keys
    requires forall n :: n in values ==> values[n] == Loaded(c, fields, row).value[n]
    ensures Loaded(c, fields, row + Changes(values, changed).value) == Loaded(c, fields, row)
  {
    LoadedIsStored(c, fields, row);
    var row' := row + Changes(values, changed).value;
    forall n | n in fields
      ensures n in row' && Coerce(c, fields[n], row'[n]) == Ok(Loaded(c, fields, row).value[n])
    {
      assert n in changed ==> row'[n] == values[n];
      assert n !in changed ==> row'[n] == row[n];
    }
    assert Loaded(c, fields, row').value == Loaded(c, fields, row).value;
  }
}
