// The schema-driven codec of serialize.Structure.
//
// MessagePack is taken as injective on the values it can pack, up to text, which it packs like raw
// bytes and unpacks as bytes; so the bytes of a value are modelled by its Raw form. Text is given by
// its UTF-8 bytes.
module StructureCodec {
  import opened Wrappers
  import opened OrderedDict

  // Hashable values, as keys of a dict.
  datatype Key = IntKey(n: int) | EnumKey(n: int) | TextKey(text: string) | BytesKey(text: string)

  type Entry = (Key, Value)

  // A dict keeps its insertion order. A structure has its class's fields and one attribute for each.
  datatype Value =
    | Nothing
    | Bool(b: bool)
    | Int(n: int)
    | Float(r: real)
    | Text(text: string)
    | Bytes(text: string)
    | ByteArray(text: string)
    | Enum(n: int)
    | List(items: seq<Value>)
    | Dict(entries: seq<Entry>)
    | Struct(fields: seq<Field>, values: seq<Value>)

  datatype Field = Field(name: string, spec: Spec)

  // The class in a schema, as far as the codec tells classes apart.
  datatype Class = ListClass | DictClass | ByteArrayClass | StructClass(fields: seq<Field>) | OtherClass

  // The second part of a field: a class, or a tuple whose first item is the class of the value and
  // whose rest describes its elements.
  datatype Spec = Plain(base: Class) | Tuple(parts: seq<Spec>)

  type Schema = Option<Spec>

  // The class of the value itself; a tuple in its place is no class.
  function Current(s: Schema): Class
    requires s != Some(Tuple([]))
  {
    match s
    case None => OtherClass
    case Some(Plain(c)) => c
    case Some(Tuple(parts)) => if parts[0].Plain? then parts[0].base else OtherClass
  }

  function Rest(s: Schema): Schema {
    match s
    case Some(Tuple(parts)) => if parts == [] then None else Some(Tuple(parts[1..]))
    case _ => None
  }

  // For a dict the rest is (K, V), or a tuple holding only the tuple (K, V).
  function PairSpec(rest: Schema): Schema {
    match rest
    case Some(Tuple(parts)) => if |parts| == 1 then Some(parts[0]) else rest
    case _ => rest
  }

  predicate HasPair(rest: Schema) {
    PairSpec(rest).Some? && PairSpec(rest).value.Tuple? && |PairSpec(rest).value.parts| >= 2
  }

  function ValSpec(rest: Schema): Schema
    requires HasPair(rest)
  {
    Some(PairSpec(rest).value.parts[1])
  }

  function KeySpec(rest: Schema): Schema
    requires HasPair(rest)
  {
    Some(PairSpec(rest).value.parts[0])
  }

  // ---- Encoding ----

  function EncodeKey(k: Key): Key {
    if k.EnumKey? then IntKey(k.n) else k
  }

  // _encode raises no exception.
  predicate Encodes(v: Value, s: Schema)
    decreases v
  {
    && s != Some(Tuple([]))
    && match Current(s)
       case ListClass => v.List? && forall i :: 0 <= i < |v.items| ==> Encodes(v.items[i], Rest(s))
       case DictClass =>
         && v.Dict?
         && (v.entries != [] ==> HasPair(Rest(s)) && KeySpec(Rest(s)) != Some(Tuple([])))
         && forall i :: 0 <= i < |v.entries| ==> Encodes(v.entries[i].1, ValSpec(Rest(s)))
       case _ => v.Struct? ==> StructEncodes(v)
  }

  predicate StructEncodes(v: Value)
    requires v.Struct?
    decreases v, 0
  {
    && |v.values| == |v.fields|
    && forall i :: 0 <= i < |v.values| ==> Encodes(v.values[i], Some(v.fields[i].spec))
  }

  // The value that _encode returns.
  function Encode(v: Value, s: Schema): Value
    requires Encodes(v, s)
    decreases v
  {
    match Current(s)
    case ListClass =>
      List(seq(|v.items|, i requires 0 <= i < |v.items| => Encode(v.items[i], Rest(s))))
    case DictClass =>
      Dict(PutAll([], DictEntries(v, Rest(s))))
    case _ =>
      if v.Struct? then Dict(PutAll([], FieldEntries(v)))
      else if v.Enum? then Int(v.n)
      else v
  }

  // What the loop over a dict assigns.
  function DictEntries(v: Value, rest: Schema): (entries: seq<Entry>)
    requires v.Dict? && (v.entries != [] ==> HasPair(rest))
    requires forall i :: 0 <= i < |v.entries| ==> Encodes(v.entries[i].1, ValSpec(rest))
    decreases v, 0
  {
    seq(|v.entries|, i requires 0 <= i < |v.entries| =>
      (EncodeKey(v.entries[i].0), Encode(v.entries[i].1, ValSpec(rest))))
  }
  // What to_dict assigns, field by field.
  function FieldEntries(v: Value): (entries: seq<Entry>)
    requires v.Struct? && StructEncodes(v)
    decreases v, 0
  {
    seq(|v.values|, i requires 0 <= i < |v.values| =>
      (TextKey(v.fields[i].name), Encode(v.values[i], Some(v.fields[i].spec))))
  }

  // What the value is after _encode: lists were overwritten element by element, and so were the lists
  // inside of dicts and attributes; everything else is as it was.
  function Left(v: Value, s: Schema): Value
    requires Encodes(v, s)
    decreases v
  {
    match Current(s)
    case ListClass => Encode(v, s)
    case DictClass =>
      Dict(seq(|v.entries|, i requires 0 <= i < |v.entries| =>
        (v.entries[i].0, Left(v.entries[i].1, ValSpec(Rest(s))))))
    case _ =>
      if v.Struct? then Struct(v.fields, LeftValues(v)) else v
  }

  function LeftValues(v: Value): (values: seq<Value>)
    requires v.Struct? && StructEncodes(v)
    ensures |values| == |v.values|
    decreases v, 0
  {
    seq(|v.values|, i requires 0 <= i < |v.values| => Left(v.values[i], Some(v.fields[i].spec)))
  }

  // ---- The wire ----

  function RawKey(k: Key): Key {
    if k.TextKey? then BytesKey(k.text) else k
  }

  ghost predicate DistinctRaw(entries: seq<Entry>) {
    forall i, j :: 0 <= i < j < |entries| ==> RawKey(entries[i].0) != RawKey(entries[j].0)
  }

  // MessagePack has integers of 64 bits, signed or not, and lengths of 32 bits; packb raises for others.
  predicate WireInt(n: int) {
    -0x8000_0000_0000_0000 <= n < 0x1_0000_0000_0000_0000
  }

  predicate WireLength(n: nat) {
    n < 0x1_0000_0000
  }

  predicate PackableKey(k: Key) {
    match k
    case IntKey(n) => WireInt(n)
    case EnumKey(_) => false
    case TextKey(t) => WireLength(|t|)
    case BytesKey(t) => WireLength(|t|)
  }

  // The value can be packed, and is unpacked as it was packed.
  ghost predicate Packable(v: Value)
    decreases v
  {
    match v
    case Int(n) => WireInt(n)
    case Text(t) => WireLength(|t|)
    case Bytes(t) => WireLength(|t|)
    case ByteArray(t) => WireLength(|t|)
    case List(items) => WireLength(|items|) && forall i :: 0 <= i < |items| ==> Packable(items[i])
    case Dict(entries) =>
      && WireLength(|entries|) && DistinctRaw(entries)
      && (forall i :: 0 <= i < |entries| ==> PackableKey(entries[i].0) && Packable(entries[i].1))
    case Struct(_, _) => false
    case Enum(_) => false
    case _ => true
  }

  function Raw(v: Value): Value
    decreases v
  {
    match v
    case Text(t) => Bytes(t)
    case ByteArray(t) => Bytes(t)
    case List(items) => List(seq(|items|, i requires 0 <= i < |items| => Raw(items[i])))
    case Dict(entries) =>
      Dict(seq(|entries|, i requires 0 <= i < |entries| => (RawKey(entries[i].0), Raw(entries[i].1))))
    case _ => v
  }

  // ---- Decoding ----

  predicate Truthy(v: Value) {
    match v
    case Nothing => false
    case Bool(b) => b
    case Int(n) => n != 0
    case Float(r) => r != 0.0
    case Text(t) => t != ""
    case Bytes(t) => t != ""
    case ByteArray(t) => t != ""
    case List(items) => items != []
    case Dict(entries) => entries != []
    case _ => true
  }

  // dict.get, which gives None for a missing key.
  function ValueAt(entries: seq<Entry>, k: Key): Value {
    match Get(entries, k)
    case None => Nothing
    case Some(v) => v
  }

  lemma ValueIsInside(entries: seq<Entry>, k: Key)
    ensures ValueAt(entries, k) == Nothing || exists i :: 0 <= i < |entries| && ValueAt(entries, k) == entries[i].1
  {
    if Get(entries, k).Some? {
      GetInside(entries, k);
    }
  }

  // from_dict looks for the member's name as text, then, unless that gave something true, as bytes.
  function Member(entries: seq<Entry>, name: string): Value {
    var value := ValueAt(entries, TextKey(name));
    if Truthy(value) then value else ValueAt(entries, BytesKey(name))
  }

  // _decode raises no exception.
  predicate Decodes(v: Value, s: Schema)
    decreases v, 2
  {
    && s != Some(Tuple([]))
    && match Current(s)
       case ListClass => v.List? && forall i :: 0 <= i < |v.items| ==> Decodes(v.items[i], Rest(s))
       case DictClass =>
         && v.Dict?
         && (v.entries != [] ==> HasPair(Rest(s)) && KeyDecodes(KeySpec(Rest(s))))
         && forall i :: 0 <= i < |v.entries| ==> Decodes(v.entries[i].1, ValSpec(Rest(s)))
       case StructClass(fields) =>
         v.Dict? && forall i :: 0 <= i < |fields| ==> MemberDecodes(v, fields[i])
       case ByteArrayClass => v.Bytes? || v.ByteArray?
       case OtherClass => true
  }

  // A key stays hashable only where nothing is decoded.
  predicate KeyDecodes(s: Schema) {
    s != Some(Tuple([])) && Current(s) == OtherClass
  }

  predicate MemberDecodes(v: Value, f: Field)
    requires v.Dict?
    decreases v, 1
  {
    ValueIsInside(v.entries, TextKey(f.name));
    ValueIsInside(v.entries, BytesKey(f.name));
    var value := Member(v.entries, f.name);
    Truthy(value) ==> Decodes(value, Some(f.spec))
  }

  function Decode(v: Value, s: Schema): Value
    requires Decodes(v, s)
    decreases v, 2
  {
    match Current(s)
    case ListClass =>
      List(seq(|v.items|, i requires 0 <= i < |v.items| => Decode(v.items[i], Rest(s))))
    case DictClass =>
      Dict(PutAll([], seq(|v.entries|, i requires 0 <= i < |v.entries| =>
        (v.entries[i].0, Decode(v.entries[i].1, ValSpec(Rest(s)))))))
    case StructClass(fields) =>
      Struct(fields, seq(|fields|, i requires 0 <= i < |fields| => DecodeMember(v, fields[i])))
    case ByteArrayClass => ByteArray(v.text)
    case OtherClass => v
  }

  function DecodeMember(v: Value, f: Field): Value
    requires v.Dict? && MemberDecodes(v, f)
    decreases v, 1
  {
    ValueIsInside(v.entries, TextKey(f.name));
    ValueIsInside(v.entries, BytesKey(f.name));
    var value := Member(v.entries, f.name);
    if Truthy(value) then Decode(value, Some(f.spec)) else value
  }

  // ---- The values that fit a schema ----

  ghost predicate DistinctNames(fields: seq<Field>) {
    forall i, j :: 0 <= i < j < |fields| ==> fields[i].name != fields[j].name
  }

  ghost predicate DistinctEncoded(entries: seq<Entry>) {
    forall i, j :: 0 <= i < j < |entries| ==>
      RawKey(EncodeKey(entries[i].0)) != RawKey(EncodeKey(entries[j].0))
  }

  // A structure is an instance of the class in its schema, lists and dicts hold what their schema says,
  // and where the schema names no such class the value is plain data, an enumeration or a structure.
  ghost predicate Fits(v: Value, s: Schema)
    decreases v
  {
    && s != Some(Tuple([]))
    && match Current(s)
       case ListClass => v.List? && WireLength(|v.items|) && forall i :: 0 <= i < |v.items| ==> Fits(v.items[i], Rest(s))
       case DictClass =>
         && v.Dict? && WireLength(|v.entries|) && DistinctEncoded(v.entries)
         && (v.entries != [] ==> HasPair(Rest(s)) && KeyDecodes(KeySpec(Rest(s))))
         && forall i :: 0 <= i < |v.entries| ==>
              PackableKey(EncodeKey(v.entries[i].0)) && Fits(v.entries[i].1, ValSpec(Rest(s)))
       case StructClass(fields) => v.Struct? && v.fields == fields && StructFits(v)
       case ByteArrayClass => (v.Bytes? || v.ByteArray? || v.Text?) && WireLength(|v.text|)
       case OtherClass => if v.Struct? then StructFits(v) else if v.Enum? then WireInt(v.n) else Packable(v)
  }

  ghost predicate StructFits(v: Value)
    requires v.Struct?
    decreases v, 0
  {
    && |v.values| == |v.fields| && WireLength(|v.fields|) && DistinctNames(v.fields)
    && forall i :: 0 <= i < |v.values| ==> WireLength(|v.fields[i].name|) && Fits(v.values[i], Some(v.fields[i].spec))
  }

  // An integer, or an enumeration, fits exactly where the schema names no container or structure and
  // MessagePack has a form for it. A structure that holds another does not fit, and what it is encoded
  // to, if that raises nothing, cannot be packed.
  lemma IntegersThatFit(n: int, s: Schema)
    requires s != Some(Tuple([]))
    ensures Fits(Int(n), s) <==> Current(s) == OtherClass && WireInt(n)
    ensures Fits(Enum(n), s) <==> Current(s) == OtherClass && WireInt(n)
    ensures WireInt(n) <==> -9223372036854775808 <= n <= 18446744073709551615
  {
  }

  // Without a schema, texts and bytes fit up to 2^32 - 1 bytes, and lists up to as many elements.
  lemma LengthsThatFit(t: string)
    ensures Fits(Text(t), None) <==> |t| <= 4294967295
    ensures Fits(Bytes(t), None) <==> |t| <= 4294967295
  {
  }

  lemma ListsThatFit(v: Value)
    requires v.List? && forall i :: 0 <= i < |v.items| ==> v.items[i] == Nothing
    ensures Fits(v, None) <==> |v.items| <= 4294967295
  {
    assert Packable(Nothing);
    assert forall i :: 0 <= i < |v.items| ==> Packable(v.items[i]);
  }

  // An enumeration or a structure inside of plain data, or as a key of it, cannot be packed.
  lemma OnlyDataPacks(n: int, fields: seq<Field>, values: seq<Value>, v: Value)
    ensures !Packable(Enum(n)) && !Packable(Struct(fields, values)) && !Packable(Dict([(EnumKey(n), v)]))
  {
    assert Dict([(EnumKey(n), v)]).entries[0].0 == EnumKey(n);
  }

  // A dict is decoded only if the schema of its keys names no class that decoding would rebuild.
  lemma KeysThatDecode(k: Key, c: Class, v: Value, spec: Spec)
    requires Decodes(v, Some(spec))
    ensures Decodes(Dict([(k, v)]), Some(Tuple([Plain(DictClass), Plain(c), spec]))) <==> c == OtherClass
  {
    SchemasSpelledOut(spec, Plain(c), spec);
    var d := Dict([(k, v)]);
    assert d.entries[0].1 == v;
  }

  lemma IntegerIsEncoded(n: int, s: Schema)
    ensures Encodes(Int(n), s) ==> Encode(Int(n), s) == Int(n)
    ensures Encodes(Enum(n), s) ==> Encode(Enum(n), s) == Int(n)
  {
  }

  lemma OutOfRangeDoesNotFit(v: Value, i: nat, n: int)
    requires v.Struct? && i < |v.values| && (v.values[i] == Int(n) || v.values[i] == Enum(n)) && !WireInt(n)
    ensures !StructFits(v)
    ensures DistinctNames(v.fields) && StructEncodes(v) ==> !Packable(Dict(PutAll([], FieldEntries(v))))
  {
    if DistinctNames(v.fields) && StructEncodes(v) {
      var entries := FieldEntries(v);
      PutAllDistinct(entries);
      IntegerIsEncoded(n, Some(v.fields[i].spec));
      assert Encodes(v.values[i], Some(v.fields[i].spec));
      assert entries[i].1 == Int(n);
      assert !Packable(entries[i].1);
    }
    if StructFits(v) {
      var spec := Some(v.fields[i].spec);
      assert Fits(v.values[i], spec);
      IntegersThatFit(n, spec);
    }
  }

  // ---- What fits can be encoded and packed ----

  lemma {:induction false} FitsEncodes(v: Value, s: Schema)
    requires Fits(v, s)
    ensures Encodes(v, s) && Packable(Encode(v, s))
    decreases v
  {
    match Current(s)
    case ListClass =>
      forall i | 0 <= i < |v.items| ensures Encodes(v.items[i], Rest(s)) && Packable(Encode(v.items[i], Rest(s))) {
        FitsEncodes(v.items[i], Rest(s));
      }
    case DictClass =>
      forall i | 0 <= i < |v.entries|
        ensures Encodes(v.entries[i].1, ValSpec(Rest(s))) && Packable(Encode(v.entries[i].1, ValSpec(Rest(s))))
      {
        FitsEncodes(v.entries[i].1, ValSpec(Rest(s)));
      }
      PutAllDistinct(DictEntries(v, Rest(s)));
    case StructClass(_) => StructFitsEncodes(v);
    case ByteArrayClass =>
    case OtherClass =>
      if v.Struct? {
        StructFitsEncodes(v);
      }
  }

  lemma {:induction false} StructFitsEncodes(v: Value)
    requires v.Struct? && StructFits(v)
    ensures StructEncodes(v) && PutAll([], FieldEntries(v)) == FieldEntries(v)
    ensures Packable(Dict(FieldEntries(v)))
    decreases v, 0
  {
    forall i | 0 <= i < |v.values|
      ensures Encodes(v.values[i], Some(v.fields[i].spec)) && Packable(Encode(v.values[i], Some(v.fields[i].spec)))
    {
      FitsEncodes(v.values[i], Some(v.fields[i].spec));
    }
    PutAllDistinct(FieldEntries(v));
  }

  // ---- Encoding twice ----

  // What _encode returned can be encoded again, to itself.
  lemma {:induction false} EncodeTwice(v: Value, s: Schema)
    requires Fits(v, s)
    ensures Encodes(v, s) && Encodes(Encode(v, s), s) && Encode(Encode(v, s), s) == Encode(v, s)
    decreases v
  {
    FitsEncodes(v, s);
    match Current(s)
    case ListClass =>
      forall i | 0 <= i < |v.items|
        ensures Encodes(Encode(v.items[i], Rest(s)), Rest(s))
        ensures Encode(Encode(v.items[i], Rest(s)), Rest(s)) == Encode(v.items[i], Rest(s))
      {
        EncodeTwice(v.items[i], Rest(s));
      }
    case DictClass =>
      var entries := DictEntries(v, Rest(s));
      PutAllDistinct(entries);
      forall i | 0 <= i < |v.entries|
        ensures Encodes(entries[i].1, ValSpec(Rest(s)))
        ensures Encode(entries[i].1, ValSpec(Rest(s))) == entries[i].1
      {
        EncodeTwice(v.entries[i].1, ValSpec(Rest(s)));
      }
      assert DictEntries(Dict(entries), Rest(s)) == entries;
    case _ =>
  }

  // Encoding a value changes it, but encoding what is left of it gives the same result: the second
  // to_bytes of a structure returns the same bytes as the first.
  lemma {:induction false} EncodeLeft(v: Value, s: Schema)
    requires Fits(v, s)
    ensures Encodes(v, s) && Encodes(Left(v, s), s) && Encode(Left(v, s), s) == Encode(v, s)
    decreases v
  {
    FitsEncodes(v, s);
    match Current(s)
    case ListClass => EncodeTwice(v, s);
    case DictClass =>
      var left := Left(v, s);
      forall i | 0 <= i < |v.entries|
        ensures Encodes(left.entries[i].1, ValSpec(Rest(s)))
        ensures Encode(left.entries[i].1, ValSpec(Rest(s))) == Encode(v.entries[i].1, ValSpec(Rest(s)))
      {
        EncodeLeft(v.entries[i].1, ValSpec(Rest(s)));
      }
      assert DictEntries(left, Rest(s)) == DictEntries(v, Rest(s));
    case StructClass(_) => StructEncodeLeft(v);
    case ByteArrayClass =>
    case OtherClass =>
      if v.Struct? {
        StructEncodeLeft(v);
      }
  }

  lemma {:induction false} StructEncodeLeft(v: Value)
    requires v.Struct? && StructFits(v) && StructEncodes(v)
    ensures var left := Struct(v.fields, LeftValues(v));
            StructEncodes(left) && FieldEntries(left) == FieldEntries(v)
    decreases v, 0
  {
    var left := LeftValues(v);
    forall i | 0 <= i < |v.values|
      ensures Encodes(left[i], Some(v.fields[i].spec))
      ensures Encode(left[i], Some(v.fields[i].spec)) == Encode(v.values[i], Some(v.fields[i].spec))
    {
      EncodeLeft(v.values[i], Some(v.fields[i].spec));
    }
  }

  // ---- The round trip ----

  // What is on the wire for a value.
  function Wire(v: Value, s: Schema): Value
    requires Encodes(v, s)
  {
    Raw(Encode(v, s))
  }

  // A member that from_dict leaves undecoded, because it counts as false, is encoded as it is.
  lemma FalseStays(v: Value, s: Schema)
    requires Fits(v, s) && Encodes(v, s) && !Truthy(Wire(v, s))
    ensures Encodes(Wire(v, s), s) && Wire(Wire(v, s), s) == Wire(v, s)
  {
    var w := Wire(v, s);
    match Current(s)
    case ListClass => assert w == List([]);
    case DictClass =>
      PutAllDistinct(DictEntries(v, Rest(s)));
      assert w == Dict([]);
      assert DictEntries(w, Rest(s)) == [];
    case _ =>
      RawTwice(Encode(v, s));
  }

  lemma {:induction false} RawTwice(v: Value)
    ensures Raw(Raw(v)) == Raw(v)
    decreases v
  {
    match v
    case List(items) =>
      forall i | 0 <= i < |items| ensures Raw(Raw(items[i])) == Raw(items[i]) {
        RawTwice(items[i]);
      }
    case Dict(entries) =>
      forall i | 0 <= i < |entries| ensures Raw(Raw(entries[i].1)) == Raw(entries[i].1) {
        RawTwice(entries[i].1);
      }
    case _ =>
  }

  // Decoding what was packed and encoding it again gives the same bytes.
  lemma {:induction false} RoundTrip(v: Value, s: Schema)
    requires Fits(v, s)
    ensures Encodes(v, s) && Decodes(Wire(v, s), s)
    ensures var back := Decode(Wire(v, s), s);
            Encodes(back, s) && Wire(back, s) == Wire(v, s)
    decreases v
  {
    FitsEncodes(v, s);
    match Current(s)
    case ListClass => ListRoundTrip(v, s);
    case DictClass => DictRoundTrip(v, s);
    case StructClass(_) => StructRoundTrip(v, s);
    case ByteArrayClass =>
    case OtherClass => RawTwice(Encode(v, s));
  }

  lemma {:induction false} ListRoundTrip(v: Value, s: Schema)
    requires Fits(v, s) && Encodes(v, s) && Current(s) == ListClass
    ensures Decodes(Wire(v, s), s)
    ensures var back := Decode(Wire(v, s), s);
            Encodes(back, s) && Wire(back, s) == Wire(v, s)
    decreases v, 0
  {
    forall i | 0 <= i < |v.items|
      ensures Encodes(v.items[i], Rest(s)) && Decodes(Wire(v.items[i], Rest(s)), Rest(s))
      ensures var back := Decode(Wire(v.items[i], Rest(s)), Rest(s));
              Encodes(back, Rest(s)) && Wire(back, Rest(s)) == Wire(v.items[i], Rest(s))
    {
      RoundTrip(v.items[i], Rest(s));
    }
  }

  lemma {:induction false} DictRoundTrip(v: Value, s: Schema)
    requires Fits(v, s) && Encodes(v, s) && Current(s) == DictClass
    ensures Decodes(Wire(v, s), s)
    ensures var back := Decode(Wire(v, s), s);
            Encodes(back, s) && Wire(back, s) == Wire(v, s)
    decreases v, 0
  {
    var rest := Rest(s);
    DictWire(v, s);
    var w := Wire(v, s);
    forall i | 0 <= i < |v.entries|
      ensures Decodes(w.entries[i].1, ValSpec(rest))
      ensures var back := Decode(w.entries[i].1, ValSpec(rest));
              Encodes(back, ValSpec(rest)) && Wire(back, ValSpec(rest)) == w.entries[i].1
    {
      RoundTrip(v.entries[i].1, ValSpec(rest));
    }
    DictFromWire(w, s);
  }

  lemma DictWire(v: Value, s: Schema)
    requires Fits(v, s) && Encodes(v, s) && Current(s) == DictClass
    ensures var w := Wire(v, s);
            && w.Dict? && |w.entries| == |v.entries| && Distinct(w.entries)
            && (forall i :: 0 <= i < |w.entries| ==>
                  && w.entries[i].1 == Wire(v.entries[i].1, ValSpec(Rest(s)))
                  && RawKey(EncodeKey(w.entries[i].0)) == w.entries[i].0)
  {
    hide PutAll, Raw;
    DictWireOf(v, s);
  }

  lemma DictFromWire(w: Value, s: Schema)
    requires s != Some(Tuple([])) && Current(s) == DictClass && w.Dict? && Distinct(w.entries)
    requires w.entries != [] ==> HasPair(Rest(s)) && KeyDecodes(KeySpec(Rest(s)))
    requires forall i :: 0 <= i < |w.entries| ==>
               && RawKey(EncodeKey(w.entries[i].0)) == w.entries[i].0
               && Decodes(w.entries[i].1, ValSpec(Rest(s)))
               && var back := Decode(w.entries[i].1, ValSpec(Rest(s)));
                  Encodes(back, ValSpec(Rest(s))) && Wire(back, ValSpec(Rest(s))) == w.entries[i].1
    ensures Decodes(w, s)
    ensures var back := Decode(w, s);
            Encodes(back, s) && Wire(back, s) == w
  {
    hide PutAll, Raw;
    DictDecoded(w, s);
    var back := Decode(w, s);
    DictWireOf(back, s);
    PutAllDistinct(DictEntries(back, Rest(s)));
    assert Wire(back, s).entries == w.entries;
  }

  // Decoding a dict with distinct keys, entry by entry.
  lemma DictDecoded(w: Value, s: Schema)
    requires Decodes(w, s) && Current(s) == DictClass && Distinct(w.entries)
    ensures var back := Decode(w, s);
            && back.Dict? && |back.entries| == |w.entries|
            && forall i :: 0 <= i < |w.entries| ==>
                 back.entries[i] == (w.entries[i].0, Decode(w.entries[i].1, ValSpec(Rest(s))))
  {
    var decoded := seq(|w.entries|, i requires 0 <= i < |w.entries| =>
      (w.entries[i].0, Decode(w.entries[i].1, ValSpec(Rest(s)))));
    PutAllDistinct(decoded);
  }

  // The wire form of a dict whose encoded keys are distinct, entry by entry.
  lemma DictWireOf(v: Value, s: Schema)
    requires Encodes(v, s) && Current(s) == DictClass && DistinctEncoded(v.entries)
    ensures var w := Wire(v, s);
            && w.Dict? && |w.entries| == |v.entries|
            && forall i :: 0 <= i < |w.entries| ==>
                 w.entries[i] == (RawKey(EncodeKey(v.entries[i].0)), Wire(v.entries[i].1, ValSpec(Rest(s))))
  {
    var entries := DictEntries(v, Rest(s));
    PutAllDistinct(entries);
    forall i | 0 <= i < |entries|
      ensures entries[i] == (EncodeKey(v.entries[i].0), Encode(v.entries[i].1, ValSpec(Rest(s))))
    {
    }
  }

  lemma {:induction false} StructRoundTrip(v: Value, s: Schema)
    requires Fits(v, s) && Encodes(v, s) && v.Struct? && Current(s) == StructClass(v.fields)
    ensures Decodes(Wire(v, s), s)
    ensures var back := Decode(Wire(v, s), s);
            Encodes(back, s) && Wire(back, s) == Wire(v, s)
    decreases v, 0
  {
    StructWire(v, s);
    forall i | 0 <= i < |v.fields|
      ensures MemberDecodes(Wire(v, s), v.fields[i])
      ensures var back := DecodeMember(Wire(v, s), v.fields[i]);
              Encodes(back, Some(v.fields[i].spec)) && Wire(back, Some(v.fields[i].spec)) == Wire(v, s).entries[i].1
    {
      MemberRoundTrip(v, s, i);
    }
    StructFromWire(Wire(v, s), v.fields, s);
  }

  lemma StructWire(v: Value, s: Schema)
    requires Fits(v, s) && Encodes(v, s) && v.Struct? && Current(s) == StructClass(v.fields)
    ensures var w := Wire(v, s);
            && w.Dict? && |w.entries| == |v.fields| == |v.values| && DistinctNames(v.fields)
            && (forall i :: 0 <= i < |w.entries| ==>
                  && w.entries[i].0 == BytesKey(v.fields[i].name)
                  && Encodes(v.values[i], Some(v.fields[i].spec))
                  && w.entries[i].1 == Wire(v.values[i], Some(v.fields[i].spec)))
  {
    StructFitsEncodes(v);
  }

  lemma StructFromWire(w: Value, fields: seq<Field>, s: Schema)
    requires s != Some(Tuple([])) && Current(s) == StructClass(fields) && DistinctNames(fields)
    requires w.Dict? && |w.entries| == |fields|
    requires forall i :: 0 <= i < |fields| ==>
               && w.entries[i].0 == BytesKey(fields[i].name)
               && MemberDecodes(w, fields[i])
               && var back := DecodeMember(w, fields[i]);
                  Encodes(back, Some(fields[i].spec)) && Wire(back, Some(fields[i].spec)) == w.entries[i].1
    ensures Decodes(w, s)
    ensures var back := Decode(w, s);
            Encodes(back, s) && Wire(back, s) == w
  {
    var back := Decode(w, s);
    forall i | 0 <= i < |fields|
      ensures Encodes(back.values[i], Some(fields[i].spec)) && Wire(back.values[i], Some(fields[i].spec)) == w.entries[i].1
    {
      assert back.values[i] == DecodeMember(w, fields[i]);
    }
    var entries := FieldEntries(back);
    PutAllDistinct(entries);
    assert Raw(Dict(entries)).entries == w.entries;
  }

  lemma {:induction false} MemberRoundTrip(v: Value, s: Schema, i: nat)
    requires Fits(v, s) && Encodes(v, s) && v.Struct? && Current(s) == StructClass(v.fields)
    requires i < |v.fields|
    ensures Wire(v, s).Dict? && |Wire(v, s).entries| == |v.fields|
    ensures MemberDecodes(Wire(v, s), v.fields[i])
    ensures var back := DecodeMember(Wire(v, s), v.fields[i]);
            Encodes(back, Some(v.fields[i].spec)) && Wire(back, Some(v.fields[i].spec)) == Wire(v, s).entries[i].1
    decreases v, 0, i
  {
    MemberFound(v, s, i);
    var w, spec := Wire(v, s), Some(v.fields[i].spec);
    if Truthy(w.entries[i].1) {
      RoundTrip(v.values[i], spec);
    } else {
      FalseStays(v.values[i], spec);
    }
  }

  // ---- Values that come back as they were ----

  // Values that the wire and the schema tell apart from all others: no text and no enumeration, whose
  // kind is not on the wire; byte arrays only where the schema names them; and no empty byte array or
  // structure without fields, which count as false and are not decoded as members.
  ghost predicate Exact(v: Value, s: Schema)
    decreases v
  {
    && s != Some(Tuple([]))
    && match Current(s)
       case ListClass => v.List? && forall i :: 0 <= i < |v.items| ==> Exact(v.items[i], Rest(s))
       case DictClass =>
         && v.Dict?
         && (v.entries != [] ==> HasPair(Rest(s)))
         && forall i :: 0 <= i < |v.entries| ==>
              (v.entries[i].0.IntKey? || v.entries[i].0.BytesKey?) && Exact(v.entries[i].1, ValSpec(Rest(s)))
       case StructClass(fields) =>
         && v.Struct? && v.fields == fields && |v.values| == |fields| && fields != []
         && forall i :: 0 <= i < |fields| ==> Exact(v.values[i], Some(fields[i].spec))
       case ByteArrayClass => v.ByteArray? && v.text != ""
       case OtherClass => !v.Struct? && !v.Enum? && Raw(v) == v
  }

  // An exact value is decoded to itself.
  lemma {:induction false} DecodesToItself(v: Value, s: Schema)
    requires Fits(v, s) && Exact(v, s)
    ensures Encodes(v, s) && Decodes(Wire(v, s), s) && Decode(Wire(v, s), s) == v
    decreases v
  {
    RoundTrip(v, s);
    match Current(s)
    case ListClass =>
      forall i | 0 <= i < |v.items|
        ensures Encodes(v.items[i], Rest(s)) && Decodes(Wire(v.items[i], Rest(s)), Rest(s))
        ensures Decode(Wire(v.items[i], Rest(s)), Rest(s)) == v.items[i]
      {
        DecodesToItself(v.items[i], Rest(s));
      }
    case DictClass => DictToItself(v, s);
    case StructClass(_) => StructToItself(v, s);
    case ByteArrayClass =>
    case OtherClass =>
  }

  lemma {:induction false} DictToItself(v: Value, s: Schema)
    requires Fits(v, s) && Exact(v, s) && Current(s) == DictClass
    requires Encodes(v, s) && Decodes(Wire(v, s), s)
    ensures Decode(Wire(v, s), s) == v
    decreases v, 0
  {
    var rest := Rest(s);
    PutAllDistinct(DictEntries(v, rest));
    var w := Wire(v, s);
    assert |w.entries| == |v.entries|;
    forall i | 0 <= i < |v.entries|
      ensures w.entries[i].0 == v.entries[i].0
      ensures Decodes(w.entries[i].1, ValSpec(rest)) && Decode(w.entries[i].1, ValSpec(rest)) == v.entries[i].1
    {
      DecodesToItself(v.entries[i].1, ValSpec(rest));
    }
    var decoded := seq(|w.entries|, i requires 0 <= i < |w.entries| =>
      (w.entries[i].0, Decode(w.entries[i].1, ValSpec(rest))));
    assert decoded == v.entries;
    PutAllDistinct(decoded);
  }

  lemma {:induction false} StructToItself(v: Value, s: Schema)
    requires Fits(v, s) && Exact(v, s) && Current(s).StructClass?
    requires Encodes(v, s) && Decodes(Wire(v, s), s)
    ensures Decode(Wire(v, s), s) == v
    decreases v, 0
  {
    var w := Wire(v, s);
    StructWire(v, s);
    forall i | 0 <= i < |v.fields|
      ensures MemberDecodes(w, v.fields[i]) && DecodeMember(w, v.fields[i]) == v.values[i]
    {
      var spec := Some(v.fields[i].spec);
      MemberFound(v, s, i);
      MemberRoundTrip(v, s, i);
      if Truthy(w.entries[i].1) {
        DecodesToItself(v.values[i], spec);
      } else {
        FalseIsItself(v.values[i], spec);
      }
    }
  }

  lemma MemberFound(v: Value, s: Schema, i: nat)
    requires Fits(v, s) && Encodes(v, s) && v.Struct? && Current(s) == StructClass(v.fields)
    requires i < |v.fields|
    ensures Wire(v, s).Dict? && |Wire(v, s).entries| == |v.fields|
    ensures Member(Wire(v, s).entries, v.fields[i].name) == Wire(v, s).entries[i].1
    ensures |v.values| == |v.fields| && Encodes(v.values[i], Some(v.fields[i].spec))
    ensures Wire(v, s).entries[i].1 == Wire(v.values[i], Some(v.fields[i].spec))
  {
    StructWire(v, s);
    var w := Wire(v, s);
    GetFound(w.entries, TextKey(v.fields[i].name));
    assert w.entries[i].0 == BytesKey(v.fields[i].name);
    GetAt(w.entries, i);
  }

  // An exact member that counts as false is on the wire as it is.
  lemma FalseIsItself(v: Value, s: Schema)
    requires Fits(v, s) && Exact(v, s) && Encodes(v, s) && !Truthy(Wire(v, s))
    ensures Wire(v, s) == v
  {
    match Current(s)
    case ListClass =>
    case DictClass => PutAllDistinct(DictEntries(v, Rest(s)));
    case StructClass(_) =>
      StructFitsEncodes(v);
    case ByteArrayClass =>
    case OtherClass =>
  }

  // ---- Equality ----

  // __eq__ compares the bytes.
  ghost predicate Equal(x: Value, y: Value)
    requires x.Struct? && StructEncodes(x) && y.Struct? && StructEncodes(y)
  {
    Raw(Dict(PutAll([], FieldEntries(x)))) == Raw(Dict(PutAll([], FieldEntries(y))))
  }

  // The main results, for a structure whose attributes fit its fields: from_bytes of its bytes raises
  // no exception and gives an equal structure, and so does the structure itself after to_bytes has
  // overwritten its lists.
  lemma StructureRoundTrip(x: Value)
    requires x.Struct? && StructFits(x)
    ensures var s := Some(Plain(StructClass(x.fields)));
            && StructEncodes(x) && Decodes(Wire(x, s), s)
            && var back := Decode(Wire(x, s), s);
               back.Struct? && StructEncodes(back) && Equal(back, x)
    ensures var left := Struct(x.fields, LeftValues(x));
            StructEncodes(left) && Equal(left, x)
  {
    var s := Some(Plain(StructClass(x.fields)));
    assert Current(s) == StructClass(x.fields);
    RoundTrip(x, s);
    StructEncodeLeft(x);
  }

  // A schema `(list,)` has nothing to say about the elements: encoding raises unless there are none.
  lemma BareListTuple(v: Value)
    requires v.List?
    ensures Encodes(v, Some(Tuple([Plain(ListClass)]))) <==> v.items == []
  {
    assert Rest(Some(Tuple([Plain(ListClass)]))) == Some(Tuple([]));
    if v.items != [] {
      assert !Encodes(v.items[0], Some(Tuple([])));
    }
  }

  // ---- Schemas and members, spelled out ----

  // A list's element, and a dict's key and value with their schema written in either way.
  lemma SchemasSpelledOut(e: Spec, k: Spec, v: Spec)
    ensures Current(Some(Tuple([Plain(ListClass), e]))) == ListClass
    ensures Rest(Some(Tuple([Plain(ListClass), e]))) == Some(Tuple([e]))
    ensures e.Plain? ==> Current(Some(Tuple([e]))) == e.base && Rest(Some(Tuple([e]))) == Some(Tuple([]))
    ensures forall pair | pair in {Some(Tuple([Plain(DictClass), k, v])), Some(Tuple([Plain(DictClass), Tuple([k, v])]))} ::
              && Current(pair) == DictClass && HasPair(Rest(pair))
              && KeySpec(Rest(pair)) == Some(k) && ValSpec(Rest(pair)) == Some(v)
  {
    assert [Plain(ListClass), e][1..] == [e] && [e][1..] == [];
    assert [Plain(DictClass), k, v][1..] == [k, v];
    assert [Plain(DictClass), Tuple([k, v])][1..] == [Tuple([k, v])];
  }

  // What to_dict returns for a structure: each member under its name as text.
  lemma MembersEncoded(x: Value, i: nat)
    requires x.Struct? && StructEncodes(x) && DistinctNames(x.fields) && i < |x.fields|
    ensures var d := Encode(x, Some(Plain(StructClass(x.fields))));
      && d.Dict? && |d.entries| == |x.fields|
      && d.entries[i] == (TextKey(x.fields[i].name), Encode(x.values[i], Some(x.fields[i].spec)))
  {
    PutAllDistinct(FieldEntries(x));
  }

  // What from_dict gives a member: None if its name is missing; a value that counts as false as it is; any
  // other value decoded. The name is looked for as text first, then as bytes.
  lemma MembersDecoded(f: Field, t: Value, b: Value)
    requires Decodes(t, Some(f.spec)) && Decodes(b, Some(f.spec))
    ensures MemberDecodes(Dict([]), f) && DecodeMember(Dict([]), f) == Nothing
    ensures var d := Dict([(BytesKey(f.name), b)]);
            MemberDecodes(d, f) && DecodeMember(d, f) == if Truthy(b) then Decode(b, Some(f.spec)) else b
    ensures var d := Dict([(BytesKey(f.name), b), (TextKey(f.name), t)]);
            MemberDecodes(d, f)
            && DecodeMember(d, f) == if Truthy(t) then Decode(t, Some(f.spec))
                                     else if Truthy(b) then Decode(b, Some(f.spec)) else b
  {
    var first, second := (BytesKey(f.name), b), (TextKey(f.name), t);
    assert [first][1..] == [] && [first, second][1..] == [second];
    assert Get([first], TextKey(f.name)) == Get([], TextKey(f.name)) == None;
    assert Get([first], BytesKey(f.name)) == Some(b);
    assert Get([second], TextKey(f.name)) == Some(t);
    assert Get([first, second], TextKey(f.name)) == Some(t);
    assert Get([first, second], BytesKey(f.name)) == Some(b);
  }

  // What counts as false: None, false, zero, and whatever is empty.
  lemma FalseExactly(v: Value)
    ensures !Truthy(v) <==>
              v in {Nothing, Bool(false), Int(0), Float(0.0), Text(""), Bytes(""), ByteArray(""), List([]), Dict([])}
  {
  }

  // Values that no schema speaks of are encoded as they are, but for enumerations and structures; decoding
  // only makes byte arrays of bytes.
  lemma PlainValues(v: Value)
    requires !v.Struct?
    ensures Encode(v, None) == if v.Enum? then Int(v.n) else v
    ensures Left(v, None) == v && Decodes(v, None) && Decode(v, None) == v
    ensures v.Bytes? ==> Decodes(v, Some(Plain(ByteArrayClass))) && Decode(v, Some(Plain(ByteArrayClass))) == ByteArray(v.text)
  {
  }

  // ---- The loops ----

  // The loop of _encode over a list overwrites it in place: what is left is the encoded list.
  method EncodeElements(value: array<Value>, s: Schema)
    requires s != Some(Tuple([])) && Current(s) == ListClass && Encodes(List(value[..]), s)
    modifies value
    ensures forall i :: 0 <= i < value.Length ==>
              Encodes(old(value[i]), Rest(s)) && value[i] == Encode(old(value[i]), Rest(s))
    ensures List(value[..]) == Left(List(old(value[..])), s) == Encode(List(old(value[..])), s)
  {
    ghost var was := value[..];
    assert forall i :: 0 <= i < value.Length ==> value[i] == was[i] == List(was).items[i];
    var index := 0;
    while index < value.Length
      invariant index <= value.Length
      invariant forall i :: 0 <= i < index ==> value[i] == Encode(was[i], Rest(s))
      invariant forall i :: index <= i < value.Length ==> value[i] == was[i]
    {
      value[index] := Encode(value[index], Rest(s));
      index := index + 1;
    }
    assert value[..] == Encode(List(was), s).items;
  }

  // The same loop in _decode.
  method DecodeElements(value: array<Value>, s: Schema)
    requires s != Some(Tuple([])) && Current(s) == ListClass && Decodes(List(value[..]), s)
    modifies value
    ensures forall i :: 0 <= i < value.Length ==>
              Decodes(old(value[i]), Rest(s)) && value[i] == Decode(old(value[i]), Rest(s))
    ensures List(value[..]) == Decode(List(old(value[..])), s)
  {
    ghost var was := value[..];
    assert forall i :: 0 <= i < value.Length ==> value[i] == was[i] == List(was).items[i];
    var index := 0;
    while index < value.Length
      invariant index <= value.Length
      invariant forall i :: 0 <= i < index ==> value[i] == Decode(was[i], Rest(s))
      invariant forall i :: index <= i < value.Length ==> value[i] == was[i]
    {
      value[index] := Decode(value[index], Rest(s));
      index := index + 1;
    }
    assert value[..] == Decode(List(was), s).items;
  }

  // The loop of to_dict.
  method ToDict(x: Value) returns (output: seq<Entry>)
    requires x.Struct? && StructEncodes(x)
    ensures output == PutAll([], FieldEntries(x))
    ensures StructFits(x) ==> output == FieldEntries(x)
  {
    output := [];
    var i := 0;
    ghost var entries := FieldEntries(x);
    while i < |x.fields|
      invariant i <= |x.fields| && output == PutAll([], entries[..i])
    {
      var value := Encode(x.values[i], Some(x.fields[i].spec));
      assert entries[..i + 1][..i] == entries[..i] && entries[i] == (TextKey(x.fields[i].name), value);
      output := Put(output, TextKey(x.fields[i].name), value);
      i := i + 1;
    }
    assert entries[..i] == entries;
    if StructFits(x) {
      StructFitsEncodes(x);
    }
  }
}
