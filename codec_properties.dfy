/**
 * What the two directions of `Neo4j::Driver::Value` promise together: which
 * objects `to_neo` accepts, what lists and hashes become slot by slot, what
 * `to_ruby` makes of a dictionary (`to_h.symbolize_keys`), which objects come
 * back unchanged from a cell, and where they do not.
 */
module CodecProperties {
  import Bolt
  import opened Ruby
  import opened Codec

  // ---------------------------------------------------------------------------
  // Which objects to_neo accepts

  /**
   * The objects `to_neo` writes without raising, by their kind alone: every
   * handled class, an Integer that fits the 64-bit cell, a Point of two or three
   * coordinates, and lists and hashes whose elements are all accepted.
   */
  predicate Encodable(obj: Object)
    decreases obj
  {
    match obj
    case Int(i) => Bolt.InInt64Range(i)
    case Sym(_) => false
    case Other(_) => false
    case Point(cs) => |cs| == 2 || |cs| == 3
    case Array(items) => forall j :: 0 <= j < |items| ==> Encodable(items[j])
    case Hash(entries) => forall j :: 0 <= j < |entries| ==> EncodableEntry(entries[j])
    case _ => true
  }

  predicate EncodableEntry(entry: (Key, Object))
    decreases entry
  {
    Encodable(entry.1)
  }

  /** `to_neo` raises exactly for the objects `Encodable` leaves out, whatever the structure encoders write. */
  lemma {:induction false} EncodeOkIff(obj: Object, structure: StructureEncoder)
    ensures Encode(obj, structure).Ok? <==> Encodable(obj)
    decreases obj
  {
    DispatchIsClassOf(obj);
    match obj
    case Array(items) =>
      forall j | 0 <= j < |items| {
        EncodeOkIff(items[j], structure);
      }
      assert EncodeItems(items, structure).Ok? <==> forall j :: 0 <= j < |items| ==> Encode(items[j], structure).Ok?;
    case Hash(entries) =>
      forall j | 0 <= j < |entries| ensures EncodeEntry(entries[j], structure).Ok? <==> EncodableEntry(entries[j]) {
        assert entries[j] in entries;
        EncodeOkIff(entries[j].1, structure);
      }
      assert EncodeEntries(entries, structure).Ok? <==> forall j :: 0 <= j < |entries| ==> EncodeEntry(entries[j], structure).Ok?;
    case _ =>
  }

  /** The error `to_neo` raises for each object it rejects on its own. */
  lemma EncodeErrors(obj: Object, structure: StructureEncoder)
    ensures obj.Sym? || obj.Other? ==> Encode(obj, structure) == Raise(UnsupportedObject)
    ensures obj.Int? && !Bolt.InInt64Range(obj.i) ==> Encode(obj, structure) == Raise(IntegerOutOfRange(obj.i))
    ensures obj.Point? && |obj.coordinates| != 2 && |obj.coordinates| != 3 ==>
              Encode(obj, structure) == Raise(InvalidPointArity(|obj.coordinates|))
  {
    DispatchIsClassOf(obj);
  }

  /** A cell of a type no branch of `to_ruby` handles raises. */
  lemma DecodeUnknownType(tag: int, structure: StructureDecoder)
    ensures ToRuby(Bolt.Other(tag), structure) == Raise(UnknownValueType(tag))
  {
  }

  /**
   * The first `when` that matches wins: a ByteArray is also a String, a
   * DateTime also a Date, and `Time === ` also holds of a TimeWithZone, yet each
   * takes its own branch because that branch comes first.
   */
  lemma DispatchFirstMatchWins(b: seq<byte>, o: Opaque)
    ensures Matches(StringClass, ByteArray(b)) && Dispatch(ByteArray(b)) == Some(ByteArrayClass)
    ensures Matches(TimeClass, TimeWithZone(o)) && Dispatch(TimeWithZone(o)) == Some(TimeWithZoneClass)
    ensures Matches(DateClass, DateTime(o)) && Dispatch(DateTime(o)) == Some(DateClass)
  {
    DispatchIsClassOf(ByteArray(b));
    DispatchIsClassOf(TimeWithZone(o));
    DispatchIsClassOf(DateTime(o));
  }

  // ---------------------------------------------------------------------------
  // Scalars

  /** `Bolt::Boolean.get(value) == 1`, and `to_neo` writes 1 for true and 0 for false. */
  lemma BooleanRoundTrip(b: bool, flag: int, enc: StructureEncoder, dec: StructureDecoder)
    ensures ToRuby(Bolt.Boolean(flag), dec) == Ok(Bool(true)) <==> flag == 1
    ensures ToRuby(Bolt.Boolean(flag), dec) == Ok(Bool(false)) <==> flag != 1
    ensures Encode(Bool(b), enc) == Ok(Bolt.Boolean(if b then 1 else 0))
    ensures ToRuby(Encode(Bool(b), enc).value, dec) == Ok(Bool(b))
  {
    DispatchIsClassOf(Bool(b));
  }

  /** Bytes keep their length and every byte, both ways. */
  lemma BytesRoundTrip(b: seq<byte>, enc: StructureEncoder, dec: StructureDecoder)
    ensures Encode(ByteArray(b), enc).Ok?
    ensures var v := Encode(ByteArray(b), enc).value;
      v.Bytes? && |v.bytes| == |b| && (forall i :: 0 <= i < |b| ==> v.bytes[i] == b[i])
    ensures ToRuby(Bolt.Bytes(b), dec) == Ok(ByteArray(b))
  {
    DispatchIsClassOf(ByteArray(b));
  }

  /** `nil` and every Integer that fits 64 bits come back from a cell unchanged. */
  lemma NilIntegerRoundTrip(i: int, enc: StructureEncoder, dec: StructureDecoder)
    ensures Encode(Nil, enc) == Ok(Bolt.Null) && ToRuby(Bolt.Null, dec) == Ok(Nil)
    ensures Encode(Int(i), enc).Ok? <==> Bolt.InInt64Range(i)
    ensures Bolt.InInt64Range(i) ==> ToRuby(Encode(Int(i), enc).value, dec) == Ok(Int(i))
  {
    DispatchIsClassOf(Nil);
    DispatchIsClassOf(Int(i));
  }

  /**
   * A Point goes to the two-dimensional encoder when it has 2 coordinates,
   * to the three-dimensional one when it has 3, and raises otherwise.
   */
  lemma PointEncoding(cs: seq<Bolt.Float64>, enc: StructureEncoder)
    ensures |cs| == 2 ==> Encode(Point(cs), enc) == Ok(Bolt.Structure(enc(Point2DValue, Point(cs))))
    ensures |cs| == 3 ==> Encode(Point(cs), enc) == Ok(Bolt.Structure(enc(Point3DValue, Point(cs))))
    ensures Encode(Point(cs), enc).Raise? <==> |cs| != 2 && |cs| != 3
  {
    DispatchIsClassOf(Point(cs));
  }

  // ---------------------------------------------------------------------------
  // Lists

  /**
   * `to_ruby` of a list: one element per slot, in slot order, or the error of
   * the first slot that raises.
   */
  lemma DecodeList(items: seq<Bolt.Value>, dec: StructureDecoder)
    ensures ToRuby(Bolt.List(items), dec).Ok? <==> forall j :: 0 <= j < |items| ==> ToRuby(items[j], dec).Ok?
    ensures ToRuby(Bolt.List(items), dec).Ok? ==>
      var r := ToRuby(Bolt.List(items), dec).value;
      r.Array? && |r.items| == |items| && forall j :: 0 <= j < |items| ==> ToRuby(items[j], dec) == Ok(r.items[j])
    ensures ToRuby(Bolt.List(items), dec).Raise? ==>
      exists k :: 0 <= k < |items| && ToRuby(items[k], dec) == Raise(ToRuby(Bolt.List(items), dec).error)
  {
    var r := DecodeItems(items, dec);
    if r.Raise? {
      var k :| 0 <= k < |items| && ToRuby(items[k], dec) == Raise(r.error)
               && forall j :: 0 <= j < k ==> ToRuby(items[j], dec).Ok?;
    }
  }

  /**
   * `to_neo` of an Array: a list of `object.size` slots holding the elements'
   * values in order, or the error of the first element that raises.
   */
  lemma EncodeList(items: seq<Object>, enc: StructureEncoder)
    ensures Encode(Array(items), enc).Ok? <==> forall j :: 0 <= j < |items| ==> Encode(items[j], enc).Ok?
    ensures Encode(Array(items), enc).Ok? ==>
      var v := Encode(Array(items), enc).value;
      v.List? && |v.items| == |items| && forall j :: 0 <= j < |items| ==> Encode(items[j], enc) == Ok(v.items[j])
    ensures Encode(Array(items), enc).Raise? ==>
      exists k :: 0 <= k < |items| && Encode(items[k], enc) == Raise(Encode(Array(items), enc).error)
  {
    DispatchIsClassOf(Array(items));
    var r := EncodeItems(items, enc);
    if r.Raise? {
      var k :| 0 <= k < |items| && Encode(items[k], enc) == Raise(r.error)
               && forall j :: 0 <= j < k ==> Encode(items[j], enc).Ok?;
    }
  }

  // ---------------------------------------------------------------------------
  // Hashes

  /** The slots of a dictionary are written exactly when every value is, each with its key text and value. */
  lemma EncodeEntriesSlots(entries: seq<(Key, Object)>, enc: StructureEncoder)
    ensures EncodeEntries(entries, enc).Ok? <==> forall j :: 0 <= j < |entries| ==> Encode(entries[j].1, enc).Ok?
    ensures EncodeEntries(entries, enc).Ok? ==>
      var es := EncodeEntries(entries, enc).value;
      forall j :: 0 <= j < |entries| ==>
        && es[j].0 == ToS(entries[j].0)[..StringSize(ToS(entries[j].0))]
        && Encode(entries[j].1, enc) == Ok(es[j].1)
  {
    var r := EncodeEntries(entries, enc);
    forall j | 0 <= j < |entries| ensures EncodeEntry(entries[j], enc).Ok? <==> Encode(entries[j].1, enc).Ok? {
    }
    if r.Raise? {
      var k :| 0 <= k < |entries| && EncodeEntry(entries[k], enc) == Raise(r.error)
               && forall j :: 0 <= j < k ==> EncodeEntry(entries[j], enc).Ok?;
    }
  }

  /**
   * `to_neo` of a Hash: a dictionary of `object.size` slots; slot `j` has the
   * key's `to_s` cut to its `size` and the encoded value of pair `j`.
   */
  lemma EncodeHash(entries: seq<(Key, Object)>, enc: StructureEncoder)
    ensures Encode(Hash(entries), enc).Ok? <==> forall j :: 0 <= j < |entries| ==> Encode(entries[j].1, enc).Ok?
    ensures Encode(Hash(entries), enc).Ok? ==>
      var v := Encode(Hash(entries), enc).value;
      && v.Dictionary? && |v.entries| == |entries|
      && forall j :: 0 <= j < |entries| ==>
           && v.entries[j].0 == ToS(entries[j].0)[..StringSize(ToS(entries[j].0))]
           && Encode(entries[j].1, enc) == Ok(v.entries[j].1)
  {
    DispatchIsClassOf(Hash(entries));
    var r := EncodeEntries(entries, enc);
    assert Encode(Hash(entries), enc) == if r.Ok? then Ok(Bolt.Dictionary(r.value)) else Raise(r.error);
    EncodeEntriesSlots(entries, enc);
  }

  /** When every value decodes, the pairs are the slots' keys as strings beside their decoded values. */
  lemma DecodeEntriesOk(entries: seq<(seq<byte>, Bolt.Value)>, dec: StructureDecoder)
    requires forall j :: 0 <= j < |entries| ==> ToRuby(entries[j].1, dec).Ok?
    ensures DecodeEntries(entries, dec).Ok?
    ensures var pairs := DecodeEntries(entries, dec).value;
      forall j :: 0 <= j < |entries| ==> pairs[j] == (StringKey(entries[j].0), ToRuby(entries[j].1, dec).value)
  {
    assert forall j :: 0 <= j < |entries| ==> DecodeEntry(entries[j], dec).Ok?;
  }

  /** Slot `j` of a dictionary is the last one with its key. */
  predicate IsLastSlot(entries: seq<(seq<byte>, Bolt.Value)>, j: nat)
    requires j < |entries|
  {
    forall j' :: j < j' < |entries| ==> entries[j'].0 != entries[j].0
  }

  /** Two slots of a dictionary have the same key. */
  predicate HasRepeatedKey(entries: seq<(seq<byte>, Bolt.Value)>) {
    exists i, j :: 0 <= i < j < |entries| && entries[i].0 == entries[j].0
  }

  /** `symbolize_keys` of a hash whose keys are all strings: each key becomes its symbol, in place. */
  lemma SymbolizeStringKeys(g: seq<(Key, Object)>)
    requires DistinctKeys(g) && forall j :: 0 <= j < |g| ==> g[j].0.StringKey?
    ensures SymbolizeKeys(g) == seq(|g|, j requires 0 <= j < |g| => (SymbolKey(g[j].0.text), g[j].1))
  {
    var m := seq(|g|, j requires 0 <= j < |g| => (Symbolize(g[j].0), g[j].1));
    assert DistinctKeys(m) by {
      forall a, b | 0 <= a < b < |m| ensures m[a].0 != m[b].0 {
        assert g[a].0 != g[b].0;
      }
    }
    ToHOfDistinct(m);
  }

  /**
   * `symbolize_keys` of a hash with string keys only: the keys are symbols,
   * none repeats, a symbol is present exactly when its string was, every
   * pair of the hash is there under its symbol, and the size is kept.
   */
  lemma SymbolizedHash(g: seq<(Key, Object)>)
    requires DistinctKeys(g) && forall e :: e in g ==> e.0.StringKey?
    ensures var h := SymbolizeKeys(g);
      && |h| == |g|
      && DistinctKeys(h)
      && (forall e :: e in h ==> e.0.SymbolKey?)
      && (forall t :: SymbolKey(t) in Keys(h) <==> StringKey(t) in Keys(g))
      && (forall e :: e in g ==> (SymbolKey(e.0.text), e.1) in h)
  {
    assert forall j :: 0 <= j < |g| ==> g[j].0.StringKey? by {
      forall j | 0 <= j < |g| ensures g[j].0.StringKey? {
        assert g[j] in g;
      }
    }
    SymbolizeStringKeys(g);
    var h := SymbolizeKeys(g);
    assert DistinctKeys(h) by {
      forall a, b | 0 <= a < b < |h| ensures h[a].0 != h[b].0 {
        assert g[a].0 != g[b].0;
      }
    }
    forall e | e in h ensures e.0.SymbolKey? {
      var j :| 0 <= j < |h| && h[j] == e;
    }
    forall t ensures SymbolKey(t) in Keys(h) <==> StringKey(t) in Keys(g) {
      if SymbolKey(t) in Keys(h) {
        var a :| 0 <= a < |h| && Keys(h)[a] == SymbolKey(t);
        assert Keys(g)[a] == StringKey(t);
      }
      if StringKey(t) in Keys(g) {
        var a :| 0 <= a < |g| && Keys(g)[a] == StringKey(t);
        assert Keys(h)[a] == SymbolKey(t);
      }
    }
    forall e | e in g ensures (SymbolKey(e.0.text), e.1) in h {
      var a :| 0 <= a < |g| && g[a] == e;
      assert h[a] == (SymbolKey(e.0.text), e.1);
    }
  }

  /**
   * `to_h` then `symbolize_keys` of pairs whose keys are strings: symbols
   * only, none repeated, a symbol present exactly when some pair has its
   * string, the last pair of each key kept, and a repeated key shrinks it.
   */
  lemma DecodedHash(pairs: seq<(Key, Object)>)
    requires forall j :: 0 <= j < |pairs| ==> pairs[j].0.StringKey?
    ensures var h := SymbolizeKeys(ToH(pairs));
      && DistinctKeys(h)
      && (forall e :: e in h ==> e.0.SymbolKey?)
      && (forall t :: SymbolKey(t) in Keys(h) <==> StringKey(t) in Keys(pairs))
      && (forall j :: 0 <= j < |pairs| && IsLastOccurrence(pairs, j) ==> (SymbolKey(pairs[j].0.text), pairs[j].1) in h)
      && |h| <= |pairs|
      && (HasDuplicateKey(pairs) ==> |h| < |pairs|)
  {
    var g := ToH(pairs);
    ToHKeys(pairs);
    ToHEntries(pairs);
    forall e | e in g ensures e.0.StringKey? {
      var j :| 0 <= j < |pairs| && pairs[j] == e;
    }
    SymbolizedHash(g);
    if HasDuplicateKey(pairs) {
      ToHShrinksOnDuplicate(pairs);
    }
  }

  /**
   * Pairs keyed by the slots' names as strings: a string is a key exactly
   * when some slot has that name, a last slot gives a last pair, and a
   * repeated name gives a repeated key.
   */
  lemma StringKeyedSlots(entries: seq<(seq<byte>, Bolt.Value)>, pairs: seq<(Key, Object)>)
    requires |pairs| == |entries|
    requires forall j :: 0 <= j < |entries| ==> pairs[j].0 == StringKey(entries[j].0)
    ensures forall t :: StringKey(t) in Keys(pairs) <==> exists j :: 0 <= j < |entries| && entries[j].0 == t
    ensures forall j :: 0 <= j < |entries| && IsLastSlot(entries, j) ==> IsLastOccurrence(pairs, j)
    ensures HasRepeatedKey(entries) ==> HasDuplicateKey(pairs)
  {
    forall t ensures StringKey(t) in Keys(pairs) <==> exists j :: 0 <= j < |entries| && entries[j].0 == t {
      if StringKey(t) in Keys(pairs) {
        var j :| 0 <= j < |pairs| && Keys(pairs)[j] == StringKey(t);
        assert entries[j].0 == t;
      }
      if exists j :: 0 <= j < |entries| && entries[j].0 == t {
        var j :| 0 <= j < |entries| && entries[j].0 == t;
        assert Keys(pairs)[j] == StringKey(t);
      }
    }
    if HasRepeatedKey(entries) {
      var a, b :| 0 <= a < b < |entries| && entries[a].0 == entries[b].0;
      assert pairs[a].0 == pairs[b].0;
    }
  }

  /**
   * `to_ruby` of a dictionary whose values decode: `to_h` then
   * `symbolize_keys`. Every key of the result is a symbol and no key is
   * repeated; a symbol is a key exactly when some slot has its name; the
   * last slot of each name gives its value; and a repeated name leaves the
   * hash with fewer entries than the dictionary has slots.
   */
  lemma DecodeDictionary(entries: seq<(seq<byte>, Bolt.Value)>, dec: StructureDecoder)
    requires forall j :: 0 <= j < |entries| ==> ToRuby(entries[j].1, dec).Ok?
    ensures ToRuby(Bolt.Dictionary(entries), dec).Ok?
    ensures var r := ToRuby(Bolt.Dictionary(entries), dec).value;
      && r.Hash?
      && DistinctKeys(r.entries)
      && (forall e :: e in r.entries ==> e.0.SymbolKey?)
      && (forall t :: SymbolKey(t) in Keys(r.entries) <==> exists j :: 0 <= j < |entries| && entries[j].0 == t)
      && (forall j :: 0 <= j < |entries| && IsLastSlot(entries, j) ==>
            (SymbolKey(entries[j].0), ToRuby(entries[j].1, dec).value) in r.entries)
      && |r.entries| <= |entries|
      && (HasRepeatedKey(entries) ==> |r.entries| < |entries|)
  {
    DecodeEntriesOk(entries, dec);
    var pairs := DecodeEntries(entries, dec).value;
    DecodedHash(pairs);
    StringKeyedSlots(entries, pairs);
    assert ToRuby(Bolt.Dictionary(entries), dec) == Ok(Hash(SymbolizeKeys(ToH(pairs))));
    forall j | 0 <= j < |entries| && IsLastSlot(entries, j)
      ensures (SymbolKey(entries[j].0), ToRuby(entries[j].1, dec).value) == (SymbolKey(pairs[j].0.text), pairs[j].1)
    {
    }
  }

  /** Two slots with the same name: the hash keeps one symbol, with the later slot's value. */
  lemma DecodeRepeatedKey(name: seq<byte>, x: Bolt.Value, y: Bolt.Value, dec: StructureDecoder)
    requires ToRuby(x, dec).Ok? && ToRuby(y, dec).Ok?
    ensures ToRuby(Bolt.Dictionary([(name, x), (name, y)]), dec) == Ok(Hash([(SymbolKey(name), ToRuby(y, dec).value)]))
  {
    var entries := [(name, x), (name, y)];
    DecodeEntriesOk(entries, dec);
    var pairs := DecodeEntries(entries, dec).value;
    var later := ToRuby(y, dec).value;
    assert pairs == [(StringKey(name), ToRuby(x, dec).value), (StringKey(name), later)];
    ToHOfRepeatedPair(StringKey(name), ToRuby(x, dec).value, later);
    SymbolizeSingleton(name, later);
  }

  // ---------------------------------------------------------------------------
  // Round trips

  /**
   * The objects that come back unchanged from a cell: nil, booleans, Integers
   * that fit 64 bits, Floats, byte arrays, strings of single-byte characters,
   * lists of such objects, hashes whose keys are symbols with single-byte
   * names, and structured objects whose structure codecs invert each other.
   */
  predicate RoundTrips(obj: Object, enc: StructureEncoder, dec: StructureDecoder)
    decreases obj
  {
    match obj
    case Nil => true
    case Bool(_) => true
    case Int(i) => Bolt.InInt64Range(i)
    case Float(_) => true
    case ByteArray(_) => true
    case Str(t) => SingleByteChars(t)
    case Sym(_) => false
    case Array(items) => forall j :: 0 <= j < |items| ==> RoundTrips(items[j], enc, dec)
    case Hash(entries) =>
      && DistinctKeys(entries)
      && forall j :: 0 <= j < |entries| ==> EntryRoundTrips(entries[j], enc, dec)
    case Other(_) => false
    case _ =>
      var r := Encode(obj, enc);
      r.Ok? && r.value.Structure? && dec(r.value.structure) == Ok(obj)
  }

  predicate EntryRoundTrips(entry: (Key, Object), enc: StructureEncoder, dec: StructureDecoder)
    decreases entry
  {
    && entry.0.SymbolKey?
    && SingleByteChars(entry.0.name)
    && RoundTrips(entry.1, enc, dec)
  }

  /** A list whose elements come back comes back. */
  lemma ListRoundTrip(items: seq<Object>, enc: StructureEncoder, dec: StructureDecoder)
    requires forall j :: 0 <= j < |items| ==>
               Encode(items[j], enc).Ok? && ToRuby(Encode(items[j], enc).value, dec) == Ok(items[j])
    ensures Encode(Array(items), enc).Ok? && ToRuby(Encode(Array(items), enc).value, dec) == Ok(Array(items))
  {
    EncodeList(items, enc);
    var vs := Encode(Array(items), enc).value.items;
    DecodeList(vs, dec);
    var xs := ToRuby(Bolt.List(vs), dec).value.items;
    assert xs == items;
  }

  /** A dictionary whose slot names and values are a symbol-keyed hash's names and values reads back as that hash. */
  lemma DecodeSymbolNamed(es: seq<(seq<byte>, Bolt.Value)>, entries: seq<(Key, Object)>, dec: StructureDecoder)
    requires DistinctKeys(entries)
    requires |es| == |entries|
    requires forall j :: 0 <= j < |entries| ==>
               entries[j].0.SymbolKey? && es[j].0 == entries[j].0.name && ToRuby(es[j].1, dec) == Ok(entries[j].1)
    ensures ToRuby(Bolt.Dictionary(es), dec) == Ok(Hash(entries))
  {
    DecodeEntriesOk(es, dec);
    var pairs := DecodeEntries(es, dec).value;
    assert forall j :: 0 <= j < |entries| ==> pairs[j] == (StringKey(entries[j].0.name), entries[j].1);
    SymbolizeStringified(entries, pairs);
  }

  /** A hash of distinct symbol keys with single-byte names, whose values come back, comes back. */
  lemma HashRoundTrip(entries: seq<(Key, Object)>, enc: StructureEncoder, dec: StructureDecoder)
    requires DistinctKeys(entries)
    requires forall j :: 0 <= j < |entries| ==> entries[j].0.SymbolKey? && SingleByteChars(entries[j].0.name)
    requires forall j :: 0 <= j < |entries| ==>
               Encode(entries[j].1, enc).Ok? && ToRuby(Encode(entries[j].1, enc).value, dec) == Ok(entries[j].1)
    ensures Encode(Hash(entries), enc).Ok? && ToRuby(Encode(Hash(entries), enc).value, dec) == Ok(Hash(entries))
  {
    EncodeHash(entries, enc);
    var es := Encode(Hash(entries), enc).value.entries;
    assert forall j :: 0 <= j < |entries| ==> es[j].0 == entries[j].0.name;
    DecodeSymbolNamed(es, entries, dec);
  }

  /** Every object `RoundTrips` admits is written, and reading the cell back gives the object. */
  lemma {:induction false} RoundTrip(obj: Object, enc: StructureEncoder, dec: StructureDecoder)
    requires RoundTrips(obj, enc, dec)
    ensures Encode(obj, enc).Ok? && ToRuby(Encode(obj, enc).value, dec) == Ok(obj)
    decreases obj
  {
    DispatchIsClassOf(obj);
    match obj
    case Str(t) =>
      assert t[..|t|] == t;
    case Array(items) =>
      forall j | 0 <= j < |items|
        ensures Encode(items[j], enc).Ok? && ToRuby(Encode(items[j], enc).value, dec) == Ok(items[j])
      {
        RoundTrip(items[j], enc, dec);
      }
      ListRoundTrip(items, enc, dec);
    case Hash(entries) =>
      forall j | 0 <= j < |entries|
        ensures Encode(entries[j].1, enc).Ok? && ToRuby(Encode(entries[j].1, enc).value, dec) == Ok(entries[j].1)
      {
        assert entries[j] in entries;
        assert EntryRoundTrips(entries[j], enc, dec);
        RoundTrip(entries[j].1, enc, dec);
      }
      HashRoundTrip(entries, enc, dec);
    case _ =>
  }

  /**
   * An Integer key and the string of its digits become the same key text: the
   * hash is written as two slots with one name, and once it has been through
   * a cell only one symbol is left, holding the later value.
   */
  lemma IntegerKeyCollides(i: int, x: Object, y: Object, enc: StructureEncoder, dec: StructureDecoder)
    requires Encode(x, enc).Ok? && ToRuby(Encode(x, enc).value, dec).Ok?
    requires Encode(y, enc).Ok? && ToRuby(Encode(y, enc).value, dec).Ok?
    ensures Encode(Hash([(IntegerKey(i), x), (StringKey(DecimalString(i)), y)]), enc)
            == Ok(Bolt.Dictionary([(DecimalString(i), Encode(x, enc).value), (DecimalString(i), Encode(y, enc).value)]))
    ensures ToRuby(Encode(Hash([(IntegerKey(i), x), (StringKey(DecimalString(i)), y)]), enc).value, dec)
            == Ok(Hash([(SymbolKey(DecimalString(i)), ToRuby(Encode(y, enc).value, dec).value)]))
    ensures RoundTrips(y, enc, dec) ==>
              ToRuby(Encode(Hash([(IntegerKey(i), x), (StringKey(DecimalString(i)), y)]), enc).value, dec)
              == Ok(Hash([(SymbolKey(DecimalString(i)), y)]))
  {
    var entries := [(IntegerKey(i), x), (StringKey(DecimalString(i)), y)];
    var text := DecimalString(i);
    assert text[..StringSize(text)] == text;
    EncodeHash(entries, enc);
    var es := Encode(Hash(entries), enc).value.entries;
    assert |es| == 2;
    assert es[0] == (text, Encode(x, enc).value);
    assert es[1] == (text, Encode(y, enc).value);
    assert es == [(text, Encode(x, enc).value), (text, Encode(y, enc).value)];
    DecodeRepeatedKey(text, Encode(x, enc).value, Encode(y, enc).value, dec);
    if RoundTrips(y, enc, dec) {
      RoundTrip(y, enc, dec);
    }
  }

  // ---------------------------------------------------------------------------
  // Text lengths: `size` where the library expects a byte count

  /** As written, a String is stored with `object.size` bytes: its character count. */
  lemma StringEncoding(t: seq<byte>, enc: StructureEncoder)
    ensures Encode(Str(t), enc) == Ok(Bolt.String(t[..StringSize(t)]))
  {
    DispatchIsClassOf(Str(t));
  }

  /** A String comes back whole exactly when every character is one byte. */
  lemma StringRoundTripIff(t: seq<byte>, enc: StructureEncoder, dec: StructureDecoder)
    ensures Encode(Str(t), enc).Ok?
    ensures ToRuby(Encode(Str(t), enc).value, dec) == Ok(Str(t)) <==> SingleByteChars(t)
  {
    StringEncoding(t, enc);
    var n := StringSize(t);
    if SingleByteChars(t) {
      assert t[..n] == t;
    } else {
      assert |t[..n]| != |t|;
    }
  }

  /** "é" (0xC3 0xA9) is one character: only its first byte reaches the cell. */
  lemma MultibyteStringTruncated(t: seq<byte>, enc: StructureEncoder)
    requires t == [0xC3, 0xA9]
    ensures Encode(Str(t), enc) == Ok(Bolt.String([0xC3]))
  {
    StringEncoding(t, enc);
    assert t[1..][1..] == [];
    assert StringSize(t[1..]) == 0;
    assert t[..StringSize(t)] == [0xC3];
  }

  /** The cell a String evidently should become: all of its bytes (`bytesize`). */
  function IntendedStringValue(t: seq<byte>): (v: Bolt.Value)
    ensures v.String? && |v.text| == |t|
  {
    Bolt.String(t[..|t|])
  }

  /** On text of single-byte characters the source already writes the intended cell. */
  lemma SingleByteAgrees(t: seq<byte>, enc: StructureEncoder)
    requires SingleByteChars(t)
    ensures Encode(Str(t), enc) == Ok(IntendedStringValue(t))
  {
    StringEncoding(t, enc);
  }

  /** With the byte count, every String comes back whole, multi-byte characters included. */
  lemma IntendedStringRoundTrip(t: seq<byte>, dec: StructureDecoder)
    ensures ToRuby(IntendedStringValue(t), dec) == Ok(Str(t))
  {
    assert t[..|t|] == t;
  }

  /** As written, a key is stored with `key.size` bytes: the symbol `:é` becomes the one-byte name 0xC3. */
  lemma MultibyteKeyTruncated(name: seq<byte>, enc: StructureEncoder)
    requires name == [0xC3, 0xA9]
    ensures Encode(Hash([(SymbolKey(name), Nil)]), enc) == Ok(Bolt.Dictionary([([0xC3], Bolt.Null)]))
  {
    assert name[1..][1..] == [];
    assert StringSize(name[1..]) == 0;
    assert KeyText(SymbolKey(name)) == [0xC3];
    DispatchIsClassOf(Nil);
    assert Encode(Nil, enc) == Ok(Bolt.Null);
    EncodeHash([(SymbolKey(name), Nil)], enc);
    var v := Encode(Hash([(SymbolKey(name), Nil)]), enc).value;
    assert v.entries[0] == ([0xC3], Bolt.Null);
    assert v.entries == [([0xC3], Bolt.Null)];
  }

  /**
   * The key text a slot evidently should get: all of `key.to_s` (its
   * `bytesize`). The key text as written is its first `key.size` bytes, and
   * the two agree exactly on keys of single-byte characters.
   */
  function IntendedKeyText(k: Key): (t: seq<byte>)
    ensures KeyText(k) == t[..StringSize(t)]
    ensures KeyText(k) == t <==> SingleByteChars(t)
  {
    var s := ToS(k);
    assert KeyText(k) == s ==> |s[..StringSize(s)]| == |s|;
    s
  }

  /**
   * The dictionary a Hash evidently should become: each slot named by all of
   * `key.to_s` (its `bytesize`) beside the encoded value of its pair.
   */
  function IntendedHashValue(entries: seq<(Key, Object)>, enc: StructureEncoder): (r: Result<Bolt.Value>)
    ensures r.Ok? <==> forall j :: 0 <= j < |entries| ==> Encode(entries[j].1, enc).Ok?
    ensures r.Ok? ==>
      && r.value.Dictionary? && |r.value.entries| == |entries|
      && forall j :: 0 <= j < |entries| ==>
           && r.value.entries[j].0 == IntendedKeyText(entries[j].0)
           && Encode(entries[j].1, enc) == Ok(r.value.entries[j].1)
  {
    EncodeEntriesSlots(entries, enc);
    match EncodeEntries(entries, enc)
    case Raise(e) => Raise(e)
    case Ok(es) =>
      Ok(Bolt.Dictionary(seq(|es|, j requires 0 <= j < |es| => (IntendedKeyText(entries[j].0), es[j].1))))
  }

  /** On keys of single-byte characters the source already writes the intended dictionary. */
  lemma IntendedHashAgrees(entries: seq<(Key, Object)>, enc: StructureEncoder)
    requires forall j :: 0 <= j < |entries| ==> SingleByteChars(ToS(entries[j].0))
    ensures Encode(Hash(entries), enc) == IntendedHashValue(entries, enc)
  {
    EncodeHash(entries, enc);
    var r := IntendedHashValue(entries, enc);
    if r.Ok? {
      var v := Encode(Hash(entries), enc).value;
      forall j | 0 <= j < |entries| ensures v.entries[j] == r.value.entries[j] {
        var t := IntendedKeyText(entries[j].0);
        assert v.entries[j].0 == t[..StringSize(t)] == t;
      }
      assert v.entries == r.value.entries;
    } else {
      DispatchIsClassOf(Hash(entries));
      EncodeEntriesSlots(entries, enc);
    }
  }

  /**
   * With the intended key text, a hash of distinct symbols whose values come
   * back comes back whatever bytes the names hold, multi-byte characters included.
   */
  lemma IntendedHashRoundTrip(entries: seq<(Key, Object)>, enc: StructureEncoder, dec: StructureDecoder)
    requires DistinctKeys(entries)
    requires forall j :: 0 <= j < |entries| ==>
               && entries[j].0.SymbolKey?
               && Encode(entries[j].1, enc).Ok? && ToRuby(Encode(entries[j].1, enc).value, dec) == Ok(entries[j].1)
    ensures IntendedHashValue(entries, enc).Ok?
    ensures ToRuby(IntendedHashValue(entries, enc).value, dec) == Ok(Hash(entries))
  {
    var es := IntendedHashValue(entries, enc).value.entries;
    assert forall j :: 0 <= j < |entries| ==> es[j].0 == entries[j].0.name;
    DecodeSymbolNamed(es, entries, dec);
  }
}
