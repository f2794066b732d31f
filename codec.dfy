/**
 * `Neo4j::Driver::Value` (ffi/neo4j/driver/value.rb): the two directions of
 * the conversion between Bolt cells and Ruby objects.
 *
 *  - `ToRuby` is `to_ruby`: it dispatches on the cell's type tag and decodes
 *    lists and dictionaries recursively.
 *  - `ToNeo` is `to_neo`: it dispatches on the object's class, in source
 *    order, formats the given cell and fills the cells of its slots one by
 *    one. `Encode` is its specification: the value the cell ends up holding.
 *
 * The encoders and the decoder of structures (`Internal::*Value`) are not part
 * of this model; they are parameters.
 */
module Codec {
  import Bolt
  import opened Ruby

  datatype Error =
    | UnknownValueType(tag: int)     // to_ruby: a type tag no branch handles
    | UnsupportedObject              // to_neo: an object of a class no branch handles
    | InvalidPointArity(count: nat)  // to_neo: a point with neither 2 nor 3 coordinates
    | IntegerOutOfRange(i: int)      // to_neo: the binding's int64 parameter rejects the Integer
    | StructureError(code: int)      // raised by a structure decoder

  datatype Result<T> = Ok(value: T) | Raise(error: Error)

  datatype Option<T> = None | Some(value: T)

  /** The error a result raises, if any. */
  function Raised<T>(r: Result<T>): Option<Error> {
    if r.Raise? then Some(r.error) else None
  }

  /** The `Internal::*Value` encoders `to_neo` hands structured objects to. */
  datatype Encoder =
    | DateValue | DurationValue | Point2DValue | Point3DValue
    | OffsetTimeValue | LocalTimeValue | LocalDateTimeValue
    | TimeWithZoneIdValue | TimeWithZoneOffsetValue

  /** What the selected encoder writes for an object. */
  type StructureEncoder = (Encoder, Object) -> Bolt.Struct

  /** `Internal::StructureValue.to_ruby`. */
  type StructureDecoder = Bolt.Struct -> Result<Object>

  // ---------------------------------------------------------------------------
  // to_ruby

  function ToRuby(v: Bolt.Value, structure: StructureDecoder): Result<Object>
    decreases v
  {
    match v
    case Null => Ok(Nil)
    case Boolean(flag) => Ok(Bool(flag == 1))
    case Integer(i) => Ok(Int(i as int))
    case Float(f) => Ok(Float(f))
    case Bytes(b) => Ok(ByteArray(b))
    case String(t) => Ok(Str(t))
    case Dictionary(entries) =>
      (match DecodeEntries(entries, structure)
       case Raise(e) => Raise(e)
       case Ok(pairs) => Ok(Hash(SymbolizeKeys(ToH(pairs)))))
    case List(items) =>
      (match DecodeItems(items, structure)
       case Raise(e) => Raise(e)
       case Ok(xs) => Ok(Array(xs)))
    case Structure(s) => structure(s)
    case Other(tag) => Raise(UnknownValueType(tag))
  }

  /** The slots decoded in index order; the first that raises ends the decoding. */
  function DecodeItems(items: seq<Bolt.Value>, structure: StructureDecoder): (r: Result<seq<Object>>)
    ensures r.Ok? ==> |r.value| == |items|
    ensures r.Ok? ==> forall j :: 0 <= j < |items| ==> ToRuby(items[j], structure) == Ok(r.value[j])
    ensures r.Raise? ==>
      exists k :: 0 <= k < |items| && ToRuby(items[k], structure) == Raise(r.error)
                  && forall j :: 0 <= j < k ==> ToRuby(items[j], structure).Ok?
    decreases items
  {
    if items == [] then Ok([])
    else
      var n := |items| - 1;
      var init := items[..n];
      assert forall j :: 0 <= j < n ==> init[j] == items[j];
      match DecodeItems(init, structure)
      case Raise(e) => Raise(e)
      case Ok(xs) =>
        match ToRuby(items[n], structure)
        case Raise(e) => Raise(e)
        case Ok(x) => Ok(xs + [x])
  }

  /** The `[key, value]` pairs of a dictionary, in index order, keys as strings. */
  function DecodeEntries(entries: seq<(seq<byte>, Bolt.Value)>, structure: StructureDecoder)
    : (r: Result<seq<(Key, Object)>>)
    ensures r.Ok? ==> |r.value| == |entries|
    ensures r.Ok? ==> forall j :: 0 <= j < |entries| ==> DecodeEntry(entries[j], structure) == Ok(r.value[j])
    ensures r.Raise? ==>
      exists k :: 0 <= k < |entries| && DecodeEntry(entries[k], structure) == Raise(r.error)
                  && forall j :: 0 <= j < k ==> DecodeEntry(entries[j], structure).Ok?
    decreases entries
  {
    if entries == [] then Ok([])
    else
      var n := |entries| - 1;
      var init := entries[..n];
      assert forall j :: 0 <= j < n ==> init[j] == entries[j];
      match DecodeEntries(init, structure)
      case Raise(e) => Raise(e)
      case Ok(ps) =>
        match DecodeEntry(entries[n], structure)
        case Raise(e) => Raise(e)
        case Ok(p) => Ok(ps + [p])
  }

  /** `[get_key(value, i).first, to_ruby(Dictionary.value(value, i))]`. */
  function DecodeEntry(entry: (seq<byte>, Bolt.Value), structure: StructureDecoder)
    : Result<(Key, Object)>
    decreases entry
  {
    match ToRuby(entry.1, structure)
    case Raise(e) => Raise(e)
    case Ok(x) => Ok((StringKey(entry.0), x))
  }

  // ---------------------------------------------------------------------------
  // to_neo: dispatch

  /** The `when` branches of `to_neo`, by the class each one tests. */
  datatype Branch =
    | NilClass | TrueClass | FalseClass | IntegerClass | FloatClass
    | ByteArrayClass | StringClass | ArrayClass | HashClass
    | DateClass | DurationClass | PointClass | OffsetTimeClass | LocalTimeClass
    | LocalDateTimeClass | TimeWithZoneClass | TimeClass

  /** The branches in the order the source tries them. */
  const Branches: seq<Branch> := [
    NilClass, TrueClass, FalseClass, IntegerClass, FloatClass,
    ByteArrayClass, StringClass, ArrayClass, HashClass,
    DateClass, DurationClass, PointClass, OffsetTimeClass, LocalTimeClass,
    LocalDateTimeClass, TimeWithZoneClass, TimeClass
  ]

  /**
   * `Class === obj`. Subclasses match their superclasses' branches too: a
   * ByteArray is a String, a DateTime is a Date, and ActiveSupport makes
   * `Time === obj` hold for a TimeWithZone.
   */
  predicate Matches(b: Branch, obj: Object) {
    match b
    case NilClass => obj.Nil?
    case TrueClass => obj == Bool(true)
    case FalseClass => obj == Bool(false)
    case IntegerClass => obj.Int?
    case FloatClass => obj.Float?
    case ByteArrayClass => obj.ByteArray?
    case StringClass => obj.Str? || obj.ByteArray?
    case ArrayClass => obj.Array?
    case HashClass => obj.Hash?
    case DateClass => obj.Date? || obj.DateTime?
    case DurationClass => obj.Duration?
    case PointClass => obj.Point?
    case OffsetTimeClass => obj.OffsetTime?
    case LocalTimeClass => obj.LocalTime?
    case LocalDateTimeClass => obj.LocalDateTime?
    case TimeWithZoneClass => obj.TimeWithZone?
    case TimeClass => obj.Time? || obj.TimeWithZone?
  }

  /** The position of the first branch in `bs` that matches `obj`. */
  function FirstMatch(bs: seq<Branch>, obj: Object): (r: Option<nat>)
    ensures r.Some? ==> r.value < |bs| && Matches(bs[r.value], obj)
    ensures r.Some? ==> forall j :: 0 <= j < r.value ==> !Matches(bs[j], obj)
    ensures r.None? ==> forall j :: 0 <= j < |bs| ==> !Matches(bs[j], obj)
  {
    if bs == [] then None
    else if Matches(bs[0], obj) then Some(0)
    else
      match FirstMatch(bs[1..], obj)
      case None => None
      case Some(k) => Some(k + 1)
  }

  /** The `case object ... when` of `to_neo`: the first branch that matches. */
  function Dispatch(obj: Object): (b: Option<Branch>)
    ensures b.Some? ==> Matches(b.value, obj)
    ensures b == Some(StringClass) ==> obj.Str?
  {
    match FirstMatch(Branches, obj)
    case None => None
    case Some(i) =>
      assert Branches[i] == StringClass ==> i == 6 && !Matches(Branches[5], obj);
      Some(Branches[i])
  }

  /** The class of an object, by its own kind: the most specific branch it belongs to. */
  function ClassOf(obj: Object): Option<Branch> {
    match obj
    case Nil => Some(NilClass)
    case Bool(b) => Some(if b then TrueClass else FalseClass)
    case Int(_) => Some(IntegerClass)
    case Float(_) => Some(FloatClass)
    case ByteArray(_) => Some(ByteArrayClass)
    case Str(_) => Some(StringClass)
    case Sym(_) => None
    case Array(_) => Some(ArrayClass)
    case Hash(_) => Some(HashClass)
    case Date(_) => Some(DateClass)
    case DateTime(_) => Some(DateClass)
    case Duration(_) => Some(DurationClass)
    case Point(_) => Some(PointClass)
    case OffsetTime(_) => Some(OffsetTimeClass)
    case LocalTime(_) => Some(LocalTimeClass)
    case LocalDateTime(_) => Some(LocalDateTimeClass)
    case TimeWithZone(_) => Some(TimeWithZoneClass)
    case Time(_) => Some(TimeClass)
    case Other(_) => None
  }

  /** Where a branch stands in the source; `PositionIsIndex` proves it is its index in `Branches`. */
  function Position(b: Branch): nat {
    match b
    case NilClass => 0
    case TrueClass => 1
    case FalseClass => 2
    case IntegerClass => 3
    case FloatClass => 4
    case ByteArrayClass => 5
    case StringClass => 6
    case ArrayClass => 7
    case HashClass => 8
    case DateClass => 9
    case DurationClass => 10
    case PointClass => 11
    case OffsetTimeClass => 12
    case LocalTimeClass => 13
    case LocalDateTimeClass => 14
    case TimeWithZoneClass => 15
    case TimeClass => 16
  }

  lemma PositionIsIndex()
    ensures forall b :: Position(b) < |Branches| && Branches[Position(b)] == b
    ensures forall i :: 0 <= i < |Branches| ==> Position(Branches[i]) == i
  {
    forall i | 0 <= i < |Branches| ensures Position(Branches[i]) == i {
      assert i in {0, 1, 2, 3, 4, 5, 6, 7, 8, 9, 10, 11, 12, 13, 14, 15, 16};
    }
  }

  /**
   * The source lists every subclass before its superclass: an object matches
   * its own class's branch, and that branch comes no later than any other
   * branch it matches. An object of no listed class matches nothing.
   */
  lemma MatchOrder(b: Branch, obj: Object)
    ensures Matches(b, obj) ==>
      && ClassOf(obj).Some?
      && Matches(ClassOf(obj).value, obj)
      && Position(ClassOf(obj).value) <= Position(b)
  {
  }

  /** First-match dispatch selects the object's own class. */
  lemma DispatchIsClassOf(obj: Object)
    ensures Dispatch(obj) == ClassOf(obj)
  {
    PositionIsIndex();
    var r := FirstMatch(Branches, obj);
    if r.Some? {
      MatchOrder(Branches[r.value], obj);
      var c := ClassOf(obj).value;
      MatchOrder(c, obj);
      assert Matches(Branches[Position(c)], obj);
    } else {
      if ClassOf(obj).Some? {
        var c := ClassOf(obj).value;
        MatchOrder(c, obj);
        assert Matches(Branches[Position(c)], obj);
      }
    }
  }

  // ---------------------------------------------------------------------------
  // to_neo: the value written

  /** What `set_key` stores: `key.to_s`, cut to `key.size` bytes. */
  function KeyText(k: Key): seq<byte> {
    var s := ToS(k);
    s[..StringSize(s)]
  }

  /** The value `to_neo` leaves in the cell, or the error it raises. */
  function Encode(obj: Object, structure: StructureEncoder): Result<Bolt.Value>
    decreases obj
  {
    match Dispatch(obj)
    case None => Raise(UnsupportedObject)
    case Some(b) =>
      match b
      case NilClass => Ok(Bolt.Null)
      case TrueClass => Ok(Bolt.Boolean(1))
      case FalseClass => Ok(Bolt.Boolean(0))
      case IntegerClass =>
        if Bolt.InInt64Range(obj.i) then Ok(Bolt.Integer(obj.i as Bolt.int64))
        else Raise(IntegerOutOfRange(obj.i))
      case FloatClass => Ok(Bolt.Float(obj.f))
      case ByteArrayClass => Ok(Bolt.Bytes(obj.bytes))
      case StringClass => Ok(Bolt.String(obj.text[..StringSize(obj.text)]))
      case ArrayClass =>
        (match EncodeItems(obj.items, structure)
         case Raise(e) => Raise(e)
         case Ok(vs) => Ok(Bolt.List(vs)))
      case HashClass =>
        (match EncodeEntries(obj.entries, structure)
         case Raise(e) => Raise(e)
         case Ok(es) => Ok(Bolt.Dictionary(es)))
      case DateClass => Ok(Bolt.Structure(structure(DateValue, obj)))
      case DurationClass => Ok(Bolt.Structure(structure(DurationValue, obj)))
      case PointClass =>
        var n := |obj.coordinates|;
        if n == 2 then Ok(Bolt.Structure(structure(Point2DValue, obj)))
        else if n == 3 then Ok(Bolt.Structure(structure(Point3DValue, obj)))
        else Raise(InvalidPointArity(n))
      case OffsetTimeClass => Ok(Bolt.Structure(structure(OffsetTimeValue, obj)))
      case LocalTimeClass => Ok(Bolt.Structure(structure(LocalTimeValue, obj)))
      case LocalDateTimeClass => Ok(Bolt.Structure(structure(LocalDateTimeValue, obj)))
      case TimeWithZoneClass => Ok(Bolt.Structure(structure(TimeWithZoneIdValue, obj)))
      case TimeClass => Ok(Bolt.Structure(structure(TimeWithZoneOffsetValue, obj)))
  }

  /** The slots of a list, written in index order; the first element that raises stops it. */
  function EncodeItems(items: seq<Object>, structure: StructureEncoder): (r: Result<seq<Bolt.Value>>)
    ensures r.Ok? ==> |r.value| == |items|
    ensures r.Ok? ==> forall j :: 0 <= j < |items| ==> Encode(items[j], structure) == Ok(r.value[j])
    ensures r.Raise? ==>
      exists k :: 0 <= k < |items| && Encode(items[k], structure) == Raise(r.error)
                  && forall j :: 0 <= j < k ==> Encode(items[j], structure).Ok?
    decreases items
  {
    if items == [] then Ok([])
    else
      var n := |items| - 1;
      var init := items[..n];
      assert forall j :: 0 <= j < n ==> init[j] == items[j];
      match EncodeItems(init, structure)
      case Raise(e) => Raise(e)
      case Ok(vs) =>
        match Encode(items[n], structure)
        case Raise(e) => Raise(e)
        case Ok(v) => Ok(vs + [v])
  }

  /** The slots of a dictionary, key and value, written in iteration order. */
  function EncodeEntries(entries: seq<(Key, Object)>, structure: StructureEncoder)
    : (r: Result<seq<(seq<byte>, Bolt.Value)>>)
    ensures r.Ok? ==> |r.value| == |entries|
    ensures r.Ok? ==> forall j :: 0 <= j < |entries| ==> EncodeEntry(entries[j], structure) == Ok(r.value[j])
    ensures r.Raise? ==>
      exists k :: 0 <= k < |entries| && EncodeEntry(entries[k], structure) == Raise(r.error)
                  && forall j :: 0 <= j < k ==> EncodeEntry(entries[j], structure).Ok?
    decreases entries
  {
    if entries == [] then Ok([])
    else
      var n := |entries| - 1;
      var init := entries[..n];
      assert forall j :: 0 <= j < n ==> init[j] == entries[j];
      match EncodeEntries(init, structure)
      case Raise(e) => Raise(e)
      case Ok(es) =>
        match EncodeEntry(entries[n], structure)
        case Raise(e) => Raise(e)
        case Ok(slot) => Ok(es + [slot])
  }

  /** One slot of a dictionary: the key text and the encoded value. */
  function EncodeEntry(entry: (Key, Object), structure: StructureEncoder)
    : Result<(seq<byte>, Bolt.Value)>
    decreases entry
  {
    match Encode(entry.1, structure)
    case Raise(e) => Raise(e)
    case Ok(v) => Ok((KeyText(entry.0), v))
  }

  /** An Array holds the list of its elements' values once each element is written. */
  lemma EncodeArrayOk(obj: Object, structure: StructureEncoder, written: seq<Bolt.Value>)
    requires obj.Array? && |written| == |obj.items|
    requires forall j :: 0 <= j < |written| ==> Encode(obj.items[j], structure) == Ok(written[j])
    ensures Encode(obj, structure) == Ok(Bolt.List(written))
  {
    DispatchIsClassOf(obj);
    var r := EncodeItems(obj.items, structure);
    assert r.Ok?;
    assert r.value == written;
  }

  /** An Array raises what its first raising element raises. */
  lemma EncodeArrayRaises(obj: Object, structure: StructureEncoder, i: nat, e: Error)
    requires obj.Array? && i < |obj.items|
    requires forall j :: 0 <= j < i ==> Encode(obj.items[j], structure).Ok?
    requires Encode(obj.items[i], structure) == Raise(e)
    ensures Encode(obj, structure) == Raise(e)
  {
    DispatchIsClassOf(obj);
    var r := EncodeItems(obj.items, structure);
    assert r.Raise?;
    var k :| 0 <= k < |obj.items| && Encode(obj.items[k], structure) == Raise(r.error)
             && forall j :: 0 <= j < k ==> Encode(obj.items[j], structure).Ok?;
    assert k == i;
  }

  /** A Hash holds the dictionary of its written slots once each pair is written. */
  lemma EncodeHashOk(obj: Object, structure: StructureEncoder, written: seq<(seq<byte>, Bolt.Value)>)
    requires obj.Hash? && |written| == |obj.entries|
    requires forall j :: 0 <= j < |written| ==> EncodeEntry(obj.entries[j], structure) == Ok(written[j])
    ensures Encode(obj, structure) == Ok(Bolt.Dictionary(written))
  {
    DispatchIsClassOf(obj);
    var r := EncodeEntries(obj.entries, structure);
    assert r.Ok?;
    assert r.value == written;
  }

  /** A Hash raises what its first raising value raises. */
  lemma EncodeHashRaises(obj: Object, structure: StructureEncoder, i: nat, e: Error)
    requires obj.Hash? && i < |obj.entries|
    requires forall j :: 0 <= j < i ==> EncodeEntry(obj.entries[j], structure).Ok?
    requires Encode(obj.entries[i].1, structure) == Raise(e)
    ensures Encode(obj, structure) == Raise(e)
  {
    DispatchIsClassOf(obj);
    var r := EncodeEntries(obj.entries, structure);
    assert EncodeEntry(obj.entries[i], structure) == Raise(e);
    assert r.Raise?;
    var k :| 0 <= k < |obj.entries| && EncodeEntry(obj.entries[k], structure) == Raise(r.error)
             && forall j :: 0 <= j < k ==> EncodeEntry(obj.entries[j], structure).Ok?;
    assert k == i;
  }

  // ---------------------------------------------------------------------------
  // to_neo: writing the cell

  /**
   * `to_neo(value, object)`: formats `cell` for `obj` and fills its slots. The
   * cell ends up holding `Encode(obj, structure)`, or the call raises the error
   * `Encode` names. An object that raises without being a list or a hash
   * leaves the cell as it was; a list or hash whose element raises leaves it
   * formatted and partly filled. Nothing but `cell` and the cells it creates is
   * written.
   */
  method ToNeo(cell: Bolt.Cell, obj: Object, structure: StructureEncoder) returns (raised: Option<Error>)
    requires cell.Valid()
    modifies cell
    ensures cell.Valid() && fresh(cell.Repr - old(cell.Repr))
    ensures raised == Raised(Encode(obj, structure))
    ensures raised.None? ==> fresh(cell.Repr - {cell}) && cell.Value() == Encode(obj, structure).value
    ensures raised.Some? && !obj.Array? && !obj.Hash? ==> unchanged(cell)
    decreases obj, 2
  {
    DispatchIsClassOf(obj);
    var branch := Dispatch(obj);
    if branch.None? {
      return Some(UnsupportedObject);
    }
    raised := None;
    match branch.value {
      case NilClass => cell.FormatAsNull();
      case TrueClass => cell.FormatAsBoolean(1);
      case FalseClass => cell.FormatAsBoolean(0);
      case IntegerClass =>
        if !Bolt.InInt64Range(obj.i) {
          return Some(IntegerOutOfRange(obj.i));
        }
        cell.FormatAsInteger(obj.i as Bolt.int64);
      case FloatClass => cell.FormatAsFloat(obj.f);
      case ByteArrayClass => cell.FormatAsBytes(obj.bytes, |obj.bytes|);
      case StringClass => cell.FormatAsString(obj.text, StringSize(obj.text));
      case ArrayClass => raised := ToNeoList(cell, obj, structure);
      case HashClass => raised := ToNeoHash(cell, obj, structure);
      case DateClass => cell.FormatAsStructure(structure(DateValue, obj));
      case DurationClass => cell.FormatAsStructure(structure(DurationValue, obj));
      case PointClass =>
        var n := |obj.coordinates|;
        if n == 2 {
          cell.FormatAsStructure(structure(Point2DValue, obj));
        } else if n == 3 {
          cell.FormatAsStructure(structure(Point3DValue, obj));
        } else {
          return Some(InvalidPointArity(n));
        }
      case OffsetTimeClass => cell.FormatAsStructure(structure(OffsetTimeValue, obj));
      case LocalTimeClass => cell.FormatAsStructure(structure(LocalTimeValue, obj));
      case LocalDateTimeClass => cell.FormatAsStructure(structure(LocalDateTimeValue, obj));
      case TimeWithZoneClass => cell.FormatAsStructure(structure(TimeWithZoneIdValue, obj));
      case TimeClass => cell.FormatAsStructure(structure(TimeWithZoneOffsetValue, obj));
    }
  }

  /**
   * One slot of a list or dictionary: `to_neo` of `item` into `cs[i]`, where
   * the slots before `i` hold the values `written` and the rest are bare.
   * Only slot `i` changes, and its new cells join `slots`.
   */
  method WriteSlot(cs: seq<Bolt.Cell>, i: nat, item: Object, structure: StructureEncoder,
                   ghost slots: set<object>, ghost written: seq<Bolt.Value>)
      returns (raised: Option<Error>, ghost slots': set<object>, ghost written': seq<Bolt.Value>)
    requires Bolt.Filled(cs, slots, written) && i == |written| < |cs|
    modifies cs[i]
    ensures slots' == slots + cs[i].Repr && fresh(slots' - slots)
    ensures forall j :: 0 <= j < |cs| ==> cs[j] in slots' && cs[j].Repr <= slots' && cs[j].Valid()
    ensures raised == Raised(Encode(item, structure))
    ensures raised.None? ==> written' == written + [Encode(item, structure).value]
    ensures raised.None? ==> Bolt.Filled(cs, slots', written')
    decreases item, 3
  {
    raised := ToNeo(cs[i], item, structure);
    slots' := slots + cs[i].Repr;
    written' := written + [cs[i].Value()];
  }

  /** The `Array` branch: `format_as_list`, then each element into its slot. */
  method ToNeoList(cell: Bolt.Cell, obj: Object, structure: StructureEncoder) returns (raised: Option<Error>)
    requires obj.Array? && cell.Valid()
    modifies cell
    ensures cell.Valid() && fresh(cell.Repr - {cell})
    ensures raised == Raised(Encode(obj, structure))
    ensures raised.None? ==> cell.Value() == Encode(obj, structure).value
    decreases obj, 1
  {
    cell.FormatAsList(|obj.items|);
    var cs := cell.children;
    ghost var slots: set<object>, written: seq<Bolt.Value>;
    raised, slots, written := FillList(cs, obj, structure, cell.Repr - {cell});
    cell.Adopt(slots);
    if raised.None? {
      cell.ValueOfSlots(written);
    }
  }

  /** The loop of the `Array` branch: `each` element, in order, into the next bare slot. */
  method FillList(cs: seq<Bolt.Cell>, obj: Object, structure: StructureEncoder, ghost slots: set<object>)
      returns (raised: Option<Error>, ghost slots': set<object>, ghost written: seq<Bolt.Value>)
    requires obj.Array? && |cs| == |obj.items| && Bolt.Filled(cs, slots, [])
    modifies set j | 0 <= j < |cs| :: cs[j]
    ensures slots <= slots' && fresh(slots' - slots)
    ensures forall j :: 0 <= j < |cs| ==> cs[j] in slots' && cs[j].Repr <= slots' && cs[j].Valid()
    ensures raised == Raised(Encode(obj, structure))
    ensures raised.None? ==> Bolt.Filled(cs, slots', written) && |written| == |cs|
    ensures raised.None? ==> Encode(obj, structure) == Ok(Bolt.List(written))
    decreases obj, 0
  {
    var items := obj.items;
    var n := |items|;
    slots', written := slots, [];
    var i := 0;
    while i < n
      invariant 0 <= i <= n
      invariant slots <= slots' && fresh(slots' - slots)
      invariant Bolt.Filled(cs, slots', written) && |written| == i
      invariant forall j :: 0 <= j < i ==> Encode(items[j], structure) == Ok(written[j])
    {
      raised, slots', written := WriteSlot(cs, i, items[i], structure, slots', written);
      if raised.Some? {
        EncodeArrayRaises(obj, structure, i, raised.value);
        return;
      }
      i := i + 1;
    }
    EncodeArrayOk(obj, structure, written);
    raised := None;
  }

  /**
   * The `Hash` branch: `format_as_dictionary`, then for each pair in order the
   * key's `to_s` into the slot's key (cut to its `size`) and the value into
   * the slot.
   */
  method ToNeoHash(cell: Bolt.Cell, obj: Object, structure: StructureEncoder) returns (raised: Option<Error>)
    requires obj.Hash? && cell.Valid()
    modifies cell
    ensures cell.Valid() && fresh(cell.Repr - {cell})
    ensures raised == Raised(Encode(obj, structure))
    ensures raised.None? ==> cell.Value() == Encode(obj, structure).value
    decreases obj, 1
  {
    cell.FormatAsDictionary(|obj.entries|);
    var cs := cell.children;
    ghost var slots: set<object>, written: seq<Bolt.Value>;
    raised, slots, written := FillDictionary(cell, cs, obj, structure, cell.Repr - {cell});
    cell.Adopt(slots);
    if raised.None? {
      cell.ValueOfSlots(written);
    }
  }

  /** One pair of a Hash: its key's text into the slot's key, then its value into the slot. */
  method WriteEntry(cell: Bolt.Cell, cs: seq<Bolt.Cell>, i: nat, entry: (Key, Object), structure: StructureEncoder,
                    ghost slots: set<object>, ghost written: seq<Bolt.Value>)
      returns (raised: Option<Error>, ghost slots': set<object>, ghost written': seq<Bolt.Value>)
    requires cell.kind == Bolt.DictionaryKind && cell.children == cs && |cell.keys| == |cs|
    requires cell !in slots && Bolt.Filled(cs, slots, written) && i == |written| < |cs|
    modifies cell, cs[i]
    ensures cell.kind == Bolt.DictionaryKind && cell.children == cs
    ensures cell.keys == old(cell.keys)[i := KeyText(entry.0)]
    ensures slots' == slots + cs[i].Repr && fresh(slots' - slots)
    ensures forall j :: 0 <= j < |cs| ==> cs[j] in slots' && cs[j].Repr <= slots' && cs[j].Valid()
    ensures raised == Raised(Encode(entry.1, structure))
    ensures raised.None? ==> Bolt.Filled(cs, slots', written') && |written'| == i + 1
    ensures raised.None? ==> written'[..i] == written
    ensures raised.None? ==> EncodeEntry(entry, structure) == Ok((cell.keys[i], written'[i]))
    decreases entry, 4
  {
    var key := ToS(entry.0);
    cell.SetKey(i, key, StringSize(key));
    raised, slots', written' := WriteSlot(cs, i, entry.1, structure, slots, written);
  }

  /** The loop of the `Hash` branch: `each_with_index`, key then value, into slot after slot. */
  method FillDictionary(cell: Bolt.Cell, cs: seq<Bolt.Cell>, obj: Object, structure: StructureEncoder,
                        ghost slots: set<object>)
      returns (raised: Option<Error>, ghost slots': set<object>, ghost written: seq<Bolt.Value>)
    requires obj.Hash? && |cs| == |obj.entries| && Bolt.Filled(cs, slots, [])
    requires cell.kind == Bolt.DictionaryKind && cell.children == cs && |cell.keys| == |cs|
    requires cell !in slots
    modifies {cell} + set j | 0 <= j < |cs| :: cs[j]
    ensures cell.kind == Bolt.DictionaryKind && cell.children == cs && |cell.keys| == |cs|
    ensures slots <= slots' && fresh(slots' - slots)
    ensures forall j :: 0 <= j < |cs| ==> cs[j] in slots' && cs[j].Repr <= slots' && cs[j].Valid()
    ensures raised == Raised(Encode(obj, structure))
    ensures raised.None? ==> Bolt.Filled(cs, slots', written) && |written| == |cs|
    ensures raised.None? ==> Encode(obj, structure) == Ok(Bolt.Dictionary(Bolt.Zip(cell.keys, written)))
    decreases obj, 0
  {
    var entries := obj.entries;
    var n := |entries|;
    slots', written := slots, [];
    var i := 0;
    while i < n
      invariant 0 <= i <= n
      invariant cell.kind == Bolt.DictionaryKind && cell.children == cs && |cell.keys| == n
      invariant slots <= slots' && fresh(slots' - slots)
      invariant Bolt.Filled(cs, slots', written) && |written| == i
      invariant forall j :: 0 <= j < i ==> EncodeEntry(entries[j], structure) == Ok((cell.keys[j], written[j]))
    {
      assert entries[i] in entries;
      raised, slots', written := WriteEntry(cell, cs, i, entries[i], structure, slots', written);
      if raised.Some? {
        EncodeHashRaises(obj, structure, i, raised.value);
        return;
      }
      i := i + 1;
    }
    EncodeHashOk(obj, structure, Bolt.Zip(cell.keys, written));
    raised := None;
  }
}
