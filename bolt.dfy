/**
 * The value cells of the Bolt client library that the driver reaches through
 * its foreign-function binding (`Bolt::Value`, `Bolt::List`, `Bolt::Dictionary`,
 * ...). Only what the driver sees through the binding is modelled: a cell has a
 * type tag, a scalar payload or a fixed number of child cells, and, for a
 * dictionary, one key per slot. Memory layout and the PackStream byte encoding
 * are not part of this model.
 */
module Bolt {

  newtype byte = x: int | 0 <= x < 0x100

  /** The range of the library's signed 64-bit integer cells. */
  const Int64Min: int := -0x8000_0000_0000_0000
  const Int64Max: int := 0x7FFF_FFFF_FFFF_FFFF

  newtype int64 = x: int | Int64Min <= x <= Int64Max

  predicate InInt64Range(x: int) {
    Int64Min <= x <= Int64Max
  }

  /** A double, carried as its 64 bits; no floating-point arithmetic is modelled. */
  type Float64 = bv64

  /** A structure (date, time, duration, point, ...): a signature and its fields. */
  datatype Struct = Struct(signature: int, fields: seq<Value>)

  /** The abstract value held by a cell, as the binding's getters report it. */
  datatype Value =
    | Null
    | Boolean(flag: int)
    | Integer(integer: int64)
    | Float(float: Float64)
    | Bytes(bytes: seq<byte>)
    | String(text: seq<byte>)
    | Dictionary(entries: seq<(seq<byte>, Value)>)
    | List(items: seq<Value>)
    | Structure(structure: Struct)
    | Other(tag: int)   // any type tag the driver does not handle

  /** `Bolt::Value.type`: the tag of a cell. */
  datatype Kind =
    | NullKind | BooleanKind | IntegerKind | FloatKind | BytesKind | StringKind
    | ListKind | DictionaryKind | StructureKind | OtherKind(tag: int)

  function Zip(keys: seq<seq<byte>>, values: seq<Value>): (entries: seq<(seq<byte>, Value)>)
    requires |keys| == |values|
    ensures |entries| == |keys|
    ensures forall i :: 0 <= i < |keys| ==> entries[i] == (keys[i], values[i])
  {
    seq(|keys|, i requires 0 <= i < |keys| => (keys[i], values[i]))
  }

  /**
   * Slots `cs` of a list or dictionary cell, of which the first `|values|`
   * hold `values` and the rest are still bare: every slot is valid with its
   * footprint inside `slots`, the slots are distinct, and no written slot
   * owns a bare one.
   */
  ghost predicate Filled(cs: seq<Cell>, slots: set<object>, values: seq<Value>)
    reads slots
  {
    && |values| <= |cs|
    && (forall j :: 0 <= j < |cs| ==> cs[j] in slots && cs[j].Repr <= slots && cs[j].Valid())
    && (forall j, k :: 0 <= j < k < |cs| ==> cs[j] != cs[k])
    && (forall k :: |values| <= k < |cs| ==> cs[k].Repr == {cs[k]})
    && (forall j, k :: 0 <= j < |values| <= k < |cs| ==> cs[k] !in cs[j].Repr)
    && (forall j :: 0 <= j < |values| ==> cs[j].Value() == values[j])
  }

  /**
   * One cell of the library. Formatting a cell as a list or a dictionary gives
   * it `size` fresh null child cells, which the caller then fills in place.
   */
  class Cell {
    var kind: Kind
    var flag: int
    var integer: int64
    var float: Float64
    var data: seq<byte>         // payload of a bytes or string cell
    var children: seq<Cell>     // slots of a list or dictionary cell
    var keys: seq<seq<byte>>    // keys of a dictionary cell, one per slot
    var structure: Struct
    ghost var Repr: set<object>

    ghost predicate Valid()
      reads this, Repr
      decreases Repr
    {
      && this in Repr
      && (kind == DictionaryKind ==> |keys| == |children|)
      && (forall i :: 0 <= i < |children| ==>
            && children[i] in Repr
            && children[i].Repr <= Repr
            && this !in children[i].Repr
            && children[i].Valid())
    }

    /** The values of the first `n` child cells. */
    function ChildValues(n: nat): (vs: seq<Value>)
      requires Valid() && n <= |children|
      reads this, Repr
      ensures |vs| == n
      ensures forall i :: 0 <= i < n ==> vs[i] == children[i].Value()
      decreases Repr, 0, n
    {
      if n == 0 then [] else ChildValues(n - 1) + [children[n - 1].Value()]
    }

    /**
     * The value the binding's getters read from this cell (`type`, `get`,
     * `size`, `get_key`, `List.value`, `Dictionary.value`).
     */
    function Value(): Value
      requires Valid()
      reads this, Repr
      decreases Repr, 1, 0
    {
      match kind
      case NullKind => Null
      case BooleanKind => Boolean(flag)
      case IntegerKind => Integer(integer)
      case FloatKind => Float(float)
      case BytesKind => Bytes(data)
      case StringKind => String(data)
      case ListKind => List(ChildValues(|children|))
      case DictionaryKind => Dictionary(Zip(keys, ChildValues(|children|)))
      case StructureKind => Structure(structure)
      case OtherKind(tag) => Other(tag)
    }

    /** `BoltValue_create`: a fresh null cell. */
    constructor ()
      ensures Valid() && Repr == {this}
      ensures kind == NullKind && Value() == Null
    {
      kind := NullKind;
      children := [];
      keys := [];
      Repr := {this};
    }

    /** Makes this a leaf cell of the given kind; the old children are dropped. */
    method Clear(k: Kind)
      modifies this
      ensures Valid() && Repr == {this} && kind == k && children == []
      ensures flag == old(flag) && integer == old(integer) && float == old(float)
      ensures data == old(data) && structure == old(structure)
    {
      kind := k;
      children := [];
      keys := [];
      Repr := {this};
    }

    method FormatAsNull()
      modifies this
      ensures Valid() && Repr == {this} && Value() == Null
    {
      Clear(NullKind);
    }

    method FormatAsBoolean(f: int)
      modifies this
      ensures Valid() && Repr == {this} && Value() == Boolean(f)
    {
      Clear(BooleanKind);
      flag := f;
    }

    method FormatAsInteger(x: int64)
      modifies this
      ensures Valid() && Repr == {this} && Value() == Integer(x)
    {
      Clear(IntegerKind);
      integer := x;
    }

    method FormatAsFloat(x: Float64)
      modifies this
      ensures Valid() && Repr == {this} && Value() == Float(x)
    {
      Clear(FloatKind);
      float := x;
    }

    /** Copies the first `size` bytes of `s`. */
    method FormatAsBytes(s: seq<byte>, size: nat)
      requires size <= |s|
      modifies this
      ensures Valid() && Repr == {this} && Value() == Bytes(s[..size])
    {
      Clear(BytesKind);
      data := s[..size];
    }

    /** Copies the first `size` bytes of the text `s`. */
    method FormatAsString(s: seq<byte>, size: nat)
      requires size <= |s|
      modifies this
      ensures Valid() && Repr == {this} && Value() == String(s[..size])
    {
      Clear(StringKind);
      data := s[..size];
    }

    method FormatAsStructure(st: Struct)
      modifies this
      ensures Valid() && Repr == {this} && Value() == Structure(st)
    {
      Clear(StructureKind);
      structure := st;
    }

    /** `size` fresh, distinct null cells, each its own footprint. */
    static method NullCells(size: nat) returns (cs: seq<Cell>)
      ensures |cs| == size
      ensures forall i :: 0 <= i < size ==>
                fresh(cs[i]) && cs[i].Valid() && cs[i].Repr == {cs[i]} && cs[i].Value() == Null
      ensures forall i, j :: 0 <= i < j < size ==> cs[i] != cs[j]
    {
      cs := [];
      while |cs| < size
        invariant |cs| <= size
        invariant forall i :: 0 <= i < |cs| ==>
                    fresh(cs[i]) && cs[i].Valid() && cs[i].Repr == {cs[i]} && cs[i].Value() == Null
        invariant forall i, j :: 0 <= i < j < |cs| ==> cs[i] != cs[j]
      {
        var c := new Cell();
        cs := cs + [c];
      }
    }

    method FormatAsList(size: nat)
      modifies this
      ensures Valid() && kind == ListKind && |children| == size
      ensures Repr == {this} + set c | c in children
      ensures forall i :: 0 <= i < size ==>
                fresh(children[i]) && children[i].Valid() && children[i].Repr == {children[i]}
                && children[i].Value() == Null
      ensures forall i, j :: 0 <= i < j < size ==> children[i] != children[j]
    {
      var cs := NullCells(size);
      kind := ListKind;
      children := cs;
      keys := [];
      Repr := {this} + set c | c in cs;
    }

    /** A dictionary of `size` null slots whose keys are still empty. */
    method FormatAsDictionary(size: nat)
      modifies this
      ensures Valid() && kind == DictionaryKind && |children| == size
      ensures Repr == {this} + set c | c in children
      ensures forall i :: 0 <= i < size ==>
                fresh(children[i]) && children[i].Valid() && children[i].Repr == {children[i]}
                && children[i].Value() == Null
      ensures forall i, j :: 0 <= i < j < size ==> children[i] != children[j]
      ensures forall i :: 0 <= i < size ==> keys[i] == []
    {
      var cs := NullCells(size);
      kind := DictionaryKind;
      children := cs;
      keys := seq(size, _ => []);
      Repr := {this} + set c | c in cs;
    }

    /**
     * Takes the slots as they now are into this cell's footprint: each child
     * is valid and owns a part of `slots`, which this cell is not in.
     */
    method Adopt(ghost slots: set<object>)
      requires this !in slots && (kind == DictionaryKind ==> |keys| == |children|)
      requires forall i :: 0 <= i < |children| ==>
                 children[i] in slots && children[i].Repr <= slots && children[i].Valid()
      modifies this
      ensures Valid() && Repr == {this} + slots
      ensures kind == old(kind) && children == old(children) && keys == old(keys)
    {
      Repr := {this} + slots;
    }

    /** The children's values, read one by one, are the values of the slots. */
    lemma {:induction false} ChildValuesAre(n: nat, values: seq<Value>)
      requires Valid() && n <= |children| && |values| == n
      requires forall i :: 0 <= i < n ==> children[i].Value() == values[i]
      ensures ChildValues(n) == values
    {
      if n > 0 {
        ChildValuesAre(n - 1, values[..n - 1]);
        assert values == values[..n - 1] + [values[n - 1]];
      }
    }

    /** A list or dictionary cell whose slots hold `values`. */
    lemma ValueOfSlots(values: seq<Value>)
      requires Valid() && |values| == |children|
      requires forall i :: 0 <= i < |children| ==> children[i].Value() == values[i]
      ensures kind == ListKind ==> Value() == List(values)
      ensures kind == DictionaryKind ==> Value() == Dictionary(Zip(keys, values))
    {
      ChildValuesAre(|children|, values);
    }

    /** `Bolt::Dictionary.set_key`: slot `index` gets the first `size` bytes of `key`. */
    method SetKey(index: nat, key: seq<byte>, size: nat)
      requires kind == DictionaryKind && index < |keys| && size <= |key|
      modifies this
      ensures keys == old(keys)[index := key[..size]]
      ensures kind == old(kind) && children == old(children) && Repr == old(Repr)
    {
      keys := keys[index := key[..size]];
    }
  }
}
