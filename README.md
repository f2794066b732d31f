# Neo4j Ruby driver: value conversion through the Bolt binding

This project models `Neo4j::Driver::Value` of the Ruby driver's FFI backend,
the module that turns a Bolt value cell into a Ruby object (`to_ruby`) and a Ruby
object into a Bolt value cell (`to_neo`).

- `bolt.dfy` (module `Bolt`): the Bolt client library's values as far as the
  binding shows them. `Bolt.Value` is what the getters read from a cell: null,
  boolean flag, 64-bit integer, float, bytes, string, dictionary (key, value)
  slots, list slots, structure, or a type tag no branch knows. `Bolt.Cell` is
  the mutable cell that `format_as_*` and `Dictionary.set_key` change in place.
  A list or dictionary cell owns fresh child cells, one per slot, and
  `Cell.Value()` reads the whole tree back.
- `ruby.dfy` (module `Ruby`): the Ruby objects involved. Strings are UTF-8
  bytes, and `String#size` counts characters. Hash keys are strings, symbols,
  integers or other objects. `Integer#to_s` is modelled. `Array#to_h` stores
  pairs one after another, so a later pair with the same key overwrites the
  earlier one in place. `symbolize_keys` is ActiveSupport's.
- `codec.dfy` (module `Codec`):
  - `ToRuby` is `to_ruby`, a function over `Bolt.Value`. A slot that raises
    ends the decoding.
  - `Dispatch` is `to_neo`'s `case object when ...`. It picks the first branch
    whose class matches, where a subclass also matches its superclass's branch.
  - `Encode` is the value `to_neo` leaves in the cell, or the error it raises.
  - `ToNeo` is `to_neo` itself. It is an imperative method that formats a
    `Bolt.Cell` and fills its slots one after another, with loops over the
    list elements and the hash pairs. It is proved to leave `Encode`'s value
    in the cell.
- `codec_properties.dfy` (module `CodecProperties`) holds lemmas that state:
  - which objects `to_neo` accepts, and the error it raises for each one it
    rejects;
  - what lists and hashes become, slot by slot;
  - what `to_ruby` makes of a dictionary: symbols only, the later slot wins,
    and a repeated name shrinks the hash;
  - which objects come back unchanged from a cell;
  - where the character count used as a byte count loses data.

The `Internal::*Value` structure codecs are function parameters:
`StructureEncoder` takes the selected encoder and the object, and
`StructureDecoder` is `Internal::StructureValue.to_ruby`.

The `raise Exception` branches, and the `RangeError` the binding's `int64`
parameter raises for an Integer outside 64 bits, are modelled as `Codec.Error`
values returned in a `Result`. `ToNeo` returns the raised error as an `Option`.

PackStream, the Bolt serialisation format, gives a string's length in UTF-8
bytes. The code passes `object.size`, the character count, for both strings
and dictionary keys. The model follows the code, and the difference is
recorded under "## Findings".

## Model

| member | source | states |
|---|---|---|
| Codec.ToRuby | ffi/neo4j/driver/value.rb:7-34 | `to_ruby` by the cell's type tag: Null, boolean (`flag == 1`), integer, float, bytes and string become their Ruby objects. A dictionary becomes `to_h.symbolize_keys` of its decoded pairs, a list becomes the Array of its decoded slots, and a structure goes to the structure decoder. Any other tag raises. Its properties are stated by the `CodecProperties` lemmas below. |
| Codec.DecodeEntry | ffi/neo4j/driver/value.rb:25 | One dictionary slot becomes `[key, to_ruby(value)]` with the key as a String, or raises the value's error. |
| Codec.Matches | ffi/neo4j/driver/value.rb:37-84 | `Class === object` for each `when`: a ByteArray also matches String, a DateTime also matches Date, and a TimeWithZone also matches Time. |
| Codec.ClassOf | ffi/neo4j/driver/value.rb:37-84 | Each object's own class among the branches, or none for a Symbol or an object of another class. It is the independent reference `DispatchIsClassOf` checks the first-match dispatch against. |
| Codec.KeyText | ffi/neo4j/driver/value.rb:58-59 | The key text `set_key` stores: `key.to_s` cut to `key.size` bytes. |
| Codec.Encode | ffi/neo4j/driver/value.rb:36-88 | The value `to_neo` leaves in the cell, branch by branch, or the error it raises. Its properties are stated by `Codec.ToNeo` and the `CodecProperties` lemmas below. |
| Codec.EncodeEntry | ffi/neo4j/driver/value.rb:58-60 | One pair becomes the slot (key text, encoded value), or raises the value's error. |
| Ruby.ToS | ffi/neo4j/driver/value.rb:58 | `key.to_s`: a String is itself, a Symbol its name, and an Integer its decimal digits. |
| Ruby.Store | ffi/neo4j/driver/value.rb:26 | `hash[k] = v`: it replaces the value in place when `k` is present, and appends the pair otherwise. `StoreEntries` and `StoreProperties` state its properties. |
| Ruby.ToH | ffi/neo4j/driver/value.rb:26 | `Array#to_h`: the pairs stored one after another, from the first. `ToHKeys`, `ToHEntries`, `ToHOfDistinct` and `ToHShrinksOnDuplicate` state its properties. |
| Ruby.SymbolizeKeys | ffi/neo4j/driver/value.rb:26 | `symbolize_keys`: every String key becomes its symbol, and the pairs are stored again as by `to_h`. |
| Bolt.Cell.Value | ffi/neo4j/driver/value.rb:8-30 | What the getters read from a cell: `type`, the scalar `get`s, `size`, `Dictionary.get_key` and the child cells' values through `List.value` and `Dictionary.value`. |
| Bolt.Cell.ChildValues | ffi/neo4j/driver/value.rb:24-28 | The values of the first `n` child cells, one per cell, in slot order, as `List.value` and `Dictionary.value` read them. |
| Codec.DecodeItems | ffi/neo4j/driver/value.rb:27-28 | Reading a list gives one object per slot, in slot order, each the `to_ruby` of its slot. If a slot raises, the error is the first raising slot's, and every earlier slot decoded. |
| Codec.DecodeEntries | ffi/neo4j/driver/value.rb:23-25 | Reading a dictionary gives one `[key, value]` pair per slot, in slot order. If a value raises, the error is the first raising slot's. |
| Codec.FirstMatch | ffi/neo4j/driver/value.rb:37-87 | The chosen branch matches the object and no earlier branch does. No branch is chosen exactly when none matches. |
| Codec.Dispatch | ffi/neo4j/driver/value.rb:37-87 | The selected `when` matches the object. The String branch is selected only for a plain String, never for a ByteArray. |
| Codec.MatchOrder | ffi/neo4j/driver/value.rb:48-51 | An object matching any branch has a class of its own, and that class's branch comes no later than any other branch it matches. ByteArray is listed before String, and TimeWithZone before Time. A DateTime, which has no branch of its own, takes the Date branch. |
| Codec.DispatchIsClassOf | ffi/neo4j/driver/value.rb:37-87 | First-match dispatch picks exactly the object's own class, and raises for an object of no listed class. |
| Codec.EncodeItems | ffi/neo4j/driver/value.rb:52-54 | Writing a list gives one value per element, in element order, each the encoding of its element. If an element raises, the error is the first raising element's, and every earlier element was written. |
| Codec.EncodeEntries | ffi/neo4j/driver/value.rb:55-61 | Writing a dictionary gives one slot per pair, in iteration order. If a value raises, the error is the first raising pair's. |
| Codec.EncodeArrayOk | ffi/neo4j/driver/value.rb:52-54 | Once every element has been written, the Array is the list of the written values. |
| Codec.EncodeArrayRaises | ffi/neo4j/driver/value.rb:52-54 | An Array raises the error of its first raising element. |
| Codec.EncodeHashOk | ffi/neo4j/driver/value.rb:55-61 | Once every pair has been written, the Hash is the dictionary of the written key texts and values. |
| Codec.EncodeHashRaises | ffi/neo4j/driver/value.rb:55-61 | A Hash raises the error of its first raising value. |
| Codec.ToNeo | ffi/neo4j/driver/value.rb:36-88 | `to_neo` raises exactly the error `Encode` names. Otherwise the cell reads back as `Encode`'s value. A raise by anything other than an Array or a Hash leaves the cell untouched, so a wrong point arity raises before anything is written. Only the cell and its fresh child cells change. |
| Codec.ToNeoList | ffi/neo4j/driver/value.rb:52-54 | `format_as_list(object.size)` followed by each element into its slot. The cell holds the Array's list, or the call raises the first raising element's error. |
| Codec.FillList | ffi/neo4j/driver/value.rb:54 | The `each_with_index` loop. Slots `0..i` hold the encodings of elements `0..i`, and the later slots are still bare. It ends with all slots written, or with the first raising element's error. |
| Codec.WriteSlot | ffi/neo4j/driver/value.rb:54 | `to_neo` of one element into slot `i`. It changes only that slot's cells and extends the written prefix by the element's encoding. |
| Codec.ToNeoHash | ffi/neo4j/driver/value.rb:55-61 | `format_as_dictionary(object.size)` followed by each pair into its slot. The cell holds the Hash's dictionary, or the call raises the first raising value's error. |
| Codec.FillDictionary | ffi/neo4j/driver/value.rb:57-61 | The `each_with_index` loop over the pairs. Slots `0..i` hold each pair's key text and encoded value. |
| Codec.WriteEntry | ffi/neo4j/driver/value.rb:58-60 | Key `i` becomes `key.to_s` cut to `key.size` bytes, and then the value is written into slot `i`. |
| Bolt.Cell.FormatAsNull | ffi/neo4j/driver/value.rb:38-39 | The cell reads back as Null. |
| Bolt.Cell.FormatAsBoolean | ffi/neo4j/driver/value.rb:40-43 | The cell reads back as a boolean with the given flag. |
| Bolt.Cell.FormatAsInteger | ffi/neo4j/driver/value.rb:44-45 | The cell reads back as the given 64-bit integer. |
| Bolt.Cell.FormatAsFloat | ffi/neo4j/driver/value.rb:46-47 | The cell reads back as the given float. |
| Bolt.Cell.FormatAsBytes | ffi/neo4j/driver/value.rb:48-49 | The cell holds the first `size` bytes of the payload. |
| Bolt.Cell.FormatAsString | ffi/neo4j/driver/value.rb:50-51 | The cell holds the first `size` bytes of the text. |
| Bolt.Cell.FormatAsList | ffi/neo4j/driver/value.rb:53 | The cell becomes a list of `size` fresh, distinct, null slots, which form its whole footprint. |
| Bolt.Cell.FormatAsDictionary | ffi/neo4j/driver/value.rb:56 | The cell becomes a dictionary of `size` fresh, distinct, null slots with empty keys. |
| Bolt.Cell.SetKey | ffi/neo4j/driver/value.rb:59 | Key `index` becomes the first `size` bytes of the key text. No other key and no slot changes. |
| Bolt.Cell.FormatAsStructure | ffi/neo4j/driver/value.rb:62-84 | The cell reads back as the structure the selected `Internal::*Value` encoder writes. |
| Bolt.Cell.ValueOfSlots | ffi/neo4j/driver/value.rb:24-28 | A list or dictionary cell whose slots read back as `values` reads back as the list of `values`, or as the dictionary pairing its keys with `values`. |
| Ruby.StringSize | ffi/neo4j/driver/value.rb:51 | `String#size` is at most the byte count, and equals it exactly when every character is a single byte. |
| Ruby.DecimalString | ffi/neo4j/driver/value.rb:58 | `Integer#to_s` is ASCII, so its `size` is its byte count. |
| Ruby.StoreEntries | ffi/neo4j/driver/value.rb:26 | `hash[k] = v` holds `(k, v)`, keeps every pair of another key, and adds nothing else. |
| Ruby.StoreProperties | ffi/neo4j/driver/value.rb:26 | `hash[k] = v` keeps the keys distinct, adds `k`, and grows only for a new key. |
| Ruby.ToHKeys | ffi/neo4j/driver/value.rb:26 | `to_h` has distinct keys, namely exactly the keys of the pairs, and has no more entries than there are pairs. |
| Ruby.ToHEntries | ffi/neo4j/driver/value.rb:26 | The last pair of each key is in `to_h`, and every entry of `to_h` is one of the pairs. |
| Ruby.ToHOfDistinct | ffi/neo4j/driver/value.rb:26 | Pairs without a repeated key become a hash of the same entries in the same order. |
| Ruby.ToHShrinksOnDuplicate | ffi/neo4j/driver/value.rb:26 | A repeated key leaves `to_h` with fewer entries than pairs. |
| Ruby.ToHOfRepeatedPair | ffi/neo4j/driver/value.rb:26 | Two pairs with the same key give one entry, which holds the later value. |
| Ruby.SymbolizeSingleton | ffi/neo4j/driver/value.rb:26 | `symbolize_keys` turns a string key into the symbol of the same name. |
| Ruby.SymbolizeStringified | ffi/neo4j/driver/value.rb:26 | A symbol-keyed hash whose keys were turned into strings comes back from `to_h.symbolize_keys` as it was. |
| CodecProperties.EncodeOkIff | ffi/neo4j/driver/value.rb:36-88 | `to_neo` succeeds exactly on `Encodable` objects: a handled class, an Integer within 64 bits, a Point of 2 or 3 coordinates, and Arrays and Hashes whose elements are all `Encodable`. This holds whatever the structure encoders write. |
| CodecProperties.EncodeErrors | ffi/neo4j/driver/value.rb:85-86 | An object of an unhandled class, such as a Symbol, raises. An Integer outside 64 bits raises the range error. A Point of another arity raises the arity error. |
| CodecProperties.DecodeUnknownType | ffi/neo4j/driver/value.rb:31-32 | A cell of an unknown type raises. |
| CodecProperties.DispatchFirstMatchWins | ffi/neo4j/driver/value.rb:48-51 | A ByteArray matches the String branch yet takes the ByteArray branch. A TimeWithZone matches `Time` yet takes its own branch. A DateTime takes the Date branch. |
| CodecProperties.BooleanRoundTrip | ffi/neo4j/driver/value.rb:11-12 | A boolean cell reads as `true` exactly when its flag is 1. `to_neo` writes 1 for true and 0 for false, and the boolean comes back. |
| CodecProperties.NilIntegerRoundTrip | ffi/neo4j/driver/value.rb:9-14 | `nil` becomes Null and comes back. An Integer is written exactly when it fits 64 bits, and then it comes back. |
| CodecProperties.BytesRoundTrip | ffi/neo4j/driver/value.rb:17-20 | A ByteArray is written with its length and every byte, and a bytes cell reads back as those bytes. |
| CodecProperties.PointEncoding | ffi/neo4j/driver/value.rb:66-74 | 2 coordinates go to the two-dimensional encoder and 3 to the three-dimensional one. Any other count raises. |
| CodecProperties.DecodeList | ffi/neo4j/driver/value.rb:27-28 | `to_ruby` of a list succeeds exactly when every slot does. It then gives an Array with one element per slot, in slot order. Otherwise it raises some slot's error. |
| CodecProperties.EncodeList | ffi/neo4j/driver/value.rb:52-54 | An Array is written exactly when every element is. The result is a list of `object.size` slots holding the elements' values in order. Otherwise it raises some element's error. |
| CodecProperties.EncodeHash | ffi/neo4j/driver/value.rb:55-61 | A Hash is written exactly when every value is. Slot `j` has `key.to_s` cut to `key.size` bytes and the encoding of value `j`. |
| CodecProperties.EncodeEntriesSlots | ffi/neo4j/driver/value.rb:57-60 | The pairs are written exactly when every value is. Slot `j` then has `key.to_s` cut to `key.size` bytes and the encoding of value `j`. |
| CodecProperties.DecodeEntriesOk | ffi/neo4j/driver/value.rb:24-25 | When every value decodes, pair `j` is slot `j`'s key as a String beside its decoded value. |
| CodecProperties.SymbolizeStringKeys | ffi/neo4j/driver/value.rb:26 | `symbolize_keys` of a string-keyed hash turns each key into its symbol, in place. |
| CodecProperties.SymbolizedHash | ffi/neo4j/driver/value.rb:26 | `symbolize_keys` of a string-keyed hash keeps its size and has only symbol keys, with no repeats. A symbol is present exactly when its string was, and every pair is kept under its symbol. |
| CodecProperties.DecodedHash | ffi/neo4j/driver/value.rb:26 | `to_h.symbolize_keys` of string-keyed pairs gives symbol keys only, none repeated, and a symbol exactly when some pair has its string. The last pair of each key is kept. A repeated key shrinks the hash. |
| CodecProperties.StringKeyedSlots | ffi/neo4j/driver/value.rb:24-25 | Pairs keyed by the slots' names as strings: a string is a key exactly when some slot has that name, a last slot gives a last pair, and a repeated name gives a repeated key. |
| CodecProperties.DecodeDictionary | ffi/neo4j/driver/value.rb:23-26 | A dictionary whose values decode becomes a Hash whose keys are all symbols, none repeated. A symbol is a key exactly when some slot has its name. The last slot of each name gives its value. The hash has no more entries than there are slots, and fewer when a name repeats. |
| CodecProperties.DecodeRepeatedKey | ffi/neo4j/driver/value.rb:23-26 | Two slots with the same name give a one-entry hash that holds the later slot's value. |
| CodecProperties.DecodeSymbolNamed | ffi/neo4j/driver/value.rb:23-26 | A dictionary whose slot names and values are a symbol-keyed hash's reads back as that hash. |
| CodecProperties.ListRoundTrip | ffi/neo4j/driver/value.rb:52-54 | An Array whose elements come back comes back, with its size and order. |
| CodecProperties.HashRoundTrip | ffi/neo4j/driver/value.rb:55-61 | A Hash with distinct symbol keys of single-byte names, whose values come back, comes back. |
| CodecProperties.RoundTrip | ffi/neo4j/driver/value.rb:7-88 | `to_ruby(to_neo(obj)) == obj` for every object `RoundTrips` admits: nil, booleans, 64-bit Integers, Floats, byte arrays, single-byte strings, lists and symbol-keyed hashes of such objects, and structured objects whose codecs invert each other. |
| CodecProperties.IntegerKeyCollides | ffi/neo4j/driver/value.rb:58 | `{i => x, i.to_s => y}`, for any `x` and `y` that are written and whose cells decode, is written as two slots both named by `i`'s digits. It reads back as the one-entry hash `{"i": y'}`, where `y'` is what `y`'s cell decodes to, and that is `y` itself when `y` round-trips. |
| CodecProperties.StringEncoding | ffi/neo4j/driver/value.rb:50-51 | As written, a String is stored with its first `object.size` bytes. |
| CodecProperties.StringRoundTripIff | ffi/neo4j/driver/value.rb:50-51 | A String comes back whole exactly when every character is a single byte. |
| CodecProperties.MultibyteStringTruncated | ffi/neo4j/driver/value.rb:50-51 | "é" (0xC3 0xA9) is stored as the single byte 0xC3. |
| CodecProperties.IntendedStringValue | ffi/neo4j/driver/value.rb:50-51 | The intended string cell keeps the text's full byte length. |
| CodecProperties.SingleByteAgrees | ffi/neo4j/driver/value.rb:50-51 | On single-byte text, the code as written already writes the intended cell. |
| CodecProperties.IntendedStringRoundTrip | ffi/neo4j/driver/value.rb:21-22 | With the byte count, every String comes back whole, multi-byte characters included. |
| CodecProperties.MultibyteKeyTruncated | ffi/neo4j/driver/value.rb:58-59 | The hash `{:é => nil}` is written as the one slot named by the single byte 0xC3. |
| CodecProperties.IntendedKeyText | ffi/neo4j/driver/value.rb:58-59 | The intended key text is all of `key.to_s`. The key text as written is its first `key.size` bytes, and the two agree exactly when every character is one byte. |
| CodecProperties.IntendedHashValue | ffi/neo4j/driver/value.rb:55-61 | The intended dictionary of a Hash: it is written exactly when every value is, with one slot per pair, named by all of `key.to_s`, beside the pair's encoded value. |
| CodecProperties.IntendedHashAgrees | ffi/neo4j/driver/value.rb:58-59 | When every key's `to_s` has only single-byte characters, the code as written already writes the intended dictionary. |
| CodecProperties.IntendedHashRoundTrip | ffi/neo4j/driver/value.rb:23-26 | A hash of distinct symbols whose values come back is written by the intended encoding and reads back whole, whatever bytes its names hold. |

## Left out

- The Bolt C library behind the binding is not modelled: memory management, `BoltValue` layout, PackStream serialisation and the network. A cell is modelled only by what the binding's getters read back from it.
- The `Internal::*Value` structure codecs (dates, durations, points, times) are not part of this model. They are the parameters `StructureEncoder` and `StructureDecoder`, so nothing is claimed about the fields they write or read.
- Float semantics are not modelled. A float is an opaque 64-bit pattern that is passed through unchanged.
- `String#size` is the UTF-8 character count, computed exactly only for well-formed UTF-8. It counts the bytes that are not continuation bytes. Other encodings and invalid byte sequences are not modelled.
- `Types::ByteArray` is not part of this model. Its `object.size` is taken to be its byte count.
- Class membership is fixed by the object's kind. ByteArray is treated as a String subclass, DateTime as a Date subclass, and ActiveSupport makes `Time === obj` true for a TimeWithZone. User-defined subclasses of the listed classes are not modelled. An instance of any other class is the single kind `Other`.
- `CodecProperties.EncodeOkIff`: the `Internal::*Value` structure encoders are taken never to raise, because they are parameters that return a structure. The "exactly" therefore says nothing about an error raised inside `Internal::DateValue.to_neo` and the other structure encoders.
- `Codec.ToNeo`: a structure encoder that raises after the cell has been formatted is not modelled, for the same reason. The untouched-cell clause for a raising object therefore covers only the raises that `to_neo` itself makes: an unsupported class, an Integer outside 64 bits and a wrong point arity.
- `Codec.ToNeo`: when an element of an Array or Hash raises, the cell is left formatted and partly filled. The contract does not describe that partial state, only the raised error and the cell's validity.
- The `RangeError` that the binding's `int64` parameter raises for an Integer outside 64 bits is modelled as the error `IntegerOutOfRange`. The binding's own conversion code is not part of this model.
- An Array or Hash that contains itself is not modelled, because `Ruby.Object` is an inductive datatype. On such an object the recursive `to_neo` (value.rb:54, :60) would recurse until the stack overflows.
- `jruby/neo4j/driver/ext/map_accessor.rb` belongs to the JRuby backend and is not part of this model.
- The Ruby `Exception` class and its message are not modelled. Each `raise` is a distinct `Codec.Error` value.

## Findings

| source | as written | input that shows it | evidently intended | confidence | as-written member | corrected member |
|---|---|---|---|---|---|---|
| ffi/neo4j/driver/value.rb:51 | `format_as_string(value, object, object.size)` passes the character count where the library takes a byte count | the String "é" (bytes 0xC3 0xA9, `size` 1) is stored as the single byte 0xC3, and reads back as a different string | `object.bytesize`, so that every String, including multi-byte text, comes back whole | not executed | CodecProperties.MultibyteStringTruncated | CodecProperties.IntendedStringRoundTrip |
| ffi/neo4j/driver/value.rb:59 | `set_key(value, index, key, key.size)` passes the character count of `key.to_s` where the library takes a byte count | the hash `{:é => nil}` is written as one slot whose name is the single byte 0xC3, and reads back as a different key | `key.bytesize`, so that a hash with any distinct symbol names comes back whole | not executed | CodecProperties.MultibyteKeyTruncated | CodecProperties.IntendedHashRoundTrip |

The rest of the model keeps the behaviour as written (`Codec.Encode`, `Codec.ToNeo`, `Codec.KeyText`), so that it describes the driver as it is. `CodecProperties.StringRoundTripIff` bounds the damage: a String comes back whole exactly when all of its characters are single bytes. `CodecProperties.SingleByteAgrees` shows that on such text the as-written cell and the intended cell (`CodecProperties.IntendedStringValue`) are the same. For keys, `CodecProperties.IntendedKeyText` states the same relation between the key text as written and as intended, and `CodecProperties.IntendedHashAgrees` shows that on single-byte keys the as-written dictionary equals the intended one (`CodecProperties.IntendedHashValue`).
