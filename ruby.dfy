/**
 * The Ruby side of the conversion: the objects the driver accepts and
 * produces, and the few core-library behaviours it relies on (`String#size`,
 * `#to_s` on hash keys, `Array#to_h` and ActiveSupport's `symbolize_keys`).
 * Strings are held as their UTF-8 bytes.
 */
module Ruby {
  import Bolt

  type byte = Bolt.byte

  /** The state of an object whose class this model does not look into. */
  datatype Opaque = Opaque(id: int)

  /** A hash key: strings, symbols, integers, or any other object by its `to_s` text. */
  datatype Key =
    | StringKey(text: seq<byte>)
    | SymbolKey(name: seq<byte>)
    | IntegerKey(i: int)
    | OtherKey(display: seq<byte>)

  datatype Object =
    | Nil
    | Bool(b: bool)
    | Int(i: int)
    | Float(f: Bolt.Float64)
    | ByteArray(bytes: seq<byte>)         // Neo4j::Driver::Types::ByteArray, a String subclass
    | Str(text: seq<byte>)
    | Sym(name: seq<byte>)
    | Array(items: seq<Object>)
    | Hash(entries: seq<(Key, Object)>)   // in insertion order
    | Date(date: Opaque)
    | DateTime(dateTime: Opaque)          // a Date subclass
    | Duration(duration: Opaque)          // ActiveSupport::Duration
    | Point(coordinates: seq<Bolt.Float64>)
    | OffsetTime(offsetTime: Opaque)
    | LocalTime(localTime: Opaque)
    | LocalDateTime(localDateTime: Opaque)
    | TimeWithZone(timeWithZone: Opaque)  // ActiveSupport::TimeWithZone
    | Time(time: Opaque)
    | Other(other: Opaque)                // an instance of any other class

  /** A byte that continues a multi-byte UTF-8 character. */
  predicate IsContinuation(b: byte) {
    0x80 <= b < 0xC0
  }

  /** Every byte starts a character: the text is plain ASCII when it is well-formed UTF-8. */
  predicate SingleByteChars(s: seq<byte>) {
    forall i :: 0 <= i < |s| ==> !IsContinuation(s[i])
  }

  /**
   * `String#size` of a UTF-8 string: its number of characters, counted as the
   * bytes that start one.
   */
  function StringSize(s: seq<byte>): (n: nat)
    ensures n <= |s|
    ensures n == |s| <==> SingleByteChars(s)
  {
    if s == [] then 0
    else
      var rest := StringSize(s[1..]);
      assert SingleByteChars(s) <==> !IsContinuation(s[0]) && SingleByteChars(s[1..]) by {
        if !IsContinuation(s[0]) && SingleByteChars(s[1..]) {
          forall i | 0 <= i < |s| ensures !IsContinuation(s[i]) {
            if i > 0 { assert s[i] == s[1..][i - 1]; }
          }
        }
      }
      (if IsContinuation(s[0]) then 0 else 1) + rest
  }

  /** `Integer#to_s` for a natural number, in decimal ASCII digits. */
  function NaturalDigits(n: nat): (s: seq<byte>)
    ensures |s| > 0
    ensures forall i :: 0 <= i < |s| ==> 0x30 <= s[i] <= 0x39
    decreases n
  {
    if n < 10 then [(0x30 + n) as byte]
    else NaturalDigits(n / 10) + [(0x30 + n % 10) as byte]
  }

  function DecimalString(i: int): (s: seq<byte>)
    ensures SingleByteChars(s)
  {
    if i < 0 then [0x2D] + NaturalDigits(-i) else NaturalDigits(i)
  }

  /** `key.to_s`. */
  function ToS(k: Key): seq<byte> {
    match k
    case StringKey(t) => t
    case SymbolKey(n) => n
    case IntegerKey(i) => DecimalString(i)
    case OtherKey(d) => d
  }

  /** The keys of a hash, in order. */
  function Keys(h: seq<(Key, Object)>): (ks: seq<Key>)
    ensures |ks| == |h|
    ensures forall i :: 0 <= i < |h| ==> ks[i] == h[i].0
  {
    seq(|h|, i requires 0 <= i < |h| => h[i].0)
  }

  /** No key occurs twice: what every Ruby Hash satisfies. */
  predicate DistinctKeys(h: seq<(Key, Object)>) {
    forall i, j :: 0 <= i < j < |h| ==> h[i].0 != h[j].0
  }

  /** The index of `k` in `h`, or `|h|` when `k` is absent. */
  function KeyIndex(h: seq<(Key, Object)>, k: Key): (i: nat)
    ensures i <= |h|
    ensures i < |h| ==> h[i].0 == k
    ensures forall j :: 0 <= j < i ==> h[j].0 != k
  {
    if h == [] then 0
    else if h[0].0 == k then 0
    else 1 + KeyIndex(h[1..], k)
  }

  /**
   * `hash[k] = v`: an existing key keeps its position and takes the new value;
   * a new key is appended.
   */
  function Store(h: seq<(Key, Object)>, k: Key, v: Object): seq<(Key, Object)> {
    var i := KeyIndex(h, k);
    if i < |h| then h[i := (k, v)] else h + [(k, v)]
  }

  /** `pairs.to_h`: the pairs stored one after the other, from the first. */
  function ToH(pairs: seq<(Key, Object)>): seq<(Key, Object)> {
    if pairs == [] then []
    else
      var last := pairs[|pairs| - 1];
      Store(ToH(pairs[..|pairs| - 1]), last.0, last.1)
  }

  function Symbolize(k: Key): Key {
    if k.StringKey? then SymbolKey(k.text) else k
  }

  /**
   * ActiveSupport's `symbolize_keys`: a new hash with every string key
   * replaced by its symbol; other keys are kept.
   */
  function SymbolizeKeys(h: seq<(Key, Object)>): seq<(Key, Object)> {
    ToH(seq(|h|, i requires 0 <= i < |h| => (Symbolize(h[i].0), h[i].1)))
  }

  /** Slot `j` is the last one in `p` with its key. */
  predicate IsLastOccurrence(p: seq<(Key, Object)>, j: nat)
    requires j < |p|
  {
    forall j' :: j < j' < |p| ==> p[j'].0 != p[j].0
  }

  predicate HasDuplicateKey(p: seq<(Key, Object)>) {
    exists i, j :: 0 <= i < j < |p| && p[i].0 == p[j].0
  }

  /** `hash[k] = v` holds the new pair, keeps every pair of another key, and adds nothing else. */
  lemma StoreEntries(h: seq<(Key, Object)>, k: Key, v: Object)
    ensures var h' := Store(h, k, v);
      && (k, v) in h'
      && (forall e :: e in h && e.0 != k ==> e in h')
      && (forall e :: e in h' ==> e in h || e == (k, v))
  {
    var i := KeyIndex(h, k);
    var h' := Store(h, k, v);
    forall e | e in h && e.0 != k ensures e in h' {
      var j :| 0 <= j < |h| && h[j] == e;
      assert h'[j] == e;
    }
    forall e | e in h' ensures e in h || e == (k, v) {
      var j :| 0 <= j < |h'| && h'[j] == e;
      if j < |h| && j != i { assert h[j] == e; }
    }
    if i < |h| { assert h'[i] == (k, v); } else { assert h'[|h|] == (k, v); }
  }

  /** `hash[k] = v` keeps the keys distinct, adds `k` to them, and grows only for a new key. */
  lemma StoreProperties(h: seq<(Key, Object)>, k: Key, v: Object)
    requires DistinctKeys(h)
    ensures var h' := Store(h, k, v);
      && DistinctKeys(h')
      && (forall k' :: k' in Keys(h') <==> k' in Keys(h) || k' == k)
      && |h'| == if k in Keys(h) then |h| else |h| + 1
  {
    var i := KeyIndex(h, k);
    var h' := Store(h, k, v);
    if i < |h| {
      assert k in Keys(h);
      forall k' | k' in Keys(h') ensures k' in Keys(h) || k' == k {
        var j :| 0 <= j < |h'| && Keys(h')[j] == k';
        if j != i { assert Keys(h)[j] == k'; }
      }
      forall k' | k' in Keys(h) ensures k' in Keys(h') {
        var j :| 0 <= j < |h| && Keys(h)[j] == k';
        assert Keys(h')[j] == k';
      }
    } else {
      assert forall j :: 0 <= j < |h| ==> Keys(h)[j] != k;
      assert k !in Keys(h);
      assert Keys(h')[|h|] == k;
      forall k' | k' in Keys(h') ensures k' in Keys(h) || k' == k {
        var j :| 0 <= j < |h'| && Keys(h')[j] == k';
        if j < |h| { assert Keys(h)[j] == k'; }
      }
      forall k' | k' in Keys(h) ensures k' in Keys(h') {
        var j :| 0 <= j < |h| && Keys(h)[j] == k';
        assert Keys(h')[j] == k';
      }
    }
  }

  /** The keys of `p` are those of all but its last pair, and the last pair's key. */
  lemma KeysOfSnoc(p: seq<(Key, Object)>)
    requires p != []
    ensures forall k :: k in Keys(p) <==> k in Keys(p[..|p| - 1]) || k == p[|p| - 1].0
  {
    var n := |p| - 1;
    forall k ensures k in Keys(p) <==> k in Keys(p[..n]) || k == p[n].0 {
      if k in Keys(p[..n]) {
        var j :| 0 <= j < n && Keys(p[..n])[j] == k;
        assert Keys(p)[j] == k;
      }
      if k in Keys(p) {
        var j :| 0 <= j < |p| && Keys(p)[j] == k;
        if j < n { assert Keys(p[..n])[j] == k; }
      }
      if k == p[n].0 { assert Keys(p)[n] == k; }
    }
  }

  /** `to_h` has one entry per distinct key of the pairs, and no more entries than pairs. */
  lemma {:induction false} ToHKeys(p: seq<(Key, Object)>)
    ensures var h := ToH(p);
      && DistinctKeys(h)
      && (forall k :: k in Keys(h) <==> k in Keys(p))
      && |h| <= |p|
  {
    if p != [] {
      var n := |p| - 1;
      ToHKeys(p[..n]);
      StoreProperties(ToH(p[..n]), p[n].0, p[n].1);
      KeysOfSnoc(p);
    }
  }

  /**
   * What `to_h` keeps of a list of pairs: the last pair of each key, and
   * nothing that is not one of the pairs.
   */
  lemma {:induction false} ToHEntries(p: seq<(Key, Object)>)
    ensures var h := ToH(p);
      && (forall j :: 0 <= j < |p| && IsLastOccurrence(p, j) ==> p[j] in h)
      && (forall e :: e in h ==> e in p)
  {
    if p != [] {
      var n := |p| - 1;
      var init := p[..n];
      ToHEntries(init);
      var g := ToH(init);
      StoreEntries(g, p[n].0, p[n].1);
      var h := ToH(p);
      forall j | 0 <= j < |p| && IsLastOccurrence(p, j) ensures p[j] in h {
        if j < n {
          assert IsLastOccurrence(init, j) by {
            forall j' | j < j' < |init| ensures init[j'].0 != init[j].0 {
              assert init[j'] == p[j'];
            }
          }
          assert init[j] == p[j];
        }
      }
      forall e | e in h ensures e in p {
        if e != p[n] {
          var j :| 0 <= j < |init| && init[j] == e;
          assert p[j] == e;
        }
      }
    }
  }

  /** A list of pairs without a repeated key becomes a hash of the same entries in the same order. */
  lemma {:induction false} ToHOfDistinct(p: seq<(Key, Object)>)
    requires DistinctKeys(p)
    ensures ToH(p) == p
  {
    if p != [] {
      var n := |p| - 1;
      var init := p[..n];
      assert DistinctKeys(init);
      ToHOfDistinct(init);
      var i := KeyIndex(init, p[n].0);
      assert i == |init| by {
        assert forall j :: 0 <= j < |init| ==> init[j].0 != p[n].0 by {
          forall j | 0 <= j < |init| ensures init[j].0 != p[n].0 {
            assert init[j] == p[j];
          }
        }
      }
      calc {
        ToH(p);
        Store(ToH(init), p[n].0, p[n].1);
        Store(init, p[n].0, p[n].1);
        init + [(p[n].0, p[n].1)];
        { assert init + [p[n]] == p; }
        p;
      }
    }
  }

  /** A repeated key costs the hash at least one entry. */
  lemma {:induction false} ToHShrinksOnDuplicate(p: seq<(Key, Object)>)
    requires HasDuplicateKey(p)
    ensures |ToH(p)| < |p|
  {
    var n := |p| - 1;
    var init := p[..n];
    ToHKeys(init);
    var g := ToH(init);
    StoreProperties(g, p[n].0, p[n].1);
    if HasDuplicateKey(init) {
      ToHShrinksOnDuplicate(init);
    } else {
      var i, j :| 0 <= i < j < |p| && p[i].0 == p[j].0;
      assert forall a, b :: 0 <= a < b < n ==> p[a].0 != p[b].0 by {
        forall a, b | 0 <= a < b < n ensures p[a].0 != p[b].0 {
          assert init[a] == p[a] && init[b] == p[b];
        }
      }
      assert j == n;
      assert Keys(init)[i] == p[n].0;
      assert p[n].0 in Keys(g);
    }
  }

  /** Two pairs with the same key: `to_h` keeps one entry, holding the later value. */
  lemma ToHOfRepeatedPair(k: Key, a: Object, b: Object)
    ensures ToH([(k, a), (k, b)]) == [(k, b)]
  {
    var p := [(k, a), (k, b)];
    assert p[..1] == [(k, a)];
    ToHOfDistinct([(k, a)]);
    assert KeyIndex([(k, a)], k) == 0;
  }

  /** `symbolize_keys` of a one-entry hash under a string key. */
  lemma SymbolizeSingleton(t: seq<byte>, v: Object)
    ensures SymbolizeKeys([(StringKey(t), v)]) == [(SymbolKey(t), v)]
  {
    var h := [(StringKey(t), v)];
    var m := seq(|h|, i requires 0 <= i < |h| => (Symbolize(h[i].0), h[i].1));
    assert m == [(SymbolKey(t), v)];
    ToHOfDistinct(m);
  }

  /**
   * A symbol-keyed hash whose keys were turned into strings comes back from
   * `to_h` then `symbolize_keys` as it was.
   */
  lemma SymbolizeStringified(h: seq<(Key, Object)>, pairs: seq<(Key, Object)>)
    requires DistinctKeys(h)
    requires forall j :: 0 <= j < |h| ==> h[j].0.SymbolKey?
    requires |pairs| == |h|
    requires forall j :: 0 <= j < |h| ==> pairs[j] == (StringKey(h[j].0.name), h[j].1)
    ensures SymbolizeKeys(ToH(pairs)) == h
  {
    assert DistinctKeys(pairs) by {
      forall a, b | 0 <= a < b < |pairs| ensures pairs[a].0 != pairs[b].0 {
        assert h[a].0 != h[b].0;
      }
    }
    ToHOfDistinct(pairs);
    var m := seq(|pairs|, i requires 0 <= i < |pairs| => (Symbolize(pairs[i].0), pairs[i].1));
    assert m == h;
    ToHOfDistinct(m);
  }
}
