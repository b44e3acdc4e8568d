/**
 The Python values of bencoded items and the canonical text the encoder writes for them.
 Dictionaries are maps here: the order of entries and repeated keys are gone.
 */
module BencodeValue {
  import opened Basics
  import opened Numerals
  import opened Bencode
  import opened Sorting

  datatype Value =
    | Int(i: int)
    | Str(s: Bytes)
    | List(items: seq<Value>)
    | Dict(entries: map<Bytes, Value>)

  /** Byte-string order, as Python compares `bytes`. */
  predicate LexLess(a: Bytes, b: Bytes) {
    if b == [] then false
    else if a == [] then true
    else a[0] < b[0] || (a[0] == b[0] && LexLess(a[1..], b[1..]))
  }

  lemma {:induction false} LexLessTransitive(a: Bytes, b: Bytes, c: Bytes)
    requires LexLess(a, b) && LexLess(b, c)
    ensures LexLess(a, c)
  {
    if a != [] && a[0] == b[0] && b[0] == c[0] {
      LexLessTransitive(a[1..], b[1..], c[1..]);
    }
  }

  lemma {:induction false} LexLessConnected(a: Bytes, b: Bytes)
    requires a != b
    ensures LexLess(a, b) || LexLess(b, a)
  {
    if a != [] && b != [] && a[0] == b[0] {
      assert a == [a[0]] + a[1..] && b == [b[0]] + b[1..];
      LexLessConnected(a[1..], b[1..]);
    }
  }

  lemma {:induction false} LexLessIrreflexive(a: Bytes)
    ensures !LexLess(a, a)
  {
    if a != [] {
      LexLessIrreflexive(a[1..]);
    }
  }

  /** The strings agree up to some place, where the first has the smaller byte, or where the first alone ends. */
  ghost predicate ByteOrder(a: Bytes, b: Bytes) {
    exists i: nat :: SmallerAt(a, b, i)
  }

  predicate SmallerAt(a: Bytes, b: Bytes, i: nat) {
    && i <= |a| && i < |b| && a[..i] == b[..i]
    && (i == |a| || a[i] as int < b[i] as int)
  }

  lemma {:induction false} LexLessIsByteOrder(a: Bytes, b: Bytes)
    ensures LexLess(a, b) <==> ByteOrder(a, b)
  {
    if a == [] {
      assert b != [] ==> SmallerAt(a, b, 0);
    } else if b != [] {
      LexLessIsByteOrder(a[1..], b[1..]);
      if a[0] < b[0] {
        assert SmallerAt(a, b, 0);
      } else if a[0] == b[0] {
        SameStart(a, b);
        if ByteOrder(a, b) {
          var i: nat :| SmallerAt(a, b, i);
          SmallerTail(a, b, i - 1);
        }
        if ByteOrder(a[1..], b[1..]) {
          var i: nat :| SmallerAt(a[1..], b[1..], i);
          SmallerTail(a, b, i);
        }
      } else {
        SameStart(a, b);
      }
    }
  }

  lemma SmallerTail(a: Bytes, b: Bytes, i: nat)
    requires a != [] && b != [] && a[0] == b[0]
    ensures SmallerAt(a, b, i + 1) <==> SmallerAt(a[1..], b[1..], i)
  {
    if i + 1 <= |a| && i + 1 <= |b| {
      assert a[..i + 1] == [a[0]] + a[1..][..i];
      assert b[..i + 1] == [b[0]] + b[1..][..i];
    }
  }

  lemma SameStart(a: Bytes, b: Bytes)
    requires a != [] && b != []
    ensures forall i: nat :: SmallerAt(a, b, i) ==> if i == 0 then a[0] < b[0] else a[0] == b[0]
  {
    forall i: nat | SmallerAt(a, b, i) ensures if i == 0 then a[0] < b[0] else a[0] == b[0] {
      assert i > 0 ==> a[..i][0] == b[..i][0];
    }
  }

  lemma LexLessTotal()
    ensures StrictTotal(LexLess)
  {
    forall a: Bytes ensures !LexLess(a, a) {
      LexLessIrreflexive(a);
    }
    forall a: Bytes, b: Bytes | a != b ensures LexLess(a, b) || LexLess(b, a) {
      LexLessConnected(a, b);
    }
    forall a: Bytes, b: Bytes, c: Bytes | LexLess(a, b) && LexLess(b, c) ensures LexLess(a, c) {
      LexLessTransitive(a, b, c);
    }
  }

  /** What Python builds from a tree: a later entry replaces an earlier one with the same key. */
  function Meaning(t: Tree): Value
    decreases t, 1
  {
    match t
    case TInt(i) => Int(i)
    case TStr(s) => Str(s)
    case TList(items) => List(MeaningItems(items))
    case TDict(entries) => Dict(MeaningEntries(entries))
  }

  function MeaningItems(items: seq<Tree>): (vs: seq<Value>)
    ensures |vs| == |items|
    decreases items, 0
  {
    if items == [] then [] else [Meaning(items[0])] + MeaningItems(items[1..])
  }

  function MeaningEntries(entries: seq<Entry>): map<Bytes, Value>
    decreases entries, 0
  {
    if entries == [] then
      map[]
    else
      var last := |entries| - 1;
      MeaningEntries(entries[..last])[entries[last].key := Meaning(entries[last].val)]
  }

  ghost function SortedKeys(entries: map<Bytes, Value>): (keys: seq<Bytes>)
    ensures Ascending(LexLess, keys)
    ensures forall k :: k in keys <==> k in entries
  {
    LexLessTotal();
    var keys := Sorted(LexLess, entries.Keys);
    assert forall k :: k in keys <==> k in Elements(keys);
    keys
  }

  /** The tree the encoder writes: dictionary keys in ascending order, once each. */
  ghost function Canon(v: Value): Tree
    decreases v, 1, 0
  {
    match v
    case Int(i) => TInt(i)
    case Str(s) => TStr(s)
    case List(items) => TList(CanonItems(items))
    case Dict(entries) => TDict(CanonEntries(v, SortedKeys(entries)))
  }

  ghost function CanonItems(items: seq<Value>): (ts: seq<Tree>)
    ensures |ts| == |items|
    decreases items, 0, 0
  {
    if items == [] then [] else [Canon(items[0])] + CanonItems(items[1..])
  }

  ghost function CanonEntries(v: Value, keys: seq<Bytes>): (es: seq<Entry>)
    requires v.Dict? && forall k :: k in keys ==> k in v.entries
    ensures |es| == |keys|
    ensures forall i :: 0 <= i < |keys| ==> es[i].key == keys[i]
    decreases v, 0, |keys|
  {
    if keys == [] then
      []
    else
      var last := |keys| - 1;
      CanonEntries(v, keys[..last]) + [Entry(keys[last], Canon(v.entries[keys[last]]))]
  }

  /** The text `encode(v)` produces. */
  ghost function Encode(v: Value): Bytes {
    Print(Canon(v))
  }

  /** What `decode(s)` answers. */
  function Decode(s: Bytes): Result<Value, DecodeError> {
    match ParseNext(s)
    case Err(e) => Err(e)
    case Ok(p) => if p.used != |s| then Err(UnconsumedData) else Ok(Meaning(p.value))
  }

  // ---------------------------------------------------------------------------
  // Decoding undoes encoding
  // ---------------------------------------------------------------------------

  lemma {:induction false} MeaningCanon(v: Value)
    ensures Meaning(Canon(v)) == v
    decreases v, 1, 0
  {
    hide StrictTotal, LexLess, Ascending;
    match v
    case Int(_) =>
    case Str(_) =>
    case List(items) =>
      MeaningCanonItems(items);
    case Dict(entries) =>
      var keys := SortedKeys(entries);
      MeaningCanonEntries(v, keys);
      assert (map k | k in keys :: entries[k]) == entries;
  }

  lemma {:induction false} MeaningCanonItems(items: seq<Value>)
    ensures MeaningItems(CanonItems(items)) == items
    decreases items, 0, 0
  {
    if items != [] {
      MeaningCanon(items[0]);
      MeaningCanonItems(items[1..]);
    }
  }

  lemma {:induction false} MeaningCanonEntries(v: Value, keys: seq<Bytes>)
    requires v.Dict? && forall k :: k in keys ==> k in v.entries
    ensures MeaningEntries(CanonEntries(v, keys)) == map k | k in keys :: v.entries[k]
    decreases v, 0, |keys|
  {
    hide Canon, Meaning;
    if keys != [] {
      var last := |keys| - 1;
      MeaningCanonEntries(v, keys[..last]);
      MeaningCanon(v.entries[keys[last]]);
      assert CanonEntries(v, keys)[..last] == CanonEntries(v, keys[..last]);
      assert forall k :: k in keys <==> k in keys[..last] || k == keys[last] by {
        assert keys == keys[..last] + [keys[last]];
      }
    }
  }

  /** The round trip on values, whatever follows: the parser stops exactly at the end of the text. */
  lemma DecodeEncode(v: Value, rest: Bytes)
    ensures ParseNext(Encode(v) + rest) == Ok(Parsed(Canon(v), |Encode(v)|))
    ensures Meaning(Canon(v)) == v
    ensures Decode(Encode(v)) == Ok(v)
  {
    ParsePrint(Canon(v), rest);
    ParsePrint(Canon(v), []);
    assert Encode(v) + [] == Encode(v);
    MeaningCanon(v);
  }

  /** Encoding is injective and no encoding is a proper prefix of another. */
  lemma EncodePrefixFree(v: Value, w: Value, x: Bytes, y: Bytes)
    requires Encode(v) + x == Encode(w) + y
    ensures v == w && x == y
  {
    PrintPrefixFree(Canon(v), Canon(w), x, y);
    MeaningCanon(v);
    MeaningCanon(w);
  }

  /** Re-encoding and decoding again changes nothing. */
  lemma DecodeStable(s: Bytes)
    requires Decode(s).Ok?
    ensures Decode(Encode(Decode(s).value)) == Decode(s)
  {
    DecodeEncode(Decode(s).value, []);
  }

  // ---------------------------------------------------------------------------
  // Normal form
  // ---------------------------------------------------------------------------

  /** Every dictionary in the tree lists its keys in strictly ascending order. */
  ghost predicate KeysAscend(t: Tree)
    decreases t, 1
  {
    match t
    case TInt(_) => true
    case TStr(_) => true
    case TList(items) => forall u :: u in items ==> KeysAscend(u)
    case TDict(entries) => Ascending(LexLess, Keys(entries)) && forall e :: e in entries ==> KeysAscend(e.val)
  }

  function Keys(entries: seq<Entry>): (ks: seq<Bytes>)
    ensures |ks| == |entries|
    ensures forall i :: 0 <= i < |entries| ==> ks[i] == entries[i].key
  {
    seq(|entries|, i requires 0 <= i < |entries| => entries[i].key)
  }

  lemma {:induction false} CanonAscends(v: Value)
    ensures KeysAscend(Canon(v))
    decreases v, 1, 0
  {
    match v
    case Int(_) =>
    case Str(_) =>
    case List(items) =>
      CanonItemsAscend(items);
    case Dict(entries) =>
      var keys := SortedKeys(entries);
      CanonEntriesAscend(v, keys);
      assert Keys(CanonEntries(v, keys)) == keys;
  }

  lemma {:induction false} CanonItemsAscend(items: seq<Value>)
    ensures forall t :: t in CanonItems(items) ==> KeysAscend(t)
    decreases items, 0, 0
  {
    if items != [] {
      CanonAscends(items[0]);
      CanonItemsAscend(items[1..]);
    }
  }

  lemma {:induction false} CanonEntriesAscend(v: Value, keys: seq<Bytes>)
    requires v.Dict? && forall k :: k in keys ==> k in v.entries
    ensures forall e :: e in CanonEntries(v, keys) ==> KeysAscend(e.val)
    decreases v, 0, |keys|
  {
    if keys != [] {
      CanonEntriesAscend(v, keys[..|keys| - 1]);
      CanonAscends(v.entries[keys[|keys| - 1]]);
    }
  }

  lemma LaterKeys(keys: seq<Bytes>, i: nat)
    requires i < |keys| - 1 && keys[i] !in keys[i + 1..]
    ensures keys[i] != keys[|keys| - 1] && keys[i] !in keys[..|keys| - 1][i + 1..]
  {
    assert keys[i + 1..] == keys[..|keys| - 1][i + 1..] + [keys[|keys| - 1]];
  }

  lemma {:induction false} MeaningKeys(entries: seq<Entry>)
    ensures MeaningEntries(entries).Keys == Elements(Keys(entries))
  {
    hide Meaning;
    if entries != [] {
      var last := |entries| - 1;
      MeaningKeys(entries[..last]);
      assert Keys(entries) == Keys(entries[..last]) + [entries[last].key];
      assert Elements(Keys(entries)) == Elements(Keys(entries[..last])) + {entries[last].key};
    }
  }

  /** The last entry of a key gives its value. */
  lemma {:induction false} MeaningAt(entries: seq<Entry>, i: nat)
    requires i < |entries| && entries[i].key !in Keys(entries)[i + 1..]
    ensures entries[i].key in MeaningEntries(entries) && MeaningEntries(entries)[entries[i].key] == Meaning(entries[i].val)
  {
    hide Meaning;
    var last := |entries| - 1;
    if i < last {
      LaterKeys(Keys(entries), i);
      assert Keys(entries[..last]) == Keys(entries)[..last];
      MeaningAt(entries[..last], i);
    }
  }

  /** With distinct keys that is every entry. */
  lemma MeaningEntriesAt(entries: seq<Entry>)
    ensures MeaningEntries(entries).Keys == Elements(Keys(entries))
    ensures forall i :: 0 <= i < |entries| && entries[i].key !in Keys(entries)[i + 1..]
              ==> MeaningEntries(entries)[entries[i].key] == Meaning(entries[i].val)
  {
    hide Meaning, MeaningEntries;
    MeaningKeys(entries);
    forall i | 0 <= i < |entries| && entries[i].key !in Keys(entries)[i + 1..]
      ensures entries[i].key in MeaningEntries(entries) && MeaningEntries(entries)[entries[i].key] == Meaning(entries[i].val)
    {
      MeaningAt(entries, i);
    }
  }

  lemma {:induction false} CanonMeaning(t: Tree)
    requires KeysAscend(t)
    ensures Canon(Meaning(t)) == t
    decreases t, 1, 0
  {
    hide StrictTotal, LexLess, Ascending;
    match t
    case TInt(_) =>
    case TStr(_) =>
    case TList(items) =>
      CanonMeaningItems(items);
    case TDict(entries) =>
      LexLessTotal();
      MeaningEntriesAt(entries);
      SortedIs(LexLess, Keys(entries));
      CanonMeaningEntries(Meaning(t), entries, entries);
  }

  lemma {:induction false} CanonMeaningItems(items: seq<Tree>)
    requires forall u :: u in items ==> KeysAscend(u)
    ensures CanonItems(MeaningItems(items)) == items
    decreases items, 0, 0
  {
    if items != [] {
      CanonMeaning(items[0]);
      CanonMeaningItems(items[1..]);
    }
  }

  lemma {:induction false} CanonMeaningEntries(v: Value, entries: seq<Entry>, front: seq<Entry>)
    requires Ascending(LexLess, Keys(entries)) && v == Dict(MeaningEntries(entries))
    requires forall e :: e in entries ==> KeysAscend(e.val)
    requires front <= entries
    requires forall k :: k in Keys(front) ==> k in v.entries
    ensures CanonEntries(v, Keys(front)) == front
    decreases front, 0, 0
  {
    hide StrictTotal, LexLess, Ascending, Canon, Meaning, KeysAscend;
    if front != [] {
      var last := |front| - 1;
      assert Keys(front)[..last] == Keys(front[..last]);
      CanonMeaningEntries(v, entries, front[..last]);
      LastKeyFresh(entries, last);
      CanonMeaning(front[last].val);
    }
  }

  lemma LastKeyFresh(entries: seq<Entry>, i: nat)
    requires Ascending(LexLess, Keys(entries)) && i < |entries|
    ensures entries[i].key in MeaningEntries(entries)
    ensures MeaningEntries(entries)[entries[i].key] == Meaning(entries[i].val)
  {
    hide LexLess, Meaning, MeaningEntries;
    LexLessTotal();
    var keys := Keys(entries);
    forall j | i < j < |keys| ensures keys[j] != keys[i] {
      assert LexLess(keys[i], keys[j]);
    }
    MeaningAt(entries, i);
  }

  /**
   Normal form, both ways: re-encoding an accepted text gives the same text exactly when the keys
   of every dictionary in it ascend strictly. (The decoder has already refused every numeral that
   is not minimal.)
   */
  lemma EncodeDecode(s: Bytes)
    requires Decode(s).Ok?
    ensures Encode(Decode(s).value) == s <==> KeysAscend(ParseNext(s).value.value)
  {
    var t := ParseNext(s).value.value;
    PrintParse(s);
    assert s[..|s|] == s;
    if KeysAscend(t) {
      CanonMeaning(t);
    }
    if Encode(Decode(s).value) == s {
      PrintPrefixFree(Canon(Meaning(t)), t, [], []);
      CanonAscends(Meaning(t));
    }
  }

  // ---------------------------------------------------------------------------
  // The bytes of an encoding
  // ---------------------------------------------------------------------------

  ghost function EncodedItems(items: seq<Value>): (parts: seq<Bytes>)
    ensures |parts| == |items|
  {
    seq(|items|, i requires 0 <= i < |items| => Encode(items[i]))
  }

  /** For each key its length, a colon, the key itself and the text of its value. */
  ghost function EncodedEntries(entries: map<Bytes, Value>, keys: seq<Bytes>): (parts: seq<Bytes>)
    requires forall k :: k in keys ==> k in entries
    ensures |parts| == |keys|
  {
    seq(|keys|, i requires 0 <= i < |keys| => Decimal(|keys[i]|) + [58] + keys[i] + Encode(entries[keys[i]]))
  }

  ghost predicate ByteOrdered(keys: seq<Bytes>) {
    forall i, j :: 0 <= i < j < |keys| ==> ByteOrder(keys[i], keys[j])
  }

  lemma {:induction false} PrintedItems(items: seq<Value>)
    ensures PrintItems(CanonItems(items)) == Join(EncodedItems(items))
  {
    hide Canon, Join;
    if items == [] {
      JoinEmpty();
    } else {
      PrintedItems(items[1..]);
      var first := [Encode(items[0])];
      JoinConcat(first, EncodedItems(items[1..]));
      assert EncodedItems(items) == first + EncodedItems(items[1..]);
      JoinOne(Encode(items[0]));
    }
  }

  lemma JoinOne(part: Bytes)
    ensures Join([part]) == part
  {
    JoinAppend([], part);
    assert [] + [part] == [part];
  }

  lemma {:induction false} PrintEntriesAppend(entries: seq<Entry>, last: Entry)
    ensures PrintEntries(entries + [last]) == PrintEntries(entries) + PrintEntry(last)
  {
    hide PrintEntry;
    if entries == [] {
      assert PrintEntries([last]) == PrintEntry(last) + [];
      assert [] + [last] == [last];
    } else {
      PrintEntriesAppend(entries[1..], last);
      assert (entries + [last])[1..] == entries[1..] + [last];
    }
  }

  lemma {:induction false} PrintedEntries(v: Value, keys: seq<Bytes>)
    requires v.Dict? && forall k :: k in keys ==> k in v.entries
    ensures PrintEntries(CanonEntries(v, keys)) == Join(EncodedEntries(v.entries, keys))
    decreases |keys|
  {
    hide Canon, Join, Decimal;
    if keys == [] {
      JoinEmpty();
    } else {
      var front, last := keys[..|keys| - 1], keys[|keys| - 1];
      PrintedEntries(v, front);
      PrintEntriesAppend(CanonEntries(v, front), Entry(last, Canon(v.entries[last])));
      var part := Decimal(|last|) + [58] + last + Encode(v.entries[last]);
      assert EncodedEntries(v.entries, keys) == EncodedEntries(v.entries, front) + [part];
      JoinAppend(EncodedEntries(v.entries, front), part);
    }
  }

  lemma OrderedIsAscending(keys: seq<Bytes>)
    ensures ByteOrdered(keys) <==> Ascending(LexLess, keys)
  {
    hide LexLess, ByteOrder;
    forall i, j | 0 <= i < j < |keys| ensures ByteOrder(keys[i], keys[j]) <==> LexLess(keys[i], keys[j]) {
      LexLessIsByteOrder(keys[i], keys[j]);
    }
  }

  lemma OnlyOrder(entries: map<Bytes, Value>, keys: seq<Bytes>)
    requires ByteOrdered(keys) && forall k :: k in keys <==> k in entries
    ensures SortedKeys(entries) == keys
  {
    hide LexLess, ByteOrdered, StrictTotal, Ascending;
    OrderedIsAscending(keys);
    LexLessTotal();
    AscendingUnique(LexLess, SortedKeys(entries), keys);
  }

  /**
   What `encode` writes, byte for byte: `i…e`, a length and a colon before a string, `l…e`, and `d…e`
   around the entries of a dictionary in the one order in which every key comes before those above it.
   */
  lemma EncodedText(v: Value, keys: seq<Bytes>)
    requires v.Dict? ==> ByteOrdered(keys) && forall k :: k in keys <==> k in v.entries
    ensures Encode(v) == match v
                         case Int(i) => [105] + Decimal(i) + [101]
                         case Str(s) => Decimal(|s|) + [58] + s
                         case List(items) => [108] + Join(EncodedItems(items)) + [101]
                         case Dict(entries) => [100] + Join(EncodedEntries(entries, keys)) + [101]
  {
    hide Join, Decimal, LexLess, ByteOrdered, StrictTotal, Ascending;
    match v
    case Int(_) =>
    case Str(_) =>
    case List(items) => PrintedItems(items);
    case Dict(entries) =>
      OnlyOrder(entries, keys);
      hide SortedKeys;
      PrintedEntries(v, keys);
  }

  /** There is such an order. */
  lemma KeysInOrder(entries: map<Bytes, Value>) returns (keys: seq<Bytes>)
    ensures ByteOrdered(keys) && |keys| == |entries| && forall k :: k in keys <==> k in entries
  {
    hide LexLess;
    LexLessTotal();
    keys := Sorted(LexLess, entries.Keys);
    assert forall k :: k in keys <==> k in Elements(keys);
    OrderedIsAscending(keys);
  }

  /** The normal form in those terms: in each dictionary every key is below all later ones. */
  lemma AscendInByteOrder(entries: seq<Entry>)
    ensures KeysAscend(TDict(entries)) <==> ByteOrdered(Keys(entries)) && forall e :: e in entries ==> KeysAscend(e.val)
  {
    hide LexLess, ByteOrdered;
    OrderedIsAscending(Keys(entries));
  }
}
