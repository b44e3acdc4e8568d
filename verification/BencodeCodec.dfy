/** `BencodeDecoder` and `BencodeEncoder` as written: a moving index, and parts that are joined. */
module BencodeCodec {
  import opened Basics
  import opened Numerals
  import opened Sorting
  import opened Bencode
  import opened BencodeValue

  class BencodeDecoder {
    const data: Bytes
    var index: nat

    constructor (data: Bytes)
      ensures this.data == data && index == 0
    {
      this.data := data;
      index := 0;
    }

    /** The text still to be read. */
    ghost function Rest(): Bytes
      reads this
      requires index <= |data|
    {
      data[index..]
    }

    method Peek() returns (r: Result<byte, DecodeError>)
      requires index <= |data|
      ensures r == if Rest() == [] then Err(UnexpectedEof) else Ok(Rest()[0])
    {
      if index >= |data| {
        return Err(UnexpectedEof);
      }
      r := Ok(data[index]);
    }

    method ReadUntil(delimiter: byte) returns (r: Result<Bytes, DecodeError>)
      requires index <= |data|
      modifies this
      ensures old(index) <= index <= |data|
      ensures match Find(old(Rest()), [delimiter])
              case None => r == Err(DelimiterNotFound) && index == old(index)
              case Some(p) => r == Ok(old(Rest())[..p]) && index == old(index) + p + 1 && index <= |data|
    {
      var start := index;
      match Find(data[start..], [delimiter]) {
        case None => r := Err(DelimiterNotFound);
        case Some(p) =>
          assert data[start..][..p] == data[start..start + p];
          index := start + p + 1;
          r := Ok(data[start..start + p]);
      }
    }

    method ParseInt() returns (r: Result<int, DecodeError>)
      requires index < |data|
      modifies this
      ensures old(index) <= index <= |data|
      ensures match Bencode.ParseInt(old(Rest()))
              case Err(e) => r == Err(e)
              case Ok(p) => r == Ok(p.value) && index == old(index) + p.used && index <= |data|
    {
      hide PyInt, Find, OccursAt;
      index := index + 1;
      assert Rest() == old(Rest())[1..];
      var read := ReadUntil(END);
      match read {
        case Err(e) => r := Err(e);
        case Ok(raw) =>
          if raw == [] {
            return Err(EmptyInteger);
          }
          if raw == [MINUS, ZERO] {
            return Err(NegativeZero);
          }
          if |raw| > 1 && raw[0] == ZERO {
            return Err(LeadingZero);
          }
          if |raw| > 2 && raw[..2] == [MINUS, ZERO] {
            return Err(LeadingZero);
          }
          match PyInt(raw) {
            case None => r := Err(InvalidInteger);
            case Some(i) => r := Ok(i);
          }
      }
    }

    method ParseString() returns (r: Result<Bytes, DecodeError>)
      requires index <= |data|
      modifies this
      ensures old(index) <= index <= |data|
      ensures match ParseStr(old(Rest()))
              case Err(e) => r == Err(e)
              case Ok(p) => r == Ok(p.value) && index == old(index) + p.used && index <= |data|
    {
      hide PyInt, Find, OccursAt;
      var read := ReadUntil(COLON);
      match read {
        case Err(e) => r := Err(e);
        case Ok(raw) =>
          if |raw| > 1 && raw[0] == ZERO {
            return Err(LeadingZero);
          }
          match PyInt(raw) {
            case None => r := Err(InvalidLength);
            case Some(length) =>
              if length < 0 {
                return Err(NegativeLength);
              }
              if index + length > |data| {
                return Err(StringTooLong);
              }
              var start := index;
              index := index + length;
              SliceOfSlice(data, old(index), start - old(index), index - old(index));
              r := Ok(data[start..index]);
          }
      }
    }

    method ParseNext() returns (r: Result<Value, DecodeError>)
      requires index <= |data|
      modifies this
      ensures old(index) <= index <= |data|
      ensures match Bencode.ParseNext(old(Rest()))
              case Err(e) => r == Err(e)
              case Ok(p) => r == Ok(Meaning(p.value)) && index == old(index) + p.used
      decreases |data| - index, 1
    {
      hide Bencode.ParseInt, ParseStr, MeaningItems, MeaningEntries;
      var b := Peek();
      if b.Err? {
        return Err(b.error);
      }
      if b.value == INT_START {
        var i := ParseInt();
        r := if i.Err? then Err(i.error) else Ok(Int(i.value));
      } else if b.value == LIST_START {
        r := ParseList();
      } else if b.value == DICT_START {
        r := ParseDict();
      } else if IsDigit(b.value) {
        var s := ParseString();
        r := if s.Err? then Err(s.error) else Ok(Str(s.value));
      } else {
        r := Err(InvalidToken);
      }
    }

    method ParseList() returns (r: Result<Value, DecodeError>)
      requires index < |data|
      modifies this
      ensures old(index) <= index <= |data|
      ensures match ParseItems(old(Rest())[1..])
              case Err(e) => r == Err(e)
              case Ok(p) => r == Ok(List(MeaningItems(p.value))) && index == old(index) + 1 + p.used
      decreases |data| - index, 0
    {
      hide Bencode.ParseNext, ParseItems, ItemsSoFar, MeaningEntries;
      index := index + 1;
      var items: seq<Value> := [];
      assert items == MeaningItems([]);
      hide MeaningItems, Meaning;
      ghost var all, seen: seq<Tree> := Rest(), [];
      assert all == old(Rest())[1..];
      ItemsStart(all);
      var b := Peek();
      while b.Ok? && b.value != END
        invariant old(index) < index <= |data|
        invariant b == if Rest() == [] then Err(UnexpectedEof) else Ok(Rest()[0])
        invariant items == MeaningItems(seen)
        invariant ItemsSoFar(all, seen, Rest())
        decreases |data| - index
      {
        ghost var here := Rest();
        ItemsStep(all, seen, here);
        var item := ParseNext();
        if item.Err? {
          return Err(item.error);
        }
        ghost var t := Bencode.ParseNext(here).value;
        assert Rest() == here[t.used..];
        MeaningItemsAppend(seen, t.value);
        items := items + [item.value];
        seen := seen + [t.value];
        b := Peek();
      }
      ItemsEnd(all, seen, Rest());
      if b.Err? {
        return Err(b.error);
      }
      index := index + 1;
      r := Ok(List(items));
    }

    method ParseDict() returns (r: Result<Value, DecodeError>)
      requires index < |data|
      modifies this
      ensures old(index) <= index <= |data|
      ensures match ParseEntries(old(Rest())[1..])
              case Err(e) => r == Err(e)
              case Ok(p) => r == Ok(Dict(MeaningEntries(p.value))) && index == old(index) + 1 + p.used
      decreases |data| - index, 0
    {
      hide Bencode.ParseNext, ParseStr, ParseEntries, EntriesSoFar, MeaningItems;
      index := index + 1;
      var result: map<Bytes, Value> := map[];
      assert result == MeaningEntries([]);
      hide MeaningEntries, Meaning;
      ghost var all, seen: seq<Entry> := Rest(), [];
      assert all == old(Rest())[1..];
      EntriesStart(all);
      var b := Peek();
      while b.Ok? && b.value != END
        invariant old(index) < index <= |data|
        invariant b == if Rest() == [] then Err(UnexpectedEof) else Ok(Rest()[0])
        invariant result == MeaningEntries(seen)
        invariant EntriesSoFar(all, seen, Rest())
        decreases |data| - index
      {
        ghost var here := Rest();
        EntriesStep(all, seen, here);
        if !IsDigit(b.value) {
          return Err(KeyNotString);
        }
        var key := ParseString();
        if key.Err? {
          return Err(key.error);
        }
        ghost var k := ParseStr(here).value;
        assert Rest() == here[k.used..];
        var val := ParseNext();
        if val.Err? {
          return Err(val.error);
        }
        ghost var entry := ParseEntry(here).value;
        assert Rest() == here[entry.used..];
        MeaningEntriesAppend(seen, entry.value);
        result := result[key.value := val.value];
        seen := seen + [entry.value];
        b := Peek();
      }
      EntriesEnd(all, seen, Rest());
      if b.Err? {
        return Err(b.error);
      }
      index := index + 1;
      r := Ok(Dict(result));
    }

    /** `decode_data`: one item and nothing after it. */
    static method DecodeData(data: Bytes) returns (r: Result<Value, DecodeError>)
      ensures r == Decode(data)
    {
      var decoder := new BencodeDecoder(data);
      assert decoder.Rest() == data;
      r := decoder.ParseNext();
      if r.Ok? && decoder.index != |decoder.data| {
        r := Err(UnconsumedData);
      }
    }
  }

  lemma {:induction false} MeaningItemsAppend(items: seq<Tree>, t: Tree)
    ensures MeaningItems(items + [t]) == MeaningItems(items) + [Meaning(t)]
  {
    if items != [] {
      assert (items + [t])[1..] == items[1..] + [t];
      MeaningItemsAppend(items[1..], t);
    }
  }

  lemma MeaningEntriesAppend(entries: seq<Entry>, e: Entry)
    ensures MeaningEntries(entries + [e]) == MeaningEntries(entries)[e.key := Meaning(e.val)]
  {
    assert (entries + [e])[..|entries|] == entries;
  }

  /** In the middle of the loop: `seen` has been read from `all`, and `rest` is still to be read. */
  ghost predicate ItemsSoFar(all: Bytes, seen: seq<Tree>, rest: Bytes) {
    match ParseItems(rest)
    case Err(e) => ParseItems(all) == Err(e)
    case Ok(q) => |rest| <= |all| && ParseItems(all) == Ok(Parsed(seen + q.value, |all| - |rest| + q.used))
  }

  lemma ItemsStart(all: Bytes)
    ensures ItemsSoFar(all, [], all)
  {
    assert forall q: seq<Tree> :: [] + q == q;
  }

  lemma ItemsStep(all: Bytes, seen: seq<Tree>, rest: Bytes)
    requires ItemsSoFar(all, seen, rest) && rest != [] && rest[0] != END
    ensures Bencode.ParseNext(rest).Err? ==> ParseItems(all) == Err(Bencode.ParseNext(rest).error)
    ensures Bencode.ParseNext(rest).Ok? ==> ItemsSoFar(all, seen + [Bencode.ParseNext(rest).value.value], rest[Bencode.ParseNext(rest).value.used..])
  {
    hide Bencode.ParseNext;
    match Bencode.ParseNext(rest)
    case Err(_) =>
    case Ok(p) =>
      match ParseItems(rest[p.used..])
      case Err(_) =>
      case Ok(q) => assert seen + ([p.value] + q.value) == seen + [p.value] + q.value;
  }

  lemma NoItems(rest: Bytes)
    ensures rest == [] ==> ParseItems(rest) == Err(UnexpectedEof)
    ensures rest != [] && rest[0] == END ==> ParseItems(rest) == Ok(Parsed([], 1))
  {}

  lemma ItemsEnd(all: Bytes, seen: seq<Tree>, rest: Bytes)
    requires ItemsSoFar(all, seen, rest)
    ensures rest == [] ==> ParseItems(all) == Err(UnexpectedEof)
    ensures rest != [] && rest[0] == END ==> |rest| <= |all| && ParseItems(all) == Ok(Parsed(seen, |all| - |rest| + 1))
  {
    hide ParseItems;
    NoItems(rest);
    assert seen + [] == seen;
  }

  /** In the middle of the loop: `seen` has been read from `all`, and `rest` is still to be read. */
  ghost predicate EntriesSoFar(all: Bytes, seen: seq<Entry>, rest: Bytes) {
    match ParseEntries(rest)
    case Err(e) => ParseEntries(all) == Err(e)
    case Ok(q) => |rest| <= |all| && ParseEntries(all) == Ok(Parsed(seen + q.value, |all| - |rest| + q.used))
  }

  lemma EntriesStart(all: Bytes)
    ensures EntriesSoFar(all, [], all)
  {
    assert forall q: seq<Entry> :: [] + q == q;
  }

  lemma EntriesStep(all: Bytes, seen: seq<Entry>, rest: Bytes)
    requires EntriesSoFar(all, seen, rest) && rest != [] && rest[0] != END
    ensures ParseEntry(rest).Err? ==> ParseEntries(all) == Err(ParseEntry(rest).error)
    ensures ParseEntry(rest).Ok? ==> EntriesSoFar(all, seen + [ParseEntry(rest).value.value], rest[ParseEntry(rest).value.used..])
  {
    hide ParseEntry;
    match ParseEntry(rest)
    case Err(_) =>
    case Ok(p) =>
      match ParseEntries(rest[p.used..])
      case Err(_) =>
      case Ok(q) => assert seen + ([p.value] + q.value) == seen + [p.value] + q.value;
  }

  lemma NoEntries(rest: Bytes)
    ensures rest == [] ==> ParseEntries(rest) == Err(UnexpectedEof)
    ensures rest != [] && rest[0] == END ==> ParseEntries(rest) == Ok(Parsed([], 1))
  {}

  lemma EntriesEnd(all: Bytes, seen: seq<Entry>, rest: Bytes)
    requires EntriesSoFar(all, seen, rest)
    ensures rest == [] ==> ParseEntries(all) == Err(UnexpectedEof)
    ensures rest != [] && rest[0] == END ==> |rest| <= |all| && ParseEntries(all) == Ok(Parsed(seen, |all| - |rest| + 1))
  {
    hide ParseEntries;
    NoEntries(rest);
    assert seen + [] == seen;
  }

  // ---------------------------------------------------------------------------
  // Encoder
  // ---------------------------------------------------------------------------

  lemma {:induction false} PrintItemsAppend(items: seq<Tree>, t: Tree)
    ensures PrintItems(items + [t]) == PrintItems(items) + Print(t)
  {
    hide Print;
    if items != [] {
      assert (items + [t])[1..] == items[1..] + [t];
      PrintItemsAppend(items[1..], t);
    }
  }

  lemma {:induction false} PrintEntriesAppend(entries: seq<Entry>, e: Entry)
    ensures PrintEntries(entries + [e]) == PrintEntries(entries) + PrintEntry(e)
  {
    hide PrintEntry;
    if entries != [] {
      assert (entries + [e])[1..] == entries[1..] + [e];
      PrintEntriesAppend(entries[1..], e);
    }
  }

  lemma {:induction false} CanonItemsAppend(items: seq<Value>, v: Value)
    ensures CanonItems(items + [v]) == CanonItems(items) + [Canon(v)]
  {
    if items != [] {
      assert (items + [v])[1..] == items[1..] + [v];
      CanonItemsAppend(items[1..], v);
    }
  }

  lemma DictEntryAppend(obj: Value, keys: seq<Bytes>, n: nat)
    requires obj.Dict? && n < |keys| && forall k :: k in keys ==> k in obj.entries
    ensures PrintEntries(CanonEntries(obj, keys[..n + 1]))
         == PrintEntries(CanonEntries(obj, keys[..n])) + (PrintStr(keys[n]) + Encode(obj.entries[keys[n]]))
  {
    hide Print, Canon;
    assert keys[..n + 1][..n] == keys[..n];
    PrintEntriesAppend(CanonEntries(obj, keys[..n]), Entry(keys[n], Canon(obj.entries[keys[n]])));
  }

  lemma DictStart(obj: Value)
    requires obj.Dict?
    ensures Join([[DICT_START]]) == [DICT_START] + PrintEntries(CanonEntries(obj, []))
  {
    assert [[DICT_START]][..0] == [];
    assert Join([]) == [];
  }

  class BencodeEncoder {
    /** `encode`: the keys of a dictionary may come in any order, the text is the same. */
    static method Encode(obj: Value) returns (r: Bytes)
      ensures r == BencodeValue.Encode(obj)
      decreases obj, 1
    {
      hide Decimal;
      match obj {
        case Int(i) => r := [INT_START] + Decimal(i) + [END];
        case Str(s) => r := Decimal(|s|) + [COLON] + s;
        case List(items) => r := EncodeList(items);
        case Dict(entries) => r := EncodeDict(obj);
      }
    }

    static method EncodeList(items: seq<Value>) returns (r: Bytes)
      ensures r == [LIST_START] + PrintItems(CanonItems(items)) + [END]
      decreases items, 0
    {
      hide Print, Canon;
      var parts := [[LIST_START]];
      for n := 0 to |items|
        invariant Join(parts) == [LIST_START] + PrintItems(CanonItems(items[..n]))
      {
        var part := Encode(items[n]);
        assert items[..n + 1] == items[..n] + [items[n]];
        CanonItemsAppend(items[..n], items[n]);
        PrintItemsAppend(CanonItems(items[..n]), Canon(items[n]));
        JoinAppend(parts, part);
        parts := parts + [part];
      }
      assert items[..|items|] == items;
      JoinAppend(parts, [END]);
      parts := parts + [[END]];
      r := Join(parts);
    }

    static method EncodeDict(obj: Value) returns (r: Bytes)
      requires obj.Dict?
      ensures r == [DICT_START] + PrintEntries(CanonEntries(obj, SortedKeys(obj.entries))) + [END]
      decreases obj, 0
    {
      hide Print, Canon, PrintEntries, CanonEntries, Join, SortedKeys, LexLess;
      var encodedKeys := SortKeys(obj.entries);
      var parts := [[DICT_START]];
      DictStart(obj);
      for n := 0 to |encodedKeys|
        invariant Join(parts) == [DICT_START] + PrintEntries(CanonEntries(obj, encodedKeys[..n]))
      {
        var k := encodedKeys[n];
        var part := Encode(obj.entries[k]);
        DictEntryAppend(obj, encodedKeys, n);
        var keyPart := Decimal(|k|) + [COLON] + k;
        JoinAppend(parts, keyPart);
        JoinAppend(parts + [keyPart], part);
        parts := parts + [keyPart] + [part];
      }
      assert encodedKeys[..|encodedKeys|] == encodedKeys;
      JoinAppend(parts, [END]);
      parts := parts + [[END]];
      r := Join(parts);
    }

    static method SortKeys(entries: map<Bytes, Value>) returns (keys: seq<Bytes>)
      ensures keys == SortedKeys(entries)
    {
      hide LexLess, StrictTotal;
      keys := ToList(entries.Keys);
      LexLessTotal();
      keys := Sort(LexLess, keys);
    }
  }
}
