/** The parts of the metainfo parser that work on raw bytes: the info-hash slice and the piece hashes. */
module TorrentFile {
  import opened Basics
  import opened Numerals
  import opened Sorting
  import opened Bencode
  import opened BencodeValue
  import opened BencodeCodec

  const INFO: Bytes := [105, 110, 102, 111]            // b"info"
  const INFO_KEY: Bytes := [52, 58, 105, 110, 102, 111] // b"4:info"
  const DIGEST_LENGTH: nat := 20

  datatype TorrentError = MissingInfoKey | BadInfoValue(error: DecodeError) | PiecesNotAligned

  /** The bytes that get hashed: one item, right after the first `4:info` anywhere in the text. */
  function InfoSlice(raw: Bytes): Result<Bytes, TorrentError> {
    match Find(raw, INFO_KEY)
    case None => Err(MissingInfoKey)
    case Some(p) =>
      var rest := raw[p + |INFO_KEY|..];
      match ParseNext(rest)
      case Err(e) => Err(BadInfoValue(e))
      case Ok(q) => Ok(rest[..q.used])
  }

  /** `_compute_info_hash`: drive a decoder over the slice to find where the item ends. */
  method ComputeInfoHash(raw: Bytes, sha1: Hash) returns (r: Result<Bytes, TorrentError>)
    ensures match InfoSlice(raw)
            case Err(e) => r == Err(e)
            case Ok(info) => r == Ok(sha1(info))
  {
    hide Find, ParseNext, Meaning;
    var found := Find(raw, INFO_KEY);
    match found {
      case None => r := Err(MissingInfoKey);
      case Some(start) =>
        var infoValueStart := start + |INFO_KEY|;
        var infoSlice := raw[infoValueStart..];
        var decoder := new BencodeDecoder(infoSlice);
        assert decoder.Rest() == infoSlice;
        var parsed := decoder.ParseNext();
        if parsed.Err? {
          return Err(BadInfoValue(parsed.error));
        }
        var infoValueEnd := infoValueStart + decoder.index;
        assert raw[infoValueStart..infoValueEnd] == infoSlice[..decoder.index];
        r := Ok(sha1(raw[infoValueStart..infoValueEnd]));
    }
  }

  // ---------------------------------------------------------------------------
  // Which bytes are hashed
  // ---------------------------------------------------------------------------

  /** The text of a dictionary before the value of its `info` entry. */
  function Before(entries: seq<Entry>): Bytes {
    [DICT_START] + PrintEntries(entries)
  }

  function MetaTree(before: seq<Entry>, info: Tree, after: seq<Entry>): Tree {
    TDict(before + [Entry(INFO, info)] + after)
  }

  lemma {:induction false} PrintEntriesConcat(a: seq<Entry>, b: seq<Entry>)
    ensures PrintEntries(a + b) == PrintEntries(a) + PrintEntries(b)
  {
    hide PrintEntry;
    if a == [] {
      assert a + b == b;
    } else {
      assert (a + b)[1..] == a[1..] + b;
      PrintEntriesConcat(a[1..], b);
    }
  }

  lemma MetaText(before: seq<Entry>, info: Tree, after: seq<Entry>)
    ensures Print(MetaTree(before, info, after))
         == Before(before) + INFO_KEY + Print(info) + PrintEntries(after) + [END]
  {
    hide Print, PrintEntries, PrintEntry;
    var e := Entry(INFO, info);
    PrintDict(before + [e] + after);
    PrintEntriesConcat(before + [e], after);
    PrintEntriesConcat(before, [e]);
    PrintOneEntry(e);
    PrintInfoKey();
    assert PrintEntry(e) == INFO_KEY + Print(info) by {
      PrintEntryIs(e);
    }
  }

  lemma PrintDict(entries: seq<Entry>)
    ensures Print(TDict(entries)) == Before(entries) + [END]
  {}

  lemma PrintEntryIs(e: Entry)
    ensures PrintEntry(e) == PrintStr(e.key) + Print(e.val)
  {}

  lemma PrintOneEntry(e: Entry)
    ensures PrintEntries([e]) == PrintEntry(e)
  {
    hide PrintEntry;
    assert [e][1..] == [];
    assert PrintEntries([]) == [];
  }

  lemma PrintInfoKey()
    ensures PrintStr(INFO) == INFO_KEY
  {
    assert DecimalNat(4) == [52];
  }

  /** No `4:info` starts inside the entries before the top-level one, not even across its key. */
  predicate NoEarlierKey(before: seq<Entry>) {
    Find(Before(before) + INFO_KEY[..5], INFO_KEY).None?
  }

  lemma FirstKeyIsTop(before: seq<Entry>, info: Tree, after: seq<Entry>)
    ensures NoEarlierKey(before) <==> Find(Print(MetaTree(before, info, after)), INFO_KEY) == Some(|Before(before)|)
  {
    hide Print, Before;
    var raw := Print(MetaTree(before, info, after));
    var front := Before(before) + INFO_KEY[..5];
    MetaText(before, info, after);
    assert raw[..|front|] == front;
    assert OccursAt(raw, INFO_KEY, |Before(before)|);
    forall j: nat | j < |Before(before)| ensures OccursAt(raw, INFO_KEY, j) <==> OccursAt(front, INFO_KEY, j) {
      assert raw[j..j + 6] == front[j..j + 6];
    }
  }

  /**
   When the first `4:info` is the top-level key, exactly the text of the info value is hashed, so
   no other top-level entry can change the info hash.
   */
  lemma InfoSliceIsInfo(before: seq<Entry>, info: Tree, after: seq<Entry>)
    requires NoEarlierKey(before)
    ensures InfoSlice(Print(MetaTree(before, info, after))) == Ok(Print(info))
  {
    hide Print, Before, ParseNext, NoEarlierKey;
    var raw := Print(MetaTree(before, info, after));
    var p := |Before(before)|;
    FirstKeyIsTop(before, info, after);
    MetaText(before, info, after);
    var rest := PrintEntries(after) + [END];
    hide MetaTree, PrintEntries;
    assert raw == Before(before) + INFO_KEY + (Print(info) + rest);
    assert raw[p + 6..] == Print(info) + rest;
    ParsePrint(info, rest);
  }

  /** In general the info text is hashed exactly when it is what follows the first `4:info`. */
  lemma InfoSliceExact(before: seq<Entry>, info: Tree, after: seq<Entry>)
    ensures var raw := Print(MetaTree(before, info, after));
            Find(raw, INFO_KEY).Some?
            && (InfoSlice(raw) == Ok(Print(info)) <==> Print(info) <= raw[Find(raw, INFO_KEY).value + 6..])
  {
    hide Print, Before, ParseNext;
    var raw := Print(MetaTree(before, info, after));
    MetaText(before, info, after);
    assert OccursAt(raw, INFO_KEY, |Before(before)|);
    var rest := raw[Find(raw, INFO_KEY).value + 6..];
    if Print(info) <= rest {
      ParsePrint(info, rest[|Print(info)|..]);
      assert rest == Print(info) + rest[|Print(info)|..];
    }
  }

  const ANNOUNCE: Bytes := [97, 110, 110, 111, 117, 110, 99, 101]  // b"announce"
  const HIDDEN: Bytes := [52, 58, 105, 110, 102, 111, 105, 49, 101]  // b"4:infoi1e"

  /**
   With the announce value `4:infoi1e`, the integer inside that string is hashed instead, whatever the
   info dictionary and the later entries are.
   */
  lemma InfoSliceMisled(info: Tree, after: seq<Entry>)
    ensures var before := [Entry(ANNOUNCE, TStr(HIDDEN))];
            !NoEarlierKey(before) && InfoSlice(Print(MetaTree(before, info, after))) == Ok([105, 49, 101])
    ensures info.TDict? ==> Print(info) != [105, 49, 101]
  {
    hide Print, Before, PrintEntries, ParseNext, Find;
    var before := [Entry(ANNOUNCE, TStr(HIDDEN))];
    var raw := Print(MetaTree(before, info, after));
    MisledText();
    MetaText(before, info, after);
    FirstKeyIsTop(before, info, after);
    hide MetaTree, OccursAt, NoEarlierKey;
    var rest := INFO_KEY + Print(info) + PrintEntries(after) + [END];
    assert raw == ANNOUNCED + INFO_KEY + ([105, 49, 101] + rest);
    FindInAnnounce([105, 49, 101] + rest);
    PrintSmall();
    assert raw[19..] == Print(TInt(1)) + rest;
    ParsePrint(TInt(1), rest);
    if info.TDict? {
      DictIsNoInt(info.entries);
    }
  }

  const ANNOUNCED: Bytes := [100, 56, 58, 97, 110, 110, 111, 117, 110, 99, 101, 57, 58]  // b"d8:announce9:"

  lemma OtherStart(s: Bytes, j: nat)
    requires j < |s| && s[j] != INFO_KEY[0]
    ensures !OccursAt(s, INFO_KEY, j)
  {
    if j + 6 <= |s| {
      assert s[j..j + 6][0] == s[j];
    }
  }

  lemma FindInAnnounce(rest: Bytes)
    ensures Find(ANNOUNCED + INFO_KEY + rest, INFO_KEY) == Some(13)
  {
    hide Find;
    var raw := ANNOUNCED + INFO_KEY + rest;
    assert OccursAt(raw, INFO_KEY, 13);
    hide OccursAt;
    forall j: nat | j < 13 ensures !OccursAt(raw, INFO_KEY, j) {
      assert raw[j] == ANNOUNCED[j];
      OtherStart(raw, j);
    }
    FindFirst(raw, INFO_KEY, 13);
  }

  lemma DictIsNoInt(entries: seq<Entry>)
    ensures Print(TDict(entries)) != [105, 49, 101]
  {
    assert Print(TDict(entries))[0] == DICT_START;
  }

  lemma FindFirst(s: Bytes, pattern: Bytes, i: nat)
    requires OccursAt(s, pattern, i) && forall j: nat :: j < i ==> !OccursAt(s, pattern, j)
    ensures Find(s, pattern) == Some(i)
  {}

  lemma PrintSmall()
    ensures Print(TInt(1)) == [105, 49, 101]
  {
    assert DecimalNat(1) == [49];
  }

  lemma MisledText()
    ensures Before([Entry(ANNOUNCE, TStr(HIDDEN))]) == ANNOUNCED + HIDDEN
  {
    hide Print, PrintEntries, PrintEntry, Decimal;
    var e := Entry(ANNOUNCE, TStr(HIDDEN));
    OneDigit();
    assert PrintStr(ANNOUNCE) == [56] + [COLON] + ANNOUNCE && PrintStr(HIDDEN) == [57] + [COLON] + HIDDEN;
    hide PrintStr;
    PrintEntryIs(e);
    PrintText(HIDDEN);
    PrintOneEntry(e);
  }

  lemma OneDigit()
    ensures Decimal(8) == [56] && Decimal(9) == [57]
  {
    assert DecimalNat(8) == [56] && DecimalNat(9) == [57];
  }

  lemma PrintText(s: Bytes)
    ensures Print(TStr(s)) == PrintStr(s)
  {}

  /** On any bytes: the key is the text `4:info`, and the item right after its first occurrence is hashed. */
  lemma InfoSliceBytes(front: Bytes, info: Tree, rest: Bytes)
    ensures var key := [52, 58, 105, 110, 102, 111];
            var raw := front + key + Print(info) + rest;
            && ((forall j: nat :: j < |front| ==> !OccursAt(raw, key, j)) ==> InfoSlice(raw) == Ok(Print(info)))
            && (InfoSlice(rest) == Err(MissingInfoKey) <==> forall j: nat :: !OccursAt(rest, key, j))
  {
    hide Print, ParseNext, Find;
    var raw := front + INFO_KEY + Print(info) + rest;
    assert raw == front + INFO_KEY + (Print(info) + rest);
    assert OccursAt(raw, INFO_KEY, |front|);
    assert raw[|front| + 6..] == Print(info) + rest;
    ParsePrint(info, rest);
    hide OccursAt;
    if forall j: nat :: j < |front| ==> !OccursAt(raw, INFO_KEY, j) {
      FindFirst(raw, INFO_KEY, |front|);
    }
  }

  // ---------------------------------------------------------------------------
  // The same, for the text the encoder writes
  // ---------------------------------------------------------------------------

  /** The entries the encoder writes before the `info` entry. */
  ghost function EntriesBefore(meta: Value): (es: seq<Entry>)
    requires meta.Dict? && INFO in meta.entries
  {
    CanonEntries(meta, SortedKeys(meta.entries)[..InfoIndex(meta)])
  }

  ghost function InfoIndex(meta: Value): (i: nat)
    requires meta.Dict? && INFO in meta.entries
    ensures i < |SortedKeys(meta.entries)| && SortedKeys(meta.entries)[i] == INFO
  {
    var i: nat :| i < |SortedKeys(meta.entries)| && SortedKeys(meta.entries)[i] == INFO;
    i
  }

  lemma {:induction false} CanonEntriesAt(v: Value, keys: seq<Bytes>, i: nat)
    requires v.Dict? && (forall k :: k in keys ==> k in v.entries) && i < |keys|
    ensures CanonEntries(v, keys)[i] == Entry(keys[i], Canon(v.entries[keys[i]]))
    ensures CanonEntries(v, keys)[..i] == CanonEntries(v, keys[..i])
    decreases |keys|
  {
    hide Canon;
    var last := |keys| - 1;
    if i < last {
      CanonEntriesAt(v, keys[..last], i);
      assert keys[..last][..i] == keys[..i];
    }
  }

  lemma CanonEntriesSplit(v: Value, keys: seq<Bytes>, i: nat)
    requires v.Dict? && (forall k :: k in keys ==> k in v.entries) && i < |keys|
    ensures CanonEntries(v, keys)
         == CanonEntries(v, keys[..i]) + [Entry(keys[i], Canon(v.entries[keys[i]]))] + CanonEntries(v, keys)[i + 1..]
  {
    hide Canon, CanonEntries;
    CanonEntriesAt(v, keys, i);
  }

  /** The info hash of an encoded metainfo is the hash of `encode(meta[b"info"])`. */
  lemma InfoHashOfEncoded(meta: Value)
    requires meta.Dict? && INFO in meta.entries
    requires NoEarlierKey(EntriesBefore(meta))
    ensures InfoSlice(Encode(meta)) == Ok(Encode(meta.entries[INFO]))
  {
    hide Print, NoEarlierKey, InfoSlice, CanonEntries;
    var keys := SortedKeys(meta.entries);
    var i := InfoIndex(meta);
    CanonEntriesSplit(meta, keys, i);
    InfoSliceIsInfo(EntriesBefore(meta), Canon(meta.entries[INFO]), CanonEntries(meta, keys)[i + 1..]);
  }

  // ---------------------------------------------------------------------------
  // Piece hashes
  // ---------------------------------------------------------------------------

  /** `info.pieces` cut into digests; the parser refuses a length that is not a multiple of 20. */
  function PieceHashes(pieces: Bytes): (r: Result<seq<Bytes>, TorrentError>)
    ensures r.Ok? <==> |pieces| % 20 == 0
    ensures r.Ok? ==> Join(r.value) == pieces && forall h :: h in r.value ==> |h| == 20
  {
    if |pieces| % DIGEST_LENGTH != 0 then
      Err(PiecesNotAligned)
    else if pieces == [] then
      Ok([])
    else
      var last := |pieces| - DIGEST_LENGTH;
      var front := PieceHashes(pieces[..last]);
      JoinAppend(front.value, pieces[last..]);
      Ok(front.value + [pieces[last..]])
  }
}
