/**
 The bencoding grammar of BEP 3. A `Tree` is the concrete syntax of one item: its dictionaries
 keep every entry in the order written. `Print` gives the text of a tree, `ParseNext` follows the
 decoder's branches, and the lemmas show that each undoes the other.
 */
module Bencode {
  import opened Basics
  import opened Numerals

  const INT_START: byte := 105   // 'i'
  const LIST_START: byte := 108  // 'l'
  const DICT_START: byte := 100  // 'd'
  const END: byte := 101         // 'e'
  const COLON: byte := 58        // ':'

  datatype Tree =
    | TInt(i: int)
    | TStr(s: Bytes)
    | TList(items: seq<Tree>)
    | TDict(entries: seq<Entry>)

  datatype Entry = Entry(key: Bytes, val: Tree)

  datatype DecodeError =
    | UnexpectedEof
    | DelimiterNotFound
    | EmptyInteger
    | NegativeZero
    | LeadingZero
    | InvalidInteger
    | InvalidLength
    | NegativeLength
    | StringTooLong
    | InvalidToken
    | KeyNotString
    | UnconsumedData

  // ---------------------------------------------------------------------------
  // Printing
  // ---------------------------------------------------------------------------

  function PrintStr(s: Bytes): Bytes {
    Decimal(|s|) + [COLON] + s
  }

  function Print(t: Tree): Bytes
    decreases t, 1
  {
    match t
    case TInt(i) => [INT_START] + Decimal(i) + [END]
    case TStr(s) => PrintStr(s)
    case TList(items) => [LIST_START] + PrintItems(items) + [END]
    case TDict(entries) => [DICT_START] + PrintEntries(entries) + [END]
  }

  function PrintItems(items: seq<Tree>): Bytes
    decreases items, 0
  {
    if items == [] then [] else Print(items[0]) + PrintItems(items[1..])
  }

  function PrintEntries(entries: seq<Entry>): Bytes
    decreases entries, 0
  {
    if entries == [] then
      []
    else
      PrintEntry(entries[0]) + PrintEntries(entries[1..])
  }

  function PrintEntry(entry: Entry): Bytes
    decreases entry, 2
  {
    PrintStr(entry.key) + Print(entry.val)
  }

  // ---------------------------------------------------------------------------
  // Parsing: each function reads from the front of `s` and answers how much it used
  // ---------------------------------------------------------------------------

  datatype Parsed<+T> = Parsed(value: T, used: nat)

  function ParseInt(s: Bytes): (r: Result<Parsed<int>, DecodeError>)
    requires s != []
    ensures r.Ok? ==> 0 < r.value.used <= |s|
  {
    match Find(s[1..], [END])
    case None => Err(DelimiterNotFound)
    case Some(p) =>
      var raw := s[1..][..p];
      if raw == [] then Err(EmptyInteger)
      else if raw == [MINUS, ZERO] then Err(NegativeZero)
      else if |raw| > 1 && raw[0] == ZERO then Err(LeadingZero)
      else if |raw| > 2 && raw[..2] == [MINUS, ZERO] then Err(LeadingZero)
      else
        match PyInt(raw)
        case None => Err(InvalidInteger)
        case Some(i) => Ok(Parsed(i, p + 2))
  }

  function ParseStr(s: Bytes): (r: Result<Parsed<Bytes>, DecodeError>)
    ensures r.Ok? ==> 0 < r.value.used <= |s|
  {
    match Find(s, [COLON])
    case None => Err(DelimiterNotFound)
    case Some(p) =>
      var raw := s[..p];
      if |raw| > 1 && raw[0] == ZERO then Err(LeadingZero)
      else
        match PyInt(raw)
        case None => Err(InvalidLength)
        case Some(length) =>
          if length < 0 then Err(NegativeLength)
          else if p + 1 + length > |s| then Err(StringTooLong)
          else Ok(Parsed(s[p + 1..p + 1 + length], p + 1 + length))
  }

  function ParseNext(s: Bytes): (r: Result<Parsed<Tree>, DecodeError>)
    ensures r.Ok? ==> 0 < r.value.used <= |s|
    decreases |s|, 0
  {
    if s == [] then
      Err(UnexpectedEof)
    else if s[0] == INT_START then
      match ParseInt(s)
      case Err(e) => Err(e)
      case Ok(p) => Ok(Parsed(TInt(p.value), p.used))
    else if s[0] == LIST_START then
      match ParseItems(s[1..])
      case Err(e) => Err(e)
      case Ok(p) => Ok(Parsed(TList(p.value), 1 + p.used))
    else if s[0] == DICT_START then
      match ParseEntries(s[1..])
      case Err(e) => Err(e)
      case Ok(p) => Ok(Parsed(TDict(p.value), 1 + p.used))
    else if IsDigit(s[0]) then
      match ParseStr(s)
      case Err(e) => Err(e)
      case Ok(p) => Ok(Parsed(TStr(p.value), p.used))
    else
      Err(InvalidToken)
  }

  /** List items up to and including the closing `e`. */
  function ParseItems(s: Bytes): (r: Result<Parsed<seq<Tree>>, DecodeError>)
    ensures r.Ok? ==> 0 < r.value.used <= |s|
    decreases |s|, 1
  {
    if s == [] then
      Err(UnexpectedEof)
    else if s[0] == END then
      Ok(Parsed([], 1))
    else
      match ParseNext(s)
      case Err(e) => Err(e)
      case Ok(p) =>
        match ParseItems(s[p.used..])
        case Err(e) => Err(e)
        case Ok(q) => Ok(Parsed([p.value] + q.value, p.used + q.used))
  }

  /** Dictionary entries up to and including the closing `e`. */
  function ParseEntries(s: Bytes): (r: Result<Parsed<seq<Entry>>, DecodeError>)
    ensures r.Ok? ==> 0 < r.value.used <= |s|
    decreases |s|, 2
  {
    if s == [] then
      Err(UnexpectedEof)
    else if s[0] == END then
      Ok(Parsed([], 1))
    else
      match ParseEntry(s)
      case Err(e) => Err(e)
      case Ok(p) =>
        match ParseEntries(s[p.used..])
        case Err(e) => Err(e)
        case Ok(q) => Ok(Parsed([p.value] + q.value, p.used + q.used))
  }

  function ParseEntry(s: Bytes): (r: Result<Parsed<Entry>, DecodeError>)
    requires s != []
    ensures r.Ok? ==> 0 < r.value.used <= |s|
    decreases |s|, 1
  {
    if !IsDigit(s[0]) then
      Err(KeyNotString)
    else
      match ParseStr(s)
      case Err(e) => Err(e)
      case Ok(k) =>
        match ParseNext(s[k.used..])
        case Err(e) => Err(e)
        case Ok(v) => Ok(Parsed(Entry(k.value, v.value), k.used + v.used))
  }

  // ---------------------------------------------------------------------------
  // Parsing inverts printing, whatever follows
  // ---------------------------------------------------------------------------

  lemma FindDelimiter(front: Bytes, d: byte, rest: Bytes)
    requires d !in front
    ensures Find(front + [d] + rest, [d]) == Some(|front|)
  {
    var s := front + [d] + rest;
    assert OccursAt(s, [d], |front|);
    forall j: nat | j < |front| ensures !OccursAt(s, [d], j) {
      assert s[j..j + 1][0] == front[j];
    }
  }

  lemma ParseIntPrint(i: int, rest: Bytes)
    ensures ParseInt([INT_START] + Decimal(i) + [END] + rest) == Ok(Parsed(i, |Decimal(i)| + 2))
  {
    var s := [INT_START] + Decimal(i) + [END] + rest;
    PyIntDecimal(i);
    assert Decimal(i) != [];
    hide Decimal, PyInt, Find;
    assert s[1..] == Decimal(i) + [END] + rest;
    FindDelimiter(Decimal(i), END, rest);
    hide ParseInt;
    ParseIntFrom(s, Decimal(i));
  }

  /** A numeral that passes the checks is read as its value. */
  lemma ParseIntFrom(s: Bytes, raw: Bytes)
    requires s != [] && raw != [] && raw <= s[1..] && Find(s[1..], [END]) == Some(|raw|) && PyInt(raw).Some?
    requires raw[0] == ZERO ==> |raw| == 1
    requires raw != [MINUS, ZERO] && (|raw| > 2 ==> raw[..2] != [MINUS, ZERO])
    ensures ParseInt(s) == Ok(Parsed(PyInt(raw).value, |raw| + 2))
  {
    hide PyInt, Find;
    assert s[1..][..|raw|] == raw;
  }

  lemma ParseStrPrint(b: Bytes, rest: Bytes)
    ensures PrintStr(b) != [] && IsDigit(PrintStr(b)[0])
    ensures ParseStr(PrintStr(b) + rest) == Ok(Parsed(b, |PrintStr(b)|))
  {
    var n := Decimal(|b|);
    PyIntDecimal(|b|);
    assert IsDigit(n[0]);
    hide Decimal, PyInt, Find;
    assert PrintStr(b) + rest == n + [COLON] + (b + rest);
    FindDelimiter(n, COLON, b + rest);
    assert (PrintStr(b) + rest)[..|n|] == n;
    assert (PrintStr(b) + rest)[|n| + 1..|n| + 1 + |b|] == b;
  }

  lemma PrintStarts(t: Tree)
    ensures Print(t) != [] && Print(t)[0] != END
  {
    match t
    case TStr(s) => ParseStrPrint(s, []);
    case _ =>
  }

  /** The first byte decides how an item is read. */
  lemma ParseByStart(s: Bytes)
    requires s != []
    ensures s[0] == INT_START && ParseInt(s).Ok? ==> ParseNext(s) == Ok(Parsed(TInt(ParseInt(s).value.value), ParseInt(s).value.used))
    ensures s[0] == LIST_START && ParseItems(s[1..]).Ok? ==>
              ParseNext(s) == Ok(Parsed(TList(ParseItems(s[1..]).value.value), 1 + ParseItems(s[1..]).value.used))
    ensures s[0] == DICT_START && ParseEntries(s[1..]).Ok? ==>
              ParseNext(s) == Ok(Parsed(TDict(ParseEntries(s[1..]).value.value), 1 + ParseEntries(s[1..]).value.used))
    ensures IsDigit(s[0]) && ParseStr(s).Ok? ==> ParseNext(s) == Ok(Parsed(TStr(ParseStr(s).value.value), ParseStr(s).value.used))
  {
    hide ParseInt, ParseStr, ParseItems, ParseEntries;
  }

  /** The round trip: reading a printed tree gives the tree and stops exactly at its end. */
  lemma {:induction false} ParsePrint(t: Tree, rest: Bytes)
    ensures ParseNext(Print(t) + rest) == Ok(Parsed(t, |Print(t)|))
    decreases t, 1
  {
    hide ParseInt, ParseStr, PrintStr, Decimal, ParseNext, ParseItems, ParseEntries, IsDigit;
    var s := Print(t) + rest;
    match t
    case TInt(i) =>
      ParseIntPrint(i, rest);
      assert s == [INT_START] + Decimal(i) + [END] + rest;
      ParseByStart(s);
    case TStr(b) =>
      ParseStrPrint(b, rest);
      ParseByStart(s);
    case TList(items) =>
      ParsePrintItems(items, rest);
      assert s == [LIST_START] + (PrintItems(items) + [END] + rest);
      ParseByStart(s);
    case TDict(entries) =>
      ParsePrintEntries(entries, rest);
      assert s == [DICT_START] + (PrintEntries(entries) + [END] + rest);
      ParseByStart(s);
  }

  lemma {:induction false} ParsePrintItems(items: seq<Tree>, rest: Bytes)
    ensures ParseItems(PrintItems(items) + [END] + rest) == Ok(Parsed(items, |PrintItems(items)| + 1))
    decreases items, 0
  {
    hide ParseInt, ParseStr, PrintStr, Decimal, IsDigit;
    var s := PrintItems(items) + [END] + rest;
    if items != [] {
      var first := Print(items[0]);
      var tail := PrintItems(items[1..]) + [END] + rest;
      PrintStarts(items[0]);
      assert s == first + tail;
      ParsePrint(items[0], tail);
      assert s[|first|..] == tail;
      ParsePrintItems(items[1..], rest);
      assert items == [items[0]] + items[1..];
    }
  }

  lemma {:induction false} ParsePrintEntries(entries: seq<Entry>, rest: Bytes)
    ensures ParseEntries(PrintEntries(entries) + [END] + rest) == Ok(Parsed(entries, |PrintEntries(entries)| + 1))
    decreases entries, 0
  {
    hide ParseInt, ParseStr, PrintStr, Decimal;
    var s := PrintEntries(entries) + [END] + rest;
    if entries != [] {
      var first := PrintEntry(entries[0]);
      var tail := PrintEntries(entries[1..]) + [END] + rest;
      ParseStrPrint(entries[0].key, []);
      assert s == first + tail;
      ParsePrintEntry(entries[0], tail);
      assert s[|first|..] == tail;
      ParsePrintEntries(entries[1..], rest);
      assert entries == [entries[0]] + entries[1..];
    }
  }

  lemma {:induction false} ParsePrintEntry(entry: Entry, rest: Bytes)
    ensures PrintEntry(entry) != []
    ensures ParseEntry(PrintEntry(entry) + rest) == Ok(Parsed(entry, |PrintEntry(entry)|))
    decreases entry, 2
  {
    hide ParseInt, ParseStr, PrintStr, Decimal, IsDigit;
    var key := PrintStr(entry.key);
    var val := Print(entry.val);
    ParseStrPrint(entry.key, val + rest);
    var s := PrintEntry(entry) + rest;
    assert s == key + (val + rest);
    assert s[|key|..] == val + rest;
    ParsePrint(entry.val, rest);
  }

  // ---------------------------------------------------------------------------
  // Printing inverts parsing: everything accepted is the text of its tree
  // ---------------------------------------------------------------------------

  /** What an accepted integer looks like. */
  lemma ParseIntParts(s: Bytes) returns (raw: Bytes)
    requires s != [] && ParseInt(s).Ok?
    ensures |raw| + 2 <= |s| && raw == s[1..|raw| + 1] && s[|raw| + 1] == END
    ensures PyInt(raw).Some? && ParseInt(s).value == Parsed(PyInt(raw).value, |raw| + 2)
    ensures |raw| > 1 ==> raw[0] != ZERO && raw[..2] != [MINUS, ZERO]
  {
    hide PyInt;
    var p := Find(s[1..], [END]).value;
    assert s[1..][p..p + 1][0] == s[p + 1];
    raw := s[1..][..p];
  }

  lemma ParseIntReprint(s: Bytes)
    requires s != [] && s[0] == INT_START && ParseInt(s).Ok?
    ensures s[..ParseInt(s).value.used] == [INT_START] + Decimal(ParseInt(s).value.value) + [END]
  {
    hide ParseInt, PyInt, Decimal;
    var raw := ParseIntParts(s);
    PyIntReprint(raw);
    assert s[..|raw| + 2] == [INT_START] + raw + [END];
  }

  lemma ParseStrReprint(s: Bytes)
    requires s != [] && IsDigit(s[0]) && ParseStr(s).Ok?
    ensures s[..ParseStr(s).value.used] == PrintStr(ParseStr(s).value.value)
  {
    hide Decimal;
    var p := Find(s, [COLON]).value;
    var raw := s[..p];
    var length := PyInt(raw).value;
    assert raw != [] && raw[0] == s[0];
    PyIntReprint(raw);
    hide PyInt;
    assert s[p..p + 1] == [COLON];
    assert s[..p + 1 + length] == raw + [COLON] + s[p + 1..p + 1 + length];
  }

  lemma {:induction false} PrintParse(s: Bytes)
    requires ParseNext(s).Ok?
    ensures s[..ParseNext(s).value.used] == Print(ParseNext(s).value.value)
    decreases |s|, 0
  {
    hide ParseInt, ParseStr, PrintStr, Decimal, IsDigit;
    if s[0] == INT_START {
      ParseIntReprint(s);
    } else if s[0] == LIST_START {
      PrintParseItems(s[1..]);
      var q := ParseItems(s[1..]).value;
      assert s[..1 + q.used] == [LIST_START] + s[1..][..q.used];
    } else if s[0] == DICT_START {
      PrintParseEntries(s[1..]);
      var q := ParseEntries(s[1..]).value;
      assert s[..1 + q.used] == [DICT_START] + s[1..][..q.used];
    } else {
      ParseStrReprint(s);
    }
  }

  lemma {:induction false} PrintParseItems(s: Bytes)
    requires ParseItems(s).Ok?
    ensures s[..ParseItems(s).value.used] == PrintItems(ParseItems(s).value.value) + [END]
    decreases |s|, 1
  {
    hide ParseInt, ParseStr, PrintStr, Decimal, IsDigit;
    if s[0] != END {
      var p := ParseNext(s).value;
      PrintParse(s);
      PrintParseItems(s[p.used..]);
      var q := ParseItems(s[p.used..]).value;
      assert ([p.value] + q.value)[1..] == q.value;
      assert s[..p.used + q.used] == s[..p.used] + s[p.used..][..q.used];
    }
  }

  lemma {:induction false} PrintParseEntries(s: Bytes)
    requires ParseEntries(s).Ok?
    ensures s[..ParseEntries(s).value.used] == PrintEntries(ParseEntries(s).value.value) + [END]
    decreases |s|, 2
  {
    hide ParseInt, ParseStr, PrintStr, Decimal, IsDigit;
    if s[0] != END {
      var p := ParseEntry(s).value;
      PrintParseEntry(s);
      PrintParseEntries(s[p.used..]);
      var q := ParseEntries(s[p.used..]).value;
      assert ([p.value] + q.value)[1..] == q.value;
      assert s[..p.used + q.used] == s[..p.used] + s[p.used..][..q.used];
    }
  }

  lemma {:induction false} PrintParseEntry(s: Bytes)
    requires s != [] && ParseEntry(s).Ok?
    ensures s[..ParseEntry(s).value.used] == PrintEntry(ParseEntry(s).value.value)
    decreases |s|, 1
  {
    hide ParseInt, ParseStr, PrintStr, Decimal, IsDigit;
    var k := ParseStr(s).value;
    var v := ParseNext(s[k.used..]).value;
    ParseStrReprint(s);
    PrintParse(s[k.used..]);
    assert s[..k.used + v.used] == s[..k.used] + s[k.used..][..v.used];
  }

  // ---------------------------------------------------------------------------
  // Consequences
  // ---------------------------------------------------------------------------

  /** The decoder accepts exactly the texts that begin with some printed tree, and reads that tree. */
  lemma AcceptsExactlyPrints(s: Bytes, t: Tree, n: nat)
    ensures ParseNext(s) == Ok(Parsed(t, n)) <==> n == |Print(t)| && n <= |s| && s[..n] == Print(t)
  {
    hide ParseNext, Print;
    if ParseNext(s) == Ok(Parsed(t, n)) {
      PrintParse(s);
    }
    if n == |Print(t)| && n <= |s| && s[..n] == Print(t) {
      ParsePrint(t, s[n..]);
      assert s == Print(t) + s[n..];
    }
  }

  /** Locality: the outcome of a successful parse depends only on the bytes it used. */
  lemma ParseLocal(s: Bytes, other: Bytes)
    requires ParseNext(s).Ok?
    ensures ParseNext(s[..ParseNext(s).value.used] + other) == ParseNext(s)
  {
    hide ParseNext, Print;
    var p := ParseNext(s).value;
    PrintParse(s);
    ParsePrint(p.value, other);
  }

  /** No printed tree is a proper prefix of another, and printing is injective. */
  lemma PrintPrefixFree(t: Tree, u: Tree, x: Bytes, y: Bytes)
    requires Print(t) + x == Print(u) + y
    ensures t == u && x == y
  {
    hide ParseNext, Print;
    ParsePrint(t, x);
    ParsePrint(u, y);
    assert x == (Print(t) + x)[|Print(t)|..];
  }
}
