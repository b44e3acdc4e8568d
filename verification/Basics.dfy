/** Bytes, results and the substring search shared by every component. */
module Basics {
  type byte = x: int | 0 <= x < 256

  type Bytes = seq<byte>

  /** SHA-1 is never unfolded: it is any function on byte strings. */
  type Hash = Bytes -> Bytes

  const BLOCK_SIZE: nat := 16384

  datatype Option<+T> = None | Some(value: T)

  datatype Result<+T, +E> = Ok(value: T) | Err(error: E)

  function Min(a: int, b: int): int {
    if a <= b then a else b
  }

  function Max(a: int, b: int): int {
    if a <= b then b else a
  }

  function Zeros(n: nat): (z: Bytes)
    ensures |z| == n
  {
    seq(n, _ => 0)
  }

  /** `b"".join(parts)`. */
  function Join(parts: seq<Bytes>): Bytes {
    if parts == [] then [] else Join(parts[..|parts| - 1]) + parts[|parts| - 1]
  }

  lemma JoinEmpty()
    ensures Join([]) == []
  {}

  lemma JoinAppend(parts: seq<Bytes>, part: Bytes)
    ensures Join(parts + [part]) == Join(parts) + part
  {
    assert (parts + [part])[..|parts|] == parts;
  }

  lemma {:induction false} JoinConcat(a: seq<Bytes>, b: seq<Bytes>)
    ensures Join(a + b) == Join(a) + Join(b)
  {
    hide Join;
    if b == [] {
      assert a + b == a;
      JoinEmpty();
    } else {
      var front, last := b[..|b| - 1], b[|b| - 1];
      JoinConcat(a, front);
      JoinAppend(a + front, last);
      JoinAppend(front, last);
      assert b == front + [last] && a + b == a + front + [last];
    }
  }

  lemma JoinSplit(parts: seq<Bytes>, k: nat)
    requires k < |parts|
    ensures Join(parts) == Join(parts[..k]) + parts[k] + Join(parts[k + 1..])
  {
    hide Join;
    var front, back := parts[..k], parts[k + 1..];
    JoinAppend(front, parts[k]);
    JoinConcat(front + [parts[k]], back);
    SplitAt(parts, k);
  }

  lemma SplitAt<T>(s: seq<T>, k: nat)
    requires k < |s|
    ensures s == s[..k] + [s[k]] + s[k + 1..]
  {}

  lemma SliceOfSlice<T>(s: seq<T>, a: nat, b: nat, c: nat)
    requires a + b <= a + c <= |s|
    ensures s[a..][b..c] == s[a + b..a + c]
  {}

  lemma SliceJoin<T>(s: seq<T>, a: nat, b: nat, c: nat)
    requires a <= b <= c <= |s|
    ensures s[a..c] == s[a..b] + s[b..c]
  {}

  predicate OccursAt(s: Bytes, pattern: Bytes, i: nat) {
    i + |pattern| <= |s| && s[i..i + |pattern|] == pattern
  }

  /** `bytes.find`: the first position of `pattern`, or None where Python answers -1. */
  function Find(s: Bytes, pattern: Bytes): (r: Option<nat>)
    ensures r.Some? ==> OccursAt(s, pattern, r.value) && forall j: nat :: j < r.value ==> !OccursAt(s, pattern, j)
    ensures r.None? ==> forall j: nat :: !OccursAt(s, pattern, j)
  {
    if OccursAt(s, pattern, 0) then
      Some(0)
    else if s == [] then
      None
    else
      match Find(s[1..], pattern)
      case None =>
        OccursAtTails(s, pattern);
        None
      case Some(p) =>
        OccursAtTails(s, pattern);
        Some(p + 1)
  }

  lemma OccursAtTail(s: Bytes, pattern: Bytes, j: nat)
    requires 0 < j && s != []
    ensures OccursAt(s, pattern, j) <==> OccursAt(s[1..], pattern, j - 1)
  {
    if j + |pattern| <= |s| {
      assert s[j..j + |pattern|] == s[1..][j - 1..j - 1 + |pattern|];
    }
  }

  lemma OccursAtTails(s: Bytes, pattern: Bytes)
    requires s != []
    ensures forall j: nat {:trigger OccursAt(s, pattern, j)} :: 0 < j ==> (OccursAt(s, pattern, j) <==> OccursAt(s[1..], pattern, j - 1))
    ensures forall j: nat {:trigger OccursAt(s[1..], pattern, j)} :: OccursAt(s, pattern, j + 1) <==> OccursAt(s[1..], pattern, j)
  {
    forall j: nat | 0 < j ensures OccursAt(s, pattern, j) <==> OccursAt(s[1..], pattern, j - 1) {
      OccursAtTail(s, pattern, j);
    }
    forall j: nat ensures OccursAt(s, pattern, j + 1) <==> OccursAt(s[1..], pattern, j) {
      OccursAtTail(s, pattern, j + 1);
    }
  }

  lemma SmallerSet<T>(a: set<T>, b: set<T>)
    requires a <= b
    ensures |a| <= |b|
    ensures a != b ==> |a| < |b|
  {
    assert b == a + (b - a);
    assert a != b ==> b - a != {};
  }
}
