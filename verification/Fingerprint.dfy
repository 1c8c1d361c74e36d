/** The fingerprint of a design tree: its inventory (`createDesignTreeInventory`) and its hash (`foldMerkle`). */
module Fingerprint {
  import opened Text

  type Byte = b: int | 0 <= b < 256

  type Bytes = seq<Byte>

  /** One file of a directory walk: its path, and its content or the content's digest. */
  datatype File = File(path: Bytes, content: Bytes)

  datatype Entry = Entry(path: Bytes, sha256: Bytes)

  type Hash = Bytes -> Bytes

  // ----- The framing -----

  const LIMIT: nat := 0x1_0000_0000

  /** `writeUInt32BE`. */
  function U32(n: nat): Bytes
    requires n < LIMIT
  {
    [n / 0x100_0000, n / 0x1_0000 % 0x100, n / 0x100 % 0x100, n % 0x100]
  }

  function EncodeField(value: Bytes): Bytes
    requires |value| < LIMIT
  {
    U32(|value|) + value
  }

  predicate Encodable(entries: seq<Entry>) {
    forall k :: 0 <= k < |entries| ==> |entries[k].path| < LIMIT && |entries[k].sha256| < LIMIT
  }

  /** Each pair as two fields in a row, with no delimiter. */
  function Framed(entries: seq<Entry>): Bytes
    requires Encodable(entries)
  {
    if entries == [] then []
    else EncodeField(entries[0].path) + (EncodeField(entries[0].sha256) + Framed(entries[1..]))
  }

  /** Four bytes, the most significant first. */
  lemma U32IsBigEndian(n: nat)
    requires n < LIMIT
    ensures var b: seq<int> := U32(n); |b| == 4 && n == ((b[0] * 0x100 + b[1]) * 0x100 + b[2]) * 0x100 + b[3]
  {
    var a := n / 0x100;
    var b := a / 0x100;
    assert n / 0x1_0000 == b && n / 0x100_0000 == b / 0x100;
  }

  lemma U32Injective(n: nat, m: nat)
    requires n < LIMIT && m < LIMIT && U32(n) == U32(m)
    ensures n == m
  {
    U32IsBigEndian(n);
    U32IsBigEndian(m);
  }

  /** The framing field by field: length, path, length, digest, and on to the next pair. */
  lemma FramedReads(path: Bytes, digest: Bytes, rest: seq<Entry>)
    requires Encodable([Entry(path, digest)] + rest) && |path| < LIMIT && |digest| < LIMIT && Encodable(rest)
    ensures Framed([]) == []
    ensures Framed([Entry(path, digest)] + rest) == U32(|path|) + path + U32(|digest|) + digest + Framed(rest)
  {
    var entries := [Entry(path, digest)] + rest;
    assert entries[1..] == rest;
    assert Framed(entries) == (U32(|path|) + path) + ((U32(|digest|) + digest) + Framed(rest));
  }

  /** A field ends where its length says, so no field's bytes can be read as a boundary. */
  lemma FieldParses(a: Bytes, rest: Bytes, b: Bytes, rest': Bytes)
    requires |a| < LIMIT && |b| < LIMIT && EncodeField(a) + rest == EncodeField(b) + rest'
    ensures a == b && rest == rest'
  {
    var s, t := EncodeField(a) + rest, EncodeField(b) + rest';
    assert s[..4] == U32(|a|) && t[..4] == U32(|b|);
    U32Injective(|a|, |b|);
    assert s[4..4 + |a|] == a && t[4..4 + |b|] == b;
    assert s[4 + |a|..] == rest && t[4 + |b|..] == rest';
  }

  /** The framing is injective for arbitrary field contents. */
  lemma {:induction false} FramingIsInjective(p: seq<Entry>, q: seq<Entry>)
    requires Encodable(p) && Encodable(q) && Framed(p) == Framed(q)
    ensures p == q
  {
    if p != [] && q != [] {
      FieldParses(p[0].path, EncodeField(p[0].sha256) + Framed(p[1..]),
                  q[0].path, EncodeField(q[0].sha256) + Framed(q[1..]));
      FieldParses(p[0].sha256, Framed(p[1..]), q[0].sha256, Framed(q[1..]));
      FramingIsInjective(p[1..], q[1..]);
      assert p == [p[0]] + p[1..] && q == [q[0]] + q[1..];
    }
  }

  // ----- The inventory -----

  /** The order the paths are sorted by. */
  predicate Less(a: Bytes, b: Bytes) {
    b != [] && (a == [] || a[0] < b[0] || (a[0] == b[0] && Less(a[1..], b[1..])))
  }

  lemma {:induction false} LessIsTotal(a: Bytes, b: Bytes)
    ensures Less(a, b) || Less(b, a) || a == b
    ensures !(Less(a, b) && Less(b, a)) && !Less(a, a)
  {
    if a != [] && b != [] {
      LessIsTotal(a[1..], b[1..]);
      assert a == [a[0]] + a[1..] && b == [b[0]] + b[1..];
    }
    if a != [] {
      LessIsTotal(a[1..], a[1..]);
    }
  }

  /** Two paths first differ at `k`, where the one ends or has the smaller byte. */
  ghost predicate DifferAt(a: Bytes, b: Bytes, k: nat) {
    k < |b| && k <= |a| && a[..k] == b[..k] && (k == |a| || a[k] < b[k])
  }

  lemma {:induction false} LessDiffers(a: Bytes, b: Bytes) returns (k: nat)
    requires Less(a, b)
    ensures DifferAt(a, b, k)
  {
    k := 0;
    if a != [] && a[0] == b[0] {
      k := LessDiffers(a[1..], b[1..]);
      assert a[..k + 1] == [a[0]] + a[1..][..k] && b[..k + 1] == [b[0]] + b[1..][..k];
      k := k + 1;
    }
  }

  lemma {:induction false} DifferIsLess(a: Bytes, b: Bytes, k: nat)
    requires DifferAt(a, b, k)
    ensures Less(a, b)
    decreases k
  {
    if k > 0 {
      assert a[..k][0] == a[0] && b[..k][0] == b[0];
      assert a[1..][..k - 1] == a[..k][1..] && b[1..][..k - 1] == b[..k][1..];
      DifferIsLess(a[1..], b[1..], k - 1);
    }
  }

  /** The order is that of the first byte in which two paths differ, a path coming before its extensions. */
  lemma LessIsLexicographic(a: Bytes, b: Bytes)
    ensures Less(a, b) <==> exists k: nat :: DifferAt(a, b, k)
  {
    if Less(a, b) {
      var k := LessDiffers(a, b);
    }
    if k: nat :| DifferAt(a, b, k) {
      DifferIsLess(a, b, k);
    }
  }

  lemma {:induction false} LessIsTransitive(a: Bytes, b: Bytes, c: Bytes)
    requires Less(a, b) && Less(b, c)
    ensures Less(a, c)
  {
    if a != [] && a[0] == b[0] && b[0] == c[0] {
      LessIsTransitive(a[1..], b[1..], c[1..]);
    }
  }

  function Insert(sorted: seq<Entry>, e: Entry): seq<Entry> {
    if sorted == [] || Less(e.path, sorted[0].path) then [e] + sorted else [sorted[0]] + Insert(sorted[1..], e)
  }

  /** `[...files].sort(...)`. */
  function Sort(entries: seq<Entry>): seq<Entry> {
    if entries == [] then [] else Insert(Sort(entries[..|entries| - 1]), entries[|entries| - 1])
  }

  predicate Duplicated(entries: seq<Entry>) {
    exists j, k :: 0 <= j < k < |entries| && entries[j].path == entries[k].path
  }

  /** `createDesignTreeInventory`: sorted by path, or refused over a path listed twice. */
  function Inventory(entries: seq<Entry>): Option<seq<Entry>> {
    if Duplicated(entries) then None else Some(Sort(entries))
  }

  method CreateDesignTreeInventory(entries: seq<Entry>) returns (r: Option<seq<Entry>>)
    ensures r == Inventory(entries)
  {
    var seen: set<Bytes> := {};
    for k := 0 to |entries|
      invariant seen == set j | 0 <= j < k :: entries[j].path
      invariant forall i, j :: 0 <= i < j < k ==> entries[i].path != entries[j].path
    {
      if entries[k].path in seen {
        return None;
      }
      seen := seen + {entries[k].path};
    }
    return Some(Sort(entries));
  }

  // ----- The inventory does not depend on the order of the walk -----

  ghost predicate Sorted(entries: seq<Entry>) {
    forall i, j :: 0 <= i < j < |entries| ==> Less(entries[i].path, entries[j].path)
  }

  lemma {:induction false} InsertSorts(sorted: seq<Entry>, e: Entry)
    requires Sorted(sorted) && forall k :: 0 <= k < |sorted| ==> sorted[k].path != e.path
    ensures Sorted(Insert(sorted, e))
    ensures forall x :: x in Insert(sorted, e) <==> x in sorted || x == e
  {
    if sorted != [] {
      if Less(e.path, sorted[0].path) {
        forall k | 0 < k < |sorted|
          ensures Less(e.path, sorted[k].path)
        {
          LessIsTransitive(e.path, sorted[0].path, sorted[k].path);
        }
      } else {
        var rest := Insert(sorted[1..], e);
        InsertSorts(sorted[1..], e);
        LessIsTotal(e.path, sorted[0].path);
        forall k | 0 <= k < |rest|
          ensures Less(sorted[0].path, rest[k].path)
        {
          assert rest[k] in rest;
          if rest[k] != e {
            var i :| 0 <= i < |sorted[1..]| && sorted[1..][i] == rest[k];
            assert sorted[i + 1] == rest[k];
          }
        }
        assert sorted == [sorted[0]] + sorted[1..];
      }
    }
  }

  lemma {:induction false} SortSorts(entries: seq<Entry>)
    requires !Duplicated(entries)
    ensures Sorted(Sort(entries))
    ensures forall x :: x in Sort(entries) <==> x in entries
  {
    if entries != [] {
      var m := |entries| - 1;
      var front, sorted := entries[..m], Sort(entries[..m]);
      assert forall k :: 0 <= k < m ==> front[k] == entries[k];
      SortSorts(front);
      forall k | 0 <= k < |sorted|
        ensures sorted[k].path != entries[m].path
      {
        assert sorted[k] in sorted;
        var i :| 0 <= i < |front| && front[i] == sorted[k];
        assert entries[i] == sorted[k];
      }
      InsertSorts(sorted, entries[m]);
      assert entries == front + [entries[m]];
    }
  }

  /** Two sorted inventories of the same entries are the same inventory. */
  lemma {:induction false} SortedIsCanonical(p: seq<Entry>, q: seq<Entry>)
    requires Sorted(p) && Sorted(q) && forall e :: e in p <==> e in q
    ensures p == q
  {
    assert p != [] ==> p[0] in q;
    assert q != [] ==> q[0] in p;
    if p != [] {
      var j :| 0 <= j < |q| && q[j] == p[0];
      var i :| 0 <= i < |p| && p[i] == q[0];
      LessIsTotal(p[0].path, q[0].path);
      assert p[0] == q[0];
      TailMembers(p);
      TailMembers(q);
      SortedIsCanonical(p[1..], q[1..]);
      assert p == [p[0]] + p[1..] && q == [q[0]] + q[1..];
    }
  }

  lemma TailMembers(p: seq<Entry>)
    requires Sorted(p) && p != []
    ensures forall e :: e in p[1..] <==> e in p && e != p[0]
  {
    forall e
      ensures e in p[1..] <==> e in p && e != p[0]
    {
      if e in p[1..] {
        var k :| 0 <= k < |p[1..]| && p[1..][k] == e;
        assert p[k + 1] == e;
        LessIsTotal(p[0].path, e.path);
      }
    }
  }

  // ----- The fingerprint -----

  /** What one walk of a tree read. */
  type Listing = seq<File>

  function Entries(sha: Hash, files: Listing): (entries: seq<Entry>)
    ensures |entries| == |files|
    ensures forall k :: 0 <= k < |files| ==> entries[k] == Entry(files[k].path, sha(files[k].content))
  {
    seq(|files|, k requires 0 <= k < |files| => Entry(files[k].path, sha(files[k].content)))
  }

  /** Digests are lowercase hexadecimal and of the length the framing can carry. */
  ghost predicate HexDigest(sha: Hash) {
    forall b :: |sha(b)| < LIMIT && (forall k :: 0 <= k < |sha(b)| ==> sha(b)[k] != 32)
  }

  /** No two of these inputs have the same digest. */
  ghost predicate NoCollisions(sha: Hash, hashed: set<Bytes>) {
    forall a, b :: a in hashed && b in hashed && sha(a) == sha(b) ==> a == b
  }

  ghost predicate ShortPaths(files: Listing) {
    forall k :: 0 <= k < |files| ==> |files[k].path| < LIMIT
  }

  lemma InventoryEncodes(sha: Hash, files: Listing)
    requires HexDigest(sha) && ShortPaths(files) && !Duplicated(Entries(sha, files))
    ensures Encodable(Sort(Entries(sha, files)))
  {
    var entries, sorted := Entries(sha, files), Sort(Entries(sha, files));
    SortSorts(entries);
    forall k | 0 <= k < |sorted|
      ensures |sorted[k].path| < LIMIT && |sorted[k].sha256| < LIMIT
    {
      assert sorted[k] in sorted;
      var i :| 0 <= i < |entries| && entries[i] == sorted[k];
    }
  }

  /** `fingerprintTree`, up to the constant prefix in front of what is hashed. */
  function FingerprintOf(sha: Hash, prefix: Bytes, files: Listing): Option<Bytes>
    requires HexDigest(sha) && ShortPaths(files)
  {
    match Inventory(Entries(sha, files))
    case None => None
    case Some(inventory) =>
      InventoryEncodes(sha, files);
      Some(sha(prefix + [0] + Framed(inventory)))
  }

  /** What is hashed to fingerprint one walk: every file's content, and the framed inventory. */
  function HashedFor(sha: Hash, prefix: Bytes, files: Listing): set<Bytes>
    requires HexDigest(sha) && ShortPaths(files)
  {
    (set f | f in files :: f.content) +
    match Inventory(Entries(sha, files))
    case None => {}
    case Some(inventory) =>
      InventoryEncodes(sha, files);
      {prefix + [0] + Framed(inventory)}
  }

  /** The same files, whatever the order they were listed in. */
  ghost predicate SameTree(a: Listing, b: Listing) {
    forall f :: f in a <==> f in b
  }

  lemma EntryMembers(sha: Hash, files: Listing, e: Entry)
    ensures e in Entries(sha, files) <==> exists f :: f in files && e == Entry(f.path, sha(f.content))
  {
    var entries := Entries(sha, files);
    if e in entries {
      var k :| 0 <= k < |entries| && entries[k] == e;
      assert files[k] in files;
    }
    if f :| f in files && e == Entry(f.path, sha(f.content)) {
      var k :| 0 <= k < |files| && files[k] == f;
      assert entries[k] == e;
    }
  }

  /** The order of a walk leaves no trace in the fingerprint, whatever the hash. */
  lemma SameTreeSameFingerprint(sha: Hash, prefix: Bytes, a: Listing, b: Listing)
    requires HexDigest(sha) && ShortPaths(a) && ShortPaths(b) && SameTree(a, b)
    requires FingerprintOf(sha, prefix, a).Some? && FingerprintOf(sha, prefix, b).Some?
    ensures FingerprintOf(sha, prefix, a) == FingerprintOf(sha, prefix, b)
  {
    SortSorts(Entries(sha, a));
    SortSorts(Entries(sha, b));
    SameEntriesOfSameTree(sha, a, b);
    SortedIsCanonical(Sort(Entries(sha, a)), Sort(Entries(sha, b)));
  }

  lemma SameEntriesOfSameTree(sha: Hash, a: Listing, b: Listing)
    requires SameTree(a, b)
    ensures forall e :: e in Entries(sha, a) <==> e in Entries(sha, b)
  {
    forall e
      ensures e in Entries(sha, a) <==> e in Entries(sha, b)
    {
      EntryMembers(sha, a, e);
      EntryMembers(sha, b, e);
    }
  }

  lemma FileOfEntry(sha: Hash, hashed: set<Bytes>, a: Listing, b: Listing, f: File)
    requires NoCollisions(sha, hashed) && (forall g :: g in a || g in b ==> g.content in hashed)
    requires f in a && forall e :: e in Entries(sha, a) <==> e in Entries(sha, b)
    ensures f in b
  {
    var e := Entry(f.path, sha(f.content));
    EntryMembers(sha, a, e);
    EntryMembers(sha, b, e);
    var g :| g in b && e == Entry(g.path, sha(g.content));
    assert sha(g.content) == sha(f.content);
  }

  /**
   When no two of the inputs hashed for them collide, two walks have the same fingerprint exactly when they
   read the same files with the same bytes, in whatever order the directory listed them.
   */
  lemma FingerprintIdentifiesTree(sha: Hash, prefix: Bytes, a: Listing, b: Listing)
    requires HexDigest(sha) && ShortPaths(a) && ShortPaths(b)
    requires NoCollisions(sha, HashedFor(sha, prefix, a) + HashedFor(sha, prefix, b))
    requires FingerprintOf(sha, prefix, a).Some? && FingerprintOf(sha, prefix, b).Some?
    ensures FingerprintOf(sha, prefix, a) == FingerprintOf(sha, prefix, b) <==> SameTree(a, b)
  {
    if SameTree(a, b) {
      SameTreeSameFingerprint(sha, prefix, a, b);
    }
    if FingerprintOf(sha, prefix, a) == FingerprintOf(sha, prefix, b) {
      SameFraming(sha, prefix, a, b);
      SortSorts(Entries(sha, a));
      SortSorts(Entries(sha, b));
      var hashed := HashedFor(sha, prefix, a) + HashedFor(sha, prefix, b);
      forall f
        ensures f in a <==> f in b
      {
        if f in a {
          FileOfEntry(sha, hashed, a, b, f);
        } else if f in b {
          FileOfEntry(sha, hashed, b, a, f);
        }
      }
    }
  }

  lemma SameFraming(sha: Hash, prefix: Bytes, a: Listing, b: Listing)
    requires HexDigest(sha) && ShortPaths(a) && ShortPaths(b)
    requires NoCollisions(sha, HashedFor(sha, prefix, a) + HashedFor(sha, prefix, b))
    requires FingerprintOf(sha, prefix, a).Some? && FingerprintOf(sha, prefix, a) == FingerprintOf(sha, prefix, b)
    ensures Sort(Entries(sha, a)) == Sort(Entries(sha, b))
  {
    var p, q := Sort(Entries(sha, a)), Sort(Entries(sha, b));
    InventoryEncodes(sha, a);
    InventoryEncodes(sha, b);
    var head := prefix + [0];
    assert head + Framed(p) in HashedFor(sha, prefix, a) && head + Framed(q) in HashedFor(sha, prefix, b);
    assert sha(head + Framed(p)) == sha(head + Framed(q));
    assert (head + Framed(p))[|head|..] == Framed(p) && (head + Framed(q))[|head|..] == Framed(q);
    FramingIsInjective(p, q);
  }

  // ----- There are such hashes -----

  /** Each byte as two letters, for inputs whose digest the framing can carry. */
  function Letters(b: Bytes): Bytes {
    if 2 * |b| < LIMIT
    then seq(2 * |b|, i requires 0 <= i < 2 * |b| => 97 + if i % 2 == 0 then b[i / 2] / 16 else b[i / 2] % 16)
    else []
  }

  /** Whatever inputs of up to two gigabytes are hashed, what is assumed of the hash can hold. */
  lemma SomeHashHasNoCollisions(hashed: set<Bytes>)
    requires forall b :: b in hashed ==> 2 * |b| < LIMIT
    ensures HexDigest(Letters) && NoCollisions(Letters, hashed)
  {
    forall a, b | a in hashed && b in hashed && Letters(a) == Letters(b)
      ensures a == b
    {
      assert |Letters(a)| == 2 * |a| && |Letters(b)| == 2 * |b|;
      forall k | 0 <= k < |a|
        ensures a[k] == b[k]
      {
        assert Letters(a)[2 * k] == 97 + a[k] / 16 && Letters(a)[2 * k + 1] == 97 + a[k] % 16;
        assert Letters(b)[2 * k] == 97 + b[k] / 16 && Letters(b)[2 * k + 1] == 97 + b[k] % 16;
      }
    }
  }
}
