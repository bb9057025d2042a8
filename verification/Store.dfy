/** The block store: append-only files, the index file, lazy loading; and the map from
    hashes to blocks that the bytes on disk implement.
 */
module Store {
  import opened Types
  import opened Bytes
  import opened WireFormat
  import opened Order

  const MAX_FILE: nat := 128 * 1024 * 1024
  const INT64_LIMIT: nat := 0x8000_0000_0000_0000
  const INT32_LIMIT: nat := 0x8000_0000

  datatype Location = Location(height: int64, file: nat, offset: nat, size: nat)

  /** The disk and the memory of a CBlockStorage. */
  datatype Storage = Storage(files: map<nat, seq<byte>>, indexFile: Option<seq<byte>>,
                             index: map<Hash, Location>, loaded: bool)

  const EMPTY: Storage := Storage(map[], None, map[], false)

  // ------------------------------------------------------------ the index file

  predicate Encodable(l: Location) {
    l.file < INT32_LIMIT && l.offset < INT64_LIMIT && l.size < INT64_LIMIT
  }

  function Record(h: Hash, l: Location): (b: seq<byte>)
    ensures |b| == 60
  {
    LE(h, 32) + (LE(AsU64(l.height), 8) + (LE(l.file, 4) + (LE(l.offset, 8) + LE(l.size, 8))))
  }

  function Records(index: map<Hash, Location>, keys: seq<Hash>): (b: seq<byte>)
    requires forall h <- keys :: h in index
    ensures |b| == 60 * |keys|
  {
    if keys == [] then []
    else
      var h := keys[|keys| - 1];
      Records(index, keys[..|keys| - 1]) + Record(h, index[h])
  }

  /** What SaveIndex writes. */
  ghost function IndexBytes(index: map<Hash, Location>): seq<byte> {
    LE(|index|, 8) + Records(index, Sorted(index.Keys))
  }

  /** Record i of an index file, as LoadIndex reads it. */
  function RecordHash(d: seq<byte>, i: nat): Hash
    requires 8 + 60 * (i + 1) <= |d|
  {
    Pow256Values();
    FromLE(d[8 + 60 * i..8 + 60 * i + 32])
  }

  function RecordLocation(d: seq<byte>, i: nat): Location
    requires 8 + 60 * (i + 1) <= |d|
  {
    var p := 8 + 60 * i;
    Pow256Values();
    Location(AsI64(FromLE(d[p + 32..p + 40])), FromLE(d[p + 40..p + 44]), FromLE(d[p + 44..p + 52]),
             FromLE(d[p + 52..p + 60]))
  }

  /** The map after the first k records have been put into base; reading stops at the end
      of the file. */
  function LoadRecords(base: map<Hash, Location>, d: seq<byte>, k: nat): map<Hash, Location> {
    if k == 0 then base
    else
      var before := LoadRecords(base, d, k - 1);
      if 8 + 60 * k > |d| then before else before[RecordHash(d, k - 1) := RecordLocation(d, k - 1)]
  }

  function LoadIndexFile(base: map<Hash, Location>, d: seq<byte>): map<Hash, Location> {
    if |d| < 8 then base
    else
      var n := FromLE(d[..8]);
      if n > MAX_ENTRIES then base else LoadRecords(base, d, n)
  }

  lemma RecordFields(d: seq<byte>, i: nat, h: Hash, l: Location)
    requires Encodable(l) && At(d, 8 + 60 * i, Record(h, l))
    ensures 8 + 60 * (i + 1) <= |d| && RecordHash(d, i) == h && RecordLocation(d, i) == l
  {
    hide LE, FromLE, At;
    var p := 8 + 60 * i;
    Pow256Values();
    assert 8 + 60 * (i + 1) == p + 60;
    AtLength(d, p, Record(h, l));
    var t3 := LE(l.offset, 8) + LE(l.size, 8);
    var t2 := LE(l.file, 4) + t3;
    var t1 := LE(AsU64(l.height), 8) + t2;
    AtSplit(d, p, LE(h, 32), t1);
    AtSplit(d, p + 32, LE(AsU64(l.height), 8), t2);
    AtSplit(d, p + 40, LE(l.file, 4), t3);
    AtSplit(d, p + 44, LE(l.offset, 8), LE(l.size, 8));
    Field(d, p, h, 32);
    Field(d, p + 32, AsU64(l.height), 8);
    Field(d, p + 40, l.file, 4);
    Field(d, p + 44, l.offset, 8);
    Field(d, p + 52, l.size, 8);
  }

  lemma AtLength(d: seq<byte>, pos: nat, s: seq<byte>)
    requires At(d, pos, s)
    ensures pos + |s| <= |d|
  {
  }

  lemma Field(d: seq<byte>, pos: nat, v: nat, k: nat)
    requires v < Pow256(k) && At(d, pos, LE(v, k))
    ensures pos + k <= |d| && FromLE(d[pos..pos + k]) == v
  {
    ReadWrite(v, k);
  }

  function Part(index: map<Hash, Location>, keys: seq<Hash>): map<Hash, Location>
    requires forall h <- keys :: h in index
  {
    map h | h in keys :: index[h]
  }

  lemma PartSnoc(base: map<Hash, Location>, index: map<Hash, Location>, keys: seq<Hash>, k: Hash)
    requires forall h <- keys + [k] :: h in index
    ensures base + Part(index, keys + [k]) == (base + Part(index, keys))[k := index[k]]
  {
  }

  /** Reading back the first k records puts exactly those keys into the base. */
  lemma {:induction false} LoadSavedRecords(base: map<Hash, Location>, index: map<Hash, Location>, keys: seq<Hash>,
                                            d: seq<byte>)
    requires (forall h <- keys :: h in index && Encodable(index[h])) && At(d, 8, Records(index, keys))
    ensures LoadRecords(base, d, |keys|) == base + Part(index, keys)
  {
    hide At, Record, RecordHash, RecordLocation;
    if keys == [] {
      assert base + Part(index, keys) == base;
    } else {
      hide Part;
      var init, h := keys[..|keys| - 1], keys[|keys| - 1];
      AtSplit(d, 8, Records(index, init), Record(h, index[h]));
      LoadSavedRecords(base, index, init, d);
      RecordFields(d, |init|, h, index[h]);
      assert keys == init + [h];
      PartSnoc(base, index, init, h);
    }
  }

  lemma Counted(n: nat, records: seq<byte>)
    requires n < TWO_64
    ensures var d := LE(n, 8) + records;
            |d| >= 8 && FromLE(d[..8]) == n && At(d, 8, records)
  {
    hide LE, FromLE;
    var d := LE(n, 8) + records;
    Pow256Values();
    assert d[..8] == LE(n, 8);
    ReadWrite(n, 8);
    assert d[8..8 + |records|] == records;
  }

  /** Index round trip: loading a saved index into a part of it gives the index back, if
      and only if it has no more than a hundred million entries or was all there. */
  lemma IndexRoundTrip(base: map<Hash, Location>, index: map<Hash, Location>)
    requires (forall h <- index :: Encodable(index[h])) && |index| < TWO_64
    requires forall h <- base :: h in index && index[h] == base[h]
    ensures LoadIndexFile(base, IndexBytes(index)) == index <==> |index| <= 100_000_000 || base == index
  {
    hide LoadRecords, Records, At, FromLE, Sorted, Ascending, LE, Part;
    var keys := Sorted(index.Keys);
    assert |keys| == |index| by { assert |index.Keys| == |index|; }
    Counted(|index|, Records(index, keys));
    LoadSavedRecords(base, index, keys, IndexBytes(index));
    PartAll(base, index, keys);
  }

  lemma PartAll(base: map<Hash, Location>, index: map<Hash, Location>, keys: seq<Hash>)
    requires forall h :: h in keys <==> h in index
    requires forall h <- base :: h in index && index[h] == base[h]
    ensures base + Part(index, keys) == index
  {
  }

  /** The bytes of the index file: the number of entries, then in key order 60 bytes each. */
  lemma IndexLayout(index: map<Hash, Location>, i: nat)
    requires i < |index|
    ensures |Sorted(index.Keys)| == |index| && Sorted(index.Keys)[i] in index
    ensures var d, h, p := IndexBytes(index), Sorted(index.Keys)[i], 8 + 60 * i;
            var l := index[h];
            && |d| == 8 + 60 * |index| && d[..8] == LE(|index|, 8)
            && d[p..p + 32] == LE(h, 32) && d[p + 32..p + 40] == LE(AsU64(l.height), 8) && d[p + 40..p + 44] == LE(l.file, 4)
            && d[p + 44..p + 52] == LE(l.offset, 8) && d[p + 52..p + 60] == LE(l.size, 8)
  {
    hide Records, Sorted, Ascending, LE;
    var keys := Sorted(index.Keys);
    assert |keys| == |index| by { assert |index.Keys| == |index|; }
    assert keys[i] in keys;
    RecordPlace(index, keys, i);
    var d, p := IndexBytes(index), 8 + 60 * i;
    assert d[p..p + 60] == Records(index, keys)[60 * i..60 * i + 60];
    RecordLayout(keys[i], index[keys[i]], d, p);
  }

  lemma {:induction false} RecordPlace(index: map<Hash, Location>, keys: seq<Hash>, i: nat)
    requires i < |keys| && forall h <- keys :: h in index
    ensures keys[i] in index && Records(index, keys)[60 * i..60 * i + 60] == Record(keys[i], index[keys[i]])
    decreases |keys|
  {
    hide Record;
    assert keys[i] in keys;
    if i < |keys| - 1 {
      var init := keys[..|keys| - 1];
      RecordPlace(index, init, i);
      Within(Records(index, init), Record(keys[|init|], index[keys[|init|]]), 60 * i, 60 * i + 60);
    }
  }

  lemma Within(a: seq<byte>, b: seq<byte>, i: nat, j: nat)
    requires i <= j <= |a|
    ensures (a + b)[i..j] == a[i..j]
  {
  }

  lemma RecordLayout(h: Hash, l: Location, d: seq<byte>, p: nat)
    requires p + 60 <= |d| && d[p..p + 60] == Record(h, l)
    ensures d[p..p + 32] == LE(h, 32) && d[p + 32..p + 40] == LE(AsU64(l.height), 8) && d[p + 40..p + 44] == LE(l.file, 4)
    ensures d[p + 44..p + 52] == LE(l.offset, 8) && d[p + 52..p + 60] == LE(l.size, 8)
  {
    hide LE;
    var t3 := LE(l.offset, 8) + LE(l.size, 8);
    var t2 := LE(l.file, 4) + t3;
    var t1 := LE(AsU64(l.height), 8) + t2;
    AtSplit(d, p, LE(h, 32), t1);
    AtSplit(d, p + 32, LE(AsU64(l.height), 8), t2);
    AtSplit(d, p + 40, LE(l.file, 4), t3);
    AtSplit(d, p + 44, LE(l.offset, 8), LE(l.size, 8));
  }

  // ------------------------------------------------------------ operations

  /** The highest file number in use. */
  function LastFile(index: map<Hash, Location>, keys: seq<Hash>): nat
    requires forall h <- keys :: h in index
  {
    if keys == [] then 0
    else
      var before, f := LastFile(index, keys[..|keys| - 1]), index[keys[|keys| - 1]].file;
      if f > before then f else before
  }

  /** It is the highest, and 0 when nothing is indexed. */
  lemma {:induction false} LastFileIs(index: map<Hash, Location>, keys: seq<Hash>)
    requires forall h <- keys :: h in index
    ensures forall h <- keys :: index[h].file <= LastFile(index, keys)
    ensures LastFile(index, keys) == 0 || exists h <- keys :: index[h].file == LastFile(index, keys)
  {
    if keys != [] {
      var init := keys[..|keys| - 1];
      LastFileIs(index, init);
      assert keys == init + [keys[|keys| - 1]];
    }
  }

  function FileSize(files: map<nat, seq<byte>>, f: nat): nat {
    if f in files then |files[f]| else 0
  }

  function Content(files: map<nat, seq<byte>>, f: nat): seq<byte> {
    if f in files then files[f] else []
  }

  /** Where AppendToFile puts the next size bytes. */
  ghost function Target(s: Storage, size: nat): nat {
    var last := LastFile(s.index, Sorted(s.index.Keys));
    var used := FileSize(s.files, last);
    if used > 0 && used + size > MAX_FILE then last + 1 else last
  }

  /** The disk takes the bytes: file number and length stay in their machine types. */
  ghost predicate DiskTakes(s: Storage, size: nat) {
    Target(s, size) < INT32_LIMIT && FileSize(s.files, Target(s, size)) + size < INT64_LIMIT
  }

  /** WriteBlock, which changes nothing when the file cannot be written. */
  ghost function Write(c: Crypto, s: Storage, blk: Block, height: int64): Storage {
    var ser := SerBlock(blk);
    if !DiskTakes(s, |ser|) then s
    else
      var f := Target(s, |ser|);
      var index := s.index[BlockHash(c, blk) := Location(height, f, FileSize(s.files, f), |ser|)];
      Storage(s.files[f := Content(s.files, f) + ser], Some(IndexBytes(index)), index, s.loaded)
  }

  function Load(s: Storage): Storage {
    if s.loaded then s
    else s.(loaded := true, index := match s.indexFile case None => s.index case Some(d) => LoadIndexFile(s.index, d))
  }

  /** ReadBlock after LoadIndex: missing, unreadable, undecodable and mismatched are all
      failures. */
  function Fetch(c: Crypto, s: Storage, h: Hash): Option<Block> {
    if h !in s.index then None
    else
      var l := s.index[h];
      if l.file !in s.files || l.offset + l.size > |s.files[l.file]| then None
      else
        match ReadBlock(s.files[l.file][l.offset..l.offset + l.size])
        case None => None
        case Some(blk) => if BlockHash(c, blk) == h then Some(blk) else None
  }

  /** A new process on the same disk. */
  function Reopen(s: Storage): Storage {
    s.(index := map[], loaded := false)
  }

  // ------------------------------------------------------------ the maps it implements

  /** The blocks the index file answers for, those this process answers for, and whether it
      has loaded the index file. */
  datatype Abstract = Abstract(disk: map<Hash, Block>, visible: map<Hash, Block>, loaded: bool)

  const NOTHING: Abstract := Abstract(map[], map[], false)

  /** A write adds to what is visible, and that becomes what is on disk. */
  function Written(c: Crypto, a: Abstract, blk: Block): Abstract {
    var visible := a.visible[BlockHash(c, blk) := blk];
    Abstract(visible, visible, a.loaded)
  }

  /** The first read of a process sees what is on disk, unless there is too much of it. */
  function Seen(a: Abstract): Abstract {
    if a.loaded then a
    else a.(loaded := true, visible := if |a.disk| <= MAX_ENTRIES then a.visible + a.disk else a.visible)
  }

  function Forgotten(a: Abstract): Abstract {
    a.(visible := map[], loaded := false)
  }

  /** The answer to a read: a visible block, if its counts are within the reader's caps. */
  function Answer(a: Abstract, h: Hash): Option<Block> {
    if h in Seen(a).visible && BlockWithinCounts(Seen(a).visible[h]) then Some(Seen(a).visible[h]) else None
  }

  ghost predicate PointsAt(files: map<nat, seq<byte>>, l: Location, blk: Block) {
    l.file in files && At(files[l.file], l.offset, SerBlock(blk)) && l.size == |SerBlock(blk)|
  }

  /** An index whose every entry finds the bytes of its block. */
  ghost predicate Finds(c: Crypto, files: map<nat, seq<byte>>, index: map<Hash, Location>, blocks: map<Hash, Block>) {
    && index.Keys == blocks.Keys
    && forall h :: h in index ==> EntryFinds(c, files, index[h], h, blocks[h])
  }

  ghost predicate EntryFinds(c: Crypto, files: map<nat, seq<byte>>, l: Location, h: Hash, blk: Block) {
    Encodable(l) && PointsAt(files, l, blk) && BlockHash(c, blk) == h && BlockFits(blk)
  }

  /** saved: the index the index file holds. */
  ghost predicate Implements(c: Crypto, s: Storage, saved: map<Hash, Location>, a: Abstract) {
    && s.indexFile == (if s.indexFile.None? then None else Some(IndexBytes(saved)))
    && (s.indexFile.None? ==> saved == map[])
    && Finds(c, s.files, saved, a.disk) && Finds(c, s.files, s.index, a.visible)
    && s.loaded == a.loaded && (s.index == map[] || s.index == saved || s.loaded)
    && (a.visible == map[] || a.visible == a.disk || a.loaded)
  }

  lemma Appended(c: Crypto, files: map<nat, seq<byte>>, f: nat, more: seq<byte>, l: Location, h: Hash, blk: Block)
    requires EntryFinds(c, files, l, h, blk)
    ensures EntryFinds(c, files[f := Content(files, f) + more], l, h, blk)
  {
    hide SerBlock, HeaderHash, BlockFits;
    if l.file == f {
      var n := |SerBlock(blk)|;
      assert (files[f] + more)[l.offset..l.offset + n] == files[f][l.offset..l.offset + n];
    }
  }

  lemma WriteImplements(c: Crypto, s: Storage, saved: map<Hash, Location>, a: Abstract, blk: Block, height: int64)
    requires Implements(c, s, saved, a) && BlockFits(blk) && DiskTakes(s, |SerBlock(blk)|)
    ensures var t := Write(c, s, blk, height);
            Implements(c, t, t.index, Written(c, a, blk))
  {
    hide SerBlock, HeaderHash, BlockFits, Target, IndexBytes, LastFile, EntryFinds;
    var ser, f, h := SerBlock(blk), Target(s, |SerBlock(blk)|), BlockHash(c, blk);
    var t, b := Write(c, s, blk, height), Written(c, a, blk);
    NewEntry(c, s.files, f, blk, height);
    forall x | x in t.index
      ensures EntryFinds(c, t.files, t.index[x], x, b.visible[x])
    {
      if x != h {
        assert EntryFinds(c, s.files, s.index[x], x, a.visible[x]);
        Appended(c, s.files, f, ser, s.index[x], x, a.visible[x]);
      }
    }
  }

  lemma NewEntry(c: Crypto, files: map<nat, seq<byte>>, f: nat, blk: Block, height: int64)
    requires BlockFits(blk) && f < INT32_LIMIT && FileSize(files, f) + |SerBlock(blk)| < INT64_LIMIT
    ensures var ser := SerBlock(blk);
            EntryFinds(c, files[f := Content(files, f) + ser], Location(height, f, FileSize(files, f), |ser|),
                       BlockHash(c, blk), blk)
  {
    hide SerBlock, HeaderHash, BlockFits;
    var ser, before := SerBlock(blk), Content(files, f);
    assert (before + ser)[|before|..|before| + |ser|] == ser;
  }

  /** An index over the cap is not loaded at all. */
  lemma OverCap(base: map<Hash, Location>, index: map<Hash, Location>)
    requires MAX_ENTRIES < |index| < TWO_64
    ensures LoadIndexFile(base, IndexBytes(index)) == base
  {
    hide LoadRecords, Records, At, FromLE, Sorted, Ascending, LE;
    Counted(|index|, Records(index, Sorted(index.Keys)));
  }

  lemma LoadImplements(c: Crypto, s: Storage, saved: map<Hash, Location>, a: Abstract)
    requires Implements(c, s, saved, a) && |saved| < TWO_64
    ensures Implements(c, Load(s), saved, Seen(a))
  {
    hide PointsAt, IndexBytes, LoadIndexFile, BlockHash, BlockFits, EntryFinds;
    SameSize(c, s.files, saved, a.disk);
    if !s.loaded {
      assert map[] + a.disk == a.disk && a.disk + a.disk == a.disk;
      if s.indexFile.Some? {
        if |saved| <= MAX_ENTRIES {
          SavedEncodable(c, s.files, saved, a.disk);
          IndexRoundTrip(s.index, saved);
        } else {
          OverCap(s.index, saved);
        }
      } else {
        assert a.disk == map[];
        assert a.visible + a.disk == a.visible;
      }
    }
  }

  lemma SavedEncodable(c: Crypto, files: map<nat, seq<byte>>, saved: map<Hash, Location>, blocks: map<Hash, Block>)
    requires Finds(c, files, saved, blocks)
    ensures forall h :: h in saved ==> Encodable(saved[h])
  {
    hide PointsAt, BlockHash, BlockFits;
    forall h | h in saved ensures Encodable(saved[h]) {
      assert EntryFinds(c, files, saved[h], h, blocks[h]);
    }
  }

  lemma SameSize(c: Crypto, files: map<nat, seq<byte>>, saved: map<Hash, Location>, blocks: map<Hash, Block>)
    requires Finds(c, files, saved, blocks)
    ensures |saved| == |blocks|
  {
    assert |saved.Keys| == |saved| && |blocks.Keys| == |blocks|;
  }

  lemma FetchAnswers(c: Crypto, s: Storage, blocks: map<Hash, Block>, h: Hash)
    requires Finds(c, s.files, s.index, blocks)
    ensures Fetch(c, s, h) == if h in blocks && BlockWithinCounts(blocks[h]) then Some(blocks[h]) else None
  {
    hide SerBlock, ReadBlock, HeaderHash, BlockFits, BlockWithinCounts;
    if h in s.index {
      assert EntryFinds(c, s.files, s.index[h], h, blocks[h]);
      var blk := blocks[h];
      BlockRoundTrip(blk, []);
      assert SerBlock(blk) + [] == SerBlock(blk);
    }
  }

  lemma ReopenImplements(c: Crypto, s: Storage, saved: map<Hash, Location>, a: Abstract)
    requires Implements(c, s, saved, a)
    ensures Implements(c, Reopen(s), saved, Forgotten(a))
  {
    hide EntryFinds, IndexBytes;
  }

  // ------------------------------------------------------------ every run

  datatype Event = Put(blk: Block, height: int64) | Get(hash: Hash) | Restart

  ghost function Step(c: Crypto, s: Storage, e: Event): Storage {
    match e
    case Put(blk, height) => Write(c, s, blk, height)
    case Get(_) => Load(s)
    case Restart => Reopen(s)
  }

  /** The same event on the maps; a write the disk refused did nothing. */
  ghost function AbstractStep(c: Crypto, a: Abstract, e: Event, taken: bool): Abstract {
    match e
    case Put(blk, _) => if taken then Written(c, a, blk) else a
    case Get(_) => Seen(a)
    case Restart => Forgotten(a)
  }

  ghost predicate Taken(s: Storage, e: Event) {
    e.Put? ==> DiskTakes(s, |SerBlock(e.blk)|)
  }

  ghost function Run(c: Crypto, events: seq<Event>): (Storage, Abstract) {
    if events == [] then (EMPTY, NOTHING)
    else
      var (s, a) := Run(c, events[..|events| - 1]);
      var e := events[|events| - 1];
      (Step(c, s, e), AbstractStep(c, a, e, Taken(s, e)))
  }

  /** Every block can be written, and the number of entries fits its 64-bit field. */
  ghost predicate Sized(c: Crypto, events: seq<Event>) {
    && (forall e <- events :: e.Put? ==> BlockFits(e.blk))
    && (forall k :: 0 <= k <= |events| ==> |Run(c, events[..k]).1.disk| < TWO_64)
  }

  lemma SizedInit(c: Crypto, events: seq<Event>)
    requires Sized(c, events)
    ensures |Run(c, events).1.disk| < TWO_64
    ensures events != [] ==> Sized(c, events[..|events| - 1])
  {
    hide Run, BlockFits;
    assert events[..|events|] == events;
    if events != [] {
      var init := events[..|events| - 1];
      forall k | 0 <= k <= |init| ensures |Run(c, init[..k]).1.disk| < TWO_64 {
        assert init[..k] == events[..k];
      }
    }
  }

  /** Refinement: the bytes on disk and the state of the process implement the two maps
      after any run of writes, reads and restarts. */
  lemma {:induction false} RunImplements(c: Crypto, events: seq<Event>) returns (saved: map<Hash, Location>)
    requires Sized(c, events)
    ensures var (s, a) := Run(c, events); Implements(c, s, saved, a) && |saved| < TWO_64
  {
    hide Sized, Implements, Step, AbstractStep, Taken;
    if events == [] {
      saved := map[];
      EmptyImplements(c);
    } else {
      var init, e := events[..|events| - 1], events[|events| - 1];
      SizedInit(c, events);
      saved := RunImplements(c, init);
      assert e.Put? ==> BlockFits(e.blk) by { LastFits(c, events); }
      saved := StepImplements(c, Run(c, init).0, saved, Run(c, init).1, e);
      ImplementsSize(c, Run(c, events).0, saved, Run(c, events).1);
    }
  }

  lemma EmptyImplements(c: Crypto)
    ensures Implements(c, EMPTY, map[], NOTHING)
  {
  }

  lemma LastFits(c: Crypto, events: seq<Event>)
    requires Sized(c, events) && events != []
    ensures var e := events[|events| - 1]; e.Put? ==> BlockFits(e.blk)
  {
    hide Run, BlockFits;
    assert events[|events| - 1] in events;
  }

  lemma ImplementsSize(c: Crypto, s: Storage, saved: map<Hash, Location>, a: Abstract)
    requires Implements(c, s, saved, a)
    ensures |saved| == |a.disk|
  {
    hide EntryFinds, IndexBytes;
    SameSize(c, s.files, saved, a.disk);
  }

  lemma StepImplements(c: Crypto, s: Storage, saved: map<Hash, Location>, a: Abstract, e: Event)
    returns (next: map<Hash, Location>)
    requires Implements(c, s, saved, a) && |saved| < TWO_64 && (e.Put? ==> BlockFits(e.blk))
    ensures Implements(c, Step(c, s, e), next, AbstractStep(c, a, e, Taken(s, e)))
  {
    hide Implements, DiskTakes, BlockFits, IndexBytes, SerBlock, BlockHash, Write, Written, Load, Reopen;
    next := saved;
    match e
    case Put(blk, height) =>
      if DiskTakes(s, |SerBlock(blk)|) {
        WriteImplements(c, s, saved, a, blk, height);
        next := Write(c, s, blk, height).index;
      } else {
        Refused(c, s, blk, height);
      }
    case Get(_) =>
      LoadImplements(c, s, saved, a);
    case Restart =>
      ReopenImplements(c, s, saved, a);
  }

  lemma Refused(c: Crypto, s: Storage, blk: Block, height: int64)
    requires !DiskTakes(s, |SerBlock(blk)|)
    ensures Write(c, s, blk, height) == s
  {
  }

  /** The next block starts a new file if and only if the last one in use holds something and
      would exceed 128 MiB; otherwise it is appended to that one. */
  lemma RolloverIff(s: Storage, size: nat)
    ensures var last := LastFile(s.index, Sorted(s.index.Keys));
            Target(s, size) == if 0 < FileSize(s.files, last) && FileSize(s.files, last) + size > 134_217_728 then last + 1 else last
  {
    hide LastFile, Sorted;
  }

  /** Every file on disk is one the index knows of, or lies below one. */
  ghost predicate Covers(s: Storage) {
    forall f :: f in s.files ==> f <= LastFile(s.index, Sorted(s.index.Keys))
  }

  ghost predicate Bounded(file: seq<byte>) {
    |file| <= 134_217_728 || exists blk :: file == SerBlock(blk)
  }

  /** No file grows beyond 128 MiB, unless a single block does, as long as each write finds
      an index that covers the files. */
  lemma {:induction false} FilesBounded(c: Crypto, events: seq<Event>)
    requires forall k :: 0 <= k < |events| && events[k].Put? ==> Covers(Run(c, events[..k]).0)
    ensures forall f :: f in Run(c, events).0.files ==> Bounded(Run(c, events).0.files[f])
  {
    hide SerBlock, HeaderHash, DiskTakes, IndexBytes, Bounded, Covers;
    if events != [] {
      var init, e := events[..|events| - 1], events[|events| - 1];
      forall k | 0 <= k < |init| && init[k].Put? ensures Covers(Run(c, init[..k]).0) {
        assert init[..k] == events[..k];
      }
      FilesBounded(c, init);
      var s := Run(c, init).0;
      if e.Put? && DiskTakes(s, |SerBlock(e.blk)|) {
        assert Covers(Run(c, events[..|init|]).0);
        AppendBounded(s, e.blk);
      }
    }
  }

  lemma AppendBounded(s: Storage, blk: Block)
    requires Covers(s)
    ensures Bounded(Content(s.files, Target(s, |SerBlock(blk)|)) + SerBlock(blk))
  {
    hide SerBlock, Sorted, LastFile;
    assert [] + SerBlock(blk) == SerBlock(blk);
  }

  /** After any run, every read of the byte-level store answers as the maps do. */
  lemma ReadsAnswer(c: Crypto, events: seq<Event>, h: Hash)
    requires Sized(c, events)
    ensures var (s, a) := Run(c, events); Fetch(c, Load(s), h) == Answer(a, h)
  {
    hide Run, Sized;
    var saved := RunImplements(c, events);
    AnswersAs(c, Run(c, events).0, saved, Run(c, events).1, h);
  }

  lemma AnswersAs(c: Crypto, s: Storage, saved: map<Hash, Location>, a: Abstract, h: Hash)
    requires Implements(c, s, saved, a) && |saved| < TWO_64
    ensures Fetch(c, Load(s), h) == Answer(a, h)
  {
    hide Fetch, Load, IndexBytes, EntryFinds, BlockWithinCounts;
    LoadImplements(c, s, saved, a);
    FetchAnswers(c, Load(s), Seen(a).visible, h);
  }

  ghost predicate KeepsOthers(c: Crypto, s: Storage, t: Storage, h: Hash) {
    forall x: Hash :: x != h ==> Fetch(c, Load(t), x) == Fetch(c, Load(s), x)
  }

  ghost predicate NothingElse(c: Crypto, s: Storage, h: Hash) {
    forall x: Hash :: x != h ==> Fetch(c, Load(s), x) == None
  }

  /** A write leaves every other block readable as it was if and only if the index file had
      been loaded, or something had been written, since the store was opened, or nothing else
      was readable anyway. The written block reads back within the reader's caps. */
  lemma WriteKeepsIff(c: Crypto, events: seq<Event>, blk: Block, height: int64)
    requires Sized(c, events + [Put(blk, height)]) && DiskTakes(Run(c, events).0, |SerBlock(blk)|)
    ensures var s, h := Run(c, events).0, BlockHash(c, blk);
            var t := Write(c, s, blk, height);
            && (KeepsOthers(c, s, t, h) <==> s.loaded || s.index != map[] || NothingElse(c, s, h))
            && Fetch(c, Load(t), h) == if BlockWithinCounts(blk) then Some(blk) else None
  {
    hide Sized, Fetch, Load, DiskTakes, SerBlock, HeaderHash, BlockWithinCounts, Write, Answer, Run, Implements;
    var all := events + [Put(blk, height)];
    assert all[..|events|] == events;
    SizedInit(c, all);
    LastFits(c, all);
    var saved := RunImplements(c, events);
    var s, a, h := Run(c, events).0, Run(c, events).1, BlockHash(c, blk);
    var t, b := Write(c, s, blk, height), Written(c, a, blk);
    WriteImplements(c, s, saved, a, blk, height);
    WrittenSize(c, events, blk, height);
    ImplementsSize(c, t, t.index, b);
    forall x: Hash
      ensures Fetch(c, Load(s), x) == Answer(a, x) && Fetch(c, Load(t), x) == Answer(b, x)
    {
      AnswersAs(c, s, saved, a, x);
      AnswersAs(c, t, t.index, b, x);
    }
    VisibleIff(c, s, saved, a);
    WrittenAnswers(c, a, blk);
  }

  lemma WrittenSize(c: Crypto, events: seq<Event>, blk: Block, height: int64)
    requires Sized(c, events + [Put(blk, height)]) && DiskTakes(Run(c, events).0, |SerBlock(blk)|)
    ensures |Written(c, Run(c, events).1, blk).disk| < TWO_64
  {
    hide Sized, DiskTakes, SerBlock, HeaderHash;
    var all := events + [Put(blk, height)];
    SizedInit(c, all);
    assert all[..|events|] == events && all[|events|] == Put(blk, height);
  }

  lemma VisibleIff(c: Crypto, s: Storage, saved: map<Hash, Location>, a: Abstract)
    requires Implements(c, s, saved, a)
    ensures s.loaded == a.loaded && (s.index == map[] <==> a.visible == map[])
    ensures a.visible == map[] || a.visible == a.disk || a.loaded
  {
    hide EntryFinds, IndexBytes;
    assert s.index.Keys == a.visible.Keys;
    if s.index == map[] {
      assert a.visible.Keys == {};
    }
    if a.visible == map[] {
      assert s.index.Keys == {};
    }
  }

  /** After a write exactly what was visible is, and the block. */
  lemma WrittenAnswers(c: Crypto, a: Abstract, blk: Block)
    requires a.visible == map[] || a.visible == a.disk || a.loaded
    ensures var h, b := BlockHash(c, blk), Written(c, a, blk);
            && Answer(b, h) == (if BlockWithinCounts(blk) then Some(blk) else None)
            && (a.loaded || a.visible != map[] ==> forall x :: x != h ==> Answer(b, x) == Answer(a, x))
            && (!a.loaded && a.visible == map[] ==> forall x :: x != h ==> Answer(b, x) == None)
  {
    hide HeaderHash, BlockWithinCounts;
    var b := Written(c, a, blk);
    assert b.visible + b.disk == b.visible;
    assert a.visible == a.disk ==> a.visible + a.disk == a.visible;
  }

  /** A run that forgets a block: it reads back after a restart, but not when the restarted
      process writes another block first. */
  lemma RestartThenWriteForgets(c: Crypto, a: Block, b: Block)
    requires BlockFits(a) && BlockFits(b) && BlockWithinCounts(a) && BlockHash(c, a) != BlockHash(c, b)
    requires |SerBlock(a)| + |SerBlock(b)| < INT64_LIMIT
    ensures Fetch(c, Load(Run(c, [Put(a, 0), Restart]).0), BlockHash(c, a)) == Some(a)
    ensures Fetch(c, Load(Run(c, [Put(a, 0), Restart, Put(b, 1)]).0), BlockHash(c, a)) == None
  {
    hide Fetch, Load, SerBlock, BlockHash, BlockFits, BlockWithinCounts, Run, Sized;
    var two, three := [Put(a, 0), Restart], [Put(a, 0), Restart, Put(b, 1)];
    ThreeSteps(c, a, b);
    OneBlock(BlockHash(c, a), a);
    OneBlock(BlockHash(c, b), b);
    ReadsAnswer(c, two, BlockHash(c, a));
    ReadsAnswer(c, three, BlockHash(c, a));
  }

  lemma ThreeSteps(c: Crypto, a: Block, b: Block)
    requires BlockFits(a) && BlockFits(b) && BlockHash(c, a) != BlockHash(c, b)
    requires |SerBlock(a)| + |SerBlock(b)| < INT64_LIMIT
    ensures var two, three := [Put(a, 0), Restart], [Put(a, 0), Restart, Put(b, 1)];
            && Sized(c, two) && Sized(c, three)
            && Run(c, two).1 == Abstract(map[BlockHash(c, a) := a], map[], false)
            && Run(c, three).1 == Abstract(map[BlockHash(c, b) := b], map[BlockHash(c, b) := b], false)
  {
    hide SerBlock, HeaderHash, BlockFits, DiskTakes, IndexBytes;
    var none, one, two, three := [], [Put(a, 0)], [Put(a, 0), Restart], [Put(a, 0), Restart, Put(b, 1)];
    assert one[..0] == none && two[..1] == one && three[..2] == two && three[..1] == one && two[..0] == none
           && three[..0] == none && three[..3] == three && two[..2] == two;
    assert Run(c, none) == (EMPTY, NOTHING);
    EmptyTakes(EMPTY, |SerBlock(a)|);
    var s := Run(c, two).0;
    assert Run(c, one).1 == Written(c, NOTHING, a);
    assert s.index == map[] && s.files == map[0 := Content(map[], 0) + SerBlock(a)] by { FirstFile(c, a); }
    EmptyTakes(s, |SerBlock(b)|);
    OneBlock(BlockHash(c, a), a);
    OneBlock(BlockHash(c, b), b);
  }

  lemma OneBlock(h: Hash, blk: Block)
    ensures |map[h := blk]| == 1
  {
    assert map[h := blk].Keys == {h};
    assert |map[h := blk]| == |map[h := blk].Keys|;
  }

  lemma FirstFile(c: Crypto, a: Block)
    requires DiskTakes(EMPTY, |SerBlock(a)|)
    ensures var s := Reopen(Write(c, EMPTY, a, 0));
            s.index == map[] && s.files == map[0 := Content(map[], 0) + SerBlock(a)]
  {
    hide SerBlock, HeaderHash, IndexBytes;
    LastOfNone();
  }

  lemma LastOfNone()
    ensures LastFile(map[], Sorted({})) == 0
  {
    assert |Sorted({})| == 0;
  }

  /** With an empty index the first or the second file is written. */
  lemma EmptyTakes(s: Storage, size: nat)
    requires s.index == map[] && FileSize(s.files, 0) + size < INT64_LIMIT && FileSize(s.files, 1) + size < INT64_LIMIT
    ensures DiskTakes(s, size)
  {
    LastOfNone();
    assert s.index.Keys == {};
  }

  // ------------------------------------------------------------ the storage object

  class BlockStorage {
    const c: Crypto
    var files: map<nat, seq<byte>>
    var indexFile: Option<seq<byte>>
    var index: map<Hash, Location>
    var loaded: bool

    ghost function State(): Storage
      reads this
    {
      Storage(files, indexFile, index, loaded)
    }

    /** Opening a directory, empty or left by another process. */
    constructor (c: Crypto, files: map<nat, seq<byte>>, indexFile: Option<seq<byte>>)
      ensures this.c == c && State() == Reopen(Storage(files, indexFile, map[], false))
    {
      this.c, this.files, this.indexFile := c, files, indexFile;
      index, loaded := map[], false;
    }

    method WriteBlock(blk: Block, height: int64) returns (ok: bool)
      modifies this
      ensures State() == Write(c, old(State()), blk, height)
      ensures ok == DiskTakes(old(State()), |SerBlock(blk)|)
    {
      hide SerBlock, HeaderHash, LastFile, Sorted, IndexBytes, Ascending;
      var ser := SerBlock(blk);
      var fileNum := FindLast();
      var size := FileSize(files, fileNum);
      if size > 0 && size + |ser| > MAX_FILE {
        fileNum := fileNum + 1;
      }
      if fileNum >= INT32_LIMIT || FileSize(files, fileNum) + |ser| >= INT64_LIMIT { return false; }
      files := files[fileNum := Content(files, fileNum) + ser];
      var offset := |files[fileNum]| - |ser|;
      index := index[BlockHash(c, blk) := Location(height, fileNum, offset, |ser|)];
      SaveIndex();
      ok := true;
    }

    method FindLast() returns (fileNum: nat)
      ensures fileNum == LastFile(index, Sorted(index.Keys))
    {
      hide Sorted, Ascending;
      var keys := SortKeys(index.Keys);
      fileNum := 0;
      for i := 0 to |keys|
        invariant fileNum == LastFile(index, keys[..i])
      {
        assert keys[..i + 1][..i] == keys[..i];
        var f := index[keys[i]].file;
        if f > fileNum { fileNum := f; }
      }
      assert keys[..|keys|] == keys;
    }

    method SaveIndex()
      modifies `indexFile
      ensures indexFile == Some(IndexBytes(index))
    {
      hide Sorted, Ascending, LE, Record;
      var keys := SortKeys(index.Keys);
      var out := LE(|index|, 8);
      for i := 0 to |keys|
        invariant out == LE(|index|, 8) + Records(index, keys[..i])
      {
        assert keys[..i + 1][..i] == keys[..i];
        out := out + Record(keys[i], index[keys[i]]);
      }
      assert keys[..|keys|] == keys;
      indexFile := Some(out);
    }

    /** Lazy: the first read in a process loads the file on top of what is in memory. */
    method LoadIndex()
      modifies `index, `loaded
      ensures State() == Load(old(State()))
    {
      hide FromLE, RecordHash, RecordLocation;
      if loaded { return; }
      loaded := true;
      if indexFile.None? { return; }
      var d := indexFile.value;
      if |d| < 8 { return; }
      var n := FromLE(d[..8]);
      if n > MAX_ENTRIES { return; }
      ghost var base := index;
      var i := 0;
      while i < n
        invariant loaded && 0 <= i <= n && index == LoadRecords(base, d, i)
      {
        if 8 + 60 * (i + 1) > |d| {
          ShortFile(base, d, i, n);
          break;
        }
        index := index[RecordHash(d, i) := RecordLocation(d, i)];
        i := i + 1;
      }
    }

    method ReadBlock(hash: Hash) returns (r: Option<Block>)
      modifies `index, `loaded
      ensures State() == Load(old(State())) && r == Fetch(c, State(), hash)
    {
      hide Load, WireFormat.ReadBlock, HeaderHash;
      LoadIndex();
      if hash !in index { return None; }
      var l := index[hash];
      if l.file !in files || l.offset + l.size > |files[l.file]| { return None; }
      r := WireFormat.ReadBlock(files[l.file][l.offset..l.offset + l.size]);
      if r.Some? && BlockHash(c, r.value) != hash { return None; }
    }
  }

  /** Past the end of the file no record is read. */
  lemma {:induction false} ShortFile(base: map<Hash, Location>, d: seq<byte>, i: nat, n: nat)
    requires i <= n && 8 + 60 * (i + 1) > |d|
    ensures LoadRecords(base, d, n) == LoadRecords(base, d, i)
  {
    if i < n {
      ShortFile(base, d, i, n - 1);
    }
  }
}
