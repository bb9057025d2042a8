/** The chainstate file: what is saved is loaded back, exactly when the loader's caps allow. */
module ChainState {
  import opened Types
  import opened Bytes
  import opened WireFormat
  import opened Chain

  /** "CDXS". */
  const MAGIC: seq<byte> := [0x43, 0x44, 0x58, 0x53]

  predicate Int64(n: int) {
    -0x8000_0000_0000_0000 <= n < 0x8000_0000_0000_0000
  }

  predicate CoinFits(coin: Coin) {
    Int64(coin.height) && |coin.scriptPubKey| < TWO_64
  }

  // ------------------------------------------------------------ writing

  function CoinTail(coin: Coin): seq<byte> {
    [if coin.isCoinbase then 1 else 0] + (LE(|coin.scriptPubKey|, 8) + coin.scriptPubKey)
  }

  function SerCoin(o: OutPoint, coin: Coin): seq<byte>
    requires CoinFits(coin)
  {
    LE(o.hash, 32) + (LE(o.n, 4) + (LE(AsU64(coin.value), 8) + (LE(AsU64(coin.height), 8) + CoinTail(coin))))
  }

  predicate Keyed(view: View, keys: seq<OutPoint>) {
    forall i :: 0 <= i < |keys| ==> keys[i] in view && CoinFits(view[keys[i]])
  }

  function SerCoins(view: View, keys: seq<OutPoint>): seq<byte>
    requires Keyed(view, keys)
  {
    if keys == [] then []
    else SerCoins(view, keys[..|keys| - 1]) + SerCoin(keys[|keys| - 1], view[keys[|keys| - 1]])
  }

  function SerHashes(hs: seq<Hash>): (b: seq<byte>)
    ensures |b| == 32 * |hs|
  {
    if hs == [] then [] else SerHashes(hs[..|hs| - 1]) + LE(hs[|hs| - 1], 32)
  }

  /** keys: the coins in the order the view is iterated. */
  ghost predicate Enumerates(keys: seq<OutPoint>, view: View) {
    && |keys| == |view|
    && (forall o :: o in keys <==> o in view)
    && Keyed(view, keys)
  }

  ghost predicate Writable(snap: Snapshot, keys: seq<OutPoint>) {
    Enumerates(keys, snap.view) && Int64(snap.height) && |snap.byHeight| < TWO_64 && |snap.view| < TWO_64
  }

  /** What SaveChainState writes. */
  ghost function Saved(snap: Snapshot, keys: seq<OutPoint>): seq<byte>
    requires Writable(snap, keys)
  {
    MAGIC + (LE(snap.height, 8) + (LE(snap.tipHash, 32) + (LE(|snap.byHeight|, 8) + (SerHashes(snap.byHeight)
      + (LE(|snap.view|, 8) + SerCoins(snap.view, keys))))))
  }

  // ------------------------------------------------------------ reading

  /** One coin; Fail also where the script is too long. A read past the end of the file
      fails here; the source does not look. */
  function ReadCoin(d: seq<byte>, pos: nat): Read<(OutPoint, Coin)> {
    match ReadHash(d, pos) case Fail => Fail case Got(hash, p0) =>
    match ReadU32(d, p0) case Fail => Fail case Got(n, p1) =>
    match ReadU64(d, p1) case Fail => Fail case Got(value, p2) =>
    match ReadU64(d, p2) case Fail => Fail case Got(height, p3) =>
    match ReadLE(d, p3, 1) case Fail => Fail case Got(flags, p4) =>
    match ReadU64(d, p4) case Fail => Fail case Got(len, p5) =>
    if len > MAX_SCRIPT then Fail else
    match ReadBytes(d, p5, len) case Fail => Fail case Got(script, p6) =>
      Got((OutPoint(hash, n), Coin(AsI64(value), script, AsI64(height), flags != 0)), p6)
  }

  function ReadCoins(d: seq<byte>, pos: nat, n: nat): Read<View> {
    if n == 0 then Got(map[], pos)
    else
      match ReadCoins(d, pos, n - 1) case Fail => Fail case Got(view, p0) =>
      match ReadCoin(d, p0) case Fail => Fail case Got(entry, p1) => Got(view[entry.0 := entry.1], p1)
  }

  function ReadHashes(d: seq<byte>, pos: nat, n: nat): (r: Read<seq<Hash>>)
    ensures r.Got? ==> |r.value| == n
  {
    if n == 0 then Got([], pos)
    else
      match ReadHashes(d, pos, n - 1) case Fail => Fail case Got(hs, p0) =>
      match ReadHash(d, p0) case Fail => Fail case Got(h, p1) => Got(hs + [h], p1)
  }

  /** LoadChainState. A negative stored height is not modelled. */
  function Loaded(d: seq<byte>): Option<Snapshot> {
    match ReadBytes(d, 0, 4) case Fail => None case Got(magic, p0) =>
    if magic != MAGIC then None else
    match ReadU64(d, p0) case Fail => None case Got(height, p1) =>
    match ReadHash(d, p1) case Fail => None case Got(tip, p2) =>
    match ReadU64(d, p2) case Fail => None case Got(n, p3) =>
    if n > MAX_HEIGHTS then None else
    match ReadHashes(d, p3, n) case Fail => None case Got(byHeight, p4) =>
    match ReadU64(d, p4) case Fail => None case Got(m, p5) =>
    if m > MAX_COINS then None else
    match ReadCoins(d, p5, m) case Fail => None case Got(view, p6) =>
    Some(Snapshot(view, height, tip, byHeight))
  }

  // ------------------------------------------------------------ round trip

  lemma TailAt(d: seq<byte>, pos: nat, coin: Coin)
    requires CoinFits(coin) && At(d, pos, CoinTail(coin))
    ensures ReadLE(d, pos, 1) == Got(if coin.isCoinbase then 1 else 0, pos + 1)
    ensures ReadU64(d, pos + 1) == Got(|coin.scriptPubKey|, pos + 9)
    ensures ReadBytes(d, pos + 9, |coin.scriptPubKey|) == Got(coin.scriptPubKey, pos + 9 + |coin.scriptPubKey|)
    ensures |CoinTail(coin)| == 9 + |coin.scriptPubKey|
  {
    hide LE, At, ReadLE;
    Pow256Values();
    var len, script := LE(|coin.scriptPubKey|, 8), coin.scriptPubKey;
    var flag: byte := if coin.isCoinbase then 1 else 0;
    AtSplit(d, pos, [flag], len + script);
    AtSplit(d, pos + 1, len, script);
    OneByte(flag);
    ReadLEAt(d, pos, flag, 1);
    ReadLEAt(d, pos + 1, |script|, 8);
    BytesAt(d, pos + 9, script);
  }

  lemma OneByte(b: byte)
    ensures LE(b, 1) == [b] && Pow256(1) == 256
  {
    assert LE(b / 256, 0) == [];
  }

  lemma BytesAt(d: seq<byte>, pos: nat, s: seq<byte>)
    requires At(d, pos, s)
    ensures ReadBytes(d, pos, |s|) == Got(s, pos + |s|)
  {
  }

  lemma CoinAt(d: seq<byte>, pos: nat, o: OutPoint, coin: Coin)
    requires CoinFits(coin) && At(d, pos, SerCoin(o, coin))
    ensures ReadCoin(d, pos) == if ShortScript(coin) then Got((o, coin), pos + |SerCoin(o, coin)|) else Fail
  {
    hide LE, At, CoinTail, ReadLE, ReadBytes;
    Pow256Values();
    var t3 := CoinTail(coin);
    var t2 := LE(AsU64(coin.height), 8) + t3;
    var t1 := LE(AsU64(coin.value), 8) + t2;
    var t0 := LE(o.n, 4) + t1;
    AtSplit(d, pos, LE(o.hash, 32), t0);
    AtSplit(d, pos + 32, LE(o.n, 4), t1);
    AtSplit(d, pos + 36, LE(AsU64(coin.value), 8), t2);
    AtSplit(d, pos + 44, LE(AsU64(coin.height), 8), t3);
    ReadLEAt(d, pos, o.hash, 32);
    ReadLEAt(d, pos + 32, o.n, 4);
    ReadLEAt(d, pos + 36, AsU64(coin.value), 8);
    ReadLEAt(d, pos + 44, AsU64(coin.height), 8);
    TailAt(d, pos + 52, coin);
  }

  function Part(view: View, keys: seq<OutPoint>): View
    requires Keyed(view, keys)
  {
    map i | 0 <= i < |keys| :: keys[i] := view[keys[i]]
  }

  lemma PartSnoc(view: View, keys: seq<OutPoint>, o: OutPoint)
    requires Keyed(view, keys + [o])
    ensures Keyed(view, keys) && o in view
    ensures Part(view, keys + [o]) == Part(view, keys)[o := view[o]]
  {
    var all := keys + [o];
    assert all[|keys|] == o;
    assert forall i :: 0 <= i < |keys| ==> all[i] == keys[i];
  }

  predicate AllShort(view: View, keys: seq<OutPoint>)
    requires Keyed(view, keys)
  {
    forall i :: 0 <= i < |keys| ==> ShortScript(view[keys[i]])
  }

  lemma {:induction false} CoinsAt(d: seq<byte>, pos: nat, view: View, keys: seq<OutPoint>)
    requires Keyed(view, keys) && At(d, pos, SerCoins(view, keys))
    ensures ReadCoins(d, pos, |keys|) ==
            if AllShort(view, keys)
            then Got(Part(view, keys), pos + |SerCoins(view, keys)|) else Fail
  {
    hide At, SerCoin, ReadCoin, CoinFits, Part, ShortScript;
    if keys == [] {
      assert Part(view, keys) == map[] by { PartNone(view); }
    } else {
      var init, o := keys[..|keys| - 1], keys[|keys| - 1];
      assert keys == init + [o];
      AtSplit(d, pos, SerCoins(view, init), SerCoin(o, view[o]));
      CoinsAt(d, pos, view, init);
      CoinAt(d, pos + |SerCoins(view, init)|, o, view[o]);
      PartSnoc(view, init, o);
      assert forall i :: 0 <= i < |init| ==> keys[i] == init[i];
    }
  }

  lemma PartNone(view: View)
    ensures Part(view, []) == map[]
  {
  }

  lemma {:induction false} HashesAt(d: seq<byte>, pos: nat, hs: seq<Hash>)
    requires At(d, pos, SerHashes(hs))
    ensures ReadHashes(d, pos, |hs|) == Got(hs, pos + 32 * |hs|)
  {
    hide At, LE, ReadLE;
    if hs != [] {
      var init, h := hs[..|hs| - 1], hs[|hs| - 1];
      AtSplit(d, pos, SerHashes(init), LE(h, 32));
      HashesAt(d, pos, init);
      Pow256Values();
      ReadLEAt(d, pos + 32 * |init|, h, 32);
      assert hs == init + [h];
    }
  }

  /** A saved chainstate is loaded back, whole, if and only if it is within the loader's
      caps; otherwise loading fails. */
  lemma SavedIsLoaded(snap: Snapshot, keys: seq<OutPoint>)
    requires Writable(snap, keys)
    ensures Loaded(Saved(snap, keys)) == if WithinCaps(snap) then Some(snap) else None
  {
    hide LE, At, ReadLE, ReadBytes, SerHashes, SerCoins, ReadCoins, ReadHashes, Keyed, ShortScript, Part, AllShort,
         Saved, Pow256;
    var d := Saved(snap, keys);
    Fields(snap, keys);
    Pow256Values();
    ReadLEAt(d, 4, snap.height, 8);
    ReadLEAt(d, 12, snap.tipHash, 32);
    ReadLEAt(d, 44, |snap.byHeight|, 8);
    HashesAt(d, 52, snap.byHeight);
    var p := 52 + 32 * |snap.byHeight|;
    ReadLEAt(d, p, |snap.view|, 8);
    CoinsAt(d, p + 8, snap.view, keys);
    WholeView(snap.view, keys);
  }

  lemma WholeView(view: View, keys: seq<OutPoint>)
    requires Enumerates(keys, view)
    ensures Part(view, keys) == view
    ensures AllShort(view, keys) <==> forall o :: o in view ==> ShortScript(view[o])
  {
    hide ShortScript, CoinFits;
    forall o | o in view ensures o in Part(view, keys) {
      assert o in keys;
    }
    if AllShort(view, keys) {
      forall o | o in view ensures ShortScript(view[o]) {
        assert o in keys;
        var i :| 0 <= i < |keys| && keys[i] == o;
      }
    }
  }

  /** The caps in numbers. */
  lemma LoadsIff(snap: Snapshot, keys: seq<OutPoint>)
    requires Writable(snap, keys)
    ensures Loaded(Saved(snap, keys)) == Some(snap)
       <==> |snap.byHeight| <= 100_000_000 && |snap.view| <= 1_000_000_000
            && forall o <- snap.view :: |snap.view[o].scriptPubKey| <= 100_000
  {
    hide Loaded, Saved, Writable;
    SavedIsLoaded(snap, keys);
    assert WithinCaps(snap) <==> |snap.byHeight| <= 100_000_000 && |snap.view| <= 1_000_000_000
                                 && forall o <- snap.view :: ShortScript(snap.view[o]);
  }

  /** The bytes of the file, field by field. */
  lemma FileLayout(snap: Snapshot, keys: seq<OutPoint>, i: nat)
    requires Writable(snap, keys)
    ensures var d := Saved(snap, keys);
            var p := 52 + 32 * |snap.byHeight|;
            && |d| >= p + 8 && d[..4] == [0x43, 0x44, 0x58, 0x53] && d[4..12] == LE(snap.height, 8)
            && d[12..44] == LE(snap.tipHash, 32) && d[44..52] == LE(|snap.byHeight|, 8)
            && (i < |snap.byHeight| ==> d[52 + 32 * i..84 + 32 * i] == LE(snap.byHeight[i], 32))
            && d[p..p + 8] == LE(|snap.view|, 8)
  {
    hide LE, SerHashes, SerCoins, Keyed, Saved;
    Fields(snap, keys);
    var d := Saved(snap, keys);
    if i < |snap.byHeight| {
      HashPlace(snap.byHeight, i);
      Inner(d, 52, SerHashes(snap.byHeight), 32 * i, 32 * i + 32);
    }
  }

  lemma AtIs(d: seq<byte>, p: nat, s: seq<byte>)
    requires At(d, p, s)
    ensures p + |s| <= |d| && d[p..p + |s|] == s
  {
  }

  lemma Inner(d: seq<byte>, p: nat, s: seq<byte>, i: nat, j: nat)
    requires At(d, p, s) && i <= j <= |s|
    ensures d[p + i..p + j] == s[i..j]
  {
    hide At;
    assert s == s[..i] + (s[i..j] + s[j..]);
    AtSplit(d, p, s[..i], s[i..j] + s[j..]);
    AtSplit(d, p + i, s[i..j], s[j..]);
    assert At(d, p + i, s[i..j]);
    AtIs(d, p + i, s[i..j]);
  }

  lemma {:induction false} HashPlace(hs: seq<Hash>, i: nat)
    requires i < |hs|
    ensures SerHashes(hs)[32 * i..32 * i + 32] == LE(hs[i], 32)
    decreases |hs|
  {
    hide LE;
    if i < |hs| - 1 {
      HashPlace(hs[..|hs| - 1], i);
      assert SerHashes(hs)[32 * i..32 * i + 32] == SerHashes(hs[..|hs| - 1])[32 * i..32 * i + 32];
    }
  }

  /** The bytes of a coin, field by field. */
  lemma CoinLayout(o: OutPoint, coin: Coin)
    requires CoinFits(coin)
    ensures var d := SerCoin(o, coin);
            && |d| == 61 + |coin.scriptPubKey| && d[..32] == LE(o.hash, 32) && d[32..36] == LE(o.n, 4)
            && d[36..44] == LE(AsU64(coin.value), 8) && d[44..52] == LE(AsU64(coin.height), 8)
            && d[52] == (if coin.isCoinbase then 1 else 0) && d[53..61] == LE(|coin.scriptPubKey|, 8)
            && d[61..] == coin.scriptPubKey
  {
    hide LE;
  }

  lemma Fields(snap: Snapshot, keys: seq<OutPoint>)
    requires Writable(snap, keys)
    ensures var d := Saved(snap, keys);
            var p := 52 + 32 * |snap.byHeight|;
            && ReadBytes(d, 0, 4) == Got(MAGIC, 4) && At(d, 4, LE(snap.height, 8)) && At(d, 12, LE(snap.tipHash, 32))
            && At(d, 44, LE(|snap.byHeight|, 8)) && At(d, 52, SerHashes(snap.byHeight))
            && At(d, p, LE(|snap.view|, 8)) && At(d, p + 8, SerCoins(snap.view, keys))
  {
    hide LE, At, SerHashes, SerCoins, Keyed;
    var d := Saved(snap, keys);
    var t5 := LE(|snap.view|, 8) + SerCoins(snap.view, keys);
    var t4 := SerHashes(snap.byHeight) + t5;
    var t3 := LE(|snap.byHeight|, 8) + t4;
    var t2 := LE(snap.tipHash, 32) + t3;
    var t1 := LE(snap.height, 8) + t2;
    AtPrefix(d, []);
    assert d + [] == d;
    AtSplit(d, 0, MAGIC, t1);
    BytesAt(d, 0, MAGIC);
    AtSplit(d, 4, LE(snap.height, 8), t2);
    AtSplit(d, 12, LE(snap.tipHash, 32), t3);
    AtSplit(d, 44, LE(|snap.byHeight|, 8), t4);
    AtSplit(d, 52, SerHashes(snap.byHeight), t5);
    AtSplit(d, 52 + 32 * |snap.byHeight|, LE(|snap.view|, 8), SerCoins(snap.view, keys));
  }

  // ------------------------------------------------------------ the loops

  /** SaveChainState: one pass over the heights, one over the coins. */
  method SaveChainState(snap: Snapshot) returns (out: seq<byte>)
    requires Int64(snap.height) && |snap.byHeight| < TWO_64 && |snap.view| < TWO_64
    requires forall o :: o in snap.view ==> CoinFits(snap.view[o])
    ensures exists keys :: Writable(snap, keys) && out == Saved(snap, keys)
    ensures Loaded(out) == if WithinCaps(snap) then Some(snap) else None
  {
    hide LE, SerCoin, CoinFits, Loaded, WithinCaps;
    out := MAGIC + (LE(snap.height, 8) + (LE(snap.tipHash, 32) + LE(|snap.byHeight|, 8)));
    var hashes: seq<byte> := [];
    for i := 0 to |snap.byHeight|
      invariant hashes == SerHashes(snap.byHeight[..i])
    {
      assert snap.byHeight[..i + 1][..i] == snap.byHeight[..i];
      hashes := hashes + LE(snap.byHeight[i], 32);
    }
    assert snap.byHeight[..|snap.byHeight|] == snap.byHeight;
    var coins;
    ghost var keys;
    coins, keys := SaveCoins(snap.view);
    out := out + hashes + LE(|snap.view|, 8) + coins;
    assert out == Saved(snap, keys);
    SavedIsLoaded(snap, keys);
  }

  method SaveCoins(view: View) returns (out: seq<byte>, ghost keys: seq<OutPoint>)
    requires forall o :: o in view ==> CoinFits(view[o])
    ensures Enumerates(keys, view) && out == SerCoins(view, keys)
  {
    hide SerCoin, CoinFits;
    out, keys := [], [];
    var rest := view;
    while rest != map[]
      invariant Keyed(view, keys) && |keys| + |rest| == |view|
      invariant forall o :: o in rest ==> o in view && rest[o] == view[o]
      invariant forall o :: o in keys <==> o in view && o !in rest
      invariant out == SerCoins(view, keys)
      decreases |rest|
    {
      var o :| o in rest;
      assert (keys + [o])[..|keys|] == keys;
      keys := keys + [o];
      out := out + SerCoin(o, view[o]);
      RestSize(rest, o);
      rest := rest - {o};
    }
  }

  lemma RestSize(rest: View, o: OutPoint)
    requires o in rest
    ensures |rest - {o}| == |rest| - 1
  {
    assert rest.Keys == (rest - {o}).Keys + {o};
    assert |rest.Keys| == |rest| && |(rest - {o}).Keys| == |rest - {o}|;
  }

  /** LoadChainState. */
  method LoadChainState(d: seq<byte>) returns (r: Option<Snapshot>)
    ensures r == Loaded(d)
  {
    hide ReadHashes, ReadCoins, ReadLE;
    var magic := ReadBytes(d, 0, 4);
    if magic.Fail? || magic.value != MAGIC { return None; }
    var height := ReadU64(d, 4);
    if height.Fail? { return None; }
    var tip := ReadHash(d, 12);
    if tip.Fail? { return None; }
    var n := ReadU64(d, 44);
    if n.Fail? || n.value > MAX_HEIGHTS { return None; }
    var hashes := LoadHashes(d, 52, n.value);
    if hashes.Fail? { return None; }
    var m := ReadU64(d, hashes.pos);
    if m.Fail? || m.value > MAX_COINS { return None; }
    var coins := LoadCoins(d, m.pos, m.value);
    if coins.Fail? { return None; }
    r := Some(Snapshot(coins.value, height.value, tip.value, hashes.value));
  }

  method LoadHashes(d: seq<byte>, pos: nat, n: nat) returns (r: Read<seq<Hash>>)
    ensures r == ReadHashes(d, pos, n)
  {
    hide ReadHash;
    var byHeight, p := [], pos;
    for i := 0 to n
      invariant ReadHashes(d, pos, i) == Got(byHeight, p)
    {
      var h := ReadHash(d, p);
      if h.Fail? { HashesFail(d, pos, i + 1, n); return Fail; }
      byHeight, p := byHeight + [h.value], h.pos;
    }
    r := Got(byHeight, p);
  }

  lemma {:induction false} HashesFail(d: seq<byte>, pos: nat, i: nat, n: nat)
    requires i <= n && ReadHashes(d, pos, i).Fail?
    ensures ReadHashes(d, pos, n).Fail?
  {
    hide ReadHash;
    if i < n {
      HashesFail(d, pos, i, n - 1);
    }
  }

  method LoadCoins(d: seq<byte>, pos: nat, n: nat) returns (r: Read<View>)
    ensures r == ReadCoins(d, pos, n)
  {
    hide ReadCoin;
    var view: View, p := map[], pos;
    for i := 0 to n
      invariant ReadCoins(d, pos, i) == Got(view, p)
    {
      var e := ReadCoin(d, p);
      if e.Fail? { CoinsFail(d, pos, i + 1, n); return Fail; }
      view, p := view[e.value.0 := e.value.1], e.pos;
    }
    r := Got(view, p);
  }

  lemma {:induction false} CoinsFail(d: seq<byte>, pos: nat, i: nat, n: nat)
    requires i <= n && ReadCoins(d, pos, i).Fail?
    ensures ReadCoins(d, pos, n).Fail?
  {
    hide ReadCoin;
    if i < n {
      CoinsFail(d, pos, i, n - 1);
    }
  }
}
