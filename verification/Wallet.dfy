/** The wallet: balances, coin selection and the value arithmetic of a payment, over the
    coins of the view that pay the wallet's addresses.
 */
module Wallet {
  import opened Types
  import opened Ledger
  import Base58
  import Mempool

  // ------------------------------------------------------------ whose coin

  /** ExtractP2PKHHash. */
  function PayToHash(script: seq<byte>): (r: Option<seq<byte>>)
    ensures r.Some? ==> |r.value| == 20
  {
    if |script| == 25 && script[0] == 0x76 && script[1] == 0xa9 && script[2] == 0x14
       && script[23] == 0x88 && script[24] == 0xac
    then Some(script[3..23]) else None
  }

  /** BuildP2PKHScript. */
  function PayToScript(hash: seq<byte>): seq<byte> {
    [0x76, 0xa9, 0x14] + hash + [0x88, 0xac]
  }

  lemma ScriptRoundTrip(hash: seq<byte>, script: seq<byte>)
    requires |hash| == 20
    ensures PayToHash(PayToScript(hash)) == Some(hash)
    ensures PayToHash(script) == Some(hash) ==> script == PayToScript(hash)
  {
    assert PayToScript(hash)[3..23] == hash;
    if PayToHash(script) == Some(hash) {
      assert script == script[..3] + script[3..23] + script[23..];
    }
  }

  /** The wallet: its network's version byte and its addresses. */
  datatype Purse = Purse(version: byte, addresses: seq<string>)

  /** The hash behind an address of this network. */
  function KeyHash(c: Crypto, version: byte, address: string): Option<seq<byte>> {
    match Base58.FromAddress(c, address)
    case None => None
    case Some((v, h)) => if v == version then Some(h) else None
  }

  predicate Pays(c: Crypto, version: byte, coin: Coin, address: string) {
    var h := KeyHash(c, version, address);
    h.Some? && PayToHash(coin.scriptPubKey) == h
  }

  predicate Owned(c: Crypto, w: Purse, coin: Coin) {
    exists i :: 0 <= i < |w.addresses| && Pays(c, w.version, coin, w.addresses[i])
  }

  /** Addresses are the distinct keys of the key store, written by the encoder. */
  predicate Proper(w: Purse) {
    && (forall i, j :: 0 <= i < j < |w.addresses| ==> w.addresses[i] != w.addresses[j])
    && (forall i :: 0 <= i < |w.addresses| ==> '\0' !in w.addresses[i])
  }

  /** A coin pays at most one address: decoding is one to one. */
  lemma OneOwner(c: Crypto, version: byte, coin: Coin, a: string, b: string)
    requires Pays(c, version, coin, a) && Pays(c, version, coin, b) && '\0' !in a && '\0' !in b
    ensures a == b
  {
    hide Base58.FromAddress, Base58.ToAddress, PayToHash;
    var h := PayToHash(coin.scriptPubKey).value;
    Base58.AddressRoundTrip(c, version, h, a);
    Base58.AddressRoundTrip(c, version, h, b);
  }

  datatype Kind = Confirmed | Unconfirmed | Immature

  function KindOf(coin: Coin, height: int): Kind {
    if coin.isCoinbase && height - coin.height < COINBASE_MATURITY then Immature
    else if coin.height > height then Unconfirmed
    else Confirmed
  }

  /** The wallet's coins of the given kinds. */
  ghost function Holdings(c: Crypto, w: Purse, view: View, height: int, kinds: set<Kind>): View {
    map o | o in view && Owned(c, w, view[o]) && KindOf(view[o], height) in kinds :: view[o]
  }

  ghost function Spendable(c: Crypto, w: Purse, view: View, height: int): View {
    Holdings(c, w, view, height, {Confirmed, Unconfirmed})
  }

  /** The kinds selection draws on are exactly the coins validation lets be spent. */
  lemma SpendableIsValid(coin: Coin, height: int)
    ensures KindOf(coin, height) in {Confirmed, Unconfirmed} <==> coin.IsSpendable(height)
    ensures KindOf(coin, height) == Confirmed <==> coin.IsSpendable(height) && coin.height <= height
  {
  }

  // ------------------------------------------------------------ totals of parts

  lemma {:induction false} TotalUnion(a: View, b: View)
    requires a.Keys !! b.Keys
    ensures Total(a + b) == Total(a) + Total(b)
    decreases |b|
  {
    hide Total;
    if b == map[] {
      UnionNone(a);
      TotalNone();
    } else {
      var o :| o in b;
      TotalWithout(b, o);
      UnionWithout(a, b, o);
      TotalWithout(a + b, o);
      TotalUnion(a, b - {o});
    }
  }

  lemma UnionNone(a: View)
    ensures a + map[] == a
  {
  }

  lemma UnionWithout(a: View, b: View, o: OutPoint)
    requires a.Keys !! b.Keys && o in b
    ensures (a + b) - {o} == a + (b - {o}) && (a + b)[o] == b[o]
  {
  }

  lemma TotalNone()
    ensures Total(map[]) == 0
  {
  }

  predicate PartOf(part: View, view: View) {
    forall o :: o in part ==> o in view && view[o] == part[o]
  }

  lemma PartTotal(part: View, view: View)
    requires PartOf(part, view) && SaneView(view)
    ensures 0 <= Total(part) <= Total(view) && SaneView(part)
  {
    hide Total;
    var rest := view - part.Keys;
    assert view == part + rest;
    TotalUnion(part, rest);
    TotalNonNegative(part);
    TotalNonNegative(rest);
  }

  // ------------------------------------------------------------ balances

  /** The coins paying one hash, of the given kinds. */
  ghost function Paying(view: View, hash: seq<byte>, height: int, kinds: set<Kind>): View {
    map o | o in view && PayToHash(view[o].scriptPubKey) == Some(hash) && KindOf(view[o], height) in kinds :: view[o]
  }

  lemma PayingStep(view: View, o: OutPoint, hash: seq<byte>, height: int, kinds: set<Kind>)
    requires o in view
    ensures var counts := PayToHash(view[o].scriptPubKey) == Some(hash) && KindOf(view[o], height) in kinds;
            Total(Paying(view, hash, height, kinds))
            == Total(Paying(view - {o}, hash, height, kinds)) + if counts then view[o].value else 0
  {
    hide Total, PayToHash, KindOf;
    var all, rest := Paying(view, hash, height, kinds), Paying(view - {o}, hash, height, kinds);
    if o in all {
      TotalWithout(all, o);
      assert all - {o} == rest;
    } else {
      assert all == rest;
    }
  }

  lemma PayingPart(view: View, hash: seq<byte>, height: int, kinds: set<Kind>)
    ensures PartOf(Paying(view, hash, height, kinds), view)
  {
  }

  /** GetAddressBalance: three running sums, none of which overflows. */
  method GetAddressBalance(view: View, hash: seq<byte>, height: int)
    returns (confirmed: int64, unconfirmed: int64, immature: int64)
    requires SaneView(view) && Total(view) <= MAX_MONEY
    ensures confirmed == Total(Paying(view, hash, height, {Confirmed}))
    ensures unconfirmed == Total(Paying(view, hash, height, {Unconfirmed}))
    ensures immature == Total(Paying(view, hash, height, {Immature}))
  {
    hide Total, PayToHash, Paying, SaneView;
    confirmed, unconfirmed, immature := 0, 0, 0;
    PayingBound(view, hash, height);
    var rest := view;
    assert PartOf(rest, view);
    while rest != map[]
      invariant PartOf(rest, view)
      invariant 0 <= confirmed && confirmed + Total(Paying(rest, hash, height, {Confirmed})) == Total(Paying(view, hash, height, {Confirmed}))
      invariant 0 <= unconfirmed && unconfirmed + Total(Paying(rest, hash, height, {Unconfirmed})) == Total(Paying(view, hash, height, {Unconfirmed}))
      invariant 0 <= immature && immature + Total(Paying(rest, hash, height, {Immature})) == Total(Paying(view, hash, height, {Immature}))
      decreases |rest|
    {
      var o :| o in rest;
      var coin := rest[o];
      PayingStep(rest, o, hash, height, {Confirmed});
      PayingStep(rest, o, hash, height, {Unconfirmed});
      PayingStep(rest, o, hash, height, {Immature});
      rest := rest - {o};
      InRange(view, coin, o);
      PartSane(rest, view);
      PayingBound(rest, hash, height);
      if PayToHash(coin.scriptPubKey) == Some(hash) {
        if coin.isCoinbase && height - coin.height < COINBASE_MATURITY {
          immature := immature + coin.value;
        } else if coin.height > height {
          unconfirmed := unconfirmed + coin.value;
        } else {
          confirmed := confirmed + coin.value;
        }
      }
    }
    PayingNone(hash, height, {Confirmed});
    PayingNone(hash, height, {Unconfirmed});
    PayingNone(hash, height, {Immature});
  }

  lemma InRange(view: View, coin: Coin, o: OutPoint)
    requires SaneView(view) && o in view && view[o] == coin
    ensures ValueInRange(coin.value)
  {
  }

  lemma PartSane(part: View, view: View)
    requires PartOf(part, view) && SaneView(view)
    ensures SaneView(part)
  {
  }

  lemma PayingBound(view: View, hash: seq<byte>, height: int)
    requires SaneView(view)
    ensures forall kinds :: 0 <= Total(Paying(view, hash, height, kinds)) <= Total(view)
  {
    hide Total, PayToHash, Paying, SaneView;
    forall kinds ensures 0 <= Total(Paying(view, hash, height, kinds)) <= Total(view) {
      PayingPart(view, hash, height, kinds);
      PartTotal(Paying(view, hash, height, kinds), view);
    }
  }

  lemma PayingNone(hash: seq<byte>, height: int, kinds: set<Kind>)
    ensures Total(Paying(map[], hash, height, kinds)) == 0
  {
    TotalNone();
    assert Paying(map[], hash, height, kinds) == map[];
  }

  function Front(w: Purse, k: nat): Purse
    requires k <= |w.addresses|
  {
    w.(addresses := w.addresses[..k])
  }

  /** One address more adds exactly the coins that pay it. */
  lemma HoldingsStep(c: Crypto, w: Purse, view: View, height: int, kinds: set<Kind>, k: nat)
    requires Proper(w) && k < |w.addresses|
    ensures var before, after := Holdings(c, Front(w, k), view, height, kinds), Holdings(c, Front(w, k + 1), view, height, kinds);
            match KeyHash(c, w.version, w.addresses[k])
            case None => after == before
            case Some(h) =>
              after == before + Paying(view, h, height, kinds) && before.Keys !! Paying(view, h, height, kinds).Keys
  {
    hide PayToHash, KindOf, KeyHash;
    var before, after := Holdings(c, Front(w, k), view, height, kinds), Holdings(c, Front(w, k + 1), view, height, kinds);
    forall o | o in view
      ensures Owned(c, Front(w, k + 1), view[o])
         <==> Owned(c, Front(w, k), view[o]) || Pays(c, w.version, view[o], w.addresses[k])
      ensures !(Owned(c, Front(w, k), view[o]) && Pays(c, w.version, view[o], w.addresses[k]))
    {
      OwnedStep(c, w, view[o], k);
    }
    var h := KeyHash(c, w.version, w.addresses[k]);
    if h.None? {
      assert after == before;
    } else {
      assert after == before + Paying(view, h.value, height, kinds);
    }
  }

  lemma OwnedStep(c: Crypto, w: Purse, coin: Coin, k: nat)
    requires Proper(w) && k < |w.addresses|
    ensures Owned(c, Front(w, k + 1), coin) <==> Owned(c, Front(w, k), coin) || Pays(c, w.version, coin, w.addresses[k])
    ensures !(Owned(c, Front(w, k), coin) && Pays(c, w.version, coin, w.addresses[k]))
  {
    hide Pays;
    var a, b := Front(w, k).addresses, Front(w, k + 1).addresses;
    assert b == a + [w.addresses[k]];
    if Owned(c, Front(w, k), coin) {
      var i :| 0 <= i < |a| && Pays(c, w.version, coin, a[i]);
      assert b[i] == a[i] && a[i] != w.addresses[k];
      if Pays(c, w.version, coin, w.addresses[k]) {
        OneOwner(c, w.version, coin, a[i], w.addresses[k]);
      }
    }
    if Pays(c, w.version, coin, w.addresses[k]) {
      assert b[k] == w.addresses[k];
    }
  }

  lemma HoldingsNone(c: Crypto, w: Purse, view: View, height: int, kinds: set<Kind>)
    ensures Holdings(c, Front(w, 0), view, height, kinds) == map[]
  {
  }

  lemma HoldingsPart(c: Crypto, w: Purse, view: View, height: int, kinds: set<Kind>)
    ensures PartOf(Holdings(c, w, view, height, kinds), view)
  {
  }

  datatype Balance = Balance(confirmed: int, unconfirmed: int, immature: int)

  /** GetBalance: the sums over the addresses are the totals of the wallet's coins, each
      counted once. */
  method GetBalance(c: Crypto, w: Purse, view: View, height: int) returns (b: Balance)
    requires Proper(w) && SaneView(view) && Total(view) <= MAX_MONEY
    ensures b.confirmed == Total(Holdings(c, w, view, height, {Confirmed}))
    ensures b.unconfirmed == Total(Holdings(c, w, view, height, {Unconfirmed}))
    ensures b.immature == Total(Holdings(c, w, view, height, {Immature}))
  {
    hide Total, Holdings, Paying, KeyHash, SaneView, Proper;
    b := Balance(0, 0, 0);
    TotalNone();
    forall k: Kind { HoldingsNone(c, w, view, height, {k}); }
    for i := 0 to |w.addresses|
      invariant b.confirmed == Total(Holdings(c, Front(w, i), view, height, {Confirmed}))
      invariant b.unconfirmed == Total(Holdings(c, Front(w, i), view, height, {Unconfirmed}))
      invariant b.immature == Total(Holdings(c, Front(w, i), view, height, {Immature}))
    {
      BalanceStep(c, w, view, height, {Confirmed}, i);
      BalanceStep(c, w, view, height, {Unconfirmed}, i);
      BalanceStep(c, w, view, height, {Immature}, i);
      var h := KeyHash(c, w.version, w.addresses[i]);
      if h.Some? {
        var conf, unconf, imm := GetAddressBalance(view, h.value, height);
        b := Balance(b.confirmed + conf, b.unconfirmed + unconf, b.immature + imm);
      }
    }
    assert Front(w, |w.addresses|) == w;
  }

  lemma BalanceStep(c: Crypto, w: Purse, view: View, height: int, kinds: set<Kind>, k: nat)
    requires Proper(w) && k < |w.addresses|
    ensures var h := KeyHash(c, w.version, w.addresses[k]);
            Total(Holdings(c, Front(w, k + 1), view, height, kinds))
            == Total(Holdings(c, Front(w, k), view, height, kinds))
               + if h.None? then 0 else Total(Paying(view, h.value, height, kinds))
  {
    hide Total, Holdings, Paying, KeyHash, Proper;
    HoldingsStep(c, w, view, height, kinds, k);
    var h := KeyHash(c, w.version, w.addresses[k]);
    if h.Some? {
      TotalUnion(Holdings(c, Front(w, k), view, height, kinds), Paying(view, h.value, height, kinds));
    }
  }

  // ------------------------------------------------------------ listing and sorting

  datatype Selected = Selected(outpoint: OutPoint, coin: Coin, address: string)

  /** The entries name every coin of the map once and nothing else. */
  ghost predicate Lists(es: seq<Selected>, coins: View) {
    if es == [] then coins == map[]
    else
      var e := es[|es| - 1];
      e.outpoint in coins && coins[e.outpoint] == e.coin && Lists(es[..|es| - 1], coins - {e.outpoint})
  }

  function SumOf(es: seq<Selected>): int {
    if es == [] then 0 else SumOf(es[..|es| - 1]) + es[|es| - 1].coin.value
  }

  lemma ListsSnoc(es: seq<Selected>, e: Selected, coins: View)
    ensures Lists(es + [e], coins)
       <==> e.outpoint in coins && coins[e.outpoint] == e.coin && Lists(es, coins - {e.outpoint})
  {
    assert (es + [e])[..|es|] == es;
  }

  lemma {:induction false} ListsTotal(es: seq<Selected>, coins: View)
    requires Lists(es, coins)
    ensures SumOf(es) == Total(coins)
  {
    hide Total;
    if es == [] {
      TotalNone();
    } else {
      var e := es[|es| - 1];
      ListsTotal(es[..|es| - 1], coins - {e.outpoint});
      TotalWithout(coins, e.outpoint);
    }
  }

  lemma {:induction false} ListsUnion(a: seq<Selected>, x: View, b: seq<Selected>, y: View)
    requires Lists(a, x) && Lists(b, y) && x.Keys !! y.Keys
    ensures Lists(a + b, x + y)
  {
    if b == [] {
      assert a + b == a && x + y == x;
    } else {
      var init, e := b[..|b| - 1], b[|b| - 1];
      ListsUnion(a, x, init, y - {e.outpoint});
      assert x + (y - {e.outpoint}) == (x + y) - {e.outpoint};
      assert a + b == (a + init) + [e];
      ListsSnoc(a + init, e, x + y);
    }
  }

  lemma {:induction false} Listed(es: seq<Selected>, coins: View, i: nat)
    requires Lists(es, coins) && i < |es|
    ensures es[i].outpoint in coins && coins[es[i].outpoint] == es[i].coin
  {
    if i < |es| - 1 {
      Listed(es[..|es| - 1], coins - {es[|es| - 1].outpoint}, i);
    }
  }

  lemma ListedOnce(es: seq<Selected>, coins: View, i: nat, j: nat)
    requires Lists(es, coins) && i < j < |es|
    ensures es[i].outpoint != es[j].outpoint
    decreases |es|
  {
    var last := |es| - 1;
    if j < last {
      ListedOnce(es[..last], coins - {es[last].outpoint}, i, j);
    } else {
      Listed(es[..last], coins - {es[last].outpoint}, i);
    }
  }

  lemma {:induction false} ListsPrefix(es: seq<Selected>, coins: View, k: nat) returns (part: View)
    requires Lists(es, coins) && k <= |es|
    ensures Lists(es[..k], part) && PartOf(part, coins)
    decreases |es|
  {
    if k == |es| {
      part := coins;
      assert es[..k] == es;
    } else {
      var init := es[..|es| - 1];
      part := ListsPrefix(init, coins - {es[|es| - 1].outpoint}, k);
      assert init[..k] == es[..k];
    }
  }

  predicate Ascending(es: seq<Selected>) {
    forall i, j :: 0 <= i < j < |es| ==> es[i].coin.value <= es[j].coin.value
  }

  function Insert(es: seq<Selected>, e: Selected): seq<Selected> {
    if es == [] || es[|es| - 1].coin.value <= e.coin.value then es + [e]
    else Insert(es[..|es| - 1], e) + [es[|es| - 1]]
  }

  /** The entries by ascending value. Entries of equal value keep their order; the library
      sort may order them otherwise. */
  function Sort(es: seq<Selected>): seq<Selected> {
    if es == [] then [] else Insert(Sort(es[..|es| - 1]), es[|es| - 1])
  }

  lemma {:induction false} InsertLists(es: seq<Selected>, e: Selected, coins: View)
    requires Lists(es + [e], coins)
    ensures Lists(Insert(es, e), coins)
    decreases |es|
  {
    hide Lists;
    if es != [] && es[|es| - 1].coin.value > e.coin.value {
      var init, l := es[..|es| - 1], es[|es| - 1];
      assert es == init + [l];
      ListsSnoc(es, e, coins);
      ListsSnoc(init, l, coins - {e.outpoint});
      assert coins - {e.outpoint} - {l.outpoint} == coins - {l.outpoint} - {e.outpoint};
      ListsSnoc(init, e, coins - {l.outpoint});
      InsertLists(init, e, coins - {l.outpoint});
      ListsSnoc(Insert(init, e), l, coins);
    }
  }

  lemma {:induction false} SortLists(es: seq<Selected>, coins: View)
    requires Lists(es, coins)
    ensures Lists(Sort(es), coins)
  {
    if es != [] {
      var init, e := es[..|es| - 1], es[|es| - 1];
      SortLists(init, coins - {e.outpoint});
      ListsSnoc(Sort(init), e, coins);
      InsertLists(Sort(init), e, coins);
    }
  }

  lemma {:induction false} InsertAscending(es: seq<Selected>, e: Selected)
    requires Ascending(es)
    ensures Ascending(Insert(es, e)) && multiset(Insert(es, e)) == multiset(es) + multiset{e}
    decreases |es|
  {
    if es != [] && es[|es| - 1].coin.value > e.coin.value {
      var init, l := es[..|es| - 1], es[|es| - 1];
      assert es == init + [l];
      InsertAscending(init, e);
      hide Insert;
      AscendingSnoc(Insert(init, e), init, e, l);
    }
  }

  lemma AscendingSnoc(r: seq<Selected>, init: seq<Selected>, e: Selected, l: Selected)
    requires Ascending(r) && Ascending(init + [l]) && multiset(r) == multiset(init) + multiset{e}
    requires e.coin.value < l.coin.value
    ensures Ascending(r + [l])
  {
    var all := init + [l];
    forall i | 0 <= i < |r| ensures r[i].coin.value <= l.coin.value {
      assert r[i] in multiset(r);
      if r[i] in init {
        var j :| 0 <= j < |init| && init[j] == r[i];
        assert all[j].coin.value <= all[|init|].coin.value;
      }
    }
  }

  lemma {:induction false} SortAscending(es: seq<Selected>)
    ensures Ascending(Sort(es)) && multiset(Sort(es)) == multiset(es)
  {
    if es != [] {
      var init, e := es[..|es| - 1], es[|es| - 1];
      SortAscending(init);
      InsertAscending(Sort(init), e);
      assert es == init + [e];
    }
  }

  // ------------------------------------------------------------ selection

  /** The collecting loops of SelectCoins. */
  method Collect(c: Crypto, w: Purse, view: View, height: int) returns (es: seq<Selected>)
    requires Proper(w)
    ensures Lists(es, Spendable(c, w, view, height))
  {
    hide Lists, Holdings, KeyHash, Proper, Paying;
    es := [];
    HoldingsNone(c, w, view, height, {Confirmed, Unconfirmed});
    assert Lists([], map[]) by { ListsNone(); }
    for i := 0 to |w.addresses|
      invariant Lists(es, Holdings(c, Front(w, i), view, height, {Confirmed, Unconfirmed}))
    {
      HoldingsStep(c, w, view, height, {Confirmed, Unconfirmed}, i);
      var h := KeyHash(c, w.version, w.addresses[i]);
      if h.Some? {
        var more := CollectFor(view, h.value, height, w.addresses[i]);
        ListsUnion(es, Holdings(c, Front(w, i), view, height, {Confirmed, Unconfirmed}),
                   more, Paying(view, h.value, height, {Confirmed, Unconfirmed}));
        es := es + more;
      }
    }
    assert Front(w, |w.addresses|) == w;
  }

  lemma ListsNone()
    ensures Lists([], map[])
  {
  }

  method CollectFor(view: View, hash: seq<byte>, height: int, address: string) returns (es: seq<Selected>)
    ensures Lists(es, Paying(view, hash, height, {Confirmed, Unconfirmed}))
  {
    hide Lists, PayToHash, Paying, KindOf, Split;
    es := [];
    ListsNone();
    var rest := view;
    ghost var seen: View := map[];
    PayingEmpty(hash, height);
    SplitStart(view);
    while rest != map[]
      invariant Split(view, seen, rest)
      invariant Lists(es, Paying(seen, hash, height, {Confirmed, Unconfirmed}))
      decreases |rest|
    {
      var o :| o in rest;
      var coin := rest[o];
      SplitMove(view, seen, rest, o);
      PayingMore(seen, o, coin, hash, height);
      if PayToHash(coin.scriptPubKey) == Some(hash) && coin.IsSpendable(height) {
        var e := Selected(o, coin, address);
        ListsSnoc(es, e, Paying(seen[o := coin], hash, height, {Confirmed, Unconfirmed}));
        es := es + [e];
      }
      seen, rest := seen[o := coin], rest - {o};
    }
    SplitEnd(view, seen);
  }

  /** A view cut in two. */
  ghost predicate Split(view: View, seen: View, rest: View) {
    seen.Keys !! rest.Keys && seen + rest == view
  }

  lemma SplitStart(view: View)
    ensures Split(view, map[], view)
  {
    assert map[] + view == view;
  }

  lemma SplitEnd(view: View, seen: View)
    requires Split(view, seen, map[])
    ensures seen == view
  {
    assert seen + map[] == seen;
  }

  lemma SplitMove(view: View, seen: View, rest: View, o: OutPoint)
    requires Split(view, seen, rest) && o in rest
    ensures o !in seen && Split(view, seen[o := rest[o]], rest - {o})
  {
    assert seen[o := rest[o]] + (rest - {o}) == view;
  }

  lemma PayingEmpty(hash: seq<byte>, height: int)
    ensures Paying(map[], hash, height, {Confirmed, Unconfirmed}) == map[]
  {
  }

  lemma PayingMore(seen: View, o: OutPoint, coin: Coin, hash: seq<byte>, height: int)
    requires o !in seen
    ensures var before := Paying(seen, hash, height, {Confirmed, Unconfirmed});
            var after := Paying(seen[o := coin], hash, height, {Confirmed, Unconfirmed});
            if PayToHash(coin.scriptPubKey) == Some(hash) && coin.IsSpendable(height)
            then o in after && after[o] == coin && after - {o} == before else after == before
  {
    hide PayToHash;
    SpendableIsValid(coin, height);
    hide KindOf;
    var before := Paying(seen, hash, height, {Confirmed, Unconfirmed});
    var after := Paying(seen[o := coin], hash, height, {Confirmed, Unconfirmed});
    if PayToHash(coin.scriptPubKey) == Some(hash) && coin.IsSpendable(height) {
      assert after - {o} == before;
    } else {
      assert after == before;
    }
  }

  predicate Picked(sel: seq<Selected>, o: OutPoint) {
    exists i :: 0 <= i < |sel| && sel[i].outpoint == o
  }

  /** What selection promises: distinct coins of the wallet that cover the need, in
      ascending order, none of them to spare, and no smaller coin passed over. */
  ghost predicate Chosen(c: Crypto, w: Purse, view: View, height: int, need: int, sel: seq<Selected>) {
    var coins := Spendable(c, w, view, height);
    && |sel| > 0 && Ascending(sel)
    && (forall i :: 0 <= i < |sel| ==> sel[i].outpoint in coins && coins[sel[i].outpoint] == sel[i].coin)
    && (forall i, j :: 0 <= i < j < |sel| ==> sel[i].outpoint != sel[j].outpoint)
    && SumOf(sel[..|sel| - 1]) < need <= SumOf(sel)
    && (forall o :: o in coins ==> Picked(sel, o) || coins[o].value >= sel[|sel| - 1].coin.value)
  }

  /** SelectCoins succeeds if and only if the confirmed and unconfirmed coins of the wallet
      cover the need. */
  method SelectCoins(c: Crypto, w: Purse, view: View, height: int, need: int64) returns (ok: bool, sel: seq<Selected>)
    requires Proper(w) && SaneView(view) && Total(view) <= MAX_MONEY && need > 0
    ensures ok <==> Total(Spendable(c, w, view, height)) >= need
    ensures ok ==> Chosen(c, w, view, height, need, sel)
  {
    hide Total, Spendable, Lists, SaneView, Proper, Insert, Sort, Chosen, SumOf, Ascending, PartOf;
    ghost var coins := Spendable(c, w, view, height);
    var es := Collect(c, w, view, height);
    SortLists(es, coins);
    SortAscending(es);
    es := Sort(es);
    SpendableIs(c, w, view, height);
    PartTotal(coins, view);
    ListsTotal(es, coins);
    var total: int64 := 0;
    sel := [];
    SumNone(es);
    for i := 0 to |es|
      invariant sel == es[..i] && total == SumOf(es[..i]) < need
    {
      SumNext(es, i);
      PrefixBound(es, coins, i + 1);
      sel := sel + [es[i]];
      total := total + es[i].coin.value;
      if total >= need {
        PrefixChosen(c, w, view, height, need, es, i + 1);
        return true, sel;
      }
    }
    assert es[..|es|] == es;
    ok := false;
  }

  lemma SumNone(es: seq<Selected>)
    ensures es[..0] == [] && SumOf(es[..0]) == 0
  {
  }

  lemma SumNext(es: seq<Selected>, i: nat)
    requires i < |es|
    ensures es[..i + 1] == es[..i] + [es[i]] && SumOf(es[..i + 1]) == SumOf(es[..i]) + es[i].coin.value
  {
    assert es[..i + 1][..i] == es[..i];
  }

  lemma SpendableIs(c: Crypto, w: Purse, view: View, height: int)
    ensures PartOf(Spendable(c, w, view, height), view)
  {
    hide Holdings;
    HoldingsPart(c, w, view, height, {Confirmed, Unconfirmed});
  }

  lemma PrefixBound(es: seq<Selected>, coins: View, k: nat)
    requires Lists(es, coins) && SaneView(coins) && k <= |es|
    ensures 0 <= SumOf(es[..k]) <= Total(coins)
  {
    hide Total, Lists;
    var part := ListsPrefix(es, coins, k);
    ListsTotal(es[..k], part);
    PartTotal(part, coins);
  }

  lemma PrefixChosen(c: Crypto, w: Purse, view: View, height: int, need: int, es: seq<Selected>, k: nat)
    requires Lists(es, Spendable(c, w, view, height)) && Ascending(es) && 0 < k <= |es|
    requires SumOf(es[..k - 1]) < need <= SumOf(es[..k])
    ensures Chosen(c, w, view, height, need, es[..k])
  {
    hide Lists, Spendable, SumOf;
    var coins, sel := Spendable(c, w, view, height), es[..k];
    assert sel[..k - 1] == es[..k - 1];
    forall i | 0 <= i < k
      ensures sel[i].outpoint in coins && coins[sel[i].outpoint] == sel[i].coin
    {
      Listed(es, coins, i);
    }
    forall i, j | 0 <= i < j < k
      ensures sel[i].outpoint != sel[j].outpoint
    {
      ListedOnce(es, coins, i, j);
    }
    forall o | o in coins
      ensures Picked(sel, o) || coins[o].value >= sel[k - 1].coin.value
    {
      var j := FindListed(es, coins, o);
      Listed(es, coins, j);
      if j < k {
        assert sel[j].outpoint == o;
      }
    }
  }

  lemma {:induction false} FindListed(es: seq<Selected>, coins: View, o: OutPoint) returns (j: nat)
    requires Lists(es, coins) && o in coins
    ensures j < |es| && es[j].outpoint == o
  {
    j := |es| - 1;
    if es[j].outpoint != o {
      j := FindListed(es[..j], coins - {es[j].outpoint}, o);
    }
  }

  /** What can be spent is the confirmed and the unconfirmed balance together. */
  lemma SpendableBalance(c: Crypto, w: Purse, view: View, height: int)
    ensures Total(Spendable(c, w, view, height))
         == Total(Holdings(c, w, view, height, {Confirmed})) + Total(Holdings(c, w, view, height, {Unconfirmed}))
  {
    hide Total, KindOf, Owned;
    var a, b := Holdings(c, w, view, height, {Confirmed}), Holdings(c, w, view, height, {Unconfirmed});
    TotalUnion(a, b);
    assert a + b == Spendable(c, w, view, height);
  }

  // ------------------------------------------------------------ payments

  const DEFAULT_FEE_RATE: nat := 1000
  const MIN_WALLET_FEE: nat := 100
  const DUST: nat := 1000

  function EstimateFee(size: uint64): int {
    var fee := size * DEFAULT_FEE_RATE % TWO_64 / 1000;
    if fee < MIN_WALLET_FEE then MIN_WALLET_FEE else fee
  }

  /** The size assumed for the attempt: three inputs, two outputs, a margin on a retry. */
  function ApproxSize(attempt: nat): uint64 {
    10 + 3 * (32 + 4 + 110 + 4) + 2 * (8 + 25) + 4 + if attempt > 0 then 150 else 0
  }

  function Inputs(sel: seq<Selected>): (vin: seq<TxIn>)
    ensures |vin| == |sel| && forall i :: 0 <= i < |sel| ==> vin[i].prevout == sel[i].outpoint
  {
    seq(|sel|, i requires 0 <= i < |sel| => TxIn(sel[i].outpoint, [], 0xffff_ffff))
  }

  datatype Payment = Payment(tx: Transaction, fee: int64, change: int64)

  /** The books of a payment balance: the inputs are distinct coins of the view worth the
      amount, the change and the fee; the fee is the estimate plus at most a dust remainder;
      the recipient gets the amount and the change, if any, is worth having. */
  ghost predicate Balanced(view: View, hash: seq<byte>, change: Option<seq<byte>>, amount: int64, estimate: int,
                           p: Payment, sel: seq<Selected>)
  {
    && p.tx.vin == Inputs(sel) && DistinctInputs(p.tx.vin) && Present(view, p.tx.vin)
    && InSum(view, p.tx.vin) == amount + p.change + p.fee
    && Fee(view, p.tx) == p.fee && estimate <= p.fee < estimate + 1000
    && (p.change == 0 || (p.change >= 1000 && p.fee == estimate && change.Some?))
    && p.tx.vout == [TxOut(amount, PayToScript(hash))]
                    + if p.change == 0 || change.None? then [] else [TxOut(p.change, PayToScript(change.value))]
  }

  lemma {:induction false} InputsWorth(sel: seq<Selected>, view: View)
    requires forall i :: 0 <= i < |sel| ==> sel[i].outpoint in view && view[sel[i].outpoint] == sel[i].coin
    ensures InSum(view, Inputs(sel)) == SumOf(sel)
  {
    if sel != [] {
      var init, e := sel[..|sel| - 1], sel[|sel| - 1];
      InputsWorth(init, view);
      assert Inputs(sel) == Inputs(init) + [Inputs(sel)[|init|]];
      InSumSnoc(view, Inputs(init), Inputs(sel)[|init|]);
    }
  }

  /** A chosen selection is distinct, present, and worth its sum, which is real money. */
  lemma ChosenInputs(c: Crypto, w: Purse, view: View, height: int, need: int, sel: seq<Selected>)
    requires Chosen(c, w, view, height, need, sel)
    ensures DistinctInputs(Inputs(sel)) && Present(view, Inputs(sel)) && InSum(view, Inputs(sel)) == SumOf(sel)
  {
    hide SumOf, InSum, Owned, KindOf;
    InputsWorth(sel, view);
  }

  /** CreateTransaction up to signing, with the attempts repeated and the coins selected.
      changes: what decoding each freshly generated change
      address gives; an attempt whose change address does not decode is repeated with a
      margin. It fails exactly when the wallet is locked, the recipient does not decode, the
      amount is not positive, the wallet cannot cover the amount and the estimate of the
      attempt it reached, or eight change addresses in a row did not decode. */
  method CreateTransaction(c: Crypto, w: Purse, view: View, height: int, locked: bool, to: string, amount: int64,
                           changes: seq<Option<seq<byte>>>) returns (r: Option<Payment>, k: nat, sel: seq<Selected>)
    requires Proper(w) && SaneView(view) && Total(view) <= MAX_MONEY
    requires amount <= 0x7fff_ffff_ffff_ffff - 1000 && |changes| == 8
    ensures k <= 8 && forall j :: 0 <= j < k ==> changes[j].None?
    ensures changes[0].Some? ==> k == 0
    ensures r.None? ==> locked || Base58.FromAddress(c, to).None? || amount <= 0 || k == 8
                        || Total(Spendable(c, w, view, height)) < amount + EstimateFee(ApproxSize(k))
    ensures r.Some? ==>
              && !locked && Base58.FromAddress(c, to).Some? && amount > 0 && k < 8
              && Chosen(c, w, view, height, amount + EstimateFee(ApproxSize(k)), sel)
              && Balanced(view, Base58.FromAddress(c, to).value.1, changes[k], amount, EstimateFee(ApproxSize(k)),
                          r.value, sel)
  {
    hide Total, Spendable, Chosen, SaneView, Proper, PayToScript, Base58.FromAddress, Balanced, EstimateFee;
    sel, k := [], 0;
    if locked { return None, k, sel; }
    var dest := Base58.FromAddress(c, to);
    if dest.None? || amount <= 0 { return None, k, sel; }
    for attempt := 0 to 8
      invariant k == attempt && forall j :: 0 <= j < k ==> changes[j].None?
    {
      EstimateSmall(attempt);
      var estimate: int64 := EstimateFee(ApproxSize(attempt));
      var need: int64 := amount + estimate;
      var ok, selected := SelectCoins(c, w, view, height, need);
      if !ok { return None, k, sel; }
      sel := selected;
      var p := Pay(c, w, view, height, dest.value.1, changes[attempt], amount, estimate, selected);
      if p.Some? { return p, k, sel; }
      k := k + 1;
    }
    r := None;
  }

  /** The estimates in numbers: 530 base units, and 680 once a change address has failed. */
  lemma EstimateSmall(attempt: nat)
    ensures EstimateFee(ApproxSize(attempt)) == if attempt == 0 then 530 else 680
  {
  }

  /** One base unit a byte, at least 100, while the product fits 64 bits. */
  lemma EstimateIs(size: uint64)
    requires size < 18_446_744_073_709_551
    ensures EstimateFee(size) == if size < 100 then 100 else size
  {
    assert size * 1000 < TWO_64;
  }

  /** A payment the wallet builds, once signed, is taken by the pool if and only if its
      signatures verify, no pooled transaction spends one of its coins, it has at most 10,000
      inputs, and none of them has id zero: values, fee and maturity are never the reason. */
  lemma PaymentAccepted(c: Crypto, w: Purse, view: View, height: nat, hash: seq<byte>, change: Option<seq<byte>>, amount: int64,
                        estimate: int, p: Payment, sel: seq<Selected>, pool: Mempool.Pool, signed: Transaction)
    requires SaneView(view) && Total(view) <= MAX_MONEY && amount > 0 && estimate >= 100
    requires Chosen(c, w, view, height, amount + estimate, sel) && Balanced(view, hash, change, amount, estimate, p, sel)
    requires SameButScripts(p.tx, signed)
    ensures Mempool.Acceptable(c, pool, signed, view, height)
       <==> && |signed.vin| <= 10_000 && (forall i :: 0 <= i < |signed.vin| ==> signed.vin[i].prevout.hash != 0)
            && Prevouts(signed.vin) !! pool.spent.Keys
            && forall i :: 0 <= i < |signed.vin| ==> Mempool.Signed(c, signed, view, i)
  {
    hide Total, SumOut, InSum, Mempool.Signed, PayToScript, Spendable, SaneView, SumOf, Prevouts, Present, Mempool.StillSpendable,
         InputsOk, Inputs;
    ChosenInputs(c, w, view, height, amount + estimate, sel);
    ChosenSums(c, w, view, height, amount + estimate, sel);
    SameWorth(view, p.tx.vin, signed.vin);
    OutputsWorth(signed.vout, amount, p.change);
    ChosenMature(c, w, view, height, amount + estimate, sel, signed);
    Mempool.PurgeKeepsValid(c, signed, view, height);
    hide Chosen;
    assert DistinctInputs(signed.vin) && OutputsInRange(signed.vout);
  }

  lemma {:induction false} SameWorth(view: View, a: seq<TxIn>, b: seq<TxIn>)
    requires |a| == |b| && forall i :: 0 <= i < |a| ==> a[i].prevout == b[i].prevout
    ensures InSum(view, a) == InSum(view, b)
  {
    if a != [] {
      SameWorth(view, a[..|a| - 1], b[..|b| - 1]);
    }
  }

  lemma ChosenMature(c: Crypto, w: Purse, view: View, height: nat, need: int, sel: seq<Selected>, tx: Transaction)
    requires Chosen(c, w, view, height, need, sel) && |tx.vin| == |sel|
    requires forall i :: 0 <= i < |sel| ==> tx.vin[i].prevout == sel[i].outpoint
    ensures Mempool.StillSpendable(view, height, tx)
  {
    hide SumOf, Owned, KindOf;
    forall i | 0 <= i < |tx.vin|
      ensures tx.vin[i].prevout in view && view[tx.vin[i].prevout].IsSpendable(height)
    {
      SpendableIsValid(sel[i].coin, height);
    }
  }

  /** One attempt: change, dust, outputs. */
  method Pay(c: Crypto, w: Purse, view: View, height: int, hash: seq<byte>, changeHash: Option<seq<byte>>, amount: int64,
             estimate: int64, sel: seq<Selected>) returns (r: Option<Payment>)
    requires SaneView(view) && Total(view) <= MAX_MONEY && 0 < estimate < 1000
    requires 0 < amount <= 0x7fff_ffff_ffff_ffff - 1000 && Chosen(c, w, view, height, amount + estimate, sel)
    ensures r.None? ==> changeHash.None?
    ensures r.Some? ==> Balanced(view, hash, changeHash, amount, estimate, r.value, sel)
  {
    hide Total, Spendable, Chosen, SaneView, PayToScript, DistinctInputs, InSum, SumOut;
    var need: int64 := amount + estimate;
    ChosenInputs(c, w, view, height, need, sel);
    ChosenSums(c, w, view, height, need, sel);
    var inSum := SumSelected(sel);
    var change: int64 := inSum - need;
    var fee: int64 := estimate;
    var vout := [TxOut(amount, PayToScript(hash))];
    if change > 0 {
      if change < DUST {
        fee, change := fee + change, 0;
      } else {
        if changeHash.None? { return None; }
        vout := vout + [TxOut(change, PayToScript(changeHash.value))];
      }
    }
    OutputsWorth(vout, amount, change);
    r := Some(Payment(Transaction(1, Inputs(sel), vout, 0), fee, change));
  }

  /** A generated change address always decodes. */
  lemma ChangeDecodes(c: Crypto, version: byte, key: seq<byte>)
    requires |key| == 20
    ensures Base58.FromAddress(c, Base58.ToAddress(c, version, key)) == Some((version, key))
  {
    Base58.AddressRoundTrip(c, version, key, "");
  }

  lemma ChosenSums(c: Crypto, w: Purse, view: View, height: int, need: int, sel: seq<Selected>)
    requires Chosen(c, w, view, height, need, sel) && SaneView(view) && Total(view) <= MAX_MONEY
    ensures need <= SumOf(sel) <= MAX_MONEY
    ensures forall k :: 0 <= k <= |sel| ==> 0 <= SumOf(sel[..k]) <= MAX_MONEY
  {
    hide Total, SumOf, Owned, KindOf;
    forall k | 0 <= k <= |sel| ensures 0 <= SumOf(sel[..k]) <= MAX_MONEY {
      var part := ListSelection(sel[..k], view);
      ListsTotal(sel[..k], part);
      PartTotal(part, view);
    }
    assert sel[..|sel|] == sel;
  }

  /** Distinct coins of the view are a part of it. */
  lemma {:induction false} ListSelection(sel: seq<Selected>, view: View) returns (part: View)
    requires forall i :: 0 <= i < |sel| ==> sel[i].outpoint in view && view[sel[i].outpoint] == sel[i].coin
    requires forall i, j :: 0 <= i < j < |sel| ==> sel[i].outpoint != sel[j].outpoint
    ensures Lists(sel, part) && PartOf(part, view)
    ensures forall o :: o in part ==> Picked(sel, o)
  {
    if sel == [] {
      part := map[];
    } else {
      var init, e := sel[..|sel| - 1], sel[|sel| - 1];
      var before := ListSelection(init, view);
      assert !Picked(init, e.outpoint);
      part := before[e.outpoint := e.coin];
      assert part - {e.outpoint} == before;
      assert sel == init + [e];
      hide Lists;
      ListsSnoc(init, e, part);
      forall o | o in part ensures Picked(sel, o) {
        PickedSnoc(init, e, o);
      }
    }
  }

  lemma PickedSnoc(sel: seq<Selected>, e: Selected, o: OutPoint)
    requires Picked(sel, o) || e.outpoint == o
    ensures Picked(sel + [e], o)
  {
    if Picked(sel, o) {
      var i :| 0 <= i < |sel| && sel[i].outpoint == o;
      assert (sel + [e])[i].outpoint == o;
    } else {
      assert (sel + [e])[|sel|].outpoint == o;
    }
  }

  method SumSelected(sel: seq<Selected>) returns (sum: int64)
    requires forall k :: 0 <= k <= |sel| ==> 0 <= SumOf(sel[..k]) <= MAX_MONEY
    ensures sum == SumOf(sel)
  {
    sum := 0;
    for i := 0 to |sel|
      invariant sum == SumOf(sel[..i])
    {
      assert sel[..i + 1][..i] == sel[..i];
      assert 0 <= SumOf(sel[..i + 1]) <= MAX_MONEY;
      sum := sum + sel[i].coin.value;
    }
    assert sel[..|sel|] == sel;
  }

  lemma OutputsWorth(vout: seq<TxOut>, amount: int, change: int)
    requires 0 < |vout| <= 2 && vout[0].value == amount && (if |vout| == 1 then change == 0 else vout[1].value == change)
    ensures SumOut(vout) == amount + change
  {
    SumOutNone();
    SumOutSnoc([], vout[0]);
    assert [] + [vout[0]] == vout[..1];
    if |vout| == 2 {
      SumOutSnoc([vout[0]], vout[1]);
      assert [vout[0]] + [vout[1]] == vout;
    } else {
      assert vout[..1] == vout;
    }
  }
}
