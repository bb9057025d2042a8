/** Block download between nodes: what a follower's chain can be under any delivery of
    another node's blocks, and how fast the headers protocol catches up.
 */
module Sync {
  import opened Types
  import opened WireFormat
  import opened Chain
  import opened Blockchain
  import Compact
  import Framing
  import Ledger
  import Mempool
  import Runs

  // ------------------------------------------------------------ a chain grown by extension

  function Receive(c: Crypto, params: Params, s: State, blk: Block): State
    requires Compact.SaneParams(params)
  {
    TryAccept(c, params, s, blk).0
  }

  /** The state after receiving blocks in order. */
  function Grown(c: Crypto, params: Params, start: State, bs: seq<Block>): State
    requires Compact.SaneParams(params)
  {
    if bs == [] then start
    else Receive(c, params, Grown(c, params, start, bs[..|bs| - 1]), bs[|bs| - 1])
  }

  ghost predicate ExtendsAt(c: Crypto, params: Params, start: State, bs: seq<Block>, k: nat)
    requires Compact.SaneParams(params) && k < |bs|
  {
    TryAccept(c, params, Grown(c, params, start, bs[..k]), bs[k]).1.Extended?
  }

  /** Every block of the history extended the tip when it arrived. */
  ghost predicate OnlyExtends(c: Crypto, params: Params, start: State, bs: seq<Block>)
    requires Compact.SaneParams(params)
  {
    forall k :: 0 <= k < |bs| ==> ExtendsAt(c, params, start, bs, k)
  }

  function BlockAt(g: Block, bs: seq<Block>, h: nat): Block
    requires h <= |bs|
  {
    if h == 0 then g else bs[h - 1]
  }

  /** Position h of a chain grown from genesis: its hash, its height in the index, its block. */
  ghost predicate ShapeAt(c: Crypto, g: Block, bs: seq<Block>, s: State, h: nat)
    requires h <= |bs| && |s.byHeight| == |bs| + 1
  {
    var x := s.byHeight[h];
    x == BlockHash(c, BlockAt(g, bs, h)) && x in s.index && s.index[x].height == h
    && x in s.blocks && s.blocks[x] == BlockAt(g, bs, h)
  }

  /** A chain grown from genesis: nothing else is in the index. */
  ghost predicate Shape(c: Crypto, g: Block, bs: seq<Block>, s: State) {
    && |s.byHeight| == |bs| + 1 && s.height == |bs| && s.tipHash == s.byHeight[|bs|]
    && (forall h :: 0 <= h <= |bs| ==> ShapeAt(c, g, bs, s, h))
    && (forall x :: x in s.index ==> x in s.byHeight)
  }

  lemma ExtensionShape(c: Crypto, params: Params, g: Block, bs: seq<Block>, s: State, blk: Block)
    requires Compact.SaneParams(params) && Shape(c, g, bs, s) && TryAccept(c, params, s, blk).1.Extended?
    ensures Shape(c, g, bs + [blk], TryAccept(c, params, s, blk).0)
    ensures BlockHash(c, blk) !in s.index && blk.header.prevBlockHash == s.tipHash
  {
    hide HeaderOk, Ledger.ConnectBlock, HeaderHash, Compact.BlockWork, AddWork, ExpectedBits, HeadersOk, Replay, ForkChain;
    var t := TryAccept(c, params, s, blk).0;
    var hash := BlockHash(c, blk);
    assert t.byHeight == s.byHeight + [hash];
    assert ShapeAt(c, g, bs, s, |bs|);
    forall h | 0 <= h <= |bs| + 1
      ensures ShapeAt(c, g, bs + [blk], t, h)
    {
      if h <= |bs| {
        assert ShapeAt(c, g, bs, s, h);
      }
    }
  }

  /** The state after the first k blocks of a history. */
  function After(c: Crypto, params: Params, g: Block, bs: seq<Block>, k: nat): State
    requires Compact.SaneParams(params) && GenesisState(c, g).Some? && k <= |bs|
  {
    Grown(c, params, GenesisState(c, g).value, bs[..k])
  }

  ghost predicate History(c: Crypto, params: Params, g: Block, bs: seq<Block>) {
    Compact.SaneParams(params) && GenesisState(c, g).Some?
    && OnlyExtends(c, params, GenesisState(c, g).value, bs)
  }

  lemma AfterStep(c: Crypto, params: Params, g: Block, bs: seq<Block>, k: nat)
    requires History(c, params, g, bs) && k < |bs|
    ensures TryAccept(c, params, After(c, params, g, bs, k), bs[k]) == (After(c, params, g, bs, k + 1), Extended)
  {
    hide TryAccept, GenesisState;
    assert bs[..k + 1][..k] == bs[..k];
    assert ExtendsAt(c, params, GenesisState(c, g).value, bs, k);
  }

  lemma {:induction false} AfterShape(c: Crypto, params: Params, g: Block, bs: seq<Block>, k: nat)
    requires History(c, params, g, bs) && k <= |bs|
    ensures Shape(c, g, bs[..k], After(c, params, g, bs, k))
  {
    hide TryAccept, Ledger.ConnectBlock, HeaderHash, Compact.BlockWork;
    if k != 0 {
      hide GenesisState, OnlyExtends;
      AfterShape(c, params, g, bs, k - 1);
      AfterStep(c, params, g, bs, k - 1);
      ExtensionShape(c, params, g, bs[..k - 1], After(c, params, g, bs, k - 1), bs[k - 1]);
      assert bs[..k] == bs[..k - 1] + [bs[k - 1]];
    }
  }

  /** Hashes along a history are those of its full chain, and all different. */
  lemma ChainHashes(c: Crypto, params: Params, g: Block, bs: seq<Block>, k: nat, n: nat)
    requires History(c, params, g, bs) && k <= n <= |bs|
    ensures var s, t := After(c, params, g, bs, k), After(c, params, g, bs, n);
            && |s.byHeight| == k + 1 && |t.byHeight| == n + 1
            && s.byHeight == t.byHeight[..k + 1]
            && (forall i :: 0 <= i <= n ==> (t.byHeight[i] in s.index <==> i <= k))
  {
    hide After, HeaderHash, Shape, OnlyExtends, ShapeAt;
    AfterShape(c, params, g, bs, k);
    AfterShape(c, params, g, bs, n);
    var s, t := After(c, params, g, bs, k), After(c, params, g, bs, n);
    ShapeGives(c, g, bs[..k], s, k);
    ShapeGives(c, g, bs[..n], t, n);
    forall h | 0 <= h <= n
      ensures h <= k ==> s.byHeight[h] == t.byHeight[h]
      ensures t.byHeight[h] in s.index <==> h <= k
    {
      SharedHash(c, g, bs, s, t, k, n, h);
    }
  }

  lemma ShapeGives(c: Crypto, g: Block, bs: seq<Block>, s: State, h: nat)
    requires Shape(c, g, bs, s) && h <= |bs|
    ensures |s.byHeight| == |bs| + 1 && s.height == |bs| && s.tipHash == s.byHeight[|bs|]
    ensures ShapeAt(c, g, bs, s, h)
  {
    hide ShapeAt;
  }

  lemma SharedHash(c: Crypto, g: Block, bs: seq<Block>, s: State, t: State, k: nat, n: nat, h: nat)
    requires k <= n <= |bs| && h <= n && Shape(c, g, bs[..k], s) && Shape(c, g, bs[..n], t)
    ensures |s.byHeight| == k + 1 && |t.byHeight| == n + 1
    ensures h <= k ==> s.byHeight[h] == t.byHeight[h]
    ensures t.byHeight[h] in s.index <==> h <= k
  {
    hide HeaderHash, Shape;
    ShapeGives(c, g, bs[..n], t, h);
    ShapeGives(c, g, bs[..k], s, k);
    if h <= k {
      ShapeGives(c, g, bs[..k], s, h);
    } else if t.byHeight[h] in s.index {
      var i := IndexedAt(c, g, bs[..k], s, t.byHeight[h]);
      ShapeGives(c, g, bs[..k], s, i);
      ShapeGives(c, g, bs[..n], t, i);
    }
  }

  lemma IndexedAt(c: Crypto, g: Block, bs: seq<Block>, s: State, x: Hash) returns (i: nat)
    requires Shape(c, g, bs, s) && x in s.index
    ensures i <= |bs| && |s.byHeight| == |bs| + 1 && s.byHeight[i] == x
  {
    hide ShapeAt;
    i :| i < |s.byHeight| && s.byHeight[i] == x;
  }

  // ------------------------------------------------------------ any schedule

  /** How many blocks a follower has connected after a schedule of deliveries: each
      delivery counts exactly when it is the next block. */
  function Progress(schedule: seq<nat>): (p: nat)
    ensures p <= |schedule|
  {
    if schedule == [] then 0
    else
      var p := Progress(schedule[..|schedule| - 1]);
      if schedule[|schedule| - 1] == p then p + 1 else p
  }

  predicate Within(schedule: seq<nat>, n: nat) {
    forall k :: 0 <= k < |schedule| ==> schedule[k] < n
  }

  /** The follower's state after the scheduled blocks of a history arrive. */
  function Follow(c: Crypto, params: Params, start: State, bs: seq<Block>, schedule: seq<nat>): State
    requires Compact.SaneParams(params) && Within(schedule, |bs|)
  {
    if schedule == [] then start
    else Receive(c, params, Follow(c, params, start, bs, schedule[..|schedule| - 1]), bs[schedule[|schedule| - 1]])
  }

  /** A block of the history, delivered to a follower that has the first p of them: the
      next one is connected, any other leaves the follower unchanged, as known when it is an
      earlier one and as an orphan when it is a later one. */
  lemma DeliverOne(c: Crypto, params: Params, g: Block, bs: seq<Block>, p: nat, i: nat)
    requires History(c, params, g, bs) && p <= |bs| && i < |bs|
    ensures TryAccept(c, params, After(c, params, g, bs, p), bs[i])
         == if i == p then (After(c, params, g, bs, p + 1), Extended)
            else (After(c, params, g, bs, p), if i < p then AlreadyKnown else UnknownPrev)
  {
    hide After, HeaderHash, AcceptBlock, Compact.BlockWork, AddWork, HeadersOk, Replay, ForkChain, Reorganised', OnlyExtends;
    var s := After(c, params, g, bs, p);
    if i == p {
      AfterStep(c, params, g, bs, p);
    } else {
      AfterShape(c, params, g, bs, |bs|);
      ChainHashes(c, params, g, bs, p, |bs|);
      var t := After(c, params, g, bs, |bs|);
      assert bs[..|bs|] == bs;
      assert ShapeAt(c, g, bs, t, i + 1);
      if i > p {
        ParentHash(c, params, g, bs, i);
      }
    }
  }

  lemma ParentHash(c: Crypto, params: Params, g: Block, bs: seq<Block>, i: nat)
    requires History(c, params, g, bs) && i < |bs|
    ensures var t := After(c, params, g, bs, |bs|);
            |t.byHeight| == |bs| + 1 && bs[i].header.prevBlockHash == t.byHeight[i]
  {
    hide After, HeaderHash, TryAccept, OnlyExtends;
    AfterShape(c, params, g, bs, i);
    AfterStep(c, params, g, bs, i);
    ExtensionShape(c, params, g, bs[..i], After(c, params, g, bs, i), bs[i]);
    ChainHashes(c, params, g, bs, i, |bs|);
  }

  /** Sync safety under any schedule: whatever the order, repetition or loss of another
      node's blocks, the follower's whole state is that node's own state at an earlier
      height, determined by the schedule. */
  lemma {:induction false} FollowerIsPrefix(c: Crypto, params: Params, g: Block, bs: seq<Block>, schedule: seq<nat>)
    requires History(c, params, g, bs) && Within(schedule, |bs|)
    ensures Progress(schedule) <= |bs|
    ensures Follow(c, params, GenesisState(c, g).value, bs, schedule) == After(c, params, g, bs, Progress(schedule))
  {
    hide TryAccept, GenesisState, OnlyExtends;
    if schedule == [] {
      assert bs[..0] == [];
    } else {
      var init := schedule[..|schedule| - 1];
      FollowerIsPrefix(c, params, g, bs, init);
      DeliverOne(c, params, g, bs, Progress(init), schedule[|schedule| - 1]);
    }
  }

  /** In particular its active chain is a prefix and its view is the other node's view at
      that height. */
  lemma FollowerChainAndView(c: Crypto, params: Params, g: Block, bs: seq<Block>, schedule: seq<nat>)
    requires History(c, params, g, bs) && Within(schedule, |bs|)
    ensures var b := Follow(c, params, GenesisState(c, g).value, bs, schedule);
            var a := After(c, params, g, bs, |bs|);
            && b.height <= a.height && |a.byHeight| == a.height + 1
            && b.byHeight == a.byHeight[..b.height + 1]
            && b.height <= |bs| && b.view == After(c, params, g, bs, b.height).view
  {
    hide After, Follow, GenesisState, HeaderHash, OnlyExtends;
    FollowerIsPrefix(c, params, g, bs, schedule);
    var p := Progress(schedule);
    AfterShape(c, params, g, bs, p);
    AfterShape(c, params, g, bs, |bs|);
    ChainHashes(c, params, g, bs, p, |bs|);
  }

  // ------------------------------------------------------------ honest peers

  /** What a block costs the peer that sent it. */
  function Penalty(o: Outcome): nat {
    match o
    case AlreadyKnown | UnknownPrev | Extended | Reorganised(_) => 0
    case LessWork | Unreadable | Invalid => 10
  }

  /** Whether headers are asked for after it, given the height the peer announced. */
  predicate AsksHeaders(o: Outcome, height: nat, peerHeight: int) {
    (Accepted(o) && height < peerHeight) || o.UnknownPrev?
  }

  /** What all the blocks of a peer cost it. */
  function Score(c: Crypto, params: Params, start: State, bs: seq<Block>): nat
    requires Compact.SaneParams(params)
  {
    if bs == [] then 0
    else
      var init := bs[..|bs| - 1];
      Score(c, params, start, init) + Penalty(TryAccept(c, params, Grown(c, params, start, init), bs[|bs| - 1]).1)
  }

  /** Whether the k-th block made the follower ask. */
  predicate Asked(c: Crypto, params: Params, start: State, bs: seq<Block>, peerHeight: int, k: nat)
    requires Compact.SaneParams(params) && k < |bs|
  {
    var (t, o) := TryAccept(c, params, Grown(c, params, start, bs[..k]), bs[k]);
    AsksHeaders(o, t.height, peerHeight)
  }

  function Scheduled(bs: seq<Block>, schedule: seq<nat>): seq<Block>
    requires Within(schedule, |bs|)
  {
    seq(|schedule|, k requires 0 <= k < |schedule| => bs[schedule[k]])
  }

  /** Whatever the order, repetition or loss, a node that sends blocks of its own chain is
      never punished for it. */
  lemma {:induction false} HonestPeerKeepsScore(c: Crypto, params: Params, g: Block, bs: seq<Block>, schedule: seq<nat>)
    requires History(c, params, g, bs) && Within(schedule, |bs|)
    ensures Progress(schedule) <= |bs|
    ensures var start, sent := GenesisState(c, g).value, Scheduled(bs, schedule);
            Grown(c, params, start, sent) == After(c, params, g, bs, Progress(schedule)) && Score(c, params, start, sent) == 0
  {
    hide TryAccept, GenesisState, OnlyExtends;
    if schedule == [] {
      assert bs[..0] == [];
    } else {
      var init, last := schedule[..|schedule| - 1], schedule[|schedule| - 1];
      HonestPeerKeepsScore(c, params, g, bs, init);
      assert Scheduled(bs, schedule)[..|init|] == Scheduled(bs, init);
      hide After;
      DeliverOne(c, params, g, bs, Progress(init), last);
    }
  }

  /** And the k-th block it sends makes the follower ask for headers if and only if it comes
      too early, or is the next one and the peer announced more. */
  lemma HonestPeerIsAsked(c: Crypto, params: Params, g: Block, bs: seq<Block>, schedule: seq<nat>, k: nat, peerHeight: int)
    requires History(c, params, g, bs) && Within(schedule, |bs|) && k < |schedule|
    ensures var p := Progress(schedule[..k]);
            Asked(c, params, GenesisState(c, g).value, Scheduled(bs, schedule), peerHeight, k)
            <==> schedule[k] > p || (schedule[k] == p && p + 1 < peerHeight)
  {
    hide TryAccept, GenesisState, OnlyExtends, After, Grown, Shape;
    var init := schedule[..k];
    HonestPeerKeepsScore(c, params, g, bs, init);
    assert Scheduled(bs, schedule)[..k] == Scheduled(bs, init);
    var p := Progress(init);
    DeliverOne(c, params, g, bs, p, schedule[k]);
    if schedule[k] == p {
      AfterShape(c, params, g, bs, p + 1);
      ShapeGives(c, g, bs[..p + 1], After(c, params, g, bs, p + 1), 0);
    }
  }

  // ------------------------------------------------------------ runs without reorganisation

  /** The blocks of a run that were connected, in order. */
  function Connected(c: Crypto, params: Params, start: State, bs: seq<Block>): seq<Block>
    requires Compact.SaneParams(params)
  {
    if bs == [] then []
    else
      var init := bs[..|bs| - 1];
      var rest := Connected(c, params, start, init);
      if TryAccept(c, params, Grown(c, params, start, init), bs[|bs| - 1]).1.Extended? then rest + [bs[|bs| - 1]] else rest
  }

  ghost predicate NoReorg(c: Crypto, params: Params, start: State, bs: seq<Block>)
    requires Compact.SaneParams(params)
  {
    forall k :: 0 <= k < |bs| ==> !TryAccept(c, params, Grown(c, params, start, bs[..k]), bs[k]).1.Reorganised?
  }

  /** A run in which nothing was reorganised is the history of its connected blocks: what
      else arrived left no trace. */
  lemma {:induction false} NoReorgIsHistory(c: Crypto, params: Params, start: State, bs: seq<Block>)
    requires Compact.SaneParams(params) && NoReorg(c, params, start, bs)
    ensures var hs := Connected(c, params, start, bs);
            OnlyExtends(c, params, start, hs) && Grown(c, params, start, hs) == Grown(c, params, start, bs)
  {
    hide TryAccept;
    if bs != [] {
      var init, last := bs[..|bs| - 1], bs[|bs| - 1];
      forall k | 0 <= k < |init|
        ensures !TryAccept(c, params, Grown(c, params, start, init[..k]), init[k]).1.Reorganised?
      {
        assert init[..k] == bs[..k];
      }
      NoReorgIsHistory(c, params, start, init);
      var rest, hs := Connected(c, params, start, init), Connected(c, params, start, bs);
      var s := Grown(c, params, start, init);
      assert !TryAccept(c, params, s, last).1.Reorganised?;
      if TryAccept(c, params, s, last).1.Extended? {
        assert hs[..|rest|] == rest;
        forall k | 0 <= k < |hs|
          ensures ExtendsAt(c, params, start, hs, k)
        {
          if k < |rest| {
            assert ExtendsAt(c, params, start, rest, k);
            assert hs[..k] == rest[..k];
          }
        }
      } else {
        Runs.RejectionIsAtomic(c, params, s, last);
      }
    }
  }

  // ------------------------------------------------------------ the headers protocol

  const MAX_HEADERS: nat := 2000
  const MAX_REQUEST: nat := 100
  const MAX_LOCATOR: nat := 32

  /** Hashes sent with getheaders: from height h down, every second one after ten. */
  function LocatorFrom(byHeight: seq<Hash>, h: int, sent: nat): seq<Hash>
    requires h < |byHeight|
    decreases h
  {
    if h < 0 || sent >= MAX_LOCATOR then []
    else [byHeight[h]] + LocatorFrom(byHeight, h - (if sent + 1 > 10 then 2 else 1), sent + 1)
  }

  function Locator(s: State): seq<Hash>
    requires s.height < |s.byHeight|
  {
    LocatorFrom(s.byHeight, s.height, 0)
  }

  /** Where a getheaders answer starts: after the first locator hash that is indexed. */
  function StartHeight(s: State, locator: seq<Hash>): nat {
    if locator == [] then 0
    else if locator[0] in s.index then s.index[locator[0]].height + 1
    else StartHeight(s, locator[1..])
  }

  /** Headers from height h, at most n, ending early after the stop hash or an unreadable block. */
  function HeadersFrom(c: Crypto, s: State, h: nat, stop: Hash, n: nat): seq<BlockHeader>
    requires s.height < |s.byHeight|
    decreases n
  {
    if h > s.height || n == 0 || s.byHeight[h] !in s.blocks then []
    else
      var hdr := s.blocks[s.byHeight[h]].header;
      if stop != 0 && HeaderHash(c, hdr) == stop then [hdr]
      else [hdr] + HeadersFrom(c, s, h + 1, stop, n - 1)
  }

  /** The first n headers whose blocks are not yet indexed. */
  function Wanted(c: Crypto, s: State, headers: seq<BlockHeader>, n: nat): seq<Hash> {
    if headers == [] || n == 0 then []
    else
      var hash := HeaderHash(c, headers[0]);
      if hash in s.index then Wanted(c, s, headers[1..], n) else [hash] + Wanted(c, s, headers[1..], n - 1)
  }

  /** A payload that fits a message; anything longer is not sent, and nobody is told. */
  predicate Deliverable(command: string, payload: seq<byte>) {
    Framing.Sendable(Framing.Message(Framing.Ascii(command), payload))
  }

  predicate BlockSent(b: Block) { Deliverable("block", SerBlock(b)) }

  predicate TxSent(tx: Transaction) { Deliverable("tx", SerTx(tx)) }

  function Sent(bs: seq<Block>): seq<Block> {
    if bs == [] then []
    else Sent(bs[..|bs| - 1]) + if BlockSent(bs[|bs| - 1]) then [bs[|bs| - 1]] else []
  }

  /** The stored blocks among those asked for, in order. */
  function Served(s: State, want: seq<Hash>): seq<Block> {
    if want == [] then []
    else if want[0] in s.blocks then [s.blocks[want[0]]] + Served(s, want[1..])
    else Served(s, want[1..])
  }

  /** One round: the follower b asks a for headers, requests what it lacks and connects
      the answer in order. */
  function Round(c: Crypto, params: Params, a: State, b: State): State
    requires Compact.SaneParams(params) && a.height < |a.byHeight| && b.height < |b.byHeight|
  {
    var headers := HeadersFrom(c, a, StartHeight(a, Locator(b)), 0, MAX_HEADERS);
    Grown(c, params, b, Sent(Served(a, Wanted(c, b, headers, MAX_REQUEST))))
  }

  function Min(x: nat, y: nat): nat { if x < y then x else y }

  /** The headers a node that grew by extension answers with are those of its history. */
  lemma {:induction false} HeadersOfHistory(c: Crypto, g: Block, bs: seq<Block>, a: State, h: nat, n: nat)
    requires Shape(c, g, bs, a) && 1 <= h
    ensures var hs := HeadersFrom(c, a, h, 0, n);
            |hs| == (if h > |bs| then 0 else Min(n, |bs| + 1 - h))
            && forall i :: 0 <= i < |hs| ==> hs[i] == bs[h - 1 + i].header
    decreases n
  {
    hide HeaderHash;
    if h <= |bs| && n > 0 {
      assert ShapeAt(c, g, bs, a, h);
      HeadersOfHistory(c, g, bs, a, h + 1, n - 1);
    }
  }

  /** A follower with the first j blocks asks for exactly the next ones. */
  lemma {:induction false} WantedOfHistory(c: Crypto, s: State, bs: seq<Block>, from: nat, headers: seq<BlockHeader>, n: nat)
    requires from + |headers| <= |bs|
    requires forall i :: 0 <= i < |headers| ==> headers[i] == bs[from + i].header
    requires forall i :: from <= i < |bs| ==> BlockHash(c, bs[i]) !in s.index
    ensures var want := Wanted(c, s, headers, n);
            |want| == Min(n, |headers|) && forall i :: 0 <= i < |want| ==> want[i] == BlockHash(c, bs[from + i])
    decreases |headers|
  {
    hide HeaderHash;
    if headers != [] && n > 0 {
      assert headers[0] == bs[from].header;
      WantedOfHistory(c, s, bs, from + 1, headers[1..], n - 1);
    }
  }

  lemma {:induction false} ServedOfHistory(c: Crypto, g: Block, bs: seq<Block>, a: State, from: nat, want: seq<Hash>)
    requires Shape(c, g, bs, a) && from + |want| <= |bs|
    requires forall i :: 0 <= i < |want| ==> want[i] == BlockHash(c, bs[from + i])
    ensures Served(a, want) == bs[from..from + |want|]
    decreases |want|
  {
    hide HeaderHash;
    if want != [] {
      assert ShapeAt(c, g, bs, a, from + 1);
      ServedOfHistory(c, g, bs, a, from + 1, want[1..]);
      assert bs[from..from + |want|] == [bs[from]] + bs[from + 1..from + |want|];
    }
  }

  /** The first block from j on that no message can carry, or the end of the history. */
  function FirstUnsent(bs: seq<Block>, j: nat): (m: nat)
    requires j <= |bs|
    ensures j <= m <= |bs| && (m < |bs| ==> !BlockSent(bs[m])) && forall i :: j <= i < m ==> BlockSent(bs[i])
    decreases |bs| - j
  {
    if j == |bs| || !BlockSent(bs[j]) then j else FirstUnsent(bs, j + 1)
  }

  /** Receiving what is sent of consecutive blocks of a history moves along it, up to the
      first one that is not sent. */
  lemma {:induction false} GrownAlong(c: Crypto, params: Params, g: Block, bs: seq<Block>, j: nat, k: nat)
    requires History(c, params, g, bs) && j <= k <= |bs|
    ensures Grown(c, params, After(c, params, g, bs, j), Sent(bs[j..k]))
         == After(c, params, g, bs, Min(FirstUnsent(bs, j), k))
    decreases k
  {
    hide TryAccept, Grown, GenesisState, After, Sent, OnlyExtends, BlockSent;
    if j == k {
      NothingSent(c, params, After(c, params, g, bs, j));
      assert bs[j..k] == [];
    } else {
      GrownAlong(c, params, g, bs, j, k - 1);
      SentSnoc(bs[j..k - 1], bs[k - 1]);
      assert bs[j..k] == bs[j..k - 1] + [bs[k - 1]];
      GrownSnoc(c, params, After(c, params, g, bs, j), Sent(bs[j..k - 1]), bs[k - 1]);
      DeliverOne(c, params, g, bs, Min(FirstUnsent(bs, j), k - 1), k - 1);
    }
  }

  lemma NothingSent(c: Crypto, params: Params, s: State)
    requires Compact.SaneParams(params)
    ensures Grown(c, params, s, Sent([])) == s
  {
  }

  lemma SentSnoc(bs: seq<Block>, b: Block)
    ensures Sent(bs + [b]) == if BlockSent(b) then Sent(bs) + [b] else Sent(bs)
  {
    hide BlockSent;
    assert (bs + [b])[..|bs|] == bs;
  }

  lemma GrownSnoc(c: Crypto, params: Params, s: State, bs: seq<Block>, b: Block)
    requires Compact.SaneParams(params)
    ensures Grown(c, params, s, bs + [b]) == Receive(c, params, Grown(c, params, s, bs), b)
  {
    assert (bs + [b])[..|bs|] == bs;
  }

  // ------------------------------------------------------------ the locator

  /** How far below the tip the i-th hash of a locator lies. */
  function Back(i: nat): nat {
    if i <= 10 then i else 2 * i - 10
  }

  /** The hashes sent: those 0 to 10, 12, 14 and so on up to 52 blocks below the tip. */
  lemma LocatorHeights(s: State, i: nat)
    requires s.height < |s.byHeight|
    ensures i < |Locator(s)| <==> i <= 31 && Back(i) <= s.height
    ensures i < |Locator(s)| ==> Locator(s)[i] == s.byHeight[s.height - Back(i)]
  {
    LocatorEntry(s.byHeight, s.height, 0, i);
  }

  lemma {:induction false} LocatorEntry(byHeight: seq<Hash>, tip: nat, k: nat, i: nat)
    requires tip < |byHeight| && k <= 32
    ensures var rest := LocatorFrom(byHeight, tip - Back(k), k);
            && (i < |rest| <==> k + i <= 31 && Back(k + i) <= tip)
            && (i < |rest| ==> rest[i] == byHeight[tip - Back(k + i)])
    decreases 32 - k
  {
    if k < 32 && Back(k) <= tip && i > 0 {
      LocatorEntry(byHeight, tip, k + 1, i - 1);
    }
  }

  /** b's chain up to height p is a's, and a knows none of b's blocks above. */
  ghost predicate ForkedAt(a: State, b: State, p: nat) {
    && p <= b.height < |b.byHeight|
    && (forall i :: 0 <= i <= p ==> b.byHeight[i] in a.index && a.index[b.byHeight[i]].height == i)
    && (forall i :: p < i <= b.height ==> b.byHeight[i] !in a.index)
  }

  /** Where a follower d blocks past the fork is answered from: right after the fork, or one
      block earlier where the locator skips it, or from genesis when the fork is too deep. */
  function AnswerStart(p: nat, d: nat): nat {
    if d <= 10 || (d % 2 == 0 && d <= 52) then p + 1 else if d <= 52 then p else 0
  }

  lemma {:induction false} ForkedSearch(a: State, b: State, p: nat, k: nat)
    requires ForkedAt(a, b, p) && k <= 32 && (k > 0 ==> b.height - Back(k - 1) > p)
    ensures StartHeight(a, LocatorFrom(b.byHeight, b.height - Back(k), k)) == AnswerStart(p, b.height - p)
    decreases 32 - k
  {
    var h := b.height - Back(k);
    if k < 32 && h >= 0 && h > p {
      ForkedSearch(a, b, p, k + 1);
    }
  }

  /** A follower on a fork is answered from a common block. */
  lemma ForkedStart(a: State, b: State, p: nat)
    requires ForkedAt(a, b, p)
    ensures StartHeight(a, Locator(b)) == AnswerStart(p, b.height - p) <= p + 1
  {
    ForkedSearch(a, b, p, 0);
  }

  /** The same for two chains grown from one genesis that part after p blocks. */
  lemma ForkedHistories(c: Crypto, params: Params, g: Block, bs: seq<Block>, cs: seq<Block>, p: nat)
    requires History(c, params, g, bs) && History(c, params, g, cs) && p <= |bs| && p <= |cs| && bs[..p] == cs[..p]
    requires forall i :: p <= i < |cs| ==> BlockHash(c, cs[i]) !in After(c, params, g, bs, |bs|).index
    ensures var a, b := After(c, params, g, bs, |bs|), After(c, params, g, cs, |cs|);
            b.height < |b.byHeight| && StartHeight(a, Locator(b)) == AnswerStart(p, |cs| - p)
  {
    hide After, HeaderHash, OnlyExtends, Shape, Locator, AnswerStart;
    var a, b := After(c, params, g, bs, |bs|), After(c, params, g, cs, |cs|);
    assert bs[..|bs|] == bs && cs[..|cs|] == cs;
    AfterShape(c, params, g, bs, |bs|);
    AfterShape(c, params, g, cs, |cs|);
    ShapeGives(c, g, cs, b, 0);
    forall i | 0 <= i <= |cs|
      ensures i <= p ==> b.byHeight[i] in a.index && a.index[b.byHeight[i]].height == i
      ensures i > p ==> b.byHeight[i] !in a.index
    {
      ShapeGives(c, g, cs, b, i);
      if i <= p {
        ShapeGives(c, g, bs, a, i);
        SharedBlock(g, bs, cs, p, i);
      }
    }
    ForkedStart(a, b, p);
  }

  lemma SharedBlock(g: Block, bs: seq<Block>, cs: seq<Block>, p: nat, i: nat)
    requires i <= p <= |bs| && p <= |cs| && bs[..p] == cs[..p]
    ensures BlockAt(g, bs, i) == BlockAt(g, cs, i)
  {
    if i > 0 {
      assert bs[..p][i - 1] == cs[..p][i - 1];
    }
  }

  lemma LocatorStartsAtTip(s: State)
    requires s.height < |s.byHeight|
    ensures |Locator(s)| > 0 && Locator(s)[0] == s.byHeight[s.height]
  {
  }

  /** Progress: a round of headers, getdata and in-order blocks takes a follower from
      height j to height j + 100, or to the first block that no message can carry, or to the
      other node's height, whichever is nearest. */
  lemma RoundAdvances(c: Crypto, params: Params, g: Block, bs: seq<Block>, j: nat)
    requires History(c, params, g, bs) && j <= |bs|
    ensures var a, b := After(c, params, g, bs, |bs|), After(c, params, g, bs, j);
            && a.height < |a.byHeight| && b.height < |b.byHeight|
            && Round(c, params, a, b) == After(c, params, g, bs, Min(FirstUnsent(bs, j), j + 100))
  {
    hide After, GenesisState, HeaderHash, HeadersFrom, Wanted, Served, Sent, FirstUnsent, Grown, BlockSent, Locator, Shape, StartHeight, OnlyExtends;
    RoundStart(c, params, g, bs, j);
    var a, b := After(c, params, g, bs, |bs|), After(c, params, g, bs, j);
    HeadersOfHistory(c, g, bs, a, j + 1, MAX_HEADERS);
    var headers := HeadersFrom(c, a, j + 1, 0, MAX_HEADERS);
    WantedOfHistory(c, b, bs, j, headers, MAX_REQUEST);
    var want := Wanted(c, b, headers, MAX_REQUEST);
    ServedOfHistory(c, g, bs, a, j, want);
    GrownAlong(c, params, g, bs, j, j + |want|);
  }

  /** The locator of a follower at height j makes the other node start at j + 1, and none of
      the later blocks is known yet. */
  lemma RoundStart(c: Crypto, params: Params, g: Block, bs: seq<Block>, j: nat)
    requires History(c, params, g, bs) && j <= |bs|
    ensures var a, b := After(c, params, g, bs, |bs|), After(c, params, g, bs, j);
            && Shape(c, g, bs, a) && a.height < |a.byHeight| && b.height < |b.byHeight|
            && StartHeight(a, Locator(b)) == j + 1
            && forall i :: j <= i < |bs| ==> BlockHash(c, bs[i]) !in b.index
  {
    hide After, HeaderHash, OnlyExtends, Locator, Shape;
    var a, b := After(c, params, g, bs, |bs|), After(c, params, g, bs, j);
    assert bs[..|bs|] == bs;
    AfterShape(c, params, g, bs, |bs|);
    AfterShape(c, params, g, bs, j);
    ChainHashes(c, params, g, bs, j, |bs|);
    ShapeGives(c, g, bs, a, j);
    ShapeGives(c, g, bs[..j], b, j);
    LocatorStartsAtTip(b);
    assert b.byHeight[j] == a.byHeight[j];
    forall i | j <= i < |bs|
      ensures BlockHash(c, bs[i]) !in b.index
    {
      HashAbove(c, g, bs, a, i);
    }
  }

  lemma HashAbove(c: Crypto, g: Block, bs: seq<Block>, a: State, i: nat)
    requires Shape(c, g, bs, a) && i < |bs|
    ensures |a.byHeight| == |bs| + 1 && BlockHash(c, bs[i]) == a.byHeight[i + 1]
  {
    hide HeaderHash, Shape;
    ShapeGives(c, g, bs, a, i + 1);
  }

  function Rounds(c: Crypto, params: Params, a: State, b: State, n: nat): (r: State)
    requires Compact.SaneParams(params) && a.height < |a.byHeight|
  {
    if n == 0 then b
    else
      var prev := Rounds(c, params, a, b, n - 1);
      if prev.height < |prev.byHeight| then Round(c, params, a, prev) else prev
  }

  /** Where a follower stands after any number of rounds. */
  lemma {:induction false} RoundsReach(c: Crypto, params: Params, g: Block, bs: seq<Block>, j: nat, n: nat)
    requires History(c, params, g, bs) && j <= |bs|
    ensures var a, b := After(c, params, g, bs, |bs|), After(c, params, g, bs, j);
            && a.height < |a.byHeight|
            && Rounds(c, params, a, b, n) == After(c, params, g, bs, Min(FirstUnsent(bs, j), j + 100 * n))
    decreases n
  {
    hide After, Round, OnlyExtends, BlockSent, GenesisState;
    RoundAdvances(c, params, g, bs, j);
    if n != 0 {
      RoundsReach(c, params, g, bs, j, n - 1);
      var p := Min(FirstUnsent(bs, j), j + MAX_REQUEST * (n - 1));
      RoundAdvances(c, params, g, bs, p);
      SameUnsent(bs, j, p);
    }
  }

  lemma {:induction false} SameUnsent(bs: seq<Block>, j: nat, p: nat)
    requires j <= |bs| && j <= p <= FirstUnsent(bs, j)
    ensures FirstUnsent(bs, p) == FirstUnsent(bs, j)
    decreases p
  {
    hide BlockSent;
    if j < p {
      SameUnsent(bs, j, p - 1);
    }
  }

  /** Enough rounds make the follower's state equal to the other node's, index and all, if
      and only if every block it lacks fits a message; otherwise no number of rounds does. */
  lemma RoundsConverge(c: Crypto, params: Params, g: Block, bs: seq<Block>, j: nat, n: nat)
    requires History(c, params, g, bs) && j <= |bs|
    ensures var a, b := After(c, params, g, bs, |bs|), After(c, params, g, bs, j);
            && a.height < |a.byHeight|
            && (Rounds(c, params, a, b, n) == a
                <==> j == |bs| || (j + 100 * n >= |bs| && forall i :: j <= i < |bs| ==> BlockSent(bs[i])))
  {
    hide After, Round, Rounds, OnlyExtends, BlockSent, Shape;
    RoundsReach(c, params, g, bs, j, n);
    var m := Min(FirstUnsent(bs, j), j + MAX_REQUEST * n);
    AfterShape(c, params, g, bs, m);
    AfterShape(c, params, g, bs, |bs|);
    ShapeGives(c, g, bs[..m], After(c, params, g, bs, m), 0);
    ShapeGives(c, g, bs[..|bs|], After(c, params, g, bs, |bs|), 0);
  }

  // ------------------------------------------------------------ the handlers' loops

  method BuildLocator(chain: ChainManager) returns (locator: seq<Hash>)
    requires chain.Valid()
    ensures locator == Locator(chain.Abstract())
  {
    hide Inv, GenesisState;
    HeightMatches(chain.c, chain.params, BlockHash(chain.c, chain.genesisBlock), chain.Abstract());
    locator := [];
    var h: int := chain.height;
    while h >= 0 && |locator| < MAX_LOCATOR
      invariant h <= chain.height
      invariant locator + LocatorFrom(chain.byHeight, h, |locator|) == Locator(chain.Abstract())
      decreases h
    {
      locator := locator + [chain.byHeight[h]];
      h := h - (if |locator| > 10 then 2 else 1);
    }
  }

  method FindStart(chain: ChainManager, locator: seq<Hash>) returns (startHeight: nat)
    ensures startHeight == StartHeight(chain.Abstract(), locator)
  {
    ghost var s := chain.Abstract();
    for i := 0 to |locator|
      invariant StartHeight(s, locator) == StartHeight(s, locator[i..])
    {
      assert locator[i..][1..] == locator[i + 1..];
      if locator[i] in chain.index { return chain.index[locator[i]].height + 1; }
    }
    startHeight := 0;
  }

  method HandleGetHeaders(chain: ChainManager, locator: seq<Hash>, hashStop: Hash) returns (out: seq<BlockHeader>)
    requires chain.Valid()
    ensures out == HeadersFrom(chain.c, chain.Abstract(), StartHeight(chain.Abstract(), locator), hashStop, MAX_HEADERS)
  {
    hide HeaderHash, Inv, StartHeight, HeadersFrom, GenesisState;
    ghost var s := chain.Abstract();
    HeightMatches(chain.c, chain.params, BlockHash(chain.c, chain.genesisBlock), s);
    var startHeight := FindStart(chain, locator);
    out := [];
    var h := startHeight;
    while h <= chain.height && |out| < MAX_HEADERS
      invariant startHeight <= h && |out| <= MAX_HEADERS
      invariant out + HeadersFrom(chain.c, s, h, hashStop, MAX_HEADERS - |out|)
             == HeadersFrom(chain.c, s, startHeight, hashStop, MAX_HEADERS)
    {
      var blk := chain.GetBlockByHeight(h);
      var hdr := blk.value.header;
      HeadersMore(chain.c, s, h, hashStop, MAX_HEADERS - |out|);
      if hashStop != 0 && BlockHash(chain.c, blk.value) == hashStop {
        out := out + [hdr];
        return;
      }
      out := out + [hdr];
      h := h + 1;
    }
    HeadersEnd(chain.c, s, h, hashStop, MAX_HEADERS - |out|);
  }

  /** Consecutive headers of the active chain from height h on, none but the last with the
      stop hash. */
  ghost predicate Consecutive(c: Crypto, s: State, h: nat, stop: Hash, out: seq<BlockHeader>)
    requires s.height < |s.byHeight|
  {
    forall i :: 0 <= i < |out| ==> HeaderAt(s, h + i, out[i]) && (i < |out| - 1 ==> !Stops(c, out[i], stop))
  }

  predicate HeaderAt(s: State, h: nat, hdr: BlockHeader)
    requires s.height < |s.byHeight|
  {
    h <= s.height && s.byHeight[h] in s.blocks && hdr == s.blocks[s.byHeight[h]].header
  }

  /** At most n of them, ending with the stop hash if it comes, and otherwise only at the
      limit, the tip or a missing block. */
  ghost predicate AnswersFrom(c: Crypto, s: State, h: nat, stop: Hash, n: nat, out: seq<BlockHeader>)
    requires s.height < |s.byHeight|
  {
    && |out| <= n && Consecutive(c, s, h, stop, out)
    && (|out| == n || h + |out| > s.height || s.byHeight[h + |out|] !in s.blocks
        || (out != [] && Stops(c, out[|out| - 1], stop)))
  }

  predicate Stops(c: Crypto, hdr: BlockHeader, stop: Hash) {
    stop != 0 && HeaderHash(c, hdr) == stop
  }

  lemma {:induction false} HeadersAnswer(c: Crypto, s: State, h: nat, stop: Hash, n: nat)
    requires s.height < |s.byHeight|
    ensures AnswersFrom(c, s, h, stop, n, HeadersFrom(c, s, h, stop, n))
    decreases n
  {
    hide HeadersFrom, AnswersFrom, HeaderHash;
    if h > s.height || n == 0 || s.byHeight[h] !in s.blocks {
      NoAnswer(c, s, h, stop, n);
    } else {
      HeadersMore(c, s, h, stop, n);
      HeadersAnswer(c, s, h + 1, stop, n - 1);
      AnswerMore(c, s, h, stop, n, s.blocks[s.byHeight[h]].header, HeadersFrom(c, s, h + 1, stop, n - 1));
    }
  }

  lemma NoAnswer(c: Crypto, s: State, h: nat, stop: Hash, n: nat)
    requires s.height < |s.byHeight| && (h > s.height || n == 0 || s.byHeight[h] !in s.blocks)
    ensures AnswersFrom(c, s, h, stop, n, HeadersFrom(c, s, h, stop, n))
  {
  }

  lemma AnswerMore(c: Crypto, s: State, h: nat, stop: Hash, n: nat, hdr: BlockHeader, rest: seq<BlockHeader>)
    requires h <= s.height < |s.byHeight| && n > 0 && s.byHeight[h] in s.blocks && hdr == s.blocks[s.byHeight[h]].header
    requires AnswersFrom(c, s, h + 1, stop, n - 1, rest)
    ensures AnswersFrom(c, s, h, stop, n, if Stops(c, hdr, stop) then [hdr] else [hdr] + rest)
  {
    hide Stops, Consecutive;
    if Stops(c, hdr, stop) {
      OneHeader(c, s, h, stop, hdr);
    } else {
      ConsecutiveMore(c, s, h, stop, hdr, rest);
      var out := [hdr] + rest;
      assert rest != [] ==> out[|out| - 1] == rest[|rest| - 1];
      assert h + |out| == h + 1 + |rest|;
    }
  }

  lemma OneHeader(c: Crypto, s: State, h: nat, stop: Hash, hdr: BlockHeader)
    requires h <= s.height < |s.byHeight| && s.byHeight[h] in s.blocks && hdr == s.blocks[s.byHeight[h]].header
    ensures Consecutive(c, s, h, stop, [hdr])
  {
  }

  lemma ConsecutiveMore(c: Crypto, s: State, h: nat, stop: Hash, hdr: BlockHeader, rest: seq<BlockHeader>)
    requires h <= s.height < |s.byHeight| && s.byHeight[h] in s.blocks && hdr == s.blocks[s.byHeight[h]].header
    requires !Stops(c, hdr, stop) && Consecutive(c, s, h + 1, stop, rest)
    ensures Consecutive(c, s, h, stop, [hdr] + rest)
  {
    assert HeaderAt(s, h, hdr);
    hide Stops, HeaderAt;
    var out := [hdr] + rest;
    forall i | 0 <= i < |out|
      ensures HeaderAt(s, h + i, out[i]) && (i < |out| - 1 ==> !Stops(c, out[i], stop))
    {
      if i > 0 {
        var k := i - 1;
        assert HeaderAt(s, h + 1 + k, rest[k]);
        assert out[i] == rest[k] && h + i == h + 1 + k;
      }
    }
  }

  /** What a getheaders message is answered with. */
  lemma GetHeadersAnswer(c: Crypto, s: State, locator: seq<Hash>, stop: Hash)
    requires s.height < |s.byHeight|
    ensures AnswersFrom(c, s, StartHeight(s, locator), stop, 2000,
                        HeadersFrom(c, s, StartHeight(s, locator), stop, MAX_HEADERS))
  {
    hide HeadersFrom, AnswersFrom, StartHeight;
    HeadersAnswer(c, s, StartHeight(s, locator), stop, 2000);
  }

  lemma HeadersMore(c: Crypto, s: State, h: nat, stop: Hash, n: nat)
    requires h <= s.height < |s.byHeight| && n > 0 && s.byHeight[h] in s.blocks
    ensures var hdr := s.blocks[s.byHeight[h]].header;
            HeadersFrom(c, s, h, stop, n)
            == if stop != 0 && HeaderHash(c, hdr) == stop then [hdr] else [hdr] + HeadersFrom(c, s, h + 1, stop, n - 1)
  {
    hide HeaderHash;
  }

  lemma HeadersEnd(c: Crypto, s: State, h: nat, stop: Hash, n: nat)
    requires s.height < |s.byHeight| && (h > s.height || n == 0)
    ensures HeadersFrom(c, s, h, stop, n) == []
  {
  }

  /** The block requests for a batch of headers, and whether nothing was missing. */
  method HandleHeaders(chain: ChainManager, headers: seq<BlockHeader>) returns (want: seq<Hash>, haveAll: bool)
    requires chain.Valid()
    ensures want == Wanted(chain.c, chain.Abstract(), headers, MAX_REQUEST)
    ensures haveAll == forall i :: 0 <= i < |headers| ==> HeaderHash(chain.c, headers[i]) in chain.index
  {
    hide HeaderHash, Inv, GenesisState, Wanted;
    ghost var s := chain.Abstract();
    want, haveAll := [], true;
    assert headers[0..] == headers;
    for i := 0 to |headers|
      invariant |want| <= MAX_REQUEST
      invariant want + Wanted(chain.c, s, headers[i..], MAX_REQUEST - |want|) == Wanted(chain.c, s, headers, MAX_REQUEST)
      invariant haveAll == forall k :: 0 <= k < i ==> HeaderHash(chain.c, headers[k]) in chain.index
    {
      WantedMore(chain.c, s, headers, i, MAX_REQUEST - |want|);
      var hash := HeaderHash(chain.c, headers[i]);
      if hash !in chain.index {
        haveAll := false;
        if |want| < MAX_REQUEST {
          want := want + [hash];
        }
      }
    }
    assert headers[|headers|..] == [];
    WantedEnd(chain.c, s, MAX_REQUEST - |want|);
  }

  lemma WantedMore(c: Crypto, s: State, headers: seq<BlockHeader>, i: nat, n: nat)
    requires i < |headers|
    ensures var hash := HeaderHash(c, headers[i]);
            Wanted(c, s, headers[i..], n)
            == if n == 0 || hash in s.index then Wanted(c, s, headers[i + 1..], n)
               else [hash] + Wanted(c, s, headers[i + 1..], n - 1)
  {
    hide HeaderHash;
    assert headers[i..][1..] == headers[i + 1..];
  }

  /** Header by header: an unknown block is asked for while fewer than n have been. */
  lemma {:induction false} WantedSnoc(c: Crypto, s: State, headers: seq<BlockHeader>, hdr: BlockHeader, n: nat)
    ensures var before, hash := Wanted(c, s, headers, n), HeaderHash(c, hdr);
            Wanted(c, s, headers + [hdr], n) == if hash !in s.index && |before| < n then before + [hash] else before
    decreases |headers|
  {
    hide HeaderHash;
    var all := headers + [hdr];
    if headers == [] {
      assert all[1..] == [];
    } else if n > 0 {
      assert all[1..] == headers[1..] + [hdr];
      WantedSnoc(c, s, headers[1..], hdr, if HeaderHash(c, headers[0]) in s.index then n else n - 1);
    }
  }

  ghost predicate Announces(c: Crypto, headers: seq<BlockHeader>, x: Hash) {
    exists i :: 0 <= i < |headers| && HeaderHash(c, headers[i]) == x
  }

  /** What is asked for after headers: at most 100 blocks, all announced and unknown; and all of
      those when they are fewer. */
  lemma WantedAnswer(c: Crypto, s: State, headers: seq<BlockHeader>, x: Hash)
    ensures var want := Wanted(c, s, headers, MAX_REQUEST);
            && |want| <= 100 && (x in want ==> x !in s.index && Announces(c, headers, x))
            && (|want| < 100 && x !in s.index && Announces(c, headers, x) ==> x in want)
  {
    WantedMembers(c, s, headers, x, MAX_REQUEST);
  }

  lemma {:induction false} WantedMembers(c: Crypto, s: State, headers: seq<BlockHeader>, x: Hash, n: nat)
    ensures var want := Wanted(c, s, headers, n);
            && |want| <= n && (x in want ==> x !in s.index && Announces(c, headers, x))
            && (|want| < n && x !in s.index && Announces(c, headers, x) ==> x in want)
    decreases |headers|
  {
    hide HeaderHash;
    if headers != [] {
      var init, last := headers[..|headers| - 1], headers[|headers| - 1];
      assert headers == init + [last];
      WantedMembers(c, s, init, x, n);
      AnnouncesSnoc(c, init, last, x);
      hide Wanted, Announces;
      WantedSnoc(c, s, init, last, n);
    }
  }

  lemma AnnouncesSnoc(c: Crypto, headers: seq<BlockHeader>, hdr: BlockHeader, x: Hash)
    ensures Announces(c, headers + [hdr], x) <==> Announces(c, headers, x) || HeaderHash(c, hdr) == x
  {
    hide HeaderHash;
    var all := headers + [hdr];
    assert all[|headers|] == hdr;
    if Announces(c, headers, x) {
      var i :| 0 <= i < |headers| && HeaderHash(c, headers[i]) == x;
      assert all[i] == headers[i];
    }
  }

  lemma WantedEnd(c: Crypto, s: State, n: nat)
    ensures Wanted(c, s, [], n) == []
  {
  }

  /** One line of an inventory; other types are ignored. */
  datatype Item = TxItem(hash: Hash) | BlockItem(hash: Hash) | OtherItem(hash: Hash)

  function BlocksAsked(inv: seq<Item>): seq<Hash> {
    if inv == [] then []
    else BlocksAsked(inv[..|inv| - 1]) + if inv[|inv| - 1].BlockItem? then [inv[|inv| - 1].hash] else []
  }

  /** The pooled transactions among those asked for, in order. */
  function TxsServed(txs: map<Hash, Mempool.Entry>, inv: seq<Item>): seq<Transaction> {
    if inv == [] then []
    else
      var i := inv[|inv| - 1];
      TxsServed(txs, inv[..|inv| - 1]) + if i.TxItem? && i.hash in txs then [txs[i.hash].tx] else []
  }

  function SentTxs(txs: seq<Transaction>): seq<Transaction> {
    if txs == [] then []
    else SentTxs(txs[..|txs| - 1]) + if TxSent(txs[|txs| - 1]) then [txs[|txs| - 1]] else []
  }

  lemma {:induction false} ServedSnoc(s: State, want: seq<Hash>, h: Hash)
    ensures Served(s, want + [h]) == Served(s, want) + if h in s.blocks then [s.blocks[h]] else []
  {
    if want == [] {
      assert [h][1..] == [];
    } else {
      assert (want + [h])[1..] == want[1..] + [h];
      ServedSnoc(s, want[1..], h);
    }
  }

  ghost predicate TxAsked(txs: map<Hash, Mempool.Entry>, inv: seq<Item>, tx: Transaction) {
    exists i :: 0 <= i < |inv| && inv[i].TxItem? && inv[i].hash in txs && txs[inv[i].hash].tx == tx
  }

  ghost predicate BlockAsked(s: State, inv: seq<Item>, b: Block) {
    exists i :: 0 <= i < |inv| && inv[i].BlockItem? && inv[i].hash in s.blocks && s.blocks[inv[i].hash] == b
  }

  lemma {:induction false} TxsAnswered(txs: map<Hash, Mempool.Entry>, inv: seq<Item>, tx: Transaction)
    ensures tx in TxsServed(txs, inv) <==> TxAsked(txs, inv, tx)
  {
    if inv != [] {
      var init, last := inv[..|inv| - 1], inv[|inv| - 1];
      assert inv == init + [last];
      TxsAnswered(txs, init, tx);
      if TxAsked(txs, init, tx) {
        var i :| 0 <= i < |init| && init[i].TxItem? && init[i].hash in txs && txs[init[i].hash].tx == tx;
        assert inv[i] == init[i];
      }
    }
  }

  lemma {:induction false} BlocksAnswered(s: State, inv: seq<Item>, b: Block)
    ensures b in Served(s, BlocksAsked(inv)) <==> BlockAsked(s, inv, b)
  {
    if inv != [] {
      var init, last := inv[..|inv| - 1], inv[|inv| - 1];
      assert inv == init + [last];
      BlocksAnswered(s, init, b);
      if last.BlockItem? {
        ServedSnoc(s, BlocksAsked(init), last.hash);
      } else {
        assert BlocksAsked(init) + [] == BlocksAsked(init);
      }
      if BlockAsked(s, init, b) {
        var i :| 0 <= i < |init| && init[i].BlockItem? && init[i].hash in s.blocks && s.blocks[init[i].hash] == b;
        assert inv[i] == init[i];
      }
    }
  }

  lemma {:induction false} SentAre(bs: seq<Block>, b: Block)
    ensures b in Sent(bs) <==> b in bs && |SerBlock(b)| <= 4_194_304
  {
    hide SerBlock;
    if bs != [] {
      SentAre(bs[..|bs| - 1], b);
      assert bs == bs[..|bs| - 1] + [bs[|bs| - 1]];
    }
  }

  lemma {:induction false} SentTxsAre(txs: seq<Transaction>, tx: Transaction)
    ensures tx in SentTxs(txs) <==> tx in txs && |SerTx(tx)| <= 4_194_304
  {
    hide SerTx;
    if txs != [] {
      SentTxsAre(txs[..|txs| - 1], tx);
      assert txs == txs[..|txs| - 1] + [txs[|txs| - 1]];
    }
  }

  /** Exactly the pooled transactions and stored blocks that were asked for and take at most
      4 MiB reach the peer. */
  lemma GetDataAnswer(s: State, txs: map<Hash, Mempool.Entry>, inv: seq<Item>, tx: Transaction, b: Block)
    ensures tx in SentTxs(TxsServed(txs, inv)) <==> TxAsked(txs, inv, tx) && |SerTx(tx)| <= 4_194_304
    ensures b in Sent(Served(s, BlocksAsked(inv))) <==> BlockAsked(s, inv, b) && |SerBlock(b)| <= 4_194_304
  {
    hide SerTx, SerBlock, TxAsked, BlockAsked, Sent, SentTxs, Served, TxsServed;
    TxsAnswered(txs, inv, tx);
    BlocksAnswered(s, inv, b);
    SentTxsAre(TxsServed(txs, inv), tx);
    SentAre(Served(s, BlocksAsked(inv)), b);
  }

  // ------------------------------------------------------------ over the wire

  function BlockMessages(bs: seq<Block>): (ms: seq<Framing.Message>)
    ensures |ms| == |bs|
    ensures forall i :: 0 <= i < |bs| ==> ms[i] == Framing.Message(Framing.Ascii("block"), SerBlock(bs[i]))
  {
    seq(|bs|, i requires 0 <= i < |bs| => Framing.Message(Framing.Ascii("block"), SerBlock(bs[i])))
  }

  lemma BlocksSendable(bs: seq<Block>)
    ensures Framing.AllSendable(BlockMessages(Sent(bs)))
  {
    hide SerBlock, Framing.Known, Framing.Ascii, Sent;
    Framing.KnownWords(Framing.Ascii("block"));
    forall i | 0 <= i < |Sent(bs)|
      ensures Framing.Sendable(BlockMessages(Sent(bs))[i])
    {
      SentAre(bs, Sent(bs)[i]);
    }
  }

  /** What goes out for these blocks: one frame for each that fits. */
  function BlockStream(c: Crypto, magic: uint32, bs: seq<Block>): seq<byte> {
    BlocksSendable(bs);
    Framing.Frames(c, magic, BlockMessages(Sent(bs)))
  }

  /** Blocks end to end: sent as framed messages on a new connection and cut by the network in
      any way, exactly the blocks that fit a message arrive, in order, and read back whole. */
  lemma BlocksArrive(c: Crypto, magic: uint32, bs: seq<Block>, chunks: seq<seq<byte>>)
    requires !Framing.HttpMagic(magic) && forall b <- bs :: BlockFits(b) && BlockWithinCounts(b)
    requires Framing.Concat(chunks) == BlockStream(c, magic, bs)
    ensures var p := Framing.ReceiveAll(c, magic, Framing.NEW_PEER, chunks);
            && !p.disconnected && p.score == 0 && p.buffer == [] && |p.delivered| == |Sent(bs)|
            && forall i :: 0 <= i < |p.delivered| ==>
                 p.delivered[i].command == Framing.Ascii("block") && ReadBlock(p.delivered[i].payload) == Some(Sent(bs)[i])
  {
    hide SerBlock, ReadBlock, BlockFits, BlockWithinCounts, Framing.HttpMagic, Framing.Frames, Framing.ReceiveAll,
         Framing.Concat, Framing.Known, Framing.Ascii, Sent;
    var sent := Sent(bs);
    var ms := BlockMessages(sent);
    BlocksSendable(bs);
    forall i | 0 <= i < |sent|
      ensures ReadBlock(ms[i].payload) == Some(sent[i])
    {
      assert sent[i] in sent;
      SentAre(bs, sent[i]);
      BlockRoundTrip(sent[i], []);
      assert SerBlock(sent[i]) + [] == SerBlock(sent[i]);
    }
    Framing.StreamDelivered(c, magic, ms, chunks);
  }

  /** HandleGetData, first half: pooled transactions and stored blocks, each in the order
      asked for. */
  method Collect(chain: ChainManager, pool: Mempool.TxMemPool, inv: seq<Item>)
    returns (txs: seq<Transaction>, blocks: seq<Block>)
    ensures txs == TxsServed(pool.mapTx, inv)
    ensures blocks == Served(chain.Abstract(), BlocksAsked(inv))
  {
    ghost var s := chain.Abstract();
    txs, blocks := [], [];
    for i := 0 to |inv|
      invariant txs == TxsServed(pool.mapTx, inv[..i])
      invariant blocks == Served(s, BlocksAsked(inv[..i]))
    {
      assert inv[..i + 1][..i] == inv[..i];
      assert BlocksAsked(inv[..i]) + [] == BlocksAsked(inv[..i]);
      match inv[i]
      case TxItem(h) =>
        if h in pool.mapTx {
          txs := txs + [pool.mapTx[h].tx];
        }
      case BlockItem(h) =>
        ServedSnoc(s, BlocksAsked(inv[..i]), h);
        if h in chain.blocks {
          blocks := blocks + [chain.blocks[h]];
        }
      case OtherItem(_) =>
    }
    assert inv[..|inv|] == inv;
  }

  /** HandleGetData: what reaches the peer. The second half sends what was collected; what
      does not fit a message is left out without a word. */
  method HandleGetData(chain: ChainManager, pool: Mempool.TxMemPool, inv: seq<Item>)
    returns (txs: seq<Transaction>, blocks: seq<Block>)
    ensures txs == SentTxs(TxsServed(pool.mapTx, inv))
    ensures blocks == Sent(Served(chain.Abstract(), BlocksAsked(inv)))
  {
    hide Served, TxsServed, BlocksAsked, BlockSent, TxSent;
    var txSer, blockSer := Collect(chain, pool, inv);
    txs, blocks := [], [];
    for i := 0 to |txSer|
      invariant txs == SentTxs(txSer[..i])
    {
      assert txSer[..i + 1][..i] == txSer[..i];
      if TxSent(txSer[i]) { txs := txs + [txSer[i]]; }
    }
    assert txSer[..|txSer|] == txSer;
    for i := 0 to |blockSer|
      invariant blocks == Sent(blockSer[..i])
    {
      assert blockSer[..i + 1][..i] == blockSer[..i];
      if BlockSent(blockSer[i]) { blocks := blocks + [blockSer[i]]; }
    }
    assert blockSer[..|blockSer|] == blockSer;
  }

  /** HandleBlock: the chain takes the step; an accepted block cleans the pool against the new
      view, is relayed, and asks for more headers while the peer is ahead; one without a known
      parent asks for headers; any other rejection counts against the peer. */
  method HandleBlock(chain: ChainManager, pool: Mempool.TxMemPool, blk: Block, peerHeight: int)
    returns (o: Outcome, relay: bool, ask: Option<seq<Hash>>, penalty: nat)
    requires chain.Valid() && pool.Valid()
    modifies chain, pool
    ensures chain.Valid() && pool.Valid()
    ensures (chain.Abstract(), o) == TryAccept(chain.c, chain.params, old(chain.Abstract()), blk)
    ensures relay == Accepted(o)
    ensures if Accepted(o)
            then pool.mapTx.Keys == set id | id in old(pool.mapTx)
                                             && Mempool.StillSpendable(chain.view, chain.height, old(pool.mapTx)[id].tx)
            else pool.Contents() == old(pool.Contents())
    ensures forall id :: id in pool.mapTx ==> id in old(pool.mapTx) && pool.mapTx[id] == old(pool.mapTx)[id]
    ensures ask.Some? <==> (Accepted(o) && chain.height < peerHeight) || o.UnknownPrev?
    ensures ask.Some? ==> chain.height < |chain.byHeight| && ask.value == Locator(chain.Abstract())
    ensures penalty == if Accepted(o) || o.AlreadyKnown? || o.UnknownPrev? then 0 else 10
  {
    hide TryAccept, HeaderHash, Inv, GenesisState, Mempool.Agrees, Mempool.StillSpendable, Locator;
    relay, ask, penalty := false, None, 0;
    o := chain.TryAcceptBlock(blk);
    HeightMatches(chain.c, chain.params, BlockHash(chain.c, chain.genesisBlock), chain.Abstract());
    if Accepted(o) {
      var _ := pool.RemoveSpent(chain.view, chain.height);
      relay := true;
      if chain.height < peerHeight {
        var locator := BuildLocator(chain);
        ask := Some(locator);
      }
    } else if o.UnknownPrev? {
      var locator := BuildLocator(chain);
      ask := Some(locator);
    } else if !o.AlreadyKnown? {
      penalty := 10;
    }
  }

  /** Handling arriving blocks one by one. */
  method HandleBlocks(chain: ChainManager, pool: Mempool.TxMemPool, bs: seq<Block>, peerHeight: int)
    returns (score: nat, asked: seq<bool>)
    requires chain.Valid() && pool.Valid()
    modifies chain, pool
    ensures chain.Valid() && pool.Valid()
    ensures chain.Abstract() == Grown(chain.c, chain.params, old(chain.Abstract()), bs)
    ensures score == Score(chain.c, chain.params, old(chain.Abstract()), bs)
    ensures |asked| == |bs|
    ensures forall k :: 0 <= k < |bs| ==> asked[k] == Asked(chain.c, chain.params, old(chain.Abstract()), bs, peerHeight, k)
  {
    hide TryAccept, HeaderHash, Inv, GenesisState, Mempool.Agrees, Mempool.StillSpendable, Locator;
    ghost var s := chain.Abstract();
    score, asked := 0, [];
    for i := 0 to |bs|
      invariant chain.Valid() && pool.Valid() && |asked| == i
      invariant chain.Abstract() == Grown(chain.c, chain.params, s, bs[..i])
      invariant score == Score(chain.c, chain.params, s, bs[..i])
      invariant forall k :: 0 <= k < i ==> asked[k] == Asked(chain.c, chain.params, s, bs, peerHeight, k)
    {
      assert bs[..i + 1][..i] == bs[..i];
      var _, _, ask, penalty := HandleBlock(chain, pool, bs[i], peerHeight);
      score, asked := score + penalty, asked + [ask.Some?];
    }
    assert bs[..|bs|] == bs;
  }
}
