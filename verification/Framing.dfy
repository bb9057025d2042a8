/** Message framing on a peer connection: the frame format, its parser, and reassembly of
    a byte stream that arrives in arbitrary pieces.
 */
module Framing {
  import opened Types
  import opened Bytes

  const MAX_MESSAGE_SIZE: nat := 4 * 1024 * 1024

  datatype Message = Message(command: seq<byte>, payload: seq<byte>)

  datatype Parsed = Incomplete | Bad | Complete(msg: Message, consumed: nat)

  function Ascii(s: string): (b: seq<byte>)
    ensures |b| == |s| && forall i :: 0 <= i < |s| ==> b[i] == s[i] as int % 256
  {
    seq(|s|, i requires 0 <= i < |s| => s[i] as int % 256)
  }

  const COMMANDS: seq<string> := ["version", "verack", "addr", "getaddr", "inv", "getdata", "tx",
                                  "block", "getblocks", "getheaders", "headers", "ping", "pong"]

  predicate Known(command: seq<byte>) {
    exists i :: 0 <= i < |COMMANDS| && Ascii(COMMANDS[i]) == command
  }

  // ------------------------------------------------------------ frames

  function Padded(command: seq<byte>): (f: seq<byte>)
    requires |command| <= 12
    ensures |f| == 12
  {
    command + ZeroBytes(12 - |command|)
  }

  /** A command field up to its first NUL. */
  function Stripped(field: seq<byte>): (r: seq<byte>)
    ensures |r| <= |field| && r == field[..|r|] && 0 !in r && (|r| < |field| ==> field[|r|] == 0)
  {
    if field == [] || field[0] == 0 then [] else [field[0]] + Stripped(field[1..])
  }

  predicate Sendable(m: Message) {
    |m.command| <= 12 && |m.payload| <= MAX_MESSAGE_SIZE
  }

  function Header(c: Crypto, magic: uint32, m: Message): (h: seq<byte>)
    requires Sendable(m)
    ensures |h| == 24
  {
    LE(magic, 4) + Padded(m.command) + LE(|m.payload|, 4) + Checksum(c, m.payload)
  }

  /** BuildMessage, where it succeeds. */
  function Frame(c: Crypto, magic: uint32, m: Message): (f: seq<byte>)
    requires Sendable(m)
    ensures |f| == 24 + |m.payload|
  {
    Header(c, magic, m) + m.payload
  }

  /** ParseMessage: the checks in the order the source makes them. */
  function Parse(c: Crypto, magic: uint32, d: seq<byte>): (r: Parsed)
    ensures r.Complete? ==> 24 <= r.consumed == 24 + |r.msg.payload| <= |d|
  {
    if |d| < 24 then Incomplete
    else if FromLE(d[..4]) != magic then Bad
    else if !Known(Stripped(d[4..16])) then Bad
    else
      var len := FromLE(d[16..20]);
      if len > MAX_MESSAGE_SIZE then Bad
      else if |d| < 24 + len then Incomplete
      else if Checksum(c, d[24..24 + len]) != d[20..24] then Bad
      else Complete(Message(Stripped(d[4..16]), d[24..24 + len]), 24 + len)
  }

  lemma {:induction false} StrippedUnique(field: seq<byte>, n: nat)
    requires n <= |field| && 0 !in field[..n] && (n < |field| ==> field[n] == 0)
    ensures Stripped(field) == field[..n]
  {
    if n > 0 {
      assert field[..n][0] in field[..n];
      assert field[..n] == [field[0]] + field[1..][..n - 1];
      StrippedUnique(field[1..], n - 1);
    }
  }

  lemma KnownShape(command: seq<byte>)
    requires Known(command)
    ensures 0 !in command && 0 < |command| <= 12 && 97 <= command[0] <= 122
  {
    var i :| 0 <= i < |COMMANDS| && Ascii(COMMANDS[i]) == command;
    CommandShape(i);
    LettersOnly(COMMANDS[i]);
  }

  lemma LettersOnly(s: string)
    requires forall k :: 0 <= k < |s| ==> 97 <= s[k] as int <= 122
    ensures 0 !in Ascii(s) && forall k :: 0 <= k < |s| ==> 97 <= Ascii(s)[k] <= 122
  {
  }

  lemma CommandShape(i: nat)
    requires i < |COMMANDS|
    ensures 0 < |COMMANDS[i]| <= 12
    ensures forall k :: 0 <= k < |COMMANDS[i]| ==> 97 <= COMMANDS[i][k] as int <= 122
  {
    assert COMMANDS[i] == "version" || COMMANDS[i] == "verack" || COMMANDS[i] == "addr" || COMMANDS[i] == "getaddr"
      || COMMANDS[i] == "inv" || COMMANDS[i] == "getdata" || COMMANDS[i] == "tx" || COMMANDS[i] == "block"
      || COMMANDS[i] == "getblocks" || COMMANDS[i] == "getheaders" || COMMANDS[i] == "headers"
      || COMMANDS[i] == "ping" || COMMANDS[i] == "pong";
  }

  /** The bytes of a frame, field by field. */
  lemma FrameLayout(c: Crypto, magic: uint32, m: Message)
    requires Sendable(m)
    ensures var f, n := Frame(c, magic, m), |m.command|;
            && f[..4] == LE(magic, 4) && f[4..4 + n] == m.command && (forall i :: 4 + n <= i < 16 ==> f[i] == 0)
            && f[16..20] == LE(|m.payload|, 4) && f[20..24] == LE(c.sha256d(m.payload), 32)[..4] && f[24..] == m.payload
  {
    hide LE;
  }

  /** The commands a node knows, and the requests it takes for HTTP. */
  lemma KnownWords(b: seq<byte>)
    ensures Known(b)
       <==> || b == Ascii("version") || b == Ascii("verack") || b == Ascii("addr") || b == Ascii("getaddr")
            || b == Ascii("inv") || b == Ascii("getdata") || b == Ascii("tx") || b == Ascii("block")
            || b == Ascii("getblocks") || b == Ascii("getheaders") || b == Ascii("headers")
            || b == Ascii("ping") || b == Ascii("pong")
    ensures IsHttp(b)
       <==> || StartsWith(b, "GET ") || StartsWith(b, "POST ") || StartsWith(b, "HEAD ") || StartsWith(b, "PUT ")
            || StartsWith(b, "OPTIONS ") || StartsWith(b, "DELETE ") || StartsWith(b, "PATCH ")
  {
    KnownAs(b);
    HttpAs(b);
  }

  lemma KnownAs(b: seq<byte>)
    ensures Known(b)
       <==> || b == Ascii("version") || b == Ascii("verack") || b == Ascii("addr") || b == Ascii("getaddr")
            || b == Ascii("inv") || b == Ascii("getdata") || b == Ascii("tx") || b == Ascii("block")
            || b == Ascii("getblocks") || b == Ascii("getheaders") || b == Ascii("headers")
            || b == Ascii("ping") || b == Ascii("pong")
  {
    hide Ascii;
    assert |COMMANDS| == 13;
    assert COMMANDS[0] == "version" && COMMANDS[1] == "verack" && COMMANDS[2] == "addr" && COMMANDS[3] == "getaddr"
           && COMMANDS[4] == "inv" && COMMANDS[5] == "getdata" && COMMANDS[6] == "tx" && COMMANDS[7] == "block"
           && COMMANDS[8] == "getblocks" && COMMANDS[9] == "getheaders" && COMMANDS[10] == "headers"
           && COMMANDS[11] == "ping" && COMMANDS[12] == "pong";
  }

  lemma HttpAs(b: seq<byte>)
    ensures IsHttp(b)
       <==> || StartsWith(b, "GET ") || StartsWith(b, "POST ") || StartsWith(b, "HEAD ") || StartsWith(b, "PUT ")
            || StartsWith(b, "OPTIONS ") || StartsWith(b, "DELETE ") || StartsWith(b, "PATCH ")
  {
    hide StartsWith;
    assert |HTTP_METHODS| == 7;
    assert HTTP_METHODS[0] == "GET " && HTTP_METHODS[1] == "POST " && HTTP_METHODS[2] == "HEAD " && HTTP_METHODS[3] == "PUT "
           && HTTP_METHODS[4] == "OPTIONS " && HTTP_METHODS[5] == "DELETE " && HTTP_METHODS[6] == "PATCH ";
  }

  /** The fields of a buffer that starts with a header. */
  lemma HeaderFields(c: Crypto, magic: uint32, m: Message, rest: seq<byte>)
    requires Sendable(m)
    ensures var d := Header(c, magic, m) + rest;
            && FromLE(d[..4]) == magic && d[4..16] == Padded(m.command) && FromLE(d[16..20]) == |m.payload|
            && d[20..24] == Checksum(c, m.payload) && d[24..] == rest
  {
    hide LE, FromLE, Checksum, Padded;
    var d := Header(c, magic, m) + rest;
    Pow256Values();
    ReadWrite(magic, 4);
    ReadWrite(|m.payload|, 4);
    assert d[..4] == LE(magic, 4);
    assert d[16..20] == LE(|m.payload|, 4);
  }

  lemma KnownStripped(command: seq<byte>)
    requires |command| <= 12
    ensures Stripped(Padded(command)) == command <==> 0 !in command
    ensures Known(command) ==> Stripped(Padded(command)) == command
  {
    var f := Padded(command);
    if 0 !in command {
      assert f[..|command|] == command;
      StrippedUnique(f, |command|);
    } else {
      assert 0 !in Stripped(f);
    }
    if Known(command) { KnownShape(command); }
  }

  /** Frame round trip: a built frame, followed by anything, parses back to its message and
      consumes exactly the frame, if and only if the command is a known one. */
  lemma FrameRoundTrip(c: Crypto, magic: uint32, m: Message, rest: seq<byte>)
    requires Sendable(m)
    ensures Parse(c, magic, Frame(c, magic, m) + rest) == Complete(m, 24 + |m.payload|) <==> Known(m.command)
  {
    hide Known, Header, Checksum, FromLE, Stripped, Padded;
    var d := Frame(c, magic, m) + rest;
    assert d == Header(c, magic, m) + (m.payload + rest);
    HeaderFields(c, magic, m, m.payload + rest);
    assert d[24..24 + |m.payload|] == m.payload;
    KnownStripped(m.command);
  }

  /** Anything short of a whole frame waits for more. */
  lemma PartialFrame(c: Crypto, magic: uint32, m: Message, n: nat)
    requires Sendable(m) && Known(m.command) && n < 24 + |m.payload|
    ensures Parse(c, magic, Frame(c, magic, m)[..n]).Incomplete?
  {
    hide Known, Header, Checksum, FromLE, Stripped, Padded;
    var d := Frame(c, magic, m)[..n];
    if n >= 24 {
      assert d == Header(c, magic, m) + m.payload[..n - 24];
      HeaderFields(c, magic, m, m.payload[..n - 24]);
      KnownStripped(m.command);
    }
  }

  /** What was parsed was framed that way, if and only if the command field is padded with
      zeros: the parser does not look behind the first one. */
  lemma ParsedIsFrame(c: Crypto, magic: uint32, d: seq<byte>)
    requires Parse(c, magic, d).Complete?
    ensures var r := Parse(c, magic, d);
            && Sendable(r.msg) && Known(r.msg.command)
            && (Frame(c, magic, r.msg) == d[..r.consumed] <==> d[4..16] == Padded(r.msg.command))
  {
    hide Known, Checksum, Stripped, FromLE, Padded, LE;
    var r := Parse(c, magic, d);
    KnownShape(r.msg.command);
    WriteRead(d[..4]);
    WriteRead(d[16..20]);
    var f, len := Frame(c, magic, r.msg), |r.msg.payload|;
    HeaderFields(c, magic, r.msg, r.msg.payload);
    assert d[..24 + len] == d[..4] + d[4..16] + d[16..20] + d[20..24] + d[24..24 + len];
    if f == d[..24 + len] {
      assert f[4..16] == d[4..16];
    }
  }

  /** More bytes never change a verdict already reached. */
  lemma ParseStable(c: Crypto, magic: uint32, d: seq<byte>, more: seq<byte>)
    requires !Parse(c, magic, d).Incomplete?
    ensures Parse(c, magic, d + more) == Parse(c, magic, d)
  {
    hide Known, Checksum, Stripped, FromLE;
    var e := d + more;
    assert e[..4] == d[..4] && e[4..16] == d[4..16] && e[16..20] == d[16..20] && e[20..24] == d[20..24];
    var len := FromLE(d[16..20]);
    if 24 + len <= |d| {
      assert e[24..24 + len] == d[24..24 + len];
    }
  }

  // ------------------------------------------------------------ reassembly

  datatype Drained = Drained(msgs: seq<Message>, rest: seq<byte>, bad: bool)

  /** The loop of ProcessBuffer: messages off the front until one is incomplete or bad. */
  function Drain(c: Crypto, magic: uint32, buf: seq<byte>): Drained
    decreases |buf|
  {
    match Parse(c, magic, buf)
    case Incomplete => Drained([], buf, false)
    case Bad => Drained([], [], true)
    case Complete(m, n) =>
      var d := Drain(c, magic, buf[n..]);
      d.(msgs := [m] + d.msgs)
  }

  const HTTP_METHODS: seq<string> := ["GET ", "POST ", "HEAD ", "PUT ", "OPTIONS ", "DELETE ", "PATCH "]

  predicate StartsWith(buf: seq<byte>, s: string) {
    |s| <= |buf| && buf[..|s|] == Ascii(s)
  }

  predicate IsHttp(buf: seq<byte>) {
    exists i :: 0 <= i < |HTTP_METHODS| && StartsWith(buf, HTTP_METHODS[i])
  }

  /** What the node keeps of a connection, and what its handler was given. */
  datatype Peer = Peer(buffer: seq<byte>, score: nat, disconnected: bool, delivered: seq<Message>)

  const NEW_PEER: Peer := Peer([], 0, false, [])

  /** One read from the socket and ProcessBuffer. A disconnected peer is not read. */
  function Receive(c: Crypto, magic: uint32, p: Peer, chunk: seq<byte>): Peer {
    if p.disconnected then p
    else
      var buf := p.buffer + chunk;
      if IsHttp(buf) then p.(buffer := buf, disconnected := true)
      else
        var d := Drain(c, magic, buf);
        var score := if d.bad then p.score + 100 else p.score;
        Peer(d.rest, score, d.bad && score >= 200, p.delivered + d.msgs)
  }

  function ReceiveAll(c: Crypto, magic: uint32, p: Peer, chunks: seq<seq<byte>>): Peer
    decreases |chunks|
  {
    if chunks == [] then p else ReceiveAll(c, magic, Receive(c, magic, p, chunks[0]), chunks[1..])
  }

  function Concat(chunks: seq<seq<byte>>): seq<byte> {
    if chunks == [] then [] else chunks[0] + Concat(chunks[1..])
  }

  predicate AllSendable(ms: seq<Message>) {
    forall i :: 0 <= i < |ms| ==> Sendable(ms[i]) && Known(ms[i].command)
  }

  function Frames(c: Crypto, magic: uint32, ms: seq<Message>): seq<byte>
    requires AllSendable(ms)
  {
    if ms == [] then [] else Frame(c, magic, ms[0]) + Frames(c, magic, ms[1..])
  }

  /** How many whole frames the first n bytes hold. */
  function Whole(ms: seq<Message>, n: nat): (k: nat)
    ensures k <= |ms|
  {
    if ms == [] || n < 24 + |ms[0].payload| then 0
    else 1 + Whole(ms[1..], n - (24 + |ms[0].payload|))
  }

  function Size(ms: seq<Message>): nat {
    if ms == [] then 0 else 24 + |ms[0].payload| + Size(ms[1..])
  }

  lemma {:induction false} FramesSize(c: Crypto, magic: uint32, ms: seq<Message>)
    requires AllSendable(ms)
    ensures |Frames(c, magic, ms)| == Size(ms)
  {
    if ms != [] {
      FramesSize(c, magic, ms[1..]);
    }
  }

  predicate PrefixOf(a: seq<byte>, b: seq<byte>) {
    |a| <= |b| && a == b[..|a|]
  }

  lemma DropPrefix(a: seq<byte>, b: seq<byte>, n: nat)
    requires PrefixOf(a, b) && n <= |a|
    ensures PrefixOf(a[n..], b[n..])
  {
    assert a[n..] == b[n..][..|a| - n];
  }

  /** Draining a prefix of a stream of frames: the whole frames come out, the rest stays. */
  lemma {:induction false} DrainPrefix(c: Crypto, magic: uint32, ms: seq<Message>, buf: seq<byte>)
    requires AllSendable(ms) && PrefixOf(buf, Frames(c, magic, ms))
    ensures var k := Whole(ms, |buf|);
            && Size(ms[..k]) <= |buf|
            && Drain(c, magic, buf) == Drained(ms[..k], buf[Size(ms[..k])..], false)
  {
    hide Parse, Frame, Known, Drain, Size, Whole, PrefixOf, Frames;
    if ms == [] || |buf| < 24 + |ms[0].payload| {
      StopsAt(c, magic, ms, buf);
      WholeNone(ms, |buf|);
      assert buf[0..] == buf;
    } else {
      var m, n, rest := ms[0], 24 + |ms[0].payload|, ms[1..];
      FirstFrame(c, magic, ms, buf);
      DrainPrefix(c, magic, rest, buf[n..]);
      var k := Whole(rest, |buf| - n);
      WholeMore(ms, |buf|);
      assert ms[..k + 1] == [m] + rest[..k];
      assert buf[n..][Size(rest[..k])..] == buf[n + Size(rest[..k])..];
    }
  }

  lemma WholeNone(ms: seq<Message>, n: nat)
    requires ms == [] || n < 24 + |ms[0].payload|
    ensures Whole(ms, n) == 0 && ms[..0] == [] && Size(ms[..0]) == 0
  {
  }

  lemma WholeMore(ms: seq<Message>, n: nat)
    requires ms != [] && n >= 24 + |ms[0].payload|
    ensures var first := 24 + |ms[0].payload|;
            var k := Whole(ms[1..], n - first);
            Whole(ms, n) == k + 1 && Size(ms[..k + 1]) == first + Size(ms[1..][..k])
  {
    var k := Whole(ms[1..], n - (24 + |ms[0].payload|));
    assert ms[..k + 1][1..] == ms[1..][..k];
  }

  lemma FirstFrame(c: Crypto, magic: uint32, ms: seq<Message>, buf: seq<byte>)
    requires AllSendable(ms) && PrefixOf(buf, Frames(c, magic, ms))
    requires ms != [] && |buf| >= 24 + |ms[0].payload|
    ensures var n := 24 + |ms[0].payload|;
            var d := Drain(c, magic, buf[n..]);
            && PrefixOf(buf[n..], Frames(c, magic, ms[1..]))
            && Drain(c, magic, buf) == d.(msgs := [ms[0]] + d.msgs)
  {
    hide Frame, Known;
    var m, n, tail := ms[0], 24 + |ms[0].payload|, buf[24 + |ms[0].payload|..];
    assert buf == Frame(c, magic, m) + tail;
    assert Frames(c, magic, ms)[n..] == Frames(c, magic, ms[1..]);
    DropPrefix(buf, Frames(c, magic, ms), n);
    FrameRoundTrip(c, magic, m, tail);
    hide Parse;
  }

  lemma StopsAt(c: Crypto, magic: uint32, ms: seq<Message>, buf: seq<byte>)
    requires AllSendable(ms) && PrefixOf(buf, Frames(c, magic, ms))
    requires ms == [] || |buf| < 24 + |ms[0].payload|
    ensures Drain(c, magic, buf) == Drained([], buf, false)
  {
    hide Frame, Known;
    if ms != [] {
      assert buf == Frame(c, magic, ms[0])[..|buf|];
      PartialFrame(c, magic, ms[0], |buf|);
      hide Parse;
    }
  }

  /** Which magic numbers a stream of frames is mistaken for HTTP under. */
  predicate HttpMagic(magic: uint32) {
    LE(magic, 4) == Ascii("GET ") || LE(magic, 4) == Ascii("PUT ")
  }

  /** A prefix of a stream of frames looks like HTTP if and only if the magic itself spells
      a three-letter method and all of it has arrived. */
  lemma HttpFrames(c: Crypto, magic: uint32, ms: seq<Message>, buf: seq<byte>)
    requires AllSendable(ms) && PrefixOf(buf, Frames(c, magic, ms))
    ensures IsHttp(buf) <==> HttpMagic(magic) && |buf| >= 4
  {
    hide Frames, Known, LE, IsHttp;
    if IsHttp(buf) {
      HttpStart(buf);
      StreamStart(c, magic, ms);
      assert buf[..4] == Frames(c, magic, ms)[..4];
    } else if |buf| >= 4 {
      StreamStart(c, magic, ms);
      assert buf[..4] == LE(magic, 4);
      NotHttpStart(buf);
    }
  }

  /** An HTTP request starts with a three-letter method or has no letter at position 4. */
  lemma HttpStart(buf: seq<byte>)
    requires IsHttp(buf)
    ensures |buf| >= 4
    ensures buf[..4] == Ascii("GET ") || buf[..4] == Ascii("PUT ") || (|buf| > 4 && buf[4] < 97)
  {
    var i :| 0 <= i < |HTTP_METHODS| && StartsWith(buf, HTTP_METHODS[i]);
    MethodShape(i);
    var n := |HTTP_METHODS[i]|;
    if n > 4 {
      assert Ascii(HTTP_METHODS[i])[4] == buf[..n][4];
    }
  }

  lemma NotHttpStart(buf: seq<byte>)
    requires |buf| >= 4 && !IsHttp(buf)
    ensures buf[..4] != Ascii("GET ") && buf[..4] != Ascii("PUT ")
  {
    assert !StartsWith(buf, HTTP_METHODS[0]) && !StartsWith(buf, HTTP_METHODS[3]);
  }

  lemma MethodShape(i: nat)
    requires i < |HTTP_METHODS|
    ensures |HTTP_METHODS[i]| >= 4
    ensures |HTTP_METHODS[i]| == 4 ==> HTTP_METHODS[i] == "GET " || HTTP_METHODS[i] == "PUT "
    ensures |HTTP_METHODS[i]| > 4 ==> HTTP_METHODS[i][4] as int < 97
  {
    assert i == 0 || i == 1 || i == 2 || i == 3 || i == 4 || i == 5 || i == 6;
  }

  lemma StreamStart(c: Crypto, magic: uint32, ms: seq<Message>)
    requires AllSendable(ms) && Frames(c, magic, ms) != []
    ensures var f := Frames(c, magic, ms);
            |f| >= 24 && f[..4] == LE(magic, 4) && 97 <= f[4] <= 122
  {
    hide LE, Checksum, Known;
    var f := Frames(c, magic, ms);
    KnownShape(ms[0].command);
    assert f[4] == ms[0].command[0];
  }

  /** Reassembly: however a prefix of a stream of frames is cut into pieces, the handler has
      been given exactly the messages that have arrived whole, in order; the rest of the
      bytes are buffered; and the peer is neither blamed nor dropped. */
  lemma {:induction false} Reassembly(c: Crypto, magic: uint32, p: Peer, ms: seq<Message>, chunks: seq<seq<byte>>)
    requires !HttpMagic(magic) && !p.disconnected && AllSendable(ms)
    requires PrefixOf(p.buffer + Concat(chunks), Frames(c, magic, ms)) && Whole(ms, |p.buffer|) == 0
    ensures var all := p.buffer + Concat(chunks);
            var k := Whole(ms, |all|);
            && Size(ms[..k]) <= |all|
            && ReceiveAll(c, magic, p, chunks)
               == Peer(all[Size(ms[..k])..], p.score, false, p.delivered + ms[..k])
    decreases |chunks|
  {
    hide Known, Frames, HttpMagic, Receive, Whole, Size, PrefixOf;
    var all := p.buffer + Concat(chunks);
    if chunks == [] {
      assert all == p.buffer;
      NothingWhole(ms);
      assert all[0..] == all && p.delivered + [] == p.delivered;
    } else {
      var buf, later := p.buffer + chunks[0], Concat(chunks[1..]);
      assert all == buf + later;
      ReceiveStep(c, magic, p, ms, chunks[0], later);
      var k := Whole(ms, |buf|);
      var n := Size(ms[..k]);
      var q := Receive(c, magic, p, chunks[0]);
      assert q.buffer + later == all[n..];
      Reassembly(c, magic, q, ms[k..], chunks[1..]);
      var j := Whole(ms[k..], |all| - n);
      WholeSplit(ms, |buf|, |all|);
      SizeSplit(ms, k, j);
      Rejoin(p.delivered, ms, k, j);
      assert all[n..][Size(ms[k..][..j])..] == all[n + Size(ms[k..][..j])..];
    }
  }

  lemma NothingWhole(ms: seq<Message>)
    ensures ms[..0] == [] && Size(ms[..0]) == 0
  {
  }

  lemma Rejoin(before: seq<Message>, ms: seq<Message>, k: nat, j: nat)
    requires k + j <= |ms|
    ensures before + ms[..k] + ms[k..][..j] == before + ms[..k + j]
  {
    assert ms[..k] + ms[k..][..j] == ms[..k + j];
  }

  /** One read, in the middle of a stream. */
  lemma ReceiveStep(c: Crypto, magic: uint32, p: Peer, ms: seq<Message>, chunk: seq<byte>, later: seq<byte>)
    requires !HttpMagic(magic) && !p.disconnected && AllSendable(ms)
    requires PrefixOf(p.buffer + chunk + later, Frames(c, magic, ms))
    ensures var buf := p.buffer + chunk;
            var k := Whole(ms, |buf|);
            var n := Size(ms[..k]);
            && n <= |buf| && Whole(ms[k..], |buf| - n) == 0 && AllSendable(ms[k..])
            && PrefixOf(buf[n..] + later, Frames(c, magic, ms[k..]))
            && Receive(c, magic, p, chunk) == Peer(buf[n..], p.score, false, p.delivered + ms[..k])
  {
    hide Known, Frames, HttpMagic, IsHttp, Whole, Size, Drain;
    var buf := p.buffer + chunk;
    var all, f := buf + later, Frames(c, magic, ms);
    assert buf == f[..|buf|];
    HttpFrames(c, magic, ms, buf);
    DrainPrefix(c, magic, ms, buf);
    WholeSplit(ms, |buf|, |buf|);
    var k := Whole(ms, |buf|);
    var n := Size(ms[..k]);
    DropPrefix(all, f, n);
    assert all[n..] == buf[n..] + later;
    FramesSplit(c, magic, ms, k);
  }

  /** Counting frames in two steps. */
  lemma {:induction false} WholeSplit(ms: seq<Message>, a: nat, b: nat)
    requires a <= b
    ensures var k := Whole(ms, a);
            && Size(ms[..k]) <= a && Whole(ms, b) == k + Whole(ms[k..], b - Size(ms[..k]))
            && Whole(ms[k..], a - Size(ms[..k])) == 0
  {
    var k := Whole(ms, a);
    if k == 0 {
      assert ms[..0] == [] && ms[0..] == ms;
    } else {
      var n := 24 + |ms[0].payload|;
      WholeSplit(ms[1..], a - n, b - n);
      assert ms[..k][1..] == ms[1..][..k - 1] && ms[k..] == ms[1..][k - 1..];
    }
  }

  lemma {:induction false} FramesSplit(c: Crypto, magic: uint32, ms: seq<Message>, k: nat)
    requires AllSendable(ms) && k <= |ms|
    ensures Size(ms[..k]) <= |Frames(c, magic, ms)|
    ensures Frames(c, magic, ms)[Size(ms[..k])..] == Frames(c, magic, ms[k..])
  {
    hide Frame, Known;
    if k == 0 {
      assert ms[..0] == [] && ms[0..] == ms;
    } else {
      FramesSplit(c, magic, ms[1..], k - 1);
      assert ms[..k][1..] == ms[1..][..k - 1] && ms[k..] == ms[1..][k - 1..];
      var head, tail, n := Frame(c, magic, ms[0]), Frames(c, magic, ms[1..]), Size(ms[1..][..k - 1]);
      assert (head + tail)[|head| + n..] == tail[n..];
    }
  }

  lemma {:induction false} SizeSplit(ms: seq<Message>, k: nat, j: nat)
    requires k + j <= |ms|
    ensures Size(ms[..k + j]) == Size(ms[..k]) + Size(ms[k..][..j])
  {
    if k == 0 {
      assert ms[..0] == [] && ms[0..] == ms;
    } else {
      SizeSplit(ms[1..], k - 1, j);
      assert ms[..k + j][1..] == ms[1..][..k - 1 + j] && ms[..k][1..] == ms[1..][..k - 1] && ms[k..] == ms[1..][k - 1..];
    }
  }

  /** A whole stream of frames is delivered whole, whatever the pieces. */
  lemma StreamDelivered(c: Crypto, magic: uint32, ms: seq<Message>, chunks: seq<seq<byte>>)
    requires !HttpMagic(magic) && AllSendable(ms) && Concat(chunks) == Frames(c, magic, ms)
    ensures ReceiveAll(c, magic, NEW_PEER, chunks) == Peer([], 0, false, ms)
  {
    hide Known, Frames, HttpMagic, ReceiveAll;
    assert [] + Concat(chunks) == Concat(chunks);
    assert Frames(c, magic, ms)[..|Concat(chunks)|] == Frames(c, magic, ms);
    assert Whole(ms, 0) == 0;
    Reassembly(c, magic, NEW_PEER, ms, chunks);
    FramesSize(c, magic, ms);
    WholeOfAll(ms);
    assert ms[..|ms|] == ms && [] + ms == ms;
  }

  lemma {:induction false} WholeOfAll(ms: seq<Message>)
    ensures Whole(ms, Size(ms)) == |ms|
  {
    if ms != [] {
      WholeOfAll(ms[1..]);
    }
  }

  /** The three networks' magic numbers are not HTTP. */
  lemma NetworksAreSafe()
    ensures !HttpMagic(0xCDA1CD01) && !HttpMagic(0xCDA1CD02) && !HttpMagic(0xCDA1CDFF)
  {
    hide LE;
    LowByte(0xCDA1CD01);
    LowByte(0xCDA1CD02);
    LowByte(0xCDA1CDFF);
    assert Ascii("GET ")[0] == 0x47 && Ascii("PUT ")[0] == 0x50;
  }

  /** Under an HTTP magic no message is ever delivered once four bytes have arrived. */
  lemma HttpMagicDeliversNothing(c: Crypto, magic: uint32, ms: seq<Message>, chunk: seq<byte>, chunks: seq<seq<byte>>)
    requires HttpMagic(magic) && AllSendable(ms) && PrefixOf(chunk, Frames(c, magic, ms)) && |chunk| >= 4
    ensures ReceiveAll(c, magic, NEW_PEER, [chunk] + chunks) == Peer(chunk, 0, true, [])
  {
    hide Known, Frames, HttpMagic, IsHttp;
    HttpFrames(c, magic, ms, chunk);
    assert [] + chunk == chunk;
    assert ([chunk] + chunks)[1..] == chunks;
    Dropped(c, magic, Peer(chunk, 0, true, []), chunks);
  }

  lemma {:induction false} Dropped(c: Crypto, magic: uint32, p: Peer, chunks: seq<seq<byte>>)
    requires p.disconnected
    ensures ReceiveAll(c, magic, p, chunks) == p
  {
    if chunks != [] {
      Dropped(c, magic, p, chunks[1..]);
    }
  }

  /** After a malformed message the pieces do matter: a good frame behind it is lost when it
      arrives in the same read and delivered when it arrives in the next. */
  lemma PiecesMatterAfterBad(c: Crypto, magic: uint32, junk: seq<byte>, m: Message)
    requires !HttpMagic(magic) && Sendable(m) && Known(m.command)
    requires Parse(c, magic, junk).Bad? && !IsHttp(junk)
    ensures var f := Frame(c, magic, m);
            && ReceiveAll(c, magic, NEW_PEER, [junk + f]) == Peer([], 100, false, [])
            && ReceiveAll(c, magic, NEW_PEER, [junk, f]) == Peer([], 100, false, [m])
  {
    hide Known, Frame, HttpMagic, IsHttp, Parse;
    var f := Frame(c, magic, m);
    ParseStable(c, magic, junk, f);
    BadIsLong(c, magic, junk);
    assert !IsHttp(junk + f) by {
      if IsHttp(junk + f) { HttpPrefix(junk, f); }
    }
    assert [] + junk == junk && [] + (junk + f) == junk + f;
    var p := Receive(c, magic, NEW_PEER, junk);
    assert p == Peer([], 100, false, []);
    assert Frames(c, magic, [m]) == f by { OneFrame(c, magic, m); }
    assert [junk, f][1..] == [f];
    assert Concat([f]) == f by { OneChunk(f); }
    assert Whole([m], 0) == 0;
    assert p.buffer + Concat([f]) == f && f[..|f|] == f;
    Reassembly(c, magic, p, [m], [f]);
    FramesSize(c, magic, [m]);
    WholeOfAll([m]);
    assert [m][..1] == [m];
  }

  lemma OneChunk(chunk: seq<byte>)
    ensures Concat([chunk]) == chunk
  {
    assert Concat([chunk][1..]) == [];
  }

  lemma OneFrame(c: Crypto, magic: uint32, m: Message)
    requires Sendable(m) && Known(m.command)
    ensures Frames(c, magic, [m]) == Frame(c, magic, m)
  {
    hide Known, Frame;
    assert Frames(c, magic, [m][1..]) == [];
  }

  lemma HttpPrefix(buf: seq<byte>, more: seq<byte>)
    requires |buf| >= 8 && IsHttp(buf + more)
    ensures IsHttp(buf)
  {
    var i :| 0 <= i < |HTTP_METHODS| && StartsWith(buf + more, HTTP_METHODS[i]);
    MethodLength(i);
    assert (buf + more)[..|HTTP_METHODS[i]|] == buf[..|HTTP_METHODS[i]|];
    assert StartsWith(buf, HTTP_METHODS[i]);
  }

  lemma BadIsLong(c: Crypto, magic: uint32, d: seq<byte>)
    requires Parse(c, magic, d).Bad?
    ensures |d| >= 24
  {
  }

  lemma MethodLength(i: nat)
    requires i < |HTTP_METHODS|
    ensures |HTTP_METHODS[i]| <= 8
  {
    assert i == 0 || i == 1 || i == 2 || i == 3 || i == 4 || i == 5 || i == 6;
  }

  // ------------------------------------------------------------ arbitrary bytes

  /** Draining in two steps: what the first part decided stays decided. */
  lemma {:induction false} DrainSplit(c: Crypto, magic: uint32, a: seq<byte>, b: seq<byte>)
    ensures var d := Drain(c, magic, a);
            var e := Drain(c, magic, d.rest + b);
            Drain(c, magic, a + b) == if d.bad then d else Drained(d.msgs + e.msgs, e.rest, e.bad)
    decreases |a|
  {
    hide Parse;
    match Parse(c, magic, a)
    case Incomplete =>
      var e := Drain(c, magic, a + b);
      assert [] + e.msgs == e.msgs;
    case Bad =>
      ParseStable(c, magic, a, b);
    case Complete(m, n) =>
      ParseStable(c, magic, a, b);
      assert (a + b)[n..] == a[n..] + b;
      DrainSplit(c, magic, a[n..], b);
      var d, e := Drain(c, magic, a[n..]), Drain(c, magic, Drain(c, magic, a[n..]).rest + b);
      assert [m] + (d.msgs + e.msgs) == [m] + d.msgs + e.msgs;
  }

  /** A buffer that yields nothing is kept as it is; one that yields something is long. */
  lemma DrainedShape(c: Crypto, magic: uint32, buf: seq<byte>)
    ensures var d := Drain(c, magic, buf);
            && (d.bad || d.msgs != [] ==> |buf| >= 24)
            && (!d.bad && d.msgs == [] ==> d.rest == buf)
  {
    hide Known, Checksum, Stripped, FromLE;
  }

  /** No read, up to the one that turns bad, starts like an HTTP request. */
  ghost predicate NoHttp(c: Crypto, magic: uint32, buffer: seq<byte>, chunks: seq<seq<byte>>)
    decreases |chunks|
  {
    chunks == []
    || (var buf := buffer + chunks[0];
        !IsHttp(buf) && (Drain(c, magic, buf).bad || NoHttp(c, magic, Drain(c, magic, buf).rest, chunks[1..])))
  }

  /** The bytes that arrive after the read in which a malformed message was met. */
  function Later(c: Crypto, magic: uint32, buffer: seq<byte>, chunks: seq<seq<byte>>): seq<byte>
    decreases |chunks|
  {
    if chunks == [] then []
    else
      var d := Drain(c, magic, buffer + chunks[0]);
      if d.bad then Concat(chunks[1..]) else Later(c, magic, d.rest, chunks[1..])
  }

  lemma {:induction false} NoHttpWhole(c: Crypto, magic: uint32, buffer: seq<byte>, chunks: seq<seq<byte>>)
    requires chunks != [] && NoHttp(c, magic, buffer, chunks)
    ensures !IsHttp(buffer + Concat(chunks))
    decreases |chunks|
  {
    hide IsHttp, Drain;
    var buf, rest := buffer + chunks[0], Concat(chunks[1..]);
    assert buffer + Concat(chunks) == buf + rest;
    DrainedShape(c, magic, buf);
    if |buf| >= 24 {
      if IsHttp(buf + rest) { HttpPrefix(buf, rest); }
    } else if chunks[1..] == [] {
      assert buf + rest == buf;
    } else {
      NoHttpWhole(c, magic, buf, chunks[1..]);
    }
  }

  /** Something was received since: it shows, and goes on showing. */
  predicate Moved(q: Peer, r: Peer) {
    && r.score >= q.score && |r.delivered| >= |q.delivered|
    && (r.disconnected || r.score > q.score || |r.delivered| > |q.delivered| || r.buffer != [])
  }

  lemma MovedByBytes(c: Crypto, magic: uint32, q: Peer, r: Peer, chunk: seq<byte>)
    requires Moved(q, r) || (q == r && !q.disconnected && chunk != [])
    ensures Moved(q, Receive(c, magic, r, chunk))
  {
    hide IsHttp, Drain;
    DrainedShape(c, magic, r.buffer + chunk);
  }

  lemma NothingReceived(c: Crypto, magic: uint32, q: Peer)
    requires !q.disconnected && q.buffer == []
    ensures Receive(c, magic, q, []) == q
  {
    assert [] + [] == q.buffer;
    if IsHttp(q.buffer) { HttpStart(q.buffer); }
    assert q.delivered + [] == q.delivered;
  }

  /** Whatever is received after the buffer was cleared is noticed. */
  lemma {:induction false} Noticed(c: Crypto, magic: uint32, q: Peer, r: Peer, chunks: seq<seq<byte>>)
    requires !q.disconnected && q.buffer == [] && (r == q || Moved(q, r))
    ensures ReceiveAll(c, magic, r, chunks) == q <==> r == q && Concat(chunks) == []
    decreases |chunks|
  {
    hide Receive;
    if chunks != [] {
      var next := Receive(c, magic, r, chunks[0]);
      if r == q && chunks[0] == [] {
        NothingReceived(c, magic, q);
      } else {
        MovedByBytes(c, magic, q, r, chunks[0]);
      }
      Noticed(c, magic, q, next, chunks[1..]);
    }
  }

  /** Without HTTP, reading in pieces gives what reading at once gives if and only if nothing
      arrives after the read in which a malformed message was met, or that message ends the
      connection. */
  lemma {:induction false} CutWithoutHttp(c: Crypto, magic: uint32, p: Peer, chunks: seq<seq<byte>>)
    requires !p.disconnected && chunks != [] && NoHttp(c, magic, p.buffer, chunks)
    ensures ReceiveAll(c, magic, p, chunks) == Receive(c, magic, p, Concat(chunks))
       <==> Later(c, magic, p.buffer, chunks) == [] || p.score >= 100
    decreases |chunks|
  {
    hide IsHttp, Drain;
    var buf, rest := p.buffer + chunks[0], Concat(chunks[1..]);
    assert p.buffer + Concat(chunks) == buf + rest;
    NoHttpWhole(c, magic, p.buffer, chunks);
    DrainSplit(c, magic, buf, rest);
    var d, q := Drain(c, magic, buf), Receive(c, magic, p, chunks[0]);
    if d.bad {
      BadEmpties(c, magic, buf);
      AfterBad(c, magic, q, chunks[1..]);
    } else if chunks[1..] == [] {
      assert chunks == [chunks[0]];
      OneChunk(chunks[0]);
    } else {
      CutWithoutHttp(c, magic, q, chunks[1..]);
      NoHttpWhole(c, magic, d.rest, chunks[1..]);
      var e := Drain(c, magic, d.rest + rest);
      assert p.delivered + d.msgs + e.msgs == p.delivered + (d.msgs + e.msgs);
    }
  }

  /** The bytes that arrive after the read that made the buffer start like an HTTP request. */
  function AfterRequest(buffer: seq<byte>, chunks: seq<seq<byte>>): seq<byte>
    decreases |chunks|
  {
    if chunks == [] then []
    else if IsHttp(buffer + chunks[0]) then Concat(chunks[1..])
    else AfterRequest(buffer + chunks[0], chunks[1..])
  }

  /** A stream that starts like an HTTP request is dropped either way; what differs is how
      much of it is left in the buffer. */
  lemma {:induction false} CutOfRequest(c: Crypto, magic: uint32, p: Peer, chunks: seq<seq<byte>>)
    requires !p.disconnected && chunks != [] && IsHttp(p.buffer + Concat(chunks))
    ensures ReceiveAll(c, magic, p, chunks) == Receive(c, magic, p, Concat(chunks)) <==> AfterRequest(p.buffer, chunks) == []
    decreases |chunks|
  {
    hide IsHttp, Drain;
    var buf, rest := p.buffer + chunks[0], Concat(chunks[1..]);
    assert p.buffer + Concat(chunks) == buf + rest;
    var q := Receive(c, magic, p, chunks[0]);
    if IsHttp(buf) {
      Dropped(c, magic, q, chunks[1..]);
      assert rest == [] ==> buf + rest == buf;
    } else {
      DrainedShape(c, magic, buf);
      if |buf| >= 8 { HttpPrefix(buf, rest); }
      assert p.delivered + [] == p.delivered;
      assert chunks[1..] == [] ==> buf + rest == buf;
      CutOfRequest(c, magic, q, chunks[1..]);
    }
  }

  /** A read that starts like an HTTP request ends the connection without a penalty. */
  lemma {:induction false} HttpReadDrops(c: Crypto, magic: uint32, p: Peer, chunks: seq<seq<byte>>)
    requires !p.disconnected && !NoHttp(c, magic, p.buffer, chunks)
    ensures var r := ReceiveAll(c, magic, p, chunks); r.disconnected && r.score == p.score
    decreases |chunks|
  {
    hide IsHttp, Drain;
    var q := Receive(c, magic, p, chunks[0]);
    if IsHttp(p.buffer + chunks[0]) {
      Dropped(c, magic, q, chunks[1..]);
    } else {
      HttpReadDrops(c, magic, q, chunks[1..]);
    }
  }

  /** Independence of the cut, for arbitrary bytes and every way to cut them. A stream that
      starts like an HTTP request: reading in pieces gives what reading at once gives if and
      only if nothing arrives after the read that shows the request. Any other stream: if and
      only if no read starts like one, and nothing arrives after the read in which a malformed
      message was met or that message ends the connection. */
  lemma CutIndependence(c: Crypto, magic: uint32, p: Peer, chunks: seq<seq<byte>>)
    requires !p.disconnected && chunks != []
    ensures ReceiveAll(c, magic, p, chunks) == Receive(c, magic, p, Concat(chunks))
       <==> if IsHttp(p.buffer + Concat(chunks)) then AfterRequest(p.buffer, chunks) == []
            else NoHttp(c, magic, p.buffer, chunks) && (Later(c, magic, p.buffer, chunks) == [] || p.score >= 100)
  {
    hide IsHttp, Drain, NoHttp, Later, AfterRequest, ReceiveAll;
    if IsHttp(p.buffer + Concat(chunks)) {
      CutOfRequest(c, magic, p, chunks);
    } else if NoHttp(c, magic, p.buffer, chunks) {
      CutWithoutHttp(c, magic, p, chunks);
    } else {
      HttpReadDrops(c, magic, p, chunks);
    }
  }

  lemma BadEmpties(c: Crypto, magic: uint32, buf: seq<byte>)
    requires Drain(c, magic, buf).bad
    ensures Drain(c, magic, buf).rest == []
  {
    hide Parse;
  }

  lemma AfterBad(c: Crypto, magic: uint32, q: Peer, chunks: seq<seq<byte>>)
    requires q.buffer == []
    ensures ReceiveAll(c, magic, q, chunks) == q <==> q.disconnected || Concat(chunks) == []
  {
    hide Receive;
    if q.disconnected {
      Dropped(c, magic, q, chunks);
    } else {
      Noticed(c, magic, q, q, chunks);
    }
  }

  // ------------------------------------------------------------ the loops

  /** BuildMessage: fields appended to an output buffer. */
  method BuildMessage(c: Crypto, magic: uint32, m: Message) returns (r: Option<seq<byte>>)
    ensures r == if Sendable(m) then Some(Frame(c, magic, m)) else None
    ensures r.Some? <==> |m.command| <= 12 && |m.payload| <= 4_194_304
  {
    hide LE, Checksum;
    if |m.command| > 12 || |m.payload| > MAX_MESSAGE_SIZE { return None; }
    var out := LE(magic, 4);
    var cmd := m.command;
    while |cmd| < 12
      invariant |m.command| <= |cmd| <= 12 && cmd == m.command + ZeroBytes(|cmd| - |m.command|)
    {
      cmd := cmd + [0];
    }
    out := out + cmd;
    out := out + LE(|m.payload|, 4);
    out := out + Checksum(c, m.payload);
    out := out + m.payload;
    r := Some(out);
  }

  method ParseMessage(c: Crypto, magic: uint32, d: seq<byte>) returns (r: Parsed)
    ensures r == Parse(c, magic, d)
  {
    hide Checksum, Known, Stripped, FromLE;
    if |d| < 24 { return Incomplete; }
    if FromLE(d[..4]) != magic { return Bad; }
    var command := StripCommand(d[4..16]);
    var known := IsKnownCommand(command);
    if !known { return Bad; }
    var len := FromLE(d[16..20]);
    if len > MAX_MESSAGE_SIZE { return Bad; }
    if |d| < 24 + len { return Incomplete; }
    if Checksum(c, d[24..24 + len]) != d[20..24] { return Bad; }
    r := Complete(Message(command, d[24..24 + len]), 24 + len);
  }

  method StripCommand(field: seq<byte>) returns (command: seq<byte>)
    ensures command == Stripped(field)
  {
    var end := 0;
    while end < |field| && field[end] != 0
      invariant 0 <= end <= |field| && 0 !in field[..end]
    {
      end := end + 1;
    }
    StrippedUnique(field, end);
    command := field[..end];
  }

  method IsKnownCommand(command: seq<byte>) returns (known: bool)
    ensures known == Known(command)
  {
    for i := 0 to |COMMANDS|
      invariant forall k :: 0 <= k < i ==> Ascii(COMMANDS[k]) != command
    {
      if Ascii(COMMANDS[i]) == command { return true; }
    }
    known := false;
  }

  // ------------------------------------------------------------ the connection object

  class Node {
    const c: Crypto
    const magic: uint32
    var recvBuffer: seq<byte>
    var misbehaviorScore: nat
    var disconnected: bool
    var delivered: seq<Message>

    ghost function Abstract(): Peer
      reads this
    {
      Peer(recvBuffer, misbehaviorScore, disconnected, delivered)
    }

    constructor (c: Crypto, magic: uint32)
      ensures Abstract() == NEW_PEER && this.c == c && this.magic == magic
    {
      this.c, this.magic := c, magic;
      recvBuffer, misbehaviorScore, disconnected, delivered := [], 0, false, [];
    }

    /** One successful read of the socket. */
    method Read(chunk: seq<byte>)
      modifies this
      ensures Abstract() == Receive(c, magic, old(Abstract()), chunk)
    {
      hide Drain, IsHttp;
      if disconnected { return; }
      recvBuffer := recvBuffer + chunk;
      var http := LooksLikeHttp(recvBuffer);
      if http {
        disconnected := true;
        return;
      }
      ProcessBuffer();
    }

    method ProcessBuffer()
      requires !disconnected
      modifies this
      ensures var d := Drain(c, magic, old(recvBuffer));
              var score := if d.bad then old(misbehaviorScore) + 100 else old(misbehaviorScore);
              Abstract() == Peer(d.rest, score, d.bad && score >= 200, old(delivered) + d.msgs)
    {
      hide Parse;
      ghost var all := Drain(c, magic, recvBuffer);
      while true
        invariant !disconnected && misbehaviorScore == old(misbehaviorScore)
        invariant var d := Drain(c, magic, recvBuffer);
                  all.rest == d.rest && all.bad == d.bad && old(delivered) + all.msgs == delivered + d.msgs
        decreases |recvBuffer|
      {
        var parsed := ParseMessage(c, magic, recvBuffer);
        match parsed {
          case Incomplete =>
            return;
          case Bad =>
            misbehaviorScore := misbehaviorScore + 100;
            recvBuffer := [];
            if misbehaviorScore >= 200 { disconnected := true; }
            return;
          case Complete(m, n) =>
            ghost var d := Drain(c, magic, recvBuffer[n..]);
            assert delivered + ([m] + d.msgs) == delivered + [m] + d.msgs;
            recvBuffer := recvBuffer[n..];
            delivered := delivered + [m];
        }
      }
    }

    static method LooksLikeHttp(buf: seq<byte>) returns (r: bool)
      ensures r == IsHttp(buf)
    {
      for i := 0 to |HTTP_METHODS|
        invariant forall k :: 0 <= k < i ==> !StartsWith(buf, HTTP_METHODS[k])
      {
        if StartsWith(buf, HTTP_METHODS[i]) { return true; }
      }
      r := false;
    }
  }
}
