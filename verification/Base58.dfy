/** Base-58 text: the two in-place conversions against positional notation, and exactly
    when each undoes the other.
 */
module Base58 {
  import opened Types
  import opened Bytes
  import opened Positional
  import Arith

  // ------------------------------------------------------------ change of base

  /** Change of base keeping the number of leading zeros: both directions of the codec. */
  function Rebase(ds: seq<nat>, from: nat, to: nat): seq<nat>
    requires to >= 2
  {
    ZeroBytes(Zeros(ds)) + Digits(Value(ds, from), to)
  }

  /** Rebasing there and back is the identity on proper digit strings. */
  lemma RebaseInverse(ds: seq<nat>, from: nat, to: nat)
    requires from >= 2 && to >= 2 && Below(ds, from)
    ensures Below(Rebase(ds, from, to), to) && Rebase(Rebase(ds, from, to), to, from) == ds
  {
    hide Value, Digits, Zeros;
    var z, n := Zeros(ds), Value(ds, from);
    DigitsCanonical(n, to);
    ZerosOf(z, Digits(n, to));
    LeadingZeros(z, Digits(n, to), to);
    Normal(ds, from);
  }

  // ------------------------------------------------------------ the alphabet

  function Letters(first: char, n: nat): (s: string)
    requires first as int + n <= 128
    ensures |s| == n && forall i :: 0 <= i < n ==> s[i] as int == first as int + i
  {
    seq(n, i requires 0 <= i < n => (first as int + i) as char)
  }

  /** Digits and letters in ASCII order, without 0, I, O and l. */
  const ALPHABET: string :=
    Letters('1', 9) + (Letters('A', 8) + (Letters('J', 5) + (Letters('P', 11) + (Letters('a', 11) + Letters('m', 14)))))

  lemma AlphabetText()
    ensures ALPHABET == "123456789" + ("ABCDEFGH" + ("JKLMN" + ("PQRSTUVWXYZ" + ("abcdefghijk" + "mnopqrstuvwxyz"))))
  {
    assert Letters('1', 9) == "123456789";
    assert Letters('A', 8) == "ABCDEFGH";
    assert Letters('J', 5) == "JKLMN";
    assert Letters('P', 11) == "PQRSTUVWXYZ";
    assert Letters('a', 11) == "abcdefghijk";
    assert Letters('m', 14) == "mnopqrstuvwxyz";
  }

  /** The characters are distinct, and none is NUL. */
  lemma Distinct(i: nat, j: nat)
    requires i < j < |ALPHABET|
    ensures 0 < ALPHABET[i] as int < ALPHABET[j] as int
  {
  }

  lemma AlphabetSize()
    ensures |ALPHABET| == 58 && ALPHABET[0] == '1' && '\0' !in ALPHABET
  {
  }

  /** strchr over the alphabet: the terminating NUL is found too, as index 58. */
  function Index(ch: char): (r: Option<nat>)
    ensures r.Some? ==> r.value <= 58
    ensures r.Some? && r.value < 58 <==> ch in ALPHABET
    ensures r.Some? && r.value < 58 ==> |ALPHABET| == 58 && ALPHABET[r.value] == ch
    ensures r == Some(58) <==> ch == '\0'
  {
    AlphabetSize();
    if ch == '\0' then Some(58) else Find(ch, 0)
  }

  function Find(ch: char, i: nat): (r: Option<nat>)
    requires i <= |ALPHABET|
    ensures r.Some? ==> i <= r.value < |ALPHABET| && ALPHABET[r.value] == ch
    ensures r.None? ==> ch !in ALPHABET[i..]
    decreases |ALPHABET| - i
  {
    if i == |ALPHABET| then None
    else if ALPHABET[i] == ch then Some(i)
    else
      assert ALPHABET[i..] == [ALPHABET[i]] + ALPHABET[i + 1..];
      Find(ch, i + 1)
  }

  lemma IndexOfDigit(d: nat)
    requires d < 58
    ensures |ALPHABET| == 58 && Index(ALPHABET[d]) == Some(d)
  {
    AlphabetSize();
    var r := Index(ALPHABET[d]);
    assert ALPHABET[d] in ALPHABET;
    if r.value < d {
      Distinct(r.value, d);
    } else if d < r.value {
      Distinct(d, r.value);
    }
  }

  // ------------------------------------------------------------ the codec

  function Text(ds: seq<nat>): (s: string)
    requires Below(ds, 58)
    ensures |s| == |ds|
  {
    AlphabetSize();
    seq(|ds|, i requires 0 <= i < |ds| => ALPHABET[ds[i]])
  }

  predicate Readable(s: string) {
    forall i :: 0 <= i < |s| ==> Index(s[i]).Some?
  }

  function Indices(s: string): (ds: seq<nat>)
    requires Readable(s)
    ensures |ds| == |s| && forall i :: 0 <= i < |s| ==> ds[i] == Index(s[i]).value
  {
    seq(|s|, i requires 0 <= i < |s| => Index(s[i]).value)
  }

  function Encode(data: seq<byte>): string {
    RebaseInverse(data, 256, 58);
    var t := Text(Rebase(data, 256, 58));
    if t == "" then [ALPHABET[0]] else t
  }

  function Bytes256(ds: seq<nat>): (b: seq<byte>)
    requires Below(ds, 256)
    ensures b == ds
  {
    seq(|ds|, i requires 0 <= i < |ds| => ds[i])
  }

  /** Decoding fails on a character the search does not find. */
  function Decode(s: string): Option<seq<byte>> {
    if !Readable(s) then None
    else
      DigitsCanonical(Value(Indices(s), 58), 256);
      Some(Bytes256(Rebase(Indices(s), 58, 256)))
  }

  lemma TextIndices(ds: seq<nat>)
    requires Below(ds, 58)
    ensures Readable(Text(ds)) && Indices(Text(ds)) == ds && '\0' !in Text(ds)
  {
    hide Index;
    AlphabetSize();
    var s := Text(ds);
    forall i | 0 <= i < |ds|
      ensures Index(s[i]) == Some(ds[i]) && s[i] != '\0'
    {
      IndexOfDigit(ds[i]);
    }
    assert Indices(s) == ds;
  }

  lemma IndicesText(s: string)
    requires Readable(s) && '\0' !in s
    ensures Below(Indices(s), 58) && Text(Indices(s)) == s
  {
    hide Find;
    forall i | 0 <= i < |s|
      ensures Index(s[i]).value < 58
    {
      assert s[i] in s;
    }
    assert Text(Indices(s)) == s;
  }

  lemma RebaseEmpty(ds: seq<nat>, from: nat, to: nat)
    requires to >= 2
    ensures ds == [] ==> Rebase(ds, from, to) == []
    ensures from >= 2 && ds != [] ==> Rebase(ds, from, to) != []
  {
    if from >= 2 && ds != [] && ds[0] != 0 {
      CanonicalPositive(ds, from);
      DigitsCanonical(Value(ds, from), to);
    }
  }

  /** Decoding what was encoded gives the bytes back if and only if there were any: the
      empty string of bytes is written "1", which reads as one zero byte. */
  lemma DecodeEncode(data: seq<byte>)
    ensures Decode(Encode(data)) == Some(data) <==> data != []
  {
    hide Rebase, Readable, Indices, Text, Index;
    RebaseInverse(data, 256, 58);
    RebaseEmpty(data, 256, 58);
    if data != [] {
      TextIndices(Rebase(data, 256, 58));
    } else {
      TextIndices([0]);
      AlphabetSize();
      assert Text([0]) == [ALPHABET[0]] by { TextOne(); }
      RebaseEmpty([0], 58, 256);
    }
  }

  lemma TextOne()
    ensures |ALPHABET| == 58 && Text([0]) == [ALPHABET[0]]
  {
    AlphabetSize();
  }

  /** Encoding what was decoded gives the text back if and only if it is not empty and
      holds no NUL, which the search takes for a digit. */
  lemma EncodeDecode(s: string)
    requires Decode(s).Some?
    ensures Encode(Decode(s).value) == s <==> s != "" && '\0' !in s
  {
    hide Rebase, Indices, Text, Index;
    var ds := Indices(s);
    RebaseEmpty(ds, 58, 256);
    var b := Decode(s).value;
    RebaseInverse(b, 256, 58);
    RebaseEmpty(b, 256, 58);
    TextIndices(Rebase(b, 256, 58));
    AlphabetSize();
    TextOne();
    TextIndices([0]);
    if s != "" && '\0' !in s {
      IndicesText(s);
      RebaseInverse(ds, 58, 256);
    }
  }

  /** A text of one NUL decodes, and its bytes encode differently. */
  lemma NulIsRead()
    ensures Decode(['\0']) == Some([58]) && Encode([58]) != ['\0']
  {
    hide Encode, Index, Value, Digits, Rebase, Zeros;
    var s := ['\0'];
    NulIndex();
    assert Indices(s) == [58];
    FiftyEight();
    EncodeDecode(s);
    assert s[0] in s;
  }

  lemma FiftyEight()
    ensures Rebase([58], 58, 256) == [58]
  {
    hide Value, Digits;
    ValueSnoc([], 58, 58);
    ValueSnoc([], 58, 256);
    NoDigits(58);
    NoDigits(256);
    assert [] + [58] == [58];
    DigitsOfValue([58], 256);
    assert ZeroBytes(0) + [58] == [58];
  }

  lemma NulIndex()
    ensures Index('\0') == Some(58)
  {
  }

  // ------------------------------------------------------------ checksums

  function EncodeCheck(c: Crypto, data: seq<byte>): string {
    Encode(data + Checksum(c, data))
  }

  function DecodeCheck(c: Crypto, s: string): Option<seq<byte>> {
    match Decode(s)
    case None => None
    case Some(full) =>
      if |full| < 4 then None
      else
        var data := full[..|full| - 4];
        if Checksum(c, data) == full[|full| - 4..] then Some(data) else None
  }

  /** Every byte string survives Base58Check. */
  lemma CheckRoundTrip(c: Crypto, data: seq<byte>)
    ensures DecodeCheck(c, EncodeCheck(c, data)) == Some(data)
  {
    hide Encode, Decode, Checksum;
    var full := data + Checksum(c, data);
    DecodeEncode(full);
    assert full[..|full| - 4] == data && full[|full| - 4..] == Checksum(c, data);
  }

  /** A text that decodes is the encoding of what it decodes to if and only if it holds
      no NUL. */
  lemma CheckCanonical(c: Crypto, s: string)
    requires DecodeCheck(c, s).Some?
    ensures EncodeCheck(c, DecodeCheck(c, s).value) == s <==> '\0' !in s
  {
    hide Encode, Checksum, Rebase, Index;
    EncodeDecode(s);
    var full := Decode(s).value;
    assert full[..|full| - 4] + full[|full| - 4..] == full;
    RebaseEmpty(Indices(s), 58, 256);
  }

  /** Hash160ToAddress and DecodeAddress. */
  function ToAddress(c: Crypto, version: byte, hash: seq<byte>): string {
    EncodeCheck(c, [version] + hash)
  }

  function FromAddress(c: Crypto, s: string): Option<(byte, seq<byte>)> {
    match DecodeCheck(c, s)
    case None => None
    case Some(p) => if |p| != 21 then None else Some((p[0], p[1..]))
  }

  /** An address decodes to the version and the hash it was made of, and, without NUL, is
      the only text that does. */
  lemma AddressRoundTrip(c: Crypto, version: byte, hash: seq<byte>, s: string)
    requires |hash| == 20
    ensures FromAddress(c, ToAddress(c, version, hash)) == Some((version, hash))
    ensures FromAddress(c, s) == Some((version, hash)) && '\0' !in s ==> s == ToAddress(c, version, hash)
  {
    hide EncodeCheck, DecodeCheck;
    CheckRoundTrip(c, [version] + hash);
    if FromAddress(c, s) == Some((version, hash)) {
      CheckCanonical(c, s);
      assert DecodeCheck(c, s).value == [version] + hash;
    }
  }

  /** PrivKeyToWIF and WIFToPrivKey: reading ignores the last byte. */
  function ToWif(c: Crypto, version: byte, key: seq<byte>): string {
    EncodeCheck(c, [version] + key + [1])
  }

  function FromWif(c: Crypto, s: string): Option<(byte, seq<byte>)> {
    match DecodeCheck(c, s)
    case None => None
    case Some(p) => if |p| != 34 then None else Some((p[0], p[1..33]))
  }

  /** A text that reads as a key is that key's own text if and only if its flag byte is 1
      and it holds no NUL. */
  lemma WifRoundTrip(c: Crypto, version: byte, key: seq<byte>, s: string)
    requires |key| == 32
    ensures FromWif(c, ToWif(c, version, key)) == Some((version, key))
    ensures FromWif(c, s) == Some((version, key)) ==>
              (s == ToWif(c, version, key) <==> DecodeCheck(c, s).value[33] == 1 && '\0' !in s)
  {
    hide EncodeCheck, DecodeCheck;
    var full := [version] + key + [1];
    CheckRoundTrip(c, full);
    assert full[1..33] == key;
    if FromWif(c, s) == Some((version, key)) {
      CheckCanonical(c, s);
      var p := DecodeCheck(c, s).value;
      assert p == [version] + key + [p[33]];
    }
  }

  // ------------------------------------------------------------ the loops

  /** One pass of the division by 58, in place. */
  method DivideRow(buf: array<byte>, start: nat) returns (rem: nat, next: nat)
    requires start < buf.Length
    modifies buf
    ensures buf[..start] == old(buf[..start])
    ensures rem < 58 && Value(old(buf[start..]), 256) == Value(buf[start..], 256) * 58 + rem
    ensures start <= next <= buf.Length && Value(buf[start..], 256) == Value(buf[next..], 256)
    ensures next < buf.Length ==> buf[next] != 0
  {
    hide Value;
    rem := 0;
    next := buf.Length;
    ghost var was := buf[..];
    ghost var z := start;
    assert was[start..start] == [] && buf[start..start] == [];
    NoDigits(256);
    for i := start to buf.Length
      invariant rem < 58 && buf[..start] == was[..start] && buf[i..] == was[i..]
      invariant Value(was[start..i], 256) == Value(buf[start..i], 256) * 58 + rem
      invariant z == (if next == buf.Length then i else next) && start <= z <= i
      invariant next != buf.Length ==> next < i && buf[next] != 0
      invariant forall j :: start <= j < z ==> buf[j] == 0
    {
      var acc := rem * 256 + buf[i];
      ghost var q := buf[start..i];
      DivideDigit(was[start..i], q, rem, was[i]);
      buf[i] := acc / 58;
      rem := acc % 58;
      assert was[start..i + 1] == was[start..i] + [was[i]];
      assert buf[start..i + 1] == q + [acc / 58];
      if buf[i] != 0 && next == buf.Length {
        next := i;
      }
      z := if next == buf.Length then i + 1 else next;
    }
    assert was[start..buf.Length] == was[start..] && buf[start..buf.Length] == buf[start..];
    assert buf[start..] == ZeroBytes(next - start) + buf[next..];
    LeadingZeros(next - start, buf[next..], 256);
  }

  lemma DivideDigit(ds: seq<nat>, q: seq<nat>, rem: nat, d: nat)
    requires Value(ds, 256) == Value(q, 256) * 58 + rem
    ensures var acc := rem * 256 + d;
            Value(ds + [d], 256) == Value(q + [acc / 58], 256) * 58 + acc % 58
  {
    var acc := rem * 256 + d;
    ValueSnoc(ds, d, 256);
    ValueSnoc(q, acc / 58, 256);
  }

  function Reversed(ds: seq<nat>): (r: seq<nat>)
    ensures |r| == |ds|
  {
    seq(|ds|, i requires 0 <= i < |ds| => ds[|ds| - 1 - i])
  }

  lemma ReversedSnoc(ds: seq<nat>, d: nat)
    ensures Reversed(ds + [d]) == [d] + Reversed(ds)
  {
  }

  /** EncodeBase58. */
  method EncodeBase58(data: seq<byte>) returns (s: string)
    ensures s == Encode(data)
  {
    hide Digits, Value, Rebase, Zeros;
    var zeros := 0;
    while zeros < |data| && data[zeros] == 0
      invariant zeros <= |data| && forall i :: 0 <= i < zeros ==> data[i] == 0
    {
      zeros := zeros + 1;
    }
    assert data == ZeroBytes(zeros) + data[zeros..];
    ZerosOf(zeros, data[zeros..]);
    LeadingZeros(zeros, data[zeros..], 256);
    var digits := ConvertDigits(data, zeros);
    RebaseInverse(data, 256, 58);
    assert ZeroBytes(zeros) + Reversed(digits) == Rebase(data, 256, 58) by { RebaseIs(data, 256, 58); }
    AlphabetSize();
    s := "";
    for i := 0 to zeros
      invariant s == Text(ZeroBytes(i))
    {
      s := s + [ALPHABET[0]];
    }
    for i := 0 to |digits|
      invariant s == Text(ZeroBytes(zeros) + Reversed(digits)[..i])
    {
      s := s + [ALPHABET[digits[|digits| - 1 - i]]];
    }
    assert Reversed(digits)[..|digits|] == Reversed(digits);
    if s == "" { s := [ALPHABET[0]]; }
  }

  lemma RebaseIs(ds: seq<nat>, from: nat, to: nat)
    requires to >= 2
    ensures Rebase(ds, from, to) == ZeroBytes(Zeros(ds)) + Digits(Value(ds, from), to)
  {
  }

  /** The digits of the number, least significant first. */
  method ConvertDigits(data: seq<byte>, zeros: nat) returns (digits: seq<nat>)
    requires zeros <= |data| && (zeros < |data| ==> data[zeros] != 0)
    ensures Below(digits, 58) && Reversed(digits) == Digits(Value(data[zeros..], 256), 58)
  {
    hide Value, Reversed;
    digits := [];
    var buf := new byte[|data|](i requires 0 <= i < |data| => data[i]);
    assert buf[..] == data;
    ghost var all := Digits(Value(data[zeros..], 256), 58);
    assert Reversed([]) == [];
    var start := zeros;
    while start < buf.Length
      invariant zeros <= start <= buf.Length && (start < buf.Length ==> buf[start] != 0)
      invariant Below(digits, 58) && all == Digits(Value(buf[start..], 256), 58) + Reversed(digits)
      decreases Value(buf[start..], 256)
    {
      ghost var n := Value(buf[start..], 256);
      CanonicalPositive(buf[start..], 256);
      var rem, next := DivideRow(buf, start);
      Arith.DivUnique(n, 58, Value(buf[start..], 256), rem);
      ReversedSnoc(digits, rem);
      digits := digits + [rem];
      if next == buf.Length {
        NoDigits(256);
        assert buf[next..] == [];
        assert all == Reversed(digits);
        break;
      }
      start := next;
    }
    if start == buf.Length {
      NoDigits(256);
      assert buf[start..] == [];
    }
  }

  /** Little-endian base 256 without a zero at the top. */
  predicate Trimmed(b: seq<byte>) {
    b != [] ==> b[|b| - 1] != 0
  }

  /** One character of DecodeBase58: multiply by 58 and add, carrying. */
  method MultiplyAdd(b: seq<byte>, digit: nat) returns (r: seq<byte>)
    requires digit <= 58 && Trimmed(b)
    ensures Trimmed(r) && FromLE(r) == FromLE(b) * 58 + digit
  {
    hide FromLE, Carried;
    r := b;
    var carry: nat := digit;
    assert b[..0] == [] && r[..0] == [];
    PlaceOne(digit);
    for i := 0 to |b|
      invariant |r| == |b| && r[i..] == b[i..] && carry <= 58
      invariant Carried(r[..i], carry) == FromLE(b[..i]) * 58 + digit
      invariant i > 0 && b[i - 1] != 0 && carry == 0 ==> r[i - 1] != 0
    {
      var acc: nat := b[i] * 58 + carry;
      ghost var was := r;
      assert r[i] == b[i];
      r := r[i := acc % 256];
      assert b[..i + 1] == b[..i] + [b[i]] && r[..i + 1] == was[..i] + [acc % 256];
      CarryStep(b[..i], was[..i], b[i], carry, digit);
      carry := acc / 256;
    }
    assert b[..|b|] == b && r[..|b|] == r;
    while carry > 0
      invariant carry <= 58 && (carry == 0 ==> Trimmed(r))
      invariant Carried(r, carry) == FromLE(b) * 58 + digit
      decreases carry
    {
      PushStep(r, carry);
      r := r + [carry % 256];
      carry := carry / 256;
    }
    NothingCarried(r);
  }

  /** Bytes and a carry above them. */
  function Carried(r: seq<byte>, carry: nat): nat {
    FromLE(r) + carry * Pow256(|r|)
  }

  lemma PlaceOne(carry: nat)
    ensures FromLE([]) == 0 && Carried([], carry) == carry
  {
  }

  lemma NothingCarried(r: seq<byte>)
    ensures Carried(r, 0) == FromLE(r)
  {
  }

  lemma CarryStep(b: seq<byte>, r: seq<byte>, d: byte, carry: nat, digit: nat)
    requires |b| == |r| && Carried(r, carry) == FromLE(b) * 58 + digit
    ensures var acc := d * 58 + carry;
            Carried(r + [acc % 256], acc / 256) == FromLE(b + [d]) * 58 + digit
  {
    hide FromLE, Pow256;
    var acc: nat := d * 58 + carry;
    TopSnoc(b, d);
    TopSnoc(r, acc % 256);
    NextPlace(|r|);
    CarryArith(FromLE(r), FromLE(b), d, carry, digit, Pow256(|r|));
  }

  lemma CarryArith(low: nat, from: nat, d: nat, carry: nat, digit: nat, p: nat)
    requires low + carry * p == from * 58 + digit
    ensures var acc := d * 58 + carry;
            low + acc % 256 * p + acc / 256 * (256 * p) == (from + d * p) * 58 + digit
  {
    var acc: nat := d * 58 + carry;
    var q, m := acc / 256, acc % 256;
    calc {
      m * p + q * (256 * p);
      (m + q * 256) * p;
      (d * 58 + carry) * p;
      58 * (d * p) + carry * p;
    }
  }

  lemma PushStep(r: seq<byte>, carry: nat)
    requires carry < 256
    ensures Carried(r + [carry % 256], carry / 256) == Carried(r, carry)
  {
    hide FromLE, Pow256;
    TopSnoc(r, carry);
  }

  lemma {:induction false} ValueReversed(b: seq<byte>)
    ensures Value(Reversed(b), 256) == FromLE(b)
  {
    if b != [] {
      ValueReversed(b[1..]);
      assert Reversed(b) == Reversed(b[1..]) + [b[0]];
      ValueSnoc(Reversed(b[1..]), b[0], 256);
    }
  }

  /** DecodeBase58: None where the source throws. */
  method DecodeBase58(s: string) returns (r: Option<seq<byte>>)
    ensures r == Decode(s)
  {
    hide Value, Digits, Zeros, FromLE, Index, Rebase;
    var b256: seq<byte> := [];
    PlaceOne(0);
    NoDigits(58);
    assert Indices(s[..0]) == [];
    for k := 0 to |s|
      invariant Readable(s[..k]) && Trimmed(b256) && FromLE(b256) == Value(Indices(s[..k]), 58)
    {
      var idx := Index(s[k]);
      if idx.None? { return None; }
      assert Indices(s[..k + 1]) == Indices(s[..k]) + [idx.value];
      ValueSnoc(Indices(s[..k]), idx.value, 58);
      b256 := MultiplyAdd(b256, idx.value);
    }
    assert s[..|s|] == s;
    var zeros := CountOnes(s);
    var ds := Indices(s);
    ValueReversed(b256);
    assert Below(Reversed(b256), 256);
    DigitsOfValue(Reversed(b256), 256);
    RebaseIs(ds, 58, 256);
    var out: seq<byte> := [];
    for i := 0 to zeros
      invariant out == ZeroBytes(i)
    {
      out := out + [0];
    }
    for i := 0 to |b256|
      invariant out == ZeroBytes(zeros) + Reversed(b256)[..i]
    {
      out := out + [b256[|b256| - 1 - i]];
    }
    assert Reversed(b256)[..|b256|] == Reversed(b256);
    r := Some(out);
  }

  method CountOnes(s: string) returns (zeros: nat)
    requires Readable(s)
    ensures zeros == Zeros(Indices(s))
  {
    hide Zeros;
    AlphabetSize();
    zeros := 0;
    while zeros < |s| && s[zeros] == ALPHABET[0]
      invariant zeros <= |s| && forall i :: 0 <= i < zeros ==> s[i] == ALPHABET[0]
    {
      zeros := zeros + 1;
    }
    IndexOfDigit(0);
    var ds := Indices(s);
    assert ds == ZeroBytes(zeros) + ds[zeros..];
    ZerosOf(zeros, ds[zeros..]);
  }
}
