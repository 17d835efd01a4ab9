/** TOTP secrets, codes and their verification (auth/totp.ts). */
module Totp {
  import opened Text
  import opened Base32
  import Protocol

  const STEP_SECONDS: nat := 30

  // ------------------------------------------------------------------ base32

  function SymbolChar(i: nat): char
    requires i < 32
  {
    if i < 26 then 'A' + i as char else '2' + (i - 26) as char
  }

  /** Position in the base32 alphabet, or -1. */
  function SymbolIndex(c: char): (i: int)
    ensures -1 <= i < 32
  {
    if 'A' <= c <= 'Z' then (c - 'A') as int
    else if '2' <= c <= '7' then 26 + (c - '2') as int
    else -1
  }

  /** The alphabet of section 6 of RFC 4648: the capital letters, then the digits from 2 to 7. */
  lemma AlphabetExactly(i: nat, c: char)
    requires i < 32
    ensures SymbolChar(i) as int == if i < 26 then 65 + i else 50 + (i - 26)
    ensures SymbolIndex(c) == i <==> c == SymbolChar(i)
  {
  }

  predicate IsBase32(s: string) { forall c | c in s :: SymbolIndex(c) != -1 }

  /** The bits that a byte string, or a string of base32 symbols, stands for. */
  function ByteBits(bytes: seq<byte>): Bits
  {
    if bytes == [] then [] else ByteBits(bytes[..|bytes| - 1]) + Low(bytes[|bytes| - 1], 8)
  }

  function SymbolBits(s: string): Bits
    requires IsBase32(s)
  {
    if s == "" then [] else SymbolBits(s[..|s| - 1]) + Low(SymbolIndex(s[|s| - 1]), 5)
  }

  function Zeros(n: nat): Bits { seq(n, _ => false) }

  /** Section 6 of RFC 4648: the bits of the bytes, padded with fewer than five zeros to whole symbols. */
  ghost predicate Encodes(s: string, bytes: seq<byte>)
  {
    IsBase32(s) && exists pad: nat | pad < 5 :: SymbolBits(s) == ByteBits(bytes) + Zeros(pad)
  }

  /** The whole bytes among the bits of the symbols; fewer than eight bits are left over. */
  ghost predicate Decodes(s: string, bytes: seq<byte>)
  {
    IsBase32(s) && exists rest: Bits | |rest| < 8 :: SymbolBits(s) == ByteBits(bytes) + rest
  }

  lemma SymbolAdded(s: string, i: nat)
    requires IsBase32(s) && i < 32
    ensures IsBase32(s + [SymbolChar(i)]) && SymbolBits(s + [SymbolChar(i)]) == SymbolBits(s) + Low(i, 5)
  {
    assert (s + [SymbolChar(i)])[..|s|] == s;
  }

  lemma Powers()
    ensures Pow2(4) == 16 && Pow2(5) == 32 && Pow2(7) == 128 && Pow2(8) == 0x100
    ensures Pow2(16) == 0x1_0000 && Pow2(24) == 0x100_0000
  {
    assert Pow2(8) == 256;
    assert Pow2(16) == 65536;
  }

  /** Feeding k bits to the accumulator appends them to everything read so far. */
  lemma Feed(sent: Bits, value: word, pending: nat, x: nat, k: nat, read: Bits)
    requires x < Pow2(k) && pending + k <= 32 && sent + Low(value, pending) == read
    ensures Or(Shl(value, k), x) < 0x1_0000_0000
    ensures sent + Low(Or(Shl(value, k), x), pending + k) == read + Low(x, k)
  {
    Append(value, x, k, pending);
    assert sent + (Low(value, pending) + Low(x, k)) == read + Low(x, k);
  }

  /** Taking k bits out of the accumulator moves them to what was sent. */
  lemma Emit(sent: Bits, value: word, pending: nat, k: nat, mask: nat, read: Bits)
    requires k <= pending && mask == Pow2(k) - 1 && sent + Low(value, pending) == read
    ensures And(Shr(value, pending - k), mask) < Pow2(k)
    ensures sent + Low(And(Shr(value, pending - k), mask), k) + Low(value, pending - k) == read
  {
    Take(value, pending, k);
    LowValue(Low(value, pending)[..k]);
    LowTail(value, pending, pending - k);
    assert Low(value, pending) == Low(value, pending)[..k] + Low(value, pending)[k..];
  }

  /** The last symbol carries the pending bits, then zeros. */
  lemma Flush(sent: Bits, value: word, pending: nat, read: Bits)
    requires pending < 5 && sent + Low(value, pending) == read
    ensures And(Shl(value, 5 - pending), 31) < 32
    ensures sent + Low(And(Shl(value, 5 - pending), 31), 5) == read + Zeros(5 - pending)
  {
    Powers();
    LowShl(value, 5 - pending, pending);
    AndMask(Shl(value, 5 - pending), 5);
    assert sent + (Low(value, pending) + Zeros(5 - pending)) == read + Zeros(5 - pending);
  }

  /** Emits whole symbols while at least five bits are pending. */
  method EmitSymbols(output: string, value: word, bits: nat, ghost read: Bits) returns (output': string, bits': nat)
    requires bits <= 12 && IsBase32(output) && SymbolBits(output) + Low(value, bits) == read
    ensures bits' < 5 && IsBase32(output') && SymbolBits(output') + Low(value, bits') == read
  {
    output', bits' := output, bits;
    while bits' >= 5
      invariant bits' <= 12 && IsBase32(output') && SymbolBits(output') + Low(value, bits') == read
    {
      Powers();
      Emit(SymbolBits(output'), value, bits', 5, 31, read);
      var symbol := And(Shr(value, bits' - 5), 31);
      SymbolAdded(output', symbol);
      output' := output' + [SymbolChar(symbol)];
      bits' := bits' - 5;
    }
  }

  lemma ByteBitsStep(bytes: seq<byte>, i: nat)
    requires i < |bytes|
    ensures ByteBits(bytes[..i + 1]) == ByteBits(bytes[..i]) + Low(bytes[i], 8)
  {
    assert bytes[..i + 1][..i] == bytes[..i];
  }

  /** One more byte in the accumulator. */
  method FeedByte(value: word, bits: nat, b: byte, ghost sent: Bits, ghost read: Bits) returns (value': word)
    requires bits < 5 && sent + Low(value, bits) == read
    ensures sent + Low(value', bits + 8) == read + Low(b, 8)
  {
    Powers();
    Feed(sent, value, bits, b, 8, read);
    value' := Or(Shl(value, 8), b);
  }

  /** The symbol of the pending bits, filled up with zeros. */
  method EmitRest(output: string, value: word, bits: nat, ghost read: Bits) returns (output': string)
    requires 0 < bits < 5 && IsBase32(output) && SymbolBits(output) + Low(value, bits) == read
    ensures IsBase32(output') && SymbolBits(output') == read + Zeros(5 - bits)
  {
    Flush(SymbolBits(output), value, bits, read);
    var symbol := And(Shl(value, 5 - bits), 31);
    SymbolAdded(output, symbol);
    output' := output + [SymbolChar(symbol)];
  }

  /** generateTotpSecret on the given random bytes. */
  method EncodeSecret(bytes: seq<byte>) returns (output: string)
    ensures Encodes(output, bytes)
  {
    var bits: nat, value: word := 0, 0;
    output := "";
    for i := 0 to |bytes|
      invariant bits < 5 && IsBase32(output)
      invariant SymbolBits(output) + Low(value, bits) == ByteBits(bytes[..i])
    {
      ByteBitsStep(bytes, i);
      value := FeedByte(value, bits, bytes[i], SymbolBits(output), ByteBits(bytes[..i]));
      output, bits := EmitSymbols(output, value, bits + 8, ByteBits(bytes[..i + 1]));
    }
    assert bytes[..|bytes|] == bytes;
    if bits > 0 {
      output := EmitRest(output, value, bits, ByteBits(bytes));
    } else {
      assert SymbolBits(output) == ByteBits(bytes) + Zeros(0);
    }
  }

  function StripPadding(s: string): string
  {
    if s != "" && s[|s| - 1] == '=' then StripPadding(s[..|s| - 1]) else s
  }

  function WithoutSpaces(s: string): string
  {
    if s == "" then "" else (if IsSpace(s[0]) then "" else [s[0]]) + WithoutSpaces(s[1..])
  }

  /** Upper case, then without trailing padding, then without white space. */
  function Normalise(s: string): string
  {
    WithoutSpaces(StripPadding(Protocol.Upper(s)))
  }

  lemma {:induction false} PaddingGoes(s: string, pads: string)
    requires (forall c | c in pads :: c == '=') && (s == "" || s[|s| - 1] != '=')
    ensures StripPadding(s + pads) == s
    decreases |pads|
  {
    if pads == "" {
      assert s + pads == s;
    } else {
      var n := |pads| - 1;
      assert (s + pads)[..|s| + n] == s + pads[..n] && (s + pads)[|s| + n] == pads[n] && pads[n] in pads;
      assert forall c | c in pads[..n] :: c in pads;
      PaddingGoes(s, pads[..n]);
    }
  }

  lemma {:induction false} SpacesGo(a: string, b: string)
    ensures WithoutSpaces(a + b) == WithoutSpaces(a) + WithoutSpaces(b)
  {
    if a == "" {
      assert a + b == b;
    } else {
      assert (a + b)[1..] == a[1..] + b;
      SpacesGo(a[1..], b);
    }
  }

  /** One character at a time: white space goes, everything else stays. */
  lemma SpaceGoes(c: char)
    ensures WithoutSpaces([c]) == (if IsSpace(c) then "" else [c]) && WithoutSpaces("") == ""
  {
    assert [c][1..] == "";
  }

  /** A secret as people type it: any case, padded at its end, and with white space anywhere before the padding. */
  lemma NormaliseExactly(typed: string, pads: string)
    requires (forall c | c in pads :: c == '=') && (typed == "" || typed[|typed| - 1] != '=')
    ensures Normalise(typed + pads) == WithoutSpaces(Protocol.Upper(typed))
  {
    var upper := Protocol.Upper(typed);
    forall i | 0 <= i < |typed + pads| ensures Protocol.Upper(typed + pads)[i] == (upper + pads)[i] {
      if i >= |typed| { assert pads[i - |typed|] in pads; }
    }
    assert Protocol.Upper(typed + pads) == upper + pads;
    assert upper != "" ==> upper[|upper| - 1] != '=';
    PaddingGoes(upper, pads);
  }

  lemma SymbolRead(s: string, i: nat)
    requires i < |s| && IsBase32(s[..i]) && SymbolIndex(s[i]) != -1
    ensures IsBase32(s[..i + 1]) && SymbolBits(s[..i + 1]) == SymbolBits(s[..i]) + Low(SymbolIndex(s[i]), 5)
  {
    assert s[..i + 1] == s[..i] + [s[i]] && s[..i + 1][..i] == s[..i];
  }

  lemma ByteAdded(bytes: seq<byte>, b: byte)
    ensures ByteBits(bytes + [b]) == ByteBits(bytes) + Low(b, 8)
  {
    assert (bytes + [b])[..|bytes|] == bytes;
  }

  /** Emits a byte when at least eight bits are pending. */
  method EmitByte(bytes: seq<byte>, value: word, bits: nat, ghost read: Bits)
    returns (bytes': seq<byte>, bits': nat)
    requires bits <= 12 && ByteBits(bytes) + Low(value, bits) == read
    ensures bits' < 8 && ByteBits(bytes') + Low(value, bits') == read
  {
    bytes', bits' := bytes, bits;
    if bits >= 8 {
      Powers();
      Emit(ByteBits(bytes), value, bits, 8, 0xff, read);
      var b: byte := And(Shr(value, bits - 8), 0xff);
      ByteAdded(bytes, b);
      bytes', bits' := bytes + [b], bits - 8;
    }
  }

  method DecodeSymbols(s: string) returns (r: Option<seq<byte>>)
    ensures r.None? <==> !IsBase32(s)
    ensures r.Some? ==> Decodes(s, r.value)
  {
    var bits: nat, value: word := 0, 0;
    var bytes: seq<byte> := [];
    for i := 0 to |s|
      invariant bits < 8 && IsBase32(s[..i])
      invariant ByteBits(bytes) + Low(value, bits) == SymbolBits(s[..i])
    {
      var index := SymbolIndex(s[i]);
      if index == -1 {
        return None;
      }
      Powers();
      SymbolRead(s, i);
      Feed(ByteBits(bytes), value, bits, index, 5, SymbolBits(s[..i]));
      value := Or(Shl(value, 5), index);
      bytes, bits := EmitByte(bytes, value, bits + 5, SymbolBits(s[..i + 1]));
    }
    assert s[..|s|] == s;
    return Some(bytes);
  }

  /** None stands for the exception on a character outside the alphabet. */
  method DecodeSecret(input: string) returns (r: Option<seq<byte>>)
    ensures r.None? <==> !IsBase32(Normalise(input))
    ensures r.Some? ==> Decodes(Normalise(input), r.value)
  {
    r := DecodeSymbols(Normalise(input));
  }

  lemma SameBitsSameByte(x: byte, y: byte)
    requires Low(x, 8) == Low(y, 8)
    ensures x == y
  {
    assert Pow2(8) == 256;
    ValueLow(x, 8);
    ValueLow(y, 8);
  }

  lemma SameEnds(a: Bits, b: Bits, x: Bits, y: Bits)
    requires a + x == b + y && |x| == |y|
    ensures a == b && x == y
  {
    assert a == (a + x)[..|a|] && x == (a + x)[|a|..] && b == (b + y)[..|b|] && y == (b + y)[|b|..];
  }

  lemma {:induction false} ByteBitsInjective(a: seq<byte>, b: seq<byte>)
    requires ByteBits(a) == ByteBits(b)
    ensures a == b
  {
    ByteBitsLength(a);
    ByteBitsLength(b);
    if a != [] {
      var n := |a| - 1;
      SameEnds(ByteBits(a[..n]), ByteBits(b[..n]), Low(a[n], 8), Low(b[n], 8));
      SameBitsSameByte(a[n], b[n]);
      ByteBitsInjective(a[..n], b[..n]);
      assert a == a[..n] + [a[n]] && b == b[..n] + [b[n]];
    }
  }

  lemma {:induction false} ByteBitsLength(a: seq<byte>)
    ensures |ByteBits(a)| == 8 * |a|
  {
    if a != [] {
      ByteBitsLength(a[..|a| - 1]);
    }
  }

  /** Decoding the encoding of any byte string, of any length, returns that byte string. */
  lemma DecodeEncode(bytes: seq<byte>, text: string, decoded: seq<byte>)
    requires Encodes(text, bytes) && Decodes(text, decoded)
    ensures decoded == bytes
  {
    var pad: nat :| pad < 5 && SymbolBits(text) == ByteBits(bytes) + Zeros(pad);
    var rest: Bits :| |rest| < 8 && SymbolBits(text) == ByteBits(decoded) + rest;
    ByteBitsLength(bytes);
    ByteBitsLength(decoded);
    assert 8 * |bytes| + pad == 8 * |decoded| + |rest|;
    assert |bytes| == |decoded|;
    assert ByteBits(bytes) == SymbolBits(text)[..8 * |bytes|] == ByteBits(decoded);
    ByteBitsInjective(bytes, decoded);
  }

  lemma {:induction false} NoSpaces(s: string)
    requires IsBase32(s)
    ensures WithoutSpaces(s) == s
  {
    if s != "" {
      NoSpaces(s[1..]);
      assert SymbolIndex(s[0]) != -1 && s == [s[0]] + s[1..];
    }
  }

  lemma NormalLeavesBase32(s: string)
    requires IsBase32(s)
    ensures WithoutSpaces(s) == s && Protocol.Upper(s) == s && StripPadding(s) == s
  {
    NoSpaces(s);
    assert s != "" ==> SymbolIndex(s[|s| - 1]) != -1;
    forall i | 0 <= i < |s| ensures Protocol.UpperChar(s[i]) == s[i] { assert SymbolIndex(s[i]) != -1; }
    assert Protocol.Upper(s) == s;
  }

  /** The two methods together: a generated secret always decodes to the random bytes it was made from. */
  method GenerateThenDecode(bytes: seq<byte>) returns (secret: string, decoded: Option<seq<byte>>)
    ensures decoded == Some(bytes)
  {
    secret := EncodeSecret(bytes);
    NormalLeavesBase32(secret);
    decoded := DecodeSecret(secret);
    DecodeEncode(bytes, secret, decoded.value);
  }

  // -------------------------------------------------------------- truncation

  type Digest = d: seq<byte> | |d| == 20 witness seq(20, _ => 0)

  function Offset(d: Digest): nat { And(d[19], 15) }

  lemma OffsetInBounds(d: Digest)
    ensures Offset(d) == d[19] % 16 && Offset(d) + 3 < |d|
  {
    Powers();
    AndMask(d[19], 4);
    ValueLow(And(d[19], 15), 4);
    LowWrap(d[19], 4, 4);
    ValueLow(d[19] % 16, 4);
  }

  /** Section 5.3 of RFC 4226: the four bytes at the offset, big-endian, without the sign bit. */
  function BigEndian31(d: Digest, o: nat): nat
    requires o + 3 < 20
  {
    Compose(d[o] % 128, d[o + 1], d[o + 2], d[o + 3])
  }

  function Compose(a: nat, b: nat, c: nat, e: nat): nat
  {
    a * 0x100_0000 + b * 0x1_0000 + c * 0x100 + e
  }

  lemma BigEndianExactly(d: Digest, o: nat, a: int, b: int, c: int, e: int)
    requires o + 3 < 20 && d[o] == a && d[o + 1] == b && d[o + 2] == c && d[o + 3] == e
    ensures BigEndian31(d, o) == 16777216 * (a % 128) + 65536 * b + 256 * c + e
  {
  }

  lemma {:induction false} OrZero(a: nat)
    ensures Or(a, 0) == a
  {
    if a > 0 { OrZero(a / 2); }
  }

  /** Or with bits below the lowest set bit is addition. */
  lemma {:induction false} OrIsPlus(a: nat, b: nat, k: nat)
    requires b < Pow2(k)
    ensures Or(a * Pow2(k), b) == a * Pow2(k) + b
  {
    if k == 0 {
      OrZero(a);
      assert a * Pow2(0) == a;
    } else {
      var x := a * Pow2(k - 1);
      assert a * Pow2(k) == 2 * x;
      OrIsPlus(a, b / 2, k - 1);
      if 2 * x == 0 && b == 0 {
      } else {
        assert Or(2 * x, b) == 2 * Or(x, b / 2) + b % 2;
      }
    }
  }

  lemma SevenBits(b: byte)
    ensures And(b, 0x7f) == b % 128
  {
    Powers();
    AndMask(b, 7);
    ValueLow(And(b, 0x7f), 7);
    LowWrap(b, 7, 7);
    ValueLow(b % 128, 7);
  }

  lemma ShiftedIsTimes(w: nat, n: nat, p: nat)
    requires p == Pow2(n) && w < 0x1_0000_0000 && w * p < 0x1_0000_0000
    ensures Shl(w, n) == w * p
  {
  }

  lemma OrBelow(hi: nat, x: nat, lo: nat, k: nat, p: nat)
    requires p == Pow2(k) && hi == x * p && lo < p
    ensures Or(hi, lo) == hi + lo
  {
    OrIsPlus(x, lo, k);
  }

  lemma Composed(a: nat, b: nat, c: nat, e: nat)
    requires a < 128 && b < 256 && c < 256 && e < 256
    ensures a < 0x1_0000_0000 && b < 0x1_0000_0000
    ensures Or(Or(Or(Shl(a, 24), Shl(b, 16)), Shl(c, 8)), e) == Compose(a, b, c, e)
  {
    Powers();
    var x, y, z := Shl(a, 24), Shl(b, 16), Shl(c, 8);
    ShiftedIsTimes(a, 24, 0x100_0000);
    ShiftedIsTimes(b, 16, 0x1_0000);
    ShiftedIsTimes(c, 8, 0x100);
    OrBelow(x, a, y, 24, 0x100_0000);
    OrBelow(x + y, a * 0x100 + b, z, 16, 0x1_0000);
    OrBelow(x + y + z, a * 0x1_0000 + b * 0x100 + c, e, 8, 0x100);
  }

  /** Masking, shifting and or-ing four bytes reads them as one number without its sign bit. */
  lemma FourBytes(a: byte, b: byte, c: byte, e: byte)
    ensures And(a, 0x7f) < 0x1_0000_0000
    ensures Or(Or(Or(Shl(And(a, 0x7f), 24), Shl(b, 16)), Shl(c, 8)), e) == Compose(a % 128, b, c, e)
  {
    SevenBits(a);
    Composed(a % 128, b, c, e);
  }

  method ReadFour(a: byte, b: byte, c: byte, e: byte) returns (binary: nat)
    ensures binary == Compose(a % 128, b, c, e)
  {
    FourBytes(a, b, c, e);
    binary := Or(Or(Or(Shl(And(a, 0x7f), 24), Shl(b, 16)), Shl(c, 8)), e);
  }

  method Truncate(d: Digest) returns (binary: nat)
    ensures Offset(d) + 3 < 20 && binary == BigEndian31(d, Offset(d)) && binary < 0x8000_0000
  {
    var o := And(d[19], 15);
    OffsetInBounds(d);
    binary := ReadFour(d[o], d[o + 1], d[o + 2], d[o + 3]);
  }

  function PadStart(s: string, n: nat): string
    decreases n - |s|
  {
    if |s| >= n then s else PadStart("0" + s, n)
  }

  lemma {:induction false} PadStartValue(s: string, n: nat)
    requires forall c | c in s :: IsDigit(c)
    ensures var p := PadStart(s, n);
            (forall c | c in p :: IsDigit(c)) && NatValue(p) == NatValue(s) && |p| == if |s| >= n then |s| else n
    decreases n - |s|
  {
    if |s| < n {
      LeadingZero(s);
      PadStartValue("0" + s, n);
    }
  }

  lemma {:induction false} LeadingZero(s: string)
    requires forall c | c in s :: IsDigit(c)
    ensures (forall c | c in "0" + s :: IsDigit(c)) && NatValue("0" + s) == NatValue(s)
  {
    var z := "0" + s;
    if s == "" {
      assert z[..0] == "";
    } else {
      assert z[..|z| - 1] == "0" + s[..|s| - 1];
      LeadingZero(s[..|s| - 1]);
    }
  }

  lemma {:induction false} PrintNatLength(n: nat, digits: nat, bound: nat)
    requires digits >= 1 && bound == Pow10(digits) && n < bound
    ensures |PrintNat(n)| <= digits
    decreases digits
  {
    if n >= 10 {
      PrintNatLength(n / 10, digits - 1, Pow10(digits - 1));
    }
  }

  function Pow10(n: nat): nat { if n == 0 then 1 else 10 * Pow10(n - 1) }

  ghost predicate IsCodeOf(code: string, d: Digest)
    requires Offset(d) + 3 < 20
  {
    |code| == 6 && (forall c | c in code :: IsDigit(c)) && NatValue(code) == BigEndian31(d, Offset(d)) % 1000000
  }

  /** Exactly six digits, whose value is the 31-bit big-endian number modulo a million. */
  method CodeOf(d: Digest) returns (code: string)
    ensures Offset(d) + 3 < 20 && IsCodeOf(code, d)
    ensures |code| == 6 && SixDigits(code) && NatValue(code) == BigEndian31(d, d[19] % 16) % 1000000
  {
    var binary := Truncate(d);
    OffsetInBounds(d);
    var n := binary % 1000000;
    assert Pow10(3) == 1000 && Pow10(6) == 1000000;
    PrintNatLength(n, 6, 1000000);
    NatRoundTrip(n);
    PadStartValue(PrintNat(n), 6);
    code := PadStart(PrintNat(n), 6);
  }

  // ------------------------------------------------------------ verification

  datatype Reason = Malformed | Mismatch | Replayed
  datatype Verification = Accepted(step: nat) | Refused(reason: Reason)

  lemma SixDigitsExactly(s: string)
    ensures SixDigits(s) <==> |s| == 6 && forall c | c in s :: 48 <= c as int <= 57
  {
  }

  /** Thirty seconds a step, and as many steps to either side as the window says. */
  lemma StepsExactly(nowMs: nat, step: nat, center: nat, window: nat)
    ensures CurrentStep(nowMs) == step <==> 30000 * step <= nowMs < 30000 * step + 30000
    ensures InWindow(step, center, window) <==> center as int - window <= step <= center + window
  {
  }

  predicate SixDigits(s: string) { |s| == 6 && forall c | c in s :: IsDigit(c) }

  function CurrentStep(nowMs: nat): nat { nowMs / (1000 * STEP_SECONDS) }

  predicate InWindow(step: nat, center: nat, window: nat) { center <= step + window && step <= center + window }

  /** `step` is the earliest step of the window whose code was presented. */
  ghost predicate FirstMatch(codeAt: nat -> string, code: string, center: nat, window: nat, step: nat)
  {
    && InWindow(step, center, window) && codeAt(step) == code
    && forall s: nat | s < step && InWindow(s, center, window) :: codeAt(s) != code
  }

  ghost predicate NoMatch(codeAt: nat -> string, code: string, center: nat, window: nat)
  {
    forall s: nat | InWindow(s, center, window) :: codeAt(s) != code
  }

  /** The whole meaning of one verification. */
  ghost predicate Verdict(codeAt: nat -> string, presented: string, last: Option<nat>, nowMs: nat, window: nat,
                          v: Verification)
  {
    var code, center := WithoutSpaces(presented), CurrentStep(nowMs);
    match v
    case Accepted(step) =>
      SixDigits(code) && FirstMatch(codeAt, code, center, window, step) && (last.Some? ==> last.value < step)
    case Refused(Malformed) => !SixDigits(code)
    case Refused(Mismatch) => SixDigits(code) && NoMatch(codeAt, code, center, window)
    case Refused(Replayed) =>
      SixDigits(code) && last.Some?
      && exists step: nat | step <= last.value :: FirstMatch(codeAt, code, center, window, step)
  }

  /** `codeAt(step)` is the code of the account's secret at a step. */
  method VerifyTotp(codeAt: nat -> string, presented: string, last: Option<nat>, nowMs: nat, window: nat)
    returns (v: Verification)
    ensures Verdict(codeAt, presented, last, nowMs, window, v)
  {
    var cleaned := WithoutSpaces(presented);
    if !SixDigits(cleaned) {
      return Refused(Malformed);
    }
    var center := CurrentStep(nowMs);
    for offset: int := -(window as int) to window + 1
      invariant forall s: nat | InWindow(s, center, window) && s < center + offset :: codeAt(s) != cleaned
    {
      var step := center + offset;
      if step >= 0 && codeAt(step) == cleaned {
        assert FirstMatch(codeAt, cleaned, center, window, step);
        if last.Some? && step <= last.value {
          return Refused(Replayed);
        }
        return Accepted(step);
      }
    }
    return Refused(Mismatch);
  }

  datatype Attempt = Attempt(presented: string, nowMs: nat, window: nat, outcome: Verification)

  function Persist(last: Option<nat>, v: Verification): Option<nat>
  {
    if v.Accepted? then Some(v.step) else last
  }

  /** A run of verifications by a caller that stores every accepted step. */
  ghost predicate Session(codeAt: nat -> string, last: Option<nat>, run: seq<Attempt>)
    decreases |run|
  {
    run == [] ||
    (Verdict(codeAt, run[0].presented, last, run[0].nowMs, run[0].window, run[0].outcome)
     && Session(codeAt, Persist(last, run[0].outcome), run[1..]))
  }

  /** Accepted steps exceed the stored step, strictly increase, and lie in the window of their time. */
  lemma {:induction false} StepsIncrease(codeAt: nat -> string, last: Option<nat>, run: seq<Attempt>)
    requires Session(codeAt, last, run)
    ensures forall i | 0 <= i < |run| && run[i].outcome.Accepted? ::
              && (last.Some? ==> last.value < run[i].outcome.step)
              && InWindow(run[i].outcome.step, CurrentStep(run[i].nowMs), run[i].window)
    ensures forall i, j | 0 <= i < j < |run| && run[i].outcome.Accepted? && run[j].outcome.Accepted? ::
              run[i].outcome.step < run[j].outcome.step
    decreases |run|
  {
    if run != [] {
      var next := Persist(last, run[0].outcome);
      StepsIncrease(codeAt, next, run[1..]);
      forall i | 0 <= i < |run| && run[i].outcome.Accepted?
        ensures (last.Some? ==> last.value < run[i].outcome.step)
                && InWindow(run[i].outcome.step, CurrentStep(run[i].nowMs), run[i].window)
      {
        if i > 0 { assert run[i] == run[1..][i - 1]; }
      }
      forall i, j | 0 <= i < j < |run| && run[i].outcome.Accepted? && run[j].outcome.Accepted?
        ensures run[i].outcome.step < run[j].outcome.step
      {
        assert run[j] == run[1..][j - 1];
        if i > 0 { assert run[i] == run[1..][i - 1]; }
      }
    }
  }

  /** A step that was accepted is not accepted again, at any time, with any window. */
  lemma CodeAcceptedOncePerStep(codeAt: nat -> string, last: Option<nat>, run: seq<Attempt>, i: nat, j: nat)
    requires Session(codeAt, last, run) && i < j < |run|
    requires run[i].outcome.Accepted? && run[j].outcome.Accepted?
    ensures run[i].outcome.step != run[j].outcome.step
  {
    StepsIncrease(codeAt, last, run);
  }
}
