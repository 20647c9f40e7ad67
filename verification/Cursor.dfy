/** The opaque keyset cursor: `<checksum-hex>.<payload-hex>`, the checksum an FNV-1a hash. */
module Cursor {
  import opened Wrappers
  import opened Sequences
  import opened Digits
  import Numeric

  // ---------- FNV-1a ----------------------------------------------------------------

  const FNV_OFFSET: nat := 0xcbf2_9ce4_8422_2325

  /** Bitwise exclusive-or of the low `width` bits. */
  function Xor(a: nat, b: nat, width: nat): (r: nat) {
    if width == 0 then 0 else 2 * Xor(a / 2, b / 2, width - 1) + (if a % 2 != b % 2 then 1 else 0)
  }

  /** One byte into a 64-bit hash: exclusive-or, then multiply modulo 2^64. */
  function Mix(h: nat, b: Byte): (r: nat)
    ensures r < 0x1_0000_0000_0000_0000
  {
    Xor(h, b, 64) * 0x0000_0100_0000_01b3 % 0x1_0000_0000_0000_0000
  }

  function FnvFrom(h: nat, bytes: seq<Byte>): (r: nat)
    ensures h < 0x1_0000_0000_0000_0000 ==> r < 0x1_0000_0000_0000_0000
    decreases |bytes|
  {
    if bytes == [] then h else FnvFrom(Mix(h, bytes[0]), bytes[1..])
  }

  function Fnv(bytes: seq<Byte>): (r: nat)
    ensures r < 0x1_0000_0000_0000_0000
  {
    FnvFrom(FNV_OFFSET, bytes)
  }

  method Fnv1a(bytes: seq<Byte>) returns (h: nat)
    ensures h == Fnv(bytes)
  {
    h := FNV_OFFSET;
    var i := 0;
    while i < |bytes|
      invariant i <= |bytes| && FnvFrom(h, bytes[i..]) == Fnv(bytes)
    {
      h := Mix(h, bytes[i]);
      i := i + 1;
    }
  }

  /** The published values of 64-bit FNV-1a for the empty string and for "a". */
  lemma PublishedValues()
    ensures Fnv([]) == 0xcbf2_9ce4_8422_2325 && Fnv([0x61]) == 0xaf63_dc4c_8601_ec8c
  {
    Mixed();
    hide Mix;
    assert [0x61 as Byte][1..] == [];
  }

  lemma Mixed()
    ensures Mix(FNV_OFFSET, 0x61) == 0xaf63_dc4c_8601_ec8c
  {
    Xored();
    hide Xor;
  }

  lemma Xored()
    ensures Xor(0xcbf2_9ce4_8422_2325, 0x61, 64) == 0xcbf2_9ce4_8422_2344
  {
    Room();
    hide Pow2;
    XorNothing(0x197e539c9084446, 57);
    assert Xor(0x32fca739210888c, 0x1, 58) == 0x32fca739210888d;
    assert Xor(0x65f94e724211119, 0x3, 59) == 0x65f94e72421111a;
    assert Xor(0xcbf29ce48422232, 0x6, 60) == 0xcbf29ce48422234;
    assert Xor(0x197e539c90844464, 0xc, 61) == 0x197e539c90844468;
    assert Xor(0x32fca739210888c9, 0x18, 62) == 0x32fca739210888d1;
    assert Xor(0x65f94e7242111192, 0x30, 63) == 0x65f94e72421111a2;
    assert Xor(0xcbf29ce484222325, 0x61, 64) == 0xcbf29ce484222344;
  }

  lemma Room()
    ensures Pow2(57) == 0x200_0000_0000_0000
  {
    assert Pow2(8) == 0x100;
    assert Pow2(16) == 0x1_0000;
    assert Pow2(24) == 0x100_0000;
    assert Pow2(32) == 0x1_0000_0000;
    assert Pow2(40) == 0x100_0000_0000;
    assert Pow2(48) == 0x1_0000_0000_0000;
  }

  lemma {:induction false} XorNothing(a: nat, width: nat)
    requires a < Pow2(width)
    ensures Xor(a, 0, width) == a
  {
    if width > 0 {
      XorNothing(a / 2, width - 1);
    }
  }

  function Pow2(n: nat): nat { if n == 0 then 1 else 2 * Pow2(n - 1) }

  lemma {:induction false} XorFits(a: nat, b: nat, width: nat)
    ensures Xor(a, b, width) < Pow2(width)
  {
    if width > 0 {
      XorFits(a / 2, b / 2, width - 1);
    }
  }

  lemma {:induction false} XorLosesNothing(a: nat, b: nat, c: nat, width: nat)
    requires a < Pow2(width) && b < Pow2(width) && c < Pow2(width)
    ensures Xor(a, c, width) == Xor(b, c, width) ==> a == b
    ensures Xor(c, a, width) == Xor(c, b, width) ==> a == b
  {
    if width > 0 {
      XorLosesNothing(a / 2, b / 2, c / 2, width - 1);
    }
  }

  /** The prime is odd, so it has an inverse modulo 2^64 and multiplying by it loses nothing. */
  lemma PrimeLosesNothing(d: int, q: int)
    requires d * 0x0000_0100_0000_01b3 == q * 0x1_0000_0000_0000_0000
    requires -0x1_0000_0000_0000_0000 < d < 0x1_0000_0000_0000_0000
    ensures d == 0
  {
    assert 0xce96_5057_aff6_957b * 0x0000_0100_0000_01b3 == 1 + 887285111055 * 0x1_0000_0000_0000_0000;
    assert d == (q * 0xce96_5057_aff6_957b - d * 887285111055) * 0x1_0000_0000_0000_0000;
  }

  lemma TimesPrimeLosesNothing(x: nat, y: nat)
    requires x < 0x1_0000_0000_0000_0000 && y < 0x1_0000_0000_0000_0000
    requires x * 0x0000_0100_0000_01b3 % 0x1_0000_0000_0000_0000 == y * 0x0000_0100_0000_01b3 % 0x1_0000_0000_0000_0000
    ensures x == y
  {
    var qx, qy := x * 0x0000_0100_0000_01b3 / 0x1_0000_0000_0000_0000, y * 0x0000_0100_0000_01b3 / 0x1_0000_0000_0000_0000;
    PrimeLosesNothing(x - y, qx - qy);
  }

  lemma WordSize()
    ensures Pow2(64) == 0x1_0000_0000_0000_0000
  {
    assert Pow2(8) == 0x100;
    assert Pow2(16) == 0x1_0000;
    assert Pow2(24) == 0x100_0000;
    assert Pow2(32) == 0x1_0000_0000;
    assert Pow2(40) == 0x100_0000_0000;
    assert Pow2(48) == 0x1_0000_0000_0000;
    assert Pow2(56) == 0x100_0000_0000_0000;
  }

  /** Each step is injective in the hash so far, and in the byte. */
  lemma MixLosesNothing(h: nat, k: nat, b: Byte, c: Byte)
    requires h < 0x1_0000_0000_0000_0000 && k < 0x1_0000_0000_0000_0000
    ensures Mix(h, b) == Mix(k, b) ==> h == k
    ensures Mix(h, b) == Mix(h, c) ==> b == c
  {
    hide Xor;
    WordSize();
    XorLosesNothing(h, k, b, 64);
    XorLosesNothing(b, c, h, 64);
    XorFits(h, b, 64);
    XorFits(h, c, 64);
    XorFits(k, b, 64);
    if Mix(h, b) == Mix(k, b) {
      TimesPrimeLosesNothing(Xor(h, b, 64), Xor(k, b, 64));
    }
    if Mix(h, b) == Mix(h, c) {
      TimesPrimeLosesNothing(Xor(h, b, 64), Xor(h, c, 64));
    }
  }

  /** Different hashes stay different over a common suffix. */
  lemma {:induction false} SuffixLosesNothing(h: nat, k: nat, bytes: seq<Byte>)
    requires h != k && h < 0x1_0000_0000_0000_0000 && k < 0x1_0000_0000_0000_0000
    decreases |bytes|
    ensures FnvFrom(h, bytes) != FnvFrom(k, bytes)
  {
    hide Mix;
    if bytes != [] {
      MixLosesNothing(h, k, bytes[0], bytes[0]);
      SuffixLosesNothing(Mix(h, bytes[0]), Mix(k, bytes[0]), bytes[1..]);
    }
  }

  lemma {:induction false} SubstitutionFrom(h: nat, bytes: seq<Byte>, i: nat, c: Byte)
    requires h < 0x1_0000_0000_0000_0000 && i < |bytes| && c != bytes[i]
    decreases |bytes|
    ensures FnvFrom(h, bytes[i := c]) != FnvFrom(h, bytes)
  {
    hide Mix;
    var changed := bytes[i := c];
    if i == 0 {
      MixLosesNothing(h, h, bytes[0], c);
      assert changed[1..] == bytes[1..];
      SuffixLosesNothing(Mix(h, c), Mix(h, bytes[0]), bytes[1..]);
    } else {
      assert changed[1..] == bytes[1..][i - 1 := c];
      SubstitutionFrom(Mix(h, bytes[0]), bytes[1..], i - 1, c);
    }
  }

  /** Changing any one byte changes the checksum. */
  lemma SubstitutionIsDetected(bytes: seq<Byte>, i: nat, c: Byte)
    requires i < |bytes| && c != bytes[i]
    ensures Fnv(bytes[i := c]) != Fnv(bytes)
  {
    SubstitutionFrom(FNV_OFFSET, bytes, i, c);
  }

  // ---------- hexadecimal -----------------------------------------------------------

  /** A hexadecimal digit of either case. */
  function HexDigit(c: char): Option<nat> {
    if '0' <= c <= '9' then Some(c as nat - '0' as nat)
    else if 'a' <= c <= 'f' then Some(c as nat - 'a' as nat + 10)
    else if 'A' <= c <= 'F' then Some(c as nat - 'A' as nat + 10)
    else None
  }

  /** Digits only, most significant first. */
  function HexValue(s: string): Option<nat> {
    if s == "" then Some(0)
    else match (HexValue(s[..|s| - 1]), HexDigit(s[|s| - 1]))
      case (Some(high), Some(low)) => Some(16 * high + low)
      case _ => None
  }

  /** The standard radix-16 parse: an optional `+`, at least one digit, within range. */
  function FromStrRadix(s: string, limit: nat): Option<nat> {
    var digits := if s != "" && s[0] == '+' then s[1..] else s;
    if digits == "" then None
    else match HexValue(digits)
      case None => None
      case Some(n) => if n < limit then Some(n) else None
  }

  /** Zero-padded lowercase digits. */
  function ToHex(n: nat, width: nat): (s: string)
    ensures |s| == width
  {
    if width == 0 then "" else ToHex(n / 16, width - 1) + [HexChar(n % 16)]
  }

  function Pow16(n: nat): nat { if n == 0 then 1 else 16 * Pow16(n - 1) }

  /** Every character is a digit the encoder writes. */
  predicate Lower(s: string) { forall i | 0 <= i < |s| :: '0' <= s[i] <= '9' || 'a' <= s[i] <= 'f' }

  lemma {:induction false} ToHexParses(n: nat, width: nat)
    requires n < Pow16(width)
    ensures HexValue(ToHex(n, width)) == Some(n)
    ensures Lower(ToHex(n, width))
  {
    if width > 0 {
      assert n / 16 < Pow16(width - 1) by {
        assert Pow16(width) == 16 * Pow16(width - 1);
      }
      ToHexParses(n / 16, width - 1);
      assert ToHex(n, width)[..width - 1] == ToHex(n / 16, width - 1);
    }
  }

  function HexOf(bytes: seq<Byte>): (s: string)
    ensures |s| == 2 * |bytes|
  {
    if bytes == [] then "" else ToHex(bytes[0], 2) + HexOf(bytes[1..])
  }

  /** The other decoders' fallback is the same text, so it is read back too. */
  lemma {:induction false} FallbackIsHex(bytes: seq<Byte>)
    ensures Numeric.Hex(bytes) == HexOf(bytes)
  {
    if bytes != [] {
      FallbackIsHex(bytes[1..]);
      var n := bytes[0] as int;
      assert ToHex(n, 2) == ToHex(n / 16, 1) + [HexChar(n % 16)];
      assert ToHex(n / 16, 1) == ToHex(n / 16 / 16, 0) + [HexChar(n / 16 % 16)];
    }
  }

  method Hex(bytes: seq<Byte>) returns (s: string)
    ensures s == HexOf(bytes)
  {
    s := "";
    var i := 0;
    while i < |bytes|
      invariant i <= |bytes| && s + HexOf(bytes[i..]) == HexOf(bytes)
    {
      s := s + ToHex(bytes[i], 2);
      i := i + 1;
    }
  }

  function PairByte(pair: string): Option<Byte> {
    match FromStrRadix(pair, 256)
    case None => None
    case Some(n) => Some(n)
  }

  /** Two characters at a time. */
  function Unhex(s: string): Option<seq<Byte>> {
    if |s| % 2 == 1 then None
    else if s == "" then Some([])
    else match (PairByte(s[..2]), Unhex(s[2..]))
      case (Some(b), Some(rest)) => Some([b] + rest)
      case _ => None
  }

  lemma HexPair(b: Byte)
    ensures PairByte(ToHex(b, 2)) == Some(b)
    ensures Lower(ToHex(b, 2))
  {
    assert Pow16(2) == 256;
    ToHexParses(b, 2);
  }

  lemma LowerConcat(a: string, b: string)
    ensures Lower(a) && Lower(b) ==> Lower(a + b)
    ensures Lower("")
  {
  }

  lemma {:induction false} HexRoundTrip(bytes: seq<Byte>)
    ensures Unhex(HexOf(bytes)) == Some(bytes)
    ensures Lower(HexOf(bytes))
  {
    hide PairByte, ToHex, Lower;
    LowerConcat("", "");
    if bytes != [] {
      HexPair(bytes[0]);
      HexRoundTrip(bytes[1..]);
      var s := HexOf(bytes);
      assert s[..2] == ToHex(bytes[0], 2) && s[2..] == HexOf(bytes[1..]);
      assert bytes == [bytes[0]] + bytes[1..];
      assert |s| % 2 == 0;
      LowerConcat(s[..2], s[2..]);
      assert s == s[..2] + s[2..];
    }
  }

  // ---------- the cursor ------------------------------------------------------------

  datatype Json =
    | Null | Bool(b: bool) | Number(text: string) | Text(s: string)
    | Array(items: seq<Json>) | Object(fields: seq<(string, Json)>)

  /** The JSON text codec, taken as given. */
  datatype Codec = Codec(render: Json -> seq<Byte>, parse: seq<Byte> -> Option<Json>) {
    ghost predicate Lossless() {
      forall json :: parse(render(json)) == Some(json)
    }
  }

  datatype CursorError = MalformedCursor | MalformedChecksum | MalformedPayload | FailedIntegrity | ArityMismatch
  datatype Decoded = Ok(values: seq<Json>) | Err(error: CursorError)

  function Encode(codec: Codec, values: seq<Json>): string {
    var payload := codec.render(Array(values));
    ToHex(Fnv(payload), 16) + "." + HexOf(payload)
  }

  function Decode(codec: Codec, s: string, n: nat): Decoded {
    var at := IndexOf(s, '.');
    if at == |s| then Err(MalformedCursor)
    else match FromStrRadix(s[..at], 0x1_0000_0000_0000_0000)
      case None => Err(MalformedChecksum)
      case Some(sum) =>
        match Unhex(s[at + 1..])
        case None => Err(MalformedPayload)
        case Some(payload) => Check(codec, sum, payload, n)
  }

  function Check(codec: Codec, sum: nat, payload: seq<Byte>, n: nat): Decoded {
    if Fnv(payload) != sum then Err(FailedIntegrity)
    else match codec.parse(payload)
      case None => Err(MalformedPayload)
      case Some(Array(values)) => if |values| != n then Err(ArityMismatch) else Ok(values)
      case Some(_) => Err(MalformedPayload)
  }

  lemma ChecksumParses(h: nat)
    requires h < 0x1_0000_0000_0000_0000
    ensures FromStrRadix(ToHex(h, 16), 0x1_0000_0000_0000_0000) == Some(h)
    ensures Lower(ToHex(h, 16))
  {
    assert Pow16(4) == 0x1_0000;
    assert Pow16(8) == 0x1_0000_0000;
    assert Pow16(12) == 0x1_0000_0000_0000;
    assert Pow16(16) == 0x1_0000_0000_0000_0000;
    ToHexParses(h, 16);
  }

  /** Cursors read back as the values they were made from. */
  lemma RoundTrip(codec: Codec, values: seq<Json>)
    requires codec.Lossless()
    ensures Decode(codec, Encode(codec, values), |values|) == Ok(values)
  {
    hide Fnv, FromStrRadix, Unhex, HexOf, ToHex;
    var payload := codec.render(Array(values));
    var sum := ToHex(Fnv(payload), 16);
    ChecksumParses(Fnv(payload));
    HexRoundTrip(payload);
    IndexOfAfter(sum, '.', HexOf(payload));
    var s := Encode(codec, values);
    assert s[..16] == sum && s[17..] == HexOf(payload);
  }

  /** An accepted cursor's checksum is that of its payload. */
  lemma AcceptedIsChecked(codec: Codec, s: string, n: nat)
    requires Decode(codec, s, n).Ok?
    ensures var at := IndexOf(s, '.');
            at < |s| && Unhex(s[at + 1..]).Some? && |Decode(codec, s, n).values| == n
            && FromStrRadix(s[..at], 0x1_0000_0000_0000_0000) == Some(Fnv(Unhex(s[at + 1..]).value))
  {
  }

  // ---------- one changed character -------------------------------------------------

  /** Two characters that spell the same digit in their place: either case, or a `+` for a zero
      in the leading place. */
  predicate SameDigit(a: char, b: char, leading: bool) {
    (HexDigit(a).Some? && HexDigit(a) == HexDigit(b)) || (leading && a == '0' && b == '+')
  }

  lemma {:induction false} UnhexChanged(bytes: seq<Byte>, j: nat, c: char)
    requires j < 2 * |bytes|
    ensures var pair := ToHex(bytes[j / 2], 2)[j % 2 := c];
            Unhex(HexOf(bytes)[j := c]) == match PairByte(pair) case None => None case Some(b) => Some(bytes[j / 2 := b])
  {
    hide PairByte, ToHex, Unhex;
    var first, rest := ToHex(bytes[0], 2), HexOf(bytes[1..]);
    var t := HexOf(bytes)[j := c];
    assert HexOf(bytes) == first + rest;
    if j < 2 {
      SetLeft(first, rest, j, c);
      HexRoundTrip(bytes[1..]);
      UnhexPair(first[j := c], rest);
      SetFirst(bytes, PairByte(first[j := c]));
    } else {
      SetRight(first, rest, j - 2, c);
      HexPair(bytes[0]);
      UnhexChanged(bytes[1..], j - 2, c);
      assert bytes[1..][(j - 2) / 2] == bytes[j / 2];
      UnhexAfter(bytes[0], rest[j - 2 := c]);
      SetLater(bytes, j / 2, PairByte(ToHex(bytes[j / 2], 2)[j % 2 := c]));
    }
  }

  lemma SetLeft(a: string, b: string, i: nat, c: char)
    requires i < |a|
    ensures (a + b)[i := c] == a[i := c] + b
  {
  }

  lemma SetRight(a: string, b: string, i: nat, c: char)
    requires i < |b|
    ensures (a + b)[|a| + i := c] == a + b[i := c]
  {
  }

  lemma SetFirst(bytes: seq<Byte>, b: Option<Byte>)
    requires bytes != []
    ensures b.Some? ==> [b.value] + bytes[1..] == bytes[0 := b.value]
  {
  }

  lemma SetLater(bytes: seq<Byte>, i: nat, b: Option<Byte>)
    requires 0 < i < |bytes|
    ensures b.Some? ==> [bytes[0]] + bytes[1..][i - 1 := b.value] == bytes[i := b.value]
  {
  }

  lemma UnhexPair(pair: string, s: string)
    requires |pair| == 2 && |s| % 2 == 0
    ensures Unhex(pair + s) == match (PairByte(pair), Unhex(s))
                               case (Some(b), Some(rest)) => Some([b] + rest)
                               case _ => None
  {
    hide PairByte;
    Splits(pair, s);
  }

  lemma UnhexAfter(b: Byte, s: string)
    requires |s| % 2 == 0
    ensures Unhex(ToHex(b, 2) + s) == match Unhex(s) case None => None case Some(rest) => Some([b] + rest)
  {
    hide PairByte, ToHex, Unhex;
    HexPair(b);
    UnhexPair(ToHex(b, 2), s);
  }

  /** A pair with one character replaced still spells the byte exactly when the character spells
      the same digit. */
  lemma PairChanged(b: Byte, i: nat, c: char)
    requires i < 2
    ensures var pair := ToHex(b, 2);
            PairByte(pair[i := c]) == Some(b) <==> SameDigit(pair[i], c, i == 0)
  {
    hide FromStrRadix, ToHex;
    var pair := ToHex(b, 2);
    TwoDigits(b);
    var t := pair[i := c];
    PairValue(t);
    DigitOfChar(b / 16);
    DigitOfChar(b % 16);
  }

  lemma TwoDigits(n: nat)
    requires n < 256
    ensures ToHex(n, 2) == [HexChar(n / 16), HexChar(n % 16)]
  {
    assert n / 16 < 16 && n / 16 % 16 == n / 16;
    assert ToHex(n / 16, 1) == ToHex(n / 16 / 16, 0) + [HexChar(n / 16 % 16)];
  }

  lemma DigitOfChar(n: nat)
    requires n < 16
    ensures HexDigit(HexChar(n)) == Some(n) && (HexChar(n) == '0' <==> n == 0)
  {
  }

  lemma PairValue(t: string)
    requires |t| == 2
    ensures FromStrRadix(t, 256) ==
            if t[0] == '+' then HexDigit(t[1])
            else if HexDigit(t[0]).Some? && HexDigit(t[1]).Some? then Some(16 * HexDigit(t[0]).value + HexDigit(t[1]).value)
            else None
  {
    assert t[1..] == [t[1]] && t[..1] == [t[0]] && t[1..][..0] == "" && t[..1][..0] == "";
    assert HexValue(t[1..]) == HexDigit(t[1]);
    assert HexValue(t[..1]) == HexDigit(t[0]);
  }

  /** Changing one payload character is accepted exactly when it spells the same digit; otherwise
      the cursor is rejected. */
  lemma ChangedPayload(codec: Codec, values: seq<Json>, j: nat, c: char)
    requires codec.Lossless() && 17 <= j < |Encode(codec, values)|
    ensures var s := Encode(codec, values);
            if SameDigit(s[j], c, j % 2 == 1)
            then Decode(codec, s[j := c], |values|) == Ok(values)
            else Decode(codec, s[j := c], |values|) in [Err(MalformedPayload), Err(FailedIntegrity)]
  {
    hide Fnv, FromStrRadix, Unhex, HexOf, ToHex, PairByte;
    var payload := codec.render(Array(values));
    var sum := ToHex(Fnv(payload), 16);
    var s := Encode(codec, values);
    var k := j - 17;
    ChecksumParses(Fnv(payload));
    assert s == sum + "." + HexOf(payload);
    var t := s[j := c];
    assert t == sum + "." + HexOf(payload)[k := c];
    IndexOfAfter(sum, '.', HexOf(payload)[k := c]);
    assert t[..16] == sum && t[17..] == HexOf(payload)[k := c];
    UnhexChanged(payload, k, c);
    PairChanged(payload[k / 2], k % 2, c);
    CharOfHex(payload, k);
    var pair := ToHex(payload[k / 2], 2)[k % 2 := c];
    if PairByte(pair).Some? {
      var b := PairByte(pair).value;
      if b == payload[k / 2] {
        assert payload[k / 2 := b] == payload;
      } else {
        SubstitutionIsDetected(payload, k / 2, b);
      }
    }
  }

  lemma {:induction false} CharOfHex(bytes: seq<Byte>, j: nat)
    requires j < 2 * |bytes|
    ensures HexOf(bytes)[j] == ToHex(bytes[j / 2], 2)[j % 2]
  {
    hide ToHex;
    if j >= 2 {
      CharOfHex(bytes[1..], j - 2);
      assert HexOf(bytes)[j] == HexOf(bytes[1..])[j - 2] && bytes[1..][(j - 2) / 2] == bytes[j / 2];
    }
  }

  // ---------- one changed checksum character ----------------------------------------

  /** The digits with one replaced have a value exactly when the replacement is a digit, and the
      same value exactly when it is the same digit. */
  lemma {:induction false} HexValueChanged(s: string, j: nat, c: char)
    requires j < |s| && HexValue(s).Some?
    ensures HexDigit(s[j]).Some?
    ensures HexValue(s[j := c]).Some? <==> HexDigit(c).Some?
    ensures HexValue(s[j := c]) == HexValue(s) <==> HexDigit(c) == HexDigit(s[j])
  {
    var n := |s| - 1;
    var t := s[j := c];
    if j == n {
      assert t[..n] == s[..n];
    } else {
      assert t[..n] == s[..n][j := c];
      HexValueChanged(s[..n], j, c);
    }
  }

  lemma {:induction false} LeadingDigit(s: string)
    requires s != "" && HexValue(s).Some?
    ensures HexDigit(s[0]).Some? && HexValue(s[1..]).Some?
    ensures HexValue(s) == HexValue(s[1..]) <==> HexDigit(s[0]) == Some(0)
    ensures HexValue(s).value >= HexValue(s[1..]).value
  {
    var n := |s| - 1;
    if n > 0 {
      LeadingDigit(s[..n]);
      assert s[1..][..n - 1] == s[..n][1..];
      assert s[1..][n - 1] == s[n];
    }
  }

  lemma {:induction false} UnhexRejectsDot(s: string, i: nat)
    requires i < |s| && s[i] == '.'
    ensures Unhex(s).None?
    decreases |s|
  {
    hide FromStrRadix;
    if |s| % 2 == 0 {
      if i < 2 {
        PairValue(s[..2]);
      } else {
        UnhexRejectsDot(s[2..], i - 2);
      }
    }
  }

  lemma NoPlus(s: string)
    requires Lower(s) && s != ""
    ensures s[0] != '+'
  {
  }

  lemma ChecksumChanged(h: nat, j: nat, c: char)
    requires h < 0x1_0000_0000_0000_0000 && j < 16
    ensures FromStrRadix(ToHex(h, 16)[j := c], 0x1_0000_0000_0000_0000) == Some(h) <==> SameDigit(ToHex(h, 16)[j], c, j == 0)
  {
    ChecksumParses(h);
    hide ToHex, HexValue, HexDigit;
    var s := ToHex(h, 16);
    var t := s[j := c];
    NoPlus(s);
    HexValueChanged(s, j, c);
    if j == 0 && c == '+' {
      assert t[1..] == s[1..];
      LeadingDigit(s);
      assert HexDigit(s[0]) == Some(0) <==> s[0] == '0';
    }
  }

  /** Changing one checksum character is accepted exactly when it spells the same digit; otherwise
      the cursor is rejected. */
  lemma ChangedChecksum(codec: Codec, values: seq<Json>, j: nat, c: char)
    requires codec.Lossless() && j < 16
    ensures var s := Encode(codec, values);
            if SameDigit(s[j], c, j == 0)
            then Decode(codec, s[j := c], |values|) == Ok(values)
            else Decode(codec, s[j := c], |values|).Err?
  {
    hide Fnv, FromStrRadix, Unhex, HexOf, ToHex, HexDigit;
    var payload := codec.render(Array(values));
    var sum := ToHex(Fnv(payload), 16);
    var s := Encode(codec, values);
    assert s == sum + "." + HexOf(payload);
    var t := s[j := c];
    assert t == sum[j := c] + "." + HexOf(payload);
    ChecksumParses(Fnv(payload));
    ChecksumChanged(Fnv(payload), j, c);
    HexRoundTrip(payload);
    if c == '.' {
      assert sum[j := c] == sum[..j] + "." + sum[j + 1..];
      assert t == sum[..j] + "." + (sum[j + 1..] + "." + HexOf(payload));
      IndexOfAfter(sum[..j], '.', sum[j + 1..] + "." + HexOf(payload));
      assert t[j + 1..] == sum[j + 1..] + "." + HexOf(payload);
      UnhexRejectsDot(t[j + 1..], 15 - j);
      DotIsNoDigit();
    } else {
      IndexOfAfter(sum[j := c], '.', HexOf(payload));
      assert t[..16] == sum[j := c] && t[17..] == HexOf(payload);
    }
  }

  lemma DotIsNoDigit()
    ensures HexDigit('.').None?
  {
  }
}
