/**
  The base32 codec of the one-time-password secrets. Both loops shift an accumulator that is never
  masked, on JavaScript's 32-bit integers: bits fall off its top. The unsigned value of the accumulator
  is modelled, so `<<` wraps modulo 2^32, `>>>` divides, and `|` adds a number below the shift.
  */
module Base32 {
  type Byte = x: int | 0 <= x < 256
  datatype Bits = Empty | Snoc(front: Bits, last: bool)

  const WORD := 0x1_0000_0000
  const ALPHABET := "ABCDEFGHIJKLMNOPQRSTUVWXYZ234567"

  function Pow2(n: nat): (r: nat)
    ensures r > 0
  {
    if n == 0 then 1 else 2 * Pow2(n - 1)
  }

  function Shl(value: int, n: nat): int {
    value * Pow2(n) % WORD
  }

  function Shr(value: int, n: nat): int {
    value / Pow2(n)
  }

  // ---- Numbers as bits -------------------------------------------------------------------------

  function Length(b: Bits): nat {
    match b case Empty => 0 case Snoc(front, _) => Length(front) + 1
  }

  function Cat(a: Bits, b: Bits): Bits {
    match b case Empty => a case Snoc(front, last) => Snoc(Cat(a, front), last)
  }

  lemma {:induction false} CatLength(a: Bits, b: Bits)
    ensures Length(Cat(a, b)) == Length(a) + Length(b)
  {
    if b.Snoc? { CatLength(a, b.front); }
  }

  lemma {:induction false} CatAssoc(a: Bits, b: Bits, c: Bits)
    ensures Cat(Cat(a, b), c) == Cat(a, Cat(b, c))
  {
    if c.Snoc? { CatAssoc(a, b, c.front); }
  }

  lemma {:induction false} SplitEqual(a: Bits, b: Bits, c: Bits, d: Bits)
    requires Cat(a, b) == Cat(c, d) && Length(b) == Length(d)
    ensures a == c && b == d
  {
    if b.Snoc? { SplitEqual(a, b.front, c, d.front); }
  }

  /** The `n` low bits of a number, highest first. */
  ghost function LowBits(value: int, n: nat): Bits
    decreases n
  {
    if n == 0 then Empty else Snoc(LowBits(value / 2, n - 1), value % 2 == 1)
  }

  lemma {:induction false} LowBitsLength(value: int, n: nat)
    ensures Length(LowBits(value, n)) == n
    decreases n
  {
    if n > 0 { LowBitsLength(value / 2, n - 1); }
  }

  ghost function Zeros(n: nat): Bits {
    if n == 0 then Empty else Snoc(Zeros(n - 1), false)
  }

  lemma {:induction false} ShiftedIn(value: int, n: nat, low: int, k: nat)
    requires 0 <= low < Pow2(k)
    ensures LowBits(value * Pow2(k) + low, n + k) == Cat(LowBits(value, n), LowBits(low, k))
    decreases k
  {
    if k > 0 {
      Halved(value, Pow2(k - 1), low);
      ShiftedIn(value, n, low / 2, k - 1);
    }
  }

  lemma Halved(value: int, half: int, low: int)
    ensures (value * (2 * half) + low) / 2 == value * half + low / 2
    ensures (value * (2 * half) + low) % 2 == low % 2
  {
    assert value * (2 * half) == 2 * (value * half);
  }

  lemma {:induction false} ZeroBits(k: nat)
    ensures LowBits(0, k) == Zeros(k)
  {
    if k > 0 { ZeroBits(k - 1); }
  }

  /** Bits that fall off the top do not matter below it. */
  lemma {:induction false} TopFallsOff(value: int, m: nat, n: nat)
    requires n <= m
    ensures LowBits(value % Pow2(m), n) == LowBits(value, n)
    decreases n
  {
    if n > 0 {
      var half := Pow2(m - 1);
      var q, r := value / Pow2(m), value % Pow2(m);
      assert value == q * (2 * half) + r;
      Halved(q, half, r);
      DivModIs(q, half, r / 2);
      TopFallsOff(value / 2, m - 1, n - 1);
    }
  }

  lemma AtLeastOne(k: int, d: int)
    requires k >= 1 && d > 0
    ensures k * d >= d
  {
    assert k * d == (k - 1) * d + d;
  }

  lemma DivModIs(q: int, d: int, r: int)
    requires 0 <= r < d
    ensures (q * d + r) % d == r && (q * d + r) / d == q
  {
    var x := q * d + r;
    var k := x / d - q;
    assert x == (x / d) * d + x % d;
    assert (x / d) * d == q * d + k * d;
    if k >= 1 { AtLeastOne(k, d); } else if k <= -1 { AtLeastOne(-k, d); }
  }

  /** The high bits of a window are the low bits of the shifted number. */
  lemma {:induction false} HighBits(value: int, n: nat, k: nat)
    ensures LowBits(value, n + k) == Cat(LowBits(Shr(value, k), n), LowBits(value, k))
    decreases k
  {
    if k > 0 {
      HighBits(value / 2, n, k - 1);
      assert value / 2 / Pow2(k - 1) == value / (2 * Pow2(k - 1)) by { DivDiv(value, Pow2(k - 1)); }
    }
  }

  lemma DivDiv(value: int, d: int)
    requires d > 0
    ensures value / 2 / d == value / (2 * d)
  {
    var h, b := value / 2, value % 2;
    var q, r := h / d, h % d;
    assert value == 2 * h + b && h == q * d + r;
    assert value == q * (2 * d) + (2 * r + b);
    DivModIs(q, 2 * d, 2 * r + b);
  }

  lemma {:induction false} BitsInjective(a: int, b: int, n: nat)
    requires 0 <= a < Pow2(n) && 0 <= b < Pow2(n)
    requires LowBits(a, n) == LowBits(b, n)
    ensures a == b
    decreases n
  {
    if n > 0 {
      BitsInjective(a / 2, b / 2, n - 1);
    }
  }

  // ---- Bytes and text as bits ------------------------------------------------------------------

  /** Eight bits per byte. */
  ghost function ByteBits(bytes: seq<Byte>): Bits {
    if bytes == [] then Empty else Cat(ByteBits(bytes[..|bytes|-1]), LowBits(bytes[|bytes|-1], 8))
  }

  predicate InAlphabet(c: char) {
    'A' <= c <= 'Z' || '2' <= c <= '7'
  }

  /** Position in the alphabet of section 6 of RFC 4648. */
  function Index(c: char): (r: int)
    requires InAlphabet(c)
    ensures 0 <= r < 32 && ALPHABET[r] == c
  {
    if c <= '7' then c as int - '2' as int + 26 else c as int - 'A' as int
  }

  predicate Spelled(text: string) {
    forall k :: 0 <= k < |text| ==> InAlphabet(text[k])
  }

  /** Five bits per character. */
  ghost function TextBits(text: string): Bits
    requires Spelled(text)
  {
    if text == [] then Empty else Cat(TextBits(text[..|text|-1]), LowBits(Index(text[|text|-1]), 5))
  }

  lemma {:induction false} ByteBitsInjective(a: seq<Byte>, b: seq<Byte>)
    requires |a| == |b| && ByteBits(a) == ByteBits(b)
    ensures a == b
  {
    if a != [] {
      var m := |a| - 1;
      LowBitsLength(a[m], 8);
      LowBitsLength(b[m], 8);
      SplitEqual(ByteBits(a[..m]), LowBits(a[m], 8), ByteBits(b[..m]), LowBits(b[m], 8));
      PowersUsed();
      BitsInjective(a[m], b[m], 8);
      ByteBitsInjective(a[..m], b[..m]);
      assert a == a[..m] + [a[m]] && b == b[..m] + [b[m]];
    }
  }

  lemma {:induction false} TextBitsInjective(a: string, b: string)
    requires Spelled(a) && Spelled(b) && |a| == |b| && TextBits(a) == TextBits(b)
    ensures a == b
  {
    if a != [] {
      var m := |a| - 1;
      LowBitsLength(Index(a[m]), 5);
      LowBitsLength(Index(b[m]), 5);
      SplitEqual(TextBits(a[..m]), LowBits(Index(a[m]), 5), TextBits(b[..m]), LowBits(Index(b[m]), 5));
      PowersUsed();
      BitsInjective(Index(a[m]), Index(b[m]), 5);
      TextBitsInjective(a[..m], b[..m]);
      assert a == a[..m] + [a[m]] && b == b[..m] + [b[m]];
    }
  }

  lemma AlphabetAt(i: int)
    requires 0 <= i < 32
    ensures InAlphabet(ALPHABET[i]) && Index(ALPHABET[i]) == i
  {
  }

  // ---- Encoding --------------------------------------------------------------------------------

  /** The unpadded base32 form of section 6 of RFC 4648: the bits in fives, the last group filled with zeros. */
  ghost predicate IsBase32(text: string, bytes: seq<Byte>) {
    && Spelled(text) && 0 <= 5 * |text| - 8 * |bytes| < 5
    && TextBits(text) == Cat(ByteBits(bytes), Zeros(5 * |text| - 8 * |bytes|))
  }

  /** There is only one such text. */
  lemma OneText(a: string, b: string, bytes: seq<Byte>)
    requires IsBase32(a, bytes) && IsBase32(b, bytes)
    ensures a == b
  {
    TextBitsInjective(a, b);
  }

  /** The accumulator `value` holds `bits` bits not written yet. */
  ghost predicate Encoding(text: string, value: int, bits: nat, read: seq<Byte>) {
    && Spelled(text) && 5 * |text| + bits == 8 * |read|
    && Cat(TextBits(text), LowBits(value, bits)) == ByteBits(read)
  }

  lemma Wrapped(value: int, n: nat)
    requires n <= 32
    ensures LowBits(value % WORD, n) == LowBits(value, n)
  {
    WordIsPow2();
    TopFallsOff(value, 32, n);
  }

  lemma WordIsPow2()
    ensures Pow2(32) == WORD
  {
    PowersUsed();
    PowAdd(8, 8);
    PowAdd(16, 16);
  }

  lemma {:induction false} PowAdd(a: nat, b: nat)
    ensures Pow2(a + b) == Pow2(a) * Pow2(b)
    decreases a
  {
    if a > 0 { PowAdd(a - 1, b); }
  }

  /** Reading `k` bits below `low` into the accumulator. */
  lemma ReadIn(value: int, bits: nat, low: int, k: nat)
    requires 0 <= low < Pow2(k) && bits + k <= 32
    ensures LowBits(Shl(value, k) + low, bits + k) == Cat(LowBits(value, bits), LowBits(low, k))
    decreases k
  {
    var whole := value * Pow2(k) + low;
    ShiftedIn(value, bits, low, k);
    Wrapped(whole, bits + k);
    Congruent(value * Pow2(k), low);
    Wrapped(Shl(value, k) + low, bits + k);
  }

  lemma Congruent(a: int, low: int)
    ensures (a % WORD + low) % WORD == (a + low) % WORD
  {
  }

  /** `value << k | low`, for `low` below the shift: the bits of `low` follow those already pending. */
  method ShiftIn(value: int, ghost bits: nat, low: int, k: nat) returns (shifted: int)
    requires 0 <= low < Pow2(k) && bits + k <= 32
    ensures LowBits(shifted, bits + k) == Cat(LowBits(value, bits), LowBits(low, k))
  {
    ReadIn(value, bits, low, k);
    shifted := Shl(value, k) + low;
  }

  /** `(value >>> (bits - k)) & (2^k - 1)`: the first `k` pending bits. */
  method TakeHigh(value: int, bits: nat, k: nat) returns (high: int)
    requires k <= bits
    ensures 0 <= high < Pow2(k)
    ensures LowBits(value, bits) == Cat(LowBits(high, k), LowBits(value, bits - k))
  {
    HighBits(value, k, bits - k);
    TopFallsOff(Shr(value, bits - k), k, k);
    high := Shr(value, bits - k) % Pow2(k);
  }

  lemma PowersUsed()
    ensures Pow2(5) == 32 && Pow2(8) == 256
  {
  }

  lemma OneMoreByte(read: seq<Byte>, byte: Byte)
    ensures ByteBits(read + [byte]) == Cat(ByteBits(read), LowBits(byte, 8))
  {
    assert (read + [byte])[..|read|] == read;
  }

  lemma OneMoreChar(text: string, c: char)
    requires Spelled(text) && InAlphabet(c)
    ensures Spelled(text + [c]) && TextBits(text + [c]) == Cat(TextBits(text), LowBits(Index(c), 5))
  {
    assert (text + [c])[..|text|] == text;
  }

  method WriteChar(text0: string, value: int, bits: nat, ghost read: seq<Byte>) returns (text: string)
    requires Encoding(text0, value, bits, read) && bits >= 5
    ensures Encoding(text, value, bits - 5, read)
  {
    PowersUsed();
    var high := TakeHigh(value, bits, 5);
    AlphabetAt(high);
    text := text0 + [ALPHABET[high]];
    OneMoreChar(text0, ALPHABET[high]);
    CatAssoc(TextBits(text0), LowBits(high, 5), LowBits(value, bits - 5));
  }

  lemma LastWritten(text: string, value: int, bits: nat, read: seq<Byte>, c: char)
    requires Encoding(text, value, bits, read) && 0 < bits < 5 && InAlphabet(c)
    requires LowBits(Index(c), 5) == Cat(LowBits(value, bits), Zeros(5 - bits))
    ensures IsBase32(text + [c], read)
  {
    OneMoreChar(text, c);
    CatAssoc(TextBits(text), LowBits(value, bits), Zeros(5 - bits));
  }

  /** The last character: what is left, shifted up so that zeros fill it. */
  method WriteLast(text0: string, value: int, bits: nat, ghost read: seq<Byte>) returns (text: string)
    requires Encoding(text0, value, bits, read) && 0 < bits < 5
    ensures IsBase32(text, read)
  {
    PowersUsed();
    var shifted := ShiftIn(value, bits, 0, 5 - bits);
    ZeroBits(5 - bits);
    var low := TakeHigh(shifted, 5, 5);
    AlphabetAt(low);
    text := text0 + [ALPHABET[low]];
    LastWritten(text0, value, bits, read, ALPHABET[low]);
  }

  lemma NoneLeft(text: string, value: int, read: seq<Byte>)
    requires Encoding(text, value, 0, read)
    ensures IsBase32(text, read)
  {
  }

  method ReadByte(ghost text: string, value: int, bits: nat, ghost read: seq<Byte>, byte: Byte) returns (shifted: int)
    requires Encoding(text, value, bits, read) && bits < 5
    ensures Encoding(text, shifted, bits + 8, read + [byte])
  {
    PowersUsed();
    shifted := ShiftIn(value, bits, byte, 8);
    OneMoreByte(read, byte);
    CatAssoc(TextBits(text), LowBits(value, bits), LowBits(byte, 8));
  }

  lemma NothingRead()
    ensures Encoding("", 0, 0, []) && Decoding("", 0, 0, [])
  {
  }

  method Encode(buffer: seq<Byte>) returns (output: string)
    ensures IsBase32(output, buffer)
  {
    var bits, value := 0, 0;
    output := "";
    NothingRead();
    for i := 0 to |buffer|
      invariant 0 <= bits < 5 && Encoding(output, value, bits, buffer[..i])
    {
      assert buffer[..i+1] == buffer[..i] + [buffer[i]];
      value := ReadByte(output, value, bits, buffer[..i], buffer[i]);
      bits := bits + 8;
      while bits >= 5
        invariant 0 <= bits && Encoding(output, value, bits, buffer[..i+1])
      {
        output := WriteChar(output, value, bits, buffer[..i+1]);
        bits := bits - 5;
      }
    }
    assert buffer[..|buffer|] == buffer;
    if bits > 0 {
      output := WriteLast(output, value, bits, buffer);
    } else {
      NoneLeft(output, value, buffer);
    }
  }

  // ---- Decoding --------------------------------------------------------------------------------

  /** The bits without the last `n`. */
  function Drop(b: Bits, n: nat): Bits {
    if n == 0 || b.Empty? then b else Drop(b.front, n - 1)
  }

  lemma {:induction false} DropRest(a: Bits, rest: Bits)
    ensures Drop(Cat(a, rest), Length(rest)) == a
  {
    if rest.Snoc? { DropRest(a, rest.front); }
  }

  /** `bytes` are the whole bytes in the bits of `text`; fewer than eight bits are left over. */
  ghost predicate Reads(text: string, bytes: seq<Byte>) {
    && Spelled(text) && 0 <= 5 * |text| - 8 * |bytes| < 8
    && Drop(TextBits(text), 5 * |text| - 8 * |bytes|) == ByteBits(bytes)
  }

  /** What is kept of a text: upper-cased, without anything outside the alphabet. */
  function Clean(encoded: string, upper: char -> string): string {
    if encoded == "" then ""
    else Clean(encoded[..|encoded|-1], upper) + Letters(upper(encoded[|encoded|-1]))
  }

  function Letters(s: string): (r: string)
    ensures forall k :: 0 <= k < |r| ==> InAlphabet(r[k])
  {
    if s == "" then ""
    else Letters(s[..|s|-1]) + if InAlphabet(s[|s|-1]) then [s[|s|-1]] else []
  }

  lemma {:induction false} CleanIsInAlphabet(encoded: string, upper: char -> string)
    ensures Spelled(Clean(encoded, upper))
  {
    if encoded != "" { CleanIsInAlphabet(encoded[..|encoded|-1], upper); }
  }

  /** The accumulator holds fewer than eight bits not written yet. */
  ghost predicate Decoding(read: string, value: int, bits: nat, bytes: seq<Byte>) {
    && Spelled(read) && 8 * |bytes| + bits == 5 * |read|
    && Cat(ByteBits(bytes), LowBits(value, bits)) == TextBits(read)
  }

  lemma CharRead(read: string, value: int, bits: nat, bytes: seq<Byte>, c: char, shifted: int)
    requires Decoding(read, value, bits, bytes) && InAlphabet(c)
    requires LowBits(shifted, bits + 5) == Cat(LowBits(value, bits), LowBits(Index(c), 5))
    ensures Decoding(read + [c], shifted, bits + 5, bytes)
  {
    OneMoreChar(read, c);
    CatAssoc(ByteBits(bytes), LowBits(value, bits), LowBits(Index(c), 5));
  }

  method ReadChar(ghost read: string, value: int, bits: nat, ghost bytes: seq<Byte>, c: char) returns (shifted: int)
    requires Decoding(read, value, bits, bytes) && bits < 8 && InAlphabet(c)
    ensures Decoding(read + [c], shifted, bits + 5, bytes)
  {
    PowersUsed();
    shifted := ShiftIn(value, bits, Index(c), 5);
    CharRead(read, value, bits, bytes, c, shifted);
  }

  method WriteByte(ghost read: string, value: int, bits: nat, bytes0: seq<Byte>) returns (bytes: seq<Byte>)
    requires Decoding(read, value, bits, bytes0) && bits >= 8
    ensures Decoding(read, value, bits - 8, bytes)
  {
    PowersUsed();
    var high := TakeHigh(value, bits, 8);
    bytes := bytes0 + [high];
    OneMoreByte(bytes0, high);
    CatAssoc(ByteBits(bytes0), LowBits(high, 8), LowBits(value, bits - 8));
  }

  /** One turn of the loop. */
  method DecodeChar(clean: string, i: nat, value0: int, bits0: nat, bytes0: seq<Byte>)
    returns (value: int, bits: nat, bytes: seq<Byte>)
    requires i < |clean| && InAlphabet(clean[i]) && bits0 < 8 && Decoding(clean[..i], value0, bits0, bytes0)
    ensures bits < 8 && Decoding(clean[..i+1], value, bits, bytes)
  {
    assert clean[..i+1] == clean[..i] + [clean[i]];
    value := ReadChar(clean[..i], value0, bits0, bytes0, clean[i]);
    bits, bytes := bits0 + 5, bytes0;
    if bits >= 8 {
      bytes := WriteByte(clean[..i+1], value, bits, bytes);
      bits := bits - 8;
    }
  }

  lemma AllRead(clean: string, value: int, bits: nat, bytes: seq<Byte>)
    requires Decoding(clean, value, bits, bytes) && bits < 8
    ensures Reads(clean, bytes)
  {
    LowBitsLength(value, bits);
    DropRest(ByteBits(bytes), LowBits(value, bits));
  }

  method Decode(encoded: string, upper: char -> string) returns (bytes: seq<Byte>)
    ensures Reads(Clean(encoded, upper), bytes)
  {
    var clean := Clean(encoded, upper);
    CleanIsInAlphabet(encoded, upper);
    var bits, value := 0, 0;
    bytes := [];
    NothingRead();
    for i := 0 to |clean|
      invariant 0 <= bits < 8 && Decoding(clean[..i], value, bits, bytes)
    {
      value, bits, bytes := DecodeChar(clean, i, value, bits, bytes);
    }
    assert clean[..|clean|] == clean;
    AllRead(clean, value, bits, bytes);
  }

  // ---- Round trip ------------------------------------------------------------------------------

  /** Characters of the alphabet are already in upper case. */
  ghost predicate KeepsAlphabet(upper: char -> string) {
    forall c :: InAlphabet(c) ==> upper(c) == [c]
  }

  lemma LetterKept(c: char)
    requires InAlphabet(c)
    ensures Letters([c]) == [c]
  {
    assert [c][..0] == "";
  }

  lemma {:induction false} CleanKeeps(text: string, upper: char -> string)
    requires KeepsAlphabet(upper) && Spelled(text)
    ensures Clean(text, upper) == text
  {
    if text != "" {
      var m := |text| - 1;
      CleanKeeps(text[..m], upper);
      LetterKept(text[m]);
      assert text == text[..m] + [text[m]];
    }
  }

  lemma SameLength(text: nat, a: nat, b: nat)
    requires 0 <= 5 * text - 8 * a < 8 && 0 <= 5 * text - 8 * b < 8
    ensures a == b
  {
  }

  lemma SameBytes(bits: Bits, a: seq<Byte>, rest: Bits, b: seq<Byte>, n: nat)
    requires |a| == |b| && bits == Cat(ByteBits(a), rest) && Length(rest) == n && Drop(bits, n) == ByteBits(b)
    ensures a == b
  {
    DropRest(ByteBits(a), rest);
    ByteBitsInjective(a, b);
  }

  lemma {:induction false} ZerosLength(n: nat)
    ensures Length(Zeros(n)) == n
  {
    if n > 0 { ZerosLength(n - 1); }
  }

  /** Decoding what was encoded gives the bytes back, whatever their number. */
  lemma RoundTrip(text: string, buffer: seq<Byte>, bytes: seq<Byte>, upper: char -> string)
    requires IsBase32(text, buffer) && KeepsAlphabet(upper) && Reads(Clean(text, upper), bytes)
    ensures bytes == buffer
  {
    CleanKeeps(text, upper);
    var n := 5 * |text| - 8 * |buffer|;
    SameLength(|text|, |bytes|, |buffer|);
    ZerosLength(n);
    SameBytes(TextBits(text), buffer, Zeros(n), bytes, n);
  }

  /** Decoding has one result, which depends only on the letters and digits kept. */
  lemma OneReading(text: string, a: seq<Byte>, b: seq<Byte>)
    requires Reads(text, a) && Reads(text, b)
    ensures a == b
  {
    SameLength(|text|, |a|, |b|);
    ByteBitsInjective(a, b);
  }
}
