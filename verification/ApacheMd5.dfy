/** The encoding parts of the Apache MD5 password hash, src/utils/ApacheMd5.ts.

MD5 itself is not modelled. A digest is its 16 character codes; `x & 63`, `x >> 6` and `|` of disjoint bytes are
written as the arithmetic they are on non-negative numbers. */
module ApacheMd5 {

  // ---------------------------------------------------------------------------------------------
  // Base 64
  // ---------------------------------------------------------------------------------------------

  /** The character for a digit: '.', '/', the decimal digits, the upper-case and the lower-case letters. */
  function Digit(d: int): char
    requires 0 <= d < 64
  {
    // '.' is 46, 'A' is 65, 'a' is 97
    if d < 12 then (d + 46) as char else if d < 38 then (d + 53) as char else (d + 59) as char
  }

  function Alphabet(): string {
    seq(64, d requires 0 <= d < 64 => Digit(d))
  }

  /** The digit that a character of the alphabet stands for. */
  function Value(c: char): int {
    if '.' <= c <= '9' then c as int - '.' as int
    else if 'A' <= c <= 'Z' then c as int - 'A' as int + 12
    else c as int - 'a' as int + 38
  }

  const ITOA64 := "./0123456789" + "ABCDEFGHIJKLMNOPQRSTUVWXYZ" + "abcdefghijklmnopqrstuvwxyz"

  lemma AlphabetSpelledOut()
    ensures Alphabet() == ITOA64
  {
    assert Alphabet()[..12] == "./0123456789";
    assert Alphabet()[12..38] == "ABCDEFGHIJKLMNOPQRSTUVWXYZ";
    assert Alphabet()[38..] == "abcdefghijklmnopqrstuvwxyz";
    assert Alphabet() == Alphabet()[..12] + Alphabet()[12..38] + Alphabet()[38..];
  }

  function Digits(index: nat, count: int): string
    decreases count
  {
    if count <= 0 then "" else [Alphabet()[index % 64]] + Digits(index / 64, count - 1)
  }

  method To64(index: nat, count: int) returns (result: string)
    ensures result == Digits(index, count)
  {
    result := "";
    var rest, left := index, count - 1;
    while left >= 0
      invariant -1 <= left || count <= 0
      invariant result + Digits(rest, left + 1) == Digits(index, count)
    {
      result := result + [Alphabet()[rest % 64]];
      rest := rest / 64;
      left := left - 1;
    }
  }

  /** Reads digits back, lowest first. */
  function FromDigits(s: string): int {
    if s == "" then 0 else Value(s[0]) + 64 * FromDigits(s[1..])
  }

  function Pow64(count: nat): nat {
    if count == 0 then 1 else 64 * Pow64(count - 1)
  }

  lemma {:induction false} DigitsRoundTrip(index: nat, count: nat)
    ensures |Digits(index, count)| == count
    ensures index < Pow64(count) ==> FromDigits(Digits(index, count)) == index
    ensures forall c :: c in Digits(index, count) ==> c in Alphabet()
    decreases count
  {
    if count > 0 {
      assert Value(Alphabet()[index % 64]) == index % 64;
      DigitsRoundTrip(index / 64, count - 1);
      assert Digits(index, count)[1..] == Digits(index / 64, count - 1);
    }
  }

  // ---------------------------------------------------------------------------------------------
  // The 16 digest bytes as 22 characters
  // ---------------------------------------------------------------------------------------------

  ghost predicate IsDigest(b: seq<nat>) {
    |b| == 16 && forall i :: 0 <= i < 16 ==> b[i] < 256
  }

  function Pack(high: nat, middle: nat, low: nat): nat {
    high * 65536 + middle * 256 + low
  }

  method GetPassword(final: seq<nat>) returns (epass: string)
    requires IsDigest(final)
    ensures epass == Encode(final)
  {
    epass := To64(Pack(final[0], final[6], final[12]), 4);
    var part := To64(Pack(final[1], final[7], final[13]), 4);
    epass := epass + part;
    part := To64(Pack(final[2], final[8], final[14]), 4);
    epass := epass + part;
    part := To64(Pack(final[3], final[9], final[15]), 4);
    epass := epass + part;
    part := To64(Pack(final[4], final[10], final[5]), 4);
    epass := epass + part;
    part := To64(final[11], 2);
    epass := epass + part;
  }

  /** The word of three bytes, as four digits. */
  function Group(b: seq<nat>, i: nat, j: nat, k: nat): string
    requires i < |b| && j < |b| && k < |b|
  {
    Digits(Pack(b[i], b[j], b[k]), 4)
  }

  function Encode(b: seq<nat>): string
    requires |b| == 16
  {
    Group(b, 0, 6, 12) + Group(b, 1, 7, 13) + Group(b, 2, 8, 14) + Group(b, 3, 9, 15) + Group(b, 4, 10, 5)
    + Digits(b[11], 2)
  }

  function High(w: int): int { w / 65536 }

  function Middle(w: int): int { w / 256 % 256 }

  function Low(w: int): int { w % 256 }

  /** Reads the bytes back, each from the one place where it was written. */
  function Decode(s: string): seq<int>
    requires |s| == 22
  {
    var u, v, w := FromDigits(s[0..4]), FromDigits(s[4..8]), FromDigits(s[8..12]);
    var x, y := FromDigits(s[12..16]), FromDigits(s[16..20]);
    [High(u), High(v), High(w), High(x), High(y), Low(y)]
    + [Middle(u), Middle(v), Middle(w), Middle(x), Middle(y), FromDigits(s[20..22])]
    + [Low(u), Low(v), Low(w), Low(x)]
  }

  lemma {:induction false} PackUnpack(a: nat, b: nat, c: nat)
    requires a < 256 && b < 256 && c < 256
    ensures var w := Pack(a, b, c); w < Pow64(4) && High(w) == a && Middle(w) == b && Low(w) == c
  {
    assert Pow64(4) == 16777216 by { assert Pow64(2) == 4096; assert Pow64(3) == 64 * Pow64(2); }
    var rest := b * 256 + c;
    assert Pack(a, b, c) == a * 65536 + rest && rest < 65536;
    assert Pack(a, b, c) == (a * 256 + b) * 256 + c;
    assert Pack(a, b, c) / 256 == a * 256 + b;
  }

  lemma GroupRoundTrip(b: seq<nat>, i: nat, j: nat, k: nat)
    requires IsDigest(b) && i < 16 && j < 16 && k < 16
    ensures var w := FromDigits(Group(b, i, j, k));
            |Group(b, i, j, k)| == 4 && High(w) == b[i] && Middle(w) == b[j] && Low(w) == b[k]
    ensures forall c :: c in Group(b, i, j, k) ==> c in Alphabet()
  {
    PackUnpack(b[i], b[j], b[k]);
    DigitsRoundTrip(Pack(b[i], b[j], b[k]), 4);
  }

  /** Six pieces put together can be cut apart again. */
  lemma CutApart(a: string, b: string, c: string, d: string, e: string, f: string)
    requires |a| == |b| == |c| == |d| == |e| == 4 && |f| == 2
    ensures var s := a + b + c + d + e + f;
            |s| == 22 && s[0..4] == a && s[4..8] == b && s[8..12] == c && s[12..16] == d && s[16..20] == e
                && s[20..22] == f
  {
  }

  lemma LastByteRoundTrip(n: nat)
    requires n < 256
    ensures |Digits(n, 2)| == 2 && FromDigits(Digits(n, 2)) == n && forall c :: c in Digits(n, 2) ==> c in Alphabet()
  {
    assert Pow64(2) == 64 * Pow64(1) && Pow64(1) == 64;
    DigitsRoundTrip(n, 2);
  }

  /** The encoding is lossless: decoding gives back every byte, the text is 22 characters of the alphabet, and so
      distinct digests have distinct texts. */
  lemma {:induction false} PasswordRoundTrip(b: seq<nat>)
    requires IsDigest(b)
    ensures |Encode(b)| == 22 && Decode(Encode(b)) == b
    ensures forall c :: c in Encode(b) ==> c in ITOA64
  {
    AlphabetSpelledOut();
    GroupRoundTrip(b, 0, 6, 12);
    GroupRoundTrip(b, 1, 7, 13);
    GroupRoundTrip(b, 2, 8, 14);
    GroupRoundTrip(b, 3, 9, 15);
    GroupRoundTrip(b, 4, 10, 5);
    LastByteRoundTrip(b[11]);
    CutApart(Group(b, 0, 6, 12), Group(b, 1, 7, 13), Group(b, 2, 8, 14), Group(b, 3, 9, 15), Group(b, 4, 10, 5),
        Digits(b[11], 2));
    DecodeParts(b, Encode(b));
  }

  /** The word in the `k`-th four characters is made of the bytes `x`, `y` and `z`. */
  ghost predicate Holds(s: string, k: nat, x: int, y: int, z: int)
    requires |s| == 22 && k < 5
  {
    var w := FromDigits(s[4 * k..4 * k + 4]);
    High(w) == x && Middle(w) == y && Low(w) == z
  }

  lemma DecodeParts(b: seq<nat>, s: string)
    requires |b| == 16 && |s| == 22
    requires Holds(s, 0, b[0], b[6], b[12]) && Holds(s, 1, b[1], b[7], b[13]) && Holds(s, 2, b[2], b[8], b[14])
    requires Holds(s, 3, b[3], b[9], b[15]) && Holds(s, 4, b[4], b[10], b[5]) && FromDigits(s[20..22]) == b[11]
    ensures Decode(s) == b
  {
    SameBytes(Decode(s), b);
  }

  lemma SameBytes(a: seq<int>, b: seq<int>)
    requires |a| == |b| == 16
    requires a[0] == b[0] && a[1] == b[1] && a[2] == b[2] && a[3] == b[3] && a[4] == b[4] && a[5] == b[5]
             && a[6] == b[6] && a[7] == b[7]
    requires a[8] == b[8] && a[9] == b[9] && a[10] == b[10] && a[11] == b[11] && a[12] == b[12] && a[13] == b[13]
             && a[14] == b[14] && a[15] == b[15]
    ensures a == b
  {
  }

  // ---------------------------------------------------------------------------------------------
  // The context that is hashed first
  // ---------------------------------------------------------------------------------------------

  const NUL: char := '\0'

  /** The first `n` characters of the digest repeated without end. */
  function Cycled(digest: string, n: nat): string
    requires |digest| == 16
  {
    seq(n, k requires 0 <= k < n => digest[k % 16])
  }

  function Pow2(n: nat): (p: nat)
    ensures p > 0
  {
    if n == 0 then 1 else 2 * Pow2(n - 1)
  }

  /** How many bits `n` has. */
  function BitLength(n: nat): nat {
    if n == 0 then 0 else 1 + BitLength(n / 2)
  }

  /** One character per bit of `n`, lowest first. */
  function BitChars(n: nat, zero: char): string {
    seq(BitLength(n), k requires 0 <= k < BitLength(n) => if n / Pow2(k) % 2 == 1 then NUL else zero)
  }

  lemma {:induction false} BitLengthMeaning(n: nat)
    requires n > 0
    ensures Pow2(BitLength(n) - 1) <= n < Pow2(BitLength(n))
  {
    if n > 1 {
      BitLengthMeaning(n / 2);
    }
  }

  lemma {:induction false} ShiftedBit(n: nat, k: nat)
    ensures n / 2 / Pow2(k) == n / Pow2(k + 1)
  {
    HalvesQuotient(n, Pow2(k), Pow2(k + 1));
  }

  lemma {:induction false} HalvesQuotient(n: nat, p: nat, m: nat)
    requires p > 0 && m == 2 * p
    ensures n / 2 / p == n / m
  {
    var d, e := n / 2 / p, n / 2 % p;
    assert n / 2 == d * p + e;
    assert d * m == 2 * (d * p);
    Quotient(n, m, d, 2 * e + n % 2);
  }

  lemma {:induction false} Quotient(n: nat, p: nat, q: nat, r: nat)
    requires p > 0 && n == q * p + r && r < p
    ensures n / p == q
  {
    var d := n / p;
    assert n == d * p + n % p;
    assert d < q ==> (d + 1) * p <= q * p;
    assert q < d ==> (q + 1) * p <= d * p;
  }

  lemma {:induction false} BitCharsStep(n: nat, zero: char)
    requires n > 0
    ensures BitChars(n, zero) == [if n % 2 == 1 then NUL else zero] + BitChars(n / 2, zero)
  {
    var (a, b) := (BitChars(n, zero), BitChars(n / 2, zero));
    assert |a| == 1 + |b|;
    assert a[0] == (if n % 2 == 1 then NUL else zero) by { assert Pow2(0) == 1; }
    forall k | 0 <= k < |b| ensures a[k + 1] == b[k] { ShiftedBit(n, k); }
  }

  /** The number whose bits these characters are, lowest first; the zero character stands for a set bit. */
  function FromBits(s: string): nat {
    if s == "" then 0 else (if s[0] == NUL then 1 else 0) + 2 * FromBits(s[1..])
  }

  /** The characters tell the number: nothing of it is lost, unless the password starts with the zero character
      itself. */
  lemma {:induction false} BitsRoundTrip(n: nat, zero: char)
    requires zero != NUL
    ensures FromBits(BitChars(n, zero)) == n
  {
    if n == 0 {
      assert BitChars(n, zero) == "";
    } else {
      BitCharsStep(n, zero);
      BitsRoundTrip(n / 2, zero);
      assert BitChars(n, zero)[1..] == BitChars(n / 2, zero);
    }
  }

  lemma CycledStep(digest: string, done: nat, more: nat)
    requires |digest| == 16 && done % 16 == 0 && more <= 16
    ensures Cycled(digest, done) + digest[..more] == Cycled(digest, done + more)
  {
    forall j | 0 <= j < more ensures digest[(done + j) % 16] == digest[..more][j] {
      assert (done + j) % 16 == j;
    }
    var (a, b) := (Cycled(digest, done) + digest[..more], Cycled(digest, done + more));
    forall k | 0 <= k < done + more ensures a[k] == b[k] {
      if k >= done { assert b[k] == digest[(done + (k - done)) % 16]; }
    }
  }

  ghost predicate DigestAppended(ctx: string, start: string, digest: string, n: nat)
    requires |digest| == 16
  {
    ctx == start + Cycled(digest, n)
  }

  lemma AppendDigest(ctx: string, start: string, digest: string, done: nat, more: nat)
    requires |digest| == 16 && done % 16 == 0 && more <= 16 && DigestAppended(ctx, start, digest, done)
    ensures DigestAppended(ctx + digest[..more], start, digest, done + more)
  {
    CycledStep(digest, done, more);
    assert start + Cycled(digest, done) + digest[..more] == start + (Cycled(digest, done) + digest[..more]);
  }

  /** With the bits of `i` still to come, the characters of all bits of `n` will follow `base`. */
  ghost predicate BitsToCome(ctx: string, i: nat, base: string, n: nat, zero: char) {
    ctx + BitChars(i, zero) == base + BitChars(n, zero)
  }

  lemma {:induction false} AppendBit(ctx: string, i: nat, base: string, n: nat, zero: char)
    requires i > 0 && BitsToCome(ctx, i, base, n, zero)
    ensures BitsToCome(ctx + [if i % 2 == 1 then NUL else zero], i / 2, base, n, zero)
  {
    BitCharsStep(i, zero);
    var bit := [if i % 2 == 1 then NUL else zero];
    assert ctx + bit + BitChars(i / 2, zero) == ctx + (bit + BitChars(i / 2, zero));
  }

  /** The two loops: they append exactly as many digest characters as the password is long, cycling through the
      digest, and then one character for each bit of that length. */
  method BuildContext(start: string, password: string, digest: string) returns (ctx: string)
    requires |digest| == 16
    ensures ctx == start + Cycled(digest, |password|)
                   + BitChars(|password|, if password == "" then NUL else password[0])
    ensures |ctx| == |start| + |password| + BitLength(|password|)
  {
    ctx := start;
    var pl := |password|;
    while pl > 0
      invariant pl <= |password| && (pl > 0 ==> (|password| - pl) % 16 == 0)
      invariant DigestAppended(ctx, start, digest, if pl > 0 then |password| - pl else |password|)
    {
      var more := if pl > 16 then 16 else pl;
      AppendDigest(ctx, start, digest, |password| - pl, more);
      ctx := ctx + digest[..more];
      pl := pl - 16;
    }
    var zero := if password == "" then NUL else password[0];
    ghost var base := ctx;
    var i := |password|;
    while i != 0
      invariant 0 <= i <= |password|
      invariant BitsToCome(ctx, i, base, |password|, zero)
    {
      AppendBit(ctx, i, base, |password|, zero);
      if i % 2 != 0 {
        ctx := ctx + [NUL];
      } else {
        ctx := ctx + [password[0]];
      }
      i := i / 2;
    }
    assert ctx + [] == ctx;
  }
}
