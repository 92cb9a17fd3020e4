// md5.c: the message digest of section 3 of RFC 1321 on a message that arrives in
// pieces. The transformation of one block is any function; what is stated is which
// blocks it is applied to.

module Md5 {
  import opened Machine
  import opened Parts

  type Words = s: seq<Word> | |s| == 4 witness [0, 0, 0, 0]
  type Block = b: seq<Byte> | |b| == 64 witness seq(64, _ => 0)
  type Transform = (Words, Block) -> Words

  const INIT: Words := [0x67452301, 0xefcdab89, 0x98badcfe, 0x10325476]

  // ---- the digest of a whole message ----

  // The transformation of every block in turn.
  function Fold(t: Transform, message: seq<Byte>): Words
    requires |message| % 64 == 0
  {
    if |message| < 64 then INIT else t(Fold(t, message[..|message| - 64]), message[|message| - 64..])
  }

  // Section 3.1: a one bit, then zeros up to 56 modulo 64.
  function PadLength(n: nat): (k: nat)
    ensures 1 <= k <= 64 && (n + k) % 64 == 56
  {
    if n % 64 < 56 then 56 - n % 64 else 120 - n % 64
  }

  function Padding(k: nat): (p: seq<Byte>)
    requires 1 <= k
    ensures |p| == k
  {
    [0x80] + seq(k - 1, _ => 0)
  }

  function LittleEndian(v: nat, n: nat): (b: seq<Byte>)
    ensures |b| == n
  {
    if n == 0 then [] else [v % 256] + LittleEndian(v / 256, n - 1)
  }

  const TWO32: nat := 0x1_0000_0000
  const TWO64: nat := 0x1_0000_0000_0000_0000

  // Section 3.2: the number of bits before the padding, modulo 2^64, in eight bytes.
  function Padded(m: seq<Byte>): (p: seq<Byte>)
    ensures |p| % 64 == 0
  {
    Filled(|m|, PadLength(|m|));
    m + Padding(PadLength(|m|)) + LittleEndian(8 * |m| % TWO64, 8)
  }

  lemma Filled(n: nat, k: nat)
    requires (n + k) % 64 == 56
    ensures (n + k + 8) % 64 == 0
  {
  }

  function WordsOut(w: seq<Word>): (b: seq<Byte>)
    ensures |b| == 4 * |w|
  {
    if w == [] then [] else WordsOut(w[..|w| - 1]) + LittleEndian(w[|w| - 1], 4)
  }

  function Digest(t: Transform, m: seq<Byte>): (d: seq<Byte>)
    ensures |d| == 16
  {
    WordsOut(Fold(t, Padded(m)))
  }

  // ---- the bit count in two words ----

  function Low(n: nat): Word {
    8 * n % TWO32
  }

  function High(n: nat): Word {
    8 * n / TWO32 % TWO32
  }

  // The position in the buffer is read off the low word.
  lemma Position(n: nat)
    ensures Low(n) as int / 8 % 64 == n % 64
  {
    var q, r := 8 * n / TWO32, 8 * n % TWO32;
    assert r == 8 * (n - 0x2000_0000 * q);
    assert r / 8 == n - 64 * (0x80_0000 * q);
  }

  // The carry between the words, as the update computes it.
  lemma CountStep(n: nat, len: nat)
    ensures var add := 8 * len % TWO32;
            var low := (Low(n) as int + add) % TWO32;
            && low == Low(n + len)
            && (High(n) as int + (if low < add then 1 else 0) + len / 0x2000_0000) % TWO32 == High(n + len)
  {
    var q, h := 8 * n / TWO32, len / 0x2000_0000;
    var add := 8 * len % TWO32;
    assert add == 8 * len - TWO32 * h by {
      assert 0 <= 8 * (len - 0x2000_0000 * h) < TWO32;
    }
    var sum := Low(n) as int + add;
    var carry := if sum >= TWO32 then 1 else 0;
    assert 8 * (n + len) == TWO32 * (q + h + carry) + (sum - TWO32 * carry);
    assert 8 * (n + len) / TWO32 == q + h + carry && 8 * (n + len) % TWO32 == sum - TWO32 * carry;
    assert sum % TWO32 == sum - TWO32 * carry;
    Wrapped(q, carry + h);
  }

  lemma Wrapped(q: nat, x: nat)
    ensures (q % TWO32 + x) % TWO32 == (q + x) % TWO32
  {
  }

  lemma LowByte(x: nat, t: nat)
    ensures (x + 256 * t) % 256 == x % 256 && (x + 256 * t) / 256 == x / 256 + t
  {
  }

  // The two words side by side are the count modulo 2^64.
  lemma CountBytes(n: nat)
    ensures LittleEndian(Low(n), 4) + LittleEndian(High(n), 4) == LittleEndian(8 * n % TWO64, 8)
  {
    var low: nat, high: nat := Low(n), High(n);
    assert 8 * n % TWO64 == low + TWO32 * high by {
      var q := 8 * n / TWO32;
      assert 8 * n == TWO32 * q + low && q == TWO32 * (q / TWO32) + high;
      assert 8 * n == TWO64 * (q / TWO32) + (low + TWO32 * high);
    }
    TwoWords(low, high);
  }

  lemma Next(v: nat, n: nat)
    ensures LittleEndian(v, n + 1) == [v % 256] + LittleEndian(v / 256, n)
  {
  }

  lemma TwoWords(low: nat, high: nat)
    requires low < TWO32
    ensures LittleEndian(low + TWO32 * high, 8) == LittleEndian(low, 4) + LittleEndian(high, 4)
  {
    hide LittleEndian;
    var a, b, c := low / 256, low / 256 / 256, low / 256 / 256 / 256;
    LowByte(low, 0x100_0000 * high);
    LowByte(a, 0x1_0000 * high);
    LowByte(b, 256 * high);
    LowByte(c, high);
    assert c < 256;
    Next(low + TWO32 * high, 7);
    Next(a + 0x100_0000 * high, 6);
    Next(b + 0x1_0000 * high, 5);
    Next(c + 256 * high, 4);
    Next(low, 3);
    Next(a, 2);
    Next(b, 1);
    Next(c, 0);
    Glue([low % 256], [a % 256], [b % 256], [c % 256], LittleEndian(c / 256, 0), LittleEndian(high, 4));
  }

  lemma Glue(p: seq<Byte>, q: seq<Byte>, r: seq<Byte>, s: seq<Byte>, none: seq<Byte>, rest: seq<Byte>)
    requires |none| == 0
    ensures p + (q + (r + (s + rest))) == p + (q + (r + (s + none))) + rest
  {
  }

  // ---- the context ----

  function Whole(n: nat): (k: nat)
    ensures k % 64 == 0 && k <= n && n - k == n % 64
  {
    n / 64 * 64
  }

  // Where the loop over whole blocks ends, and whether its guard, which is computed on
  // unsigned int, becomes false there.
  function LoopEnd(used: nat, len: nat): int {
    len - (used + len) % 64
  }

  predicate Fits(used: nat, len: nat) {
    len < TWO32 && (used + len >= 64 ==> LoopEnd(used, len) + 63 < TWO32)
  }

  // The guard of the loop over whole blocks at position i.
  predicate GoesOn(len: nat, i: nat) {
    (i + 63) % TWO32 < len
  }

  // The loop gets to position i, a full block behind the first one and any others.
  ghost predicate Reached(used: nat, len: nat, i: nat) {
    && 64 - used <= i && (used + i) % 64 == 0
    && forall j: nat :: 64 - used <= j < i && (used + j) % 64 == 0 ==> GoesOn(len, j)
  }

  // A block is read that ends behind the input.
  ghost predicate ReadsPast(used: nat, len: nat) {
    exists i: nat :: Reached(used, len, i) && GoesOn(len, i) && i + 64 > len
  }

  // That happens exactly for the inputs whose last position makes the guard wrap.
  lemma Overrun(used: nat, len: nat)
    requires used < 64 && len < TWO32 && used + len >= 64
    ensures ReadsPast(used, len) <==> !Fits(used, len)
  {
    var end: nat := LoopEnd(used, len);
    if Fits(used, len) {
      Guard(used, len, end);
      assert (used + end) % 64 == 0 && !GoesOn(len, end);
      forall i: nat | Reached(used, len, i) && GoesOn(len, i)
        ensures i + 64 <= len
      {
        if i <= len {
          Guard(used, len, i);
        }
      }
    } else {
      forall j: nat | 64 - used <= j < end && (used + j) % 64 == 0
        ensures GoesOn(len, j)
      {
        NextBlock(used, j, end);
      }
      assert (used + end) % 64 == 0 && Reached(used, len, end);
      assert GoesOn(len, end);
    }
  }

  lemma NextBlock(used: nat, j: nat, end: nat)
    requires j < end && (used + j) % 64 == 0 && (used + end) % 64 == 0
    ensures j + 64 <= end
  {
  }

  class Context {
    const transform: Transform
    var state: Words
    var count0: Word
    var count1: Word
    const buffer: array<Byte>

    // The context after the message m, however it was cut into pieces: nothing but the
    // part of the buffer behind the last bytes is left open.
    ghost predicate Holds(m: seq<Byte>)
      reads this, buffer
    {
      && buffer.Length == 64
      && state == Fold(transform, m[..Whole(|m|)])
      && count0 == Low(|m|) && count1 == High(|m|)
      && buffer[..|m| % 64] == m[Whole(|m|)..]
    }

    // li_MD5_Init
    constructor (t: Transform)
      ensures Holds([]) && transform == t && fresh(buffer)
    {
      transform := t;
      state, count0, count1 := INIT, 0, 0;
      buffer := new Byte[64];
    }

    // The count of bits, with the carry into the second word.
    method Count(len: nat, ghost n: nat)
      requires count0 == Low(n) && count1 == High(n)
      modifies this`count0, this`count1
      ensures count0 == Low(n + len) && count1 == High(n + len)
    {
      CountStep(n, len);
      hide Low, High;
      var add := 8 * len % TWO32;
      count0 := (count0 as int + add) % TWO32;
      if count0 < add {
        count1 := (count1 as int + 1) % TWO32;
      }
      count1 := (count1 as int + len / 0x2000_0000) % TWO32;
    }

    // The block in the buffer and the whole blocks behind it.
    method Blocks(input: seq<Byte>, ndx: nat, ghost m: seq<Byte>) returns (i: nat)
      requires buffer.Length == 64 && ndx == |m| % 64 && buffer[..ndx] == m[Whole(|m|)..]
      requires state == Fold(transform, m[..Whole(|m|)]) && Fits(ndx, |input|) && ndx + |input| >= 64
      modifies this`state, buffer
      ensures i <= |input| < i + 64 && (|m| + i) % 64 == 0
      ensures state == Fold(transform, (m + input)[..|m| + i])
    {
      hide Fold, Fits, GoesOn, Whole;
      i := 64 - ndx;
      Copy(ndx, input[..i]);
      assert buffer[..] == buffer[..64];
      FirstStep(transform, m, input);
      state := transform(state, buffer[..]);
      Guard(ndx, |input|, i);
      while GoesOn(|input|, i)
        invariant i <= |input| && (|m| + i) % 64 == 0 && (GoesOn(|input|, i) <==> i + 64 <= |input|)
        invariant state == Fold(transform, (m + input)[..|m| + i])
        decreases |input| - i
      {
        LaterStep(transform, m, input, i);
        state := transform(state, input[i..i + 64]);
        i := i + 64;
        Guard(ndx, |input|, i);
      }
    }

    // li_MD5_Update
    method Update(input: seq<Byte>, ghost m: seq<Byte>)
      requires Holds(m) && Fits(|m| % 64, |input|)
      modifies this, buffer
      ensures Holds(m + input)
    {
      hide Fold, Low, High, Fits;
      Position(|m|);
      var ndx := count0 as int / 8 % 64;
      Count(|input|, |m|);
      var i := 0;
      if |input| >= 64 - ndx {
        i := Blocks(input, ndx, m);
        ndx := 0;
      }
      Copy(ndx, input[i..]);
      Remainder(m, input, i);
    }

    // li_MD5_Final: the digest, and a context without a trace of the message.
    method Final(digest: array<Byte>, ghost m: seq<Byte>)
      requires Holds(m) && digest.Length == 16 && digest != buffer
      modifies this, buffer, digest
      ensures digest[..] == Digest(transform, m)
      ensures state == [0, 0, 0, 0] && count0 == 0 && count1 == 0 && forall k :: 0 <= k < 64 ==> buffer[k] == 0
    {
      hide Fold, Low, High, LittleEndian, Padding;
      var bits := new Byte[8];
      Encode(bits, [count0, count1]);
      TwoWordsOut(count0, count1);
      CountBytes(|m|);
      Position(|m|);
      var ndx := count0 as int / 8 % 64;
      var padLen := if ndx < 56 then 56 - ndx else 120 - ndx;
      Update(Padding(padLen), m);
      Update(bits[..], m + Padding(padLen));
      ghost var all := m + Padding(padLen) + bits[..];
      assert all == Padded(m) && all[..Whole(|all|)] == all;
      Encode(digest, state);
      state, count0, count1 := [0, 0, 0, 0], 0, 0;
      forall k | 0 <= k < 64 {
        buffer[k] := 0;
      }
    }

    // The memcpy into the buffer.
    method Copy(at: nat, bytes: seq<Byte>)
      requires at + |bytes| <= buffer.Length
      modifies buffer
      ensures buffer[..at + |bytes|] == old(buffer[..at]) + bytes
    {
      ghost var before := buffer[..at];
      forall k | 0 <= k < |bytes| {
        buffer[at + k] := bytes[k];
      }
      assert buffer[..at] == before;
    }
  }

  lemma WordBytes(w: Word)
    ensures LittleEndian(w, 4) ==
      [w % 256, w as int / 0x100 % 256, w as int / 0x1_0000 % 256, w as int / 0x100_0000 % 256]
  {
    var v: nat := w;
    hide LittleEndian;
    Next(v, 3);
    Next(v / 256, 2);
    Next(v / 256 / 256, 1);
    Next(v / 256 / 256 / 256, 0);
    assert |LittleEndian(v / 256 / 256 / 256 / 256, 0)| == 0;
  }

  // Encode: the words, low byte first.
  method Encode(output: array<Byte>, input: seq<Word>)
    requires output.Length == 4 * |input|
    modifies output
    ensures output[..] == WordsOut(input)
  {
    hide LittleEndian;
    var i, j: nat := 0, 0;
    assert input[..0] == [];
    while j < output.Length
      invariant i <= |input| && j == 4 * i && output[..j] == WordsOut(input[..i])
    {
      var w := input[i];
      ghost var before := output[..j];
      WordBytes(w);
      output[j] := w % 256;
      output[j + 1] := w as int / 0x100 % 256;
      output[j + 2] := w as int / 0x1_0000 % 256;
      output[j + 3] := w as int / 0x100_0000 % 256;
      assert output[..j + 4] == before + LittleEndian(w, 4);
      assert input[..i + 1][..i] == input[..i];
      i, j := i + 1, j + 4;
    }
    assert input[..i] == input;
  }

  lemma TwoWordsOut(low: Word, high: Word)
    ensures WordsOut([low, high]) == LittleEndian(low, 4) + LittleEndian(high, 4)
  {
    hide LittleEndian;
    assert [low, high][..1] == [low] && [low][..0] == [];
  }

  // ---- what a digest is, byte by byte ----

  lemma WordSum(w: Word)
    ensures var b := LittleEndian(w, 4);
            w == b[0] as int + 0x100 * b[1] as int + 0x1_0000 * b[2] as int + 0x100_0000 * b[3] as int
  {
    WordBytes(w);
    hide LittleEndian;
    var v: nat := w;
    assert v / 0x1_0000 == v / 0x100 / 0x100 && v / 0x100_0000 == v / 0x100 / 0x100 / 0x100;
  }

  // Section 3.3 of RFC 1321: the initial words, low byte first.
  lemma InitBytes()
    ensures WordsOut(INIT) == [0x01, 0x23, 0x45, 0x67] + [0x89, 0xab, 0xcd, 0xef] +
                              [0xfe, 0xdc, 0xba, 0x98] + [0x76, 0x54, 0x32, 0x10]
  {
    FourWords(INIT);
    InitWords();
    hide LittleEndian, WordsOut;
  }

  lemma InitWords()
    ensures LittleEndian(INIT[0], 4) == [0x01, 0x23, 0x45, 0x67] && LittleEndian(INIT[1], 4) == [0x89, 0xab, 0xcd, 0xef]
    ensures LittleEndian(INIT[2], 4) == [0xfe, 0xdc, 0xba, 0x98] && LittleEndian(INIT[3], 4) == [0x76, 0x54, 0x32, 0x10]
  {
    hide LittleEndian;
    BytesOf(INIT[0], 0x01, 0x23, 0x45, 0x67);
    BytesOf(INIT[1], 0x89, 0xab, 0xcd, 0xef);
    BytesOf(INIT[2], 0xfe, 0xdc, 0xba, 0x98);
    BytesOf(INIT[3], 0x76, 0x54, 0x32, 0x10);
  }

  lemma BytesOf(w: nat, a: Byte, b: Byte, c: Byte, d: Byte)
    requires w == a as int + 0x100 * (b as int + 0x100 * (c as int + 0x100 * d as int))
    ensures LittleEndian(w, 4) == [a, b, c, d]
  {
    var x: nat := b as int + 0x100 * (c as int + 0x100 * d as int);
    var y: nat := c as int + 0x100 * d as int;
    hide LittleEndian;
    Next(w, 3);
    Next(x, 2);
    Next(y, 1);
    Next(d as int, 0);
    assert w % 256 == a && w / 256 == x && x % 256 == b && x / 256 == y;
    assert |LittleEndian(0, 0)| == 0;
  }

  lemma FourWords(w: Words)
    ensures WordsOut(w) ==
            LittleEndian(w[0], 4) + LittleEndian(w[1], 4) + LittleEndian(w[2], 4) + LittleEndian(w[3], 4)
  {
    hide LittleEndian;
    assert w[..3][..2] == w[..2] && w[..2][..1] == w[..1] && w[..1][..0] == [];
    assert WordsOut(w[..1]) == LittleEndian(w[0], 4);
    assert WordsOut(w[..2]) == LittleEndian(w[0], 4) + LittleEndian(w[1], 4);
    assert WordsOut(w[..3]) == LittleEndian(w[0], 4) + LittleEndian(w[1], 4) + LittleEndian(w[2], 4);
  }

  // Sections 3.1 and 3.2: the message, a one bit, zeros, and its number of bits modulo 2^64 as
  // two words of four bytes, the low word and the low bytes first; as few zeros as it takes to
  // fill the last block.
  lemma PaddedShape(m: seq<Byte>) returns (zeros: nat)
    ensures zeros < 64 && |Padded(m)| == |m| + 1 + zeros + 8 && |Padded(m)| % 64 == 0
    ensures Padded(m)[..|m|] == m && Padded(m)[|m|] == 0x80
    ensures forall k :: |m| < k <= |m| + zeros ==> Padded(m)[k] == 0
    ensures var b := Padded(m)[|m| + 1 + zeros..];
            var low := b[0] as int + 0x100 * b[1] as int + 0x1_0000 * b[2] as int + 0x100_0000 * b[3] as int;
            var high := b[4] as int + 0x100 * b[5] as int + 0x1_0000 * b[6] as int + 0x100_0000 * b[7] as int;
            low + 0x1_0000_0000 * high == 8 * |m| % 0x1_0000_0000_0000_0000
  {
    zeros := PadLength(|m|) - 1;
    Filled(|m|, PadLength(|m|));
    CountBytes(|m|);
    WordSum(Low(|m|));
    WordSum(High(|m|));
    CountWords(|m|);
    hide LittleEndian, Low, High;
    PaddedTail(m, LittleEndian(8 * |m| % TWO64, 8), zeros);
  }

  lemma PaddedTail(m: seq<Byte>, count: seq<Byte>, zeros: nat)
    requires |count| == 8
    ensures var p := m + Padding(zeros + 1) + count;
            && p[..|m|] == m && p[|m|] == 0x80 && p[|m| + 1 + zeros..] == count
            && forall k :: |m| < k <= |m| + zeros ==> p[k] == 0
  {
  }

  lemma CountWords(n: nat)
    ensures Low(n) as int + TWO32 * High(n) as int == 8 * n % TWO64
  {
    var low: nat, high: nat, q := Low(n), High(n), 8 * n / TWO32;
    assert 8 * n == TWO32 * q + low && q == TWO32 * (q / TWO32) + high;
    assert 8 * n == TWO64 * (q / TWO32) + (low + TWO32 * high);
  }

  // The blocks are transformed in their order, from the initial words on.
  lemma FoldMeans(t: Transform, a: seq<Byte>, b: Block)
    requires |a| % 64 == 0
    ensures Fold(t, []) == [0x67452301, 0xefcdab89, 0x98badcfe, 0x10325476]
    ensures Fold(t, a + b) == t(Fold(t, a), b)
  {
    assert (a + b)[..|a|] == a && (a + b)[|a|..] == b;
  }

  // ---- every way to cut a message ----

  ghost predicate AllFit(parts: seq<seq<Byte>>) {
    forall k: nat :: k < |parts| ==> Fits(|Concat(parts[..k])| % 64, |parts[k]|)
  }

  // The digest is that of the whole message.
  method Hash(t: Transform, parts: seq<seq<Byte>>) returns (digest: array<Byte>)
    requires AllFit(parts)
    ensures fresh(digest) && digest[..] == Digest(t, Concat(parts))
  {
    hide Fits, Digest, Concat, Context.Holds;
    ConcatEmpty(parts[..0]);
    digest := new Byte[16];
    var context := new Context(t);
    var k: nat := 0;
    while k < |parts|
      invariant k <= |parts| && context.Holds(Concat(parts[..k])) && context.transform == t
      invariant fresh(context) && fresh(context.buffer) && digest != context.buffer
    {
      ConcatNext(parts, k);
      context.Update(parts[k], Concat(parts[..k]));
      k := k + 1;
    }
    assert parts[..k] == parts;
    context.Final(digest, Concat(parts));
  }

  // The block that the buffer begins.
  lemma FirstBlock(m: seq<Byte>, input: seq<Byte>)
    requires |m| % 64 + |input| >= 64
    ensures var k := Whole(|m|);
            && (m + input)[..k] == m[..k]
            && (m + input)[k..k + 64] == m[k..] + input[..64 - |m| % 64]
  {
  }

  lemma LaterBlock(m: seq<Byte>, input: seq<Byte>, i: nat)
    requires i + 64 <= |input|
    ensures (m + input)[|m| + i..|m| + i + 64] == input[i..i + 64]
  {
  }

  lemma FirstStep(t: Transform, m: seq<Byte>, input: seq<Byte>)
    requires |m| % 64 + |input| >= 64
    ensures var i := 64 - |m| % 64;
            && (|m| + i) % 64 == 0 && |m[Whole(|m|)..] + input[..i]| == 64
            && Fold(t, (m + input)[..|m| + i]) == t(Fold(t, m[..Whole(|m|)]), m[Whole(|m|)..] + input[..i])
  {
    FirstBlock(m, input);
    FoldStep(t, m + input, Whole(|m|));
    hide Fold;
    assert |m| + (64 - |m| % 64) == Whole(|m|) + 64;
  }

  lemma LaterStep(t: Transform, m: seq<Byte>, input: seq<Byte>, i: nat)
    requires i + 64 <= |input| && (|m| + i) % 64 == 0
    ensures (|m| + i + 64) % 64 == 0
    ensures Fold(t, (m + input)[..|m| + i + 64]) == t(Fold(t, (m + input)[..|m| + i]), input[i..i + 64])
  {
    LaterBlock(m, input, i);
    FoldStep(t, m + input, |m| + i);
    hide Fold;
  }

  // What is left for the buffer.
  lemma Remainder(m: seq<Byte>, input: seq<Byte>, i: nat)
    requires i <= |input|
    requires if |m| % 64 + |input| < 64 then i == 0 else |input| < i + 64 && (|m| + i) % 64 == 0
    ensures var all := m + input;
            && (|m| % 64 + |input| < 64 ==> Whole(|all|) == Whole(|m|) && all[..Whole(|all|)] == m[..Whole(|m|)] &&
                                            all[Whole(|all|)..] == m[Whole(|m|)..] + input[i..])
            && (|m| % 64 + |input| >= 64 ==> Whole(|all|) == |m| + i && all[Whole(|all|)..] == input[i..])
            && |all| % 64 == |all| - Whole(|all|)
  {
  }

  lemma Guard(used: nat, len: nat, i: nat)
    requires Fits(used, len) && used + len >= 64 && i <= len && (used + i) % 64 == 0
    ensures GoesOn(len, i) <==> i + 64 <= len
  {
  }

  lemma FoldStep(t: Transform, all: seq<Byte>, k: nat)
    requires k % 64 == 0 && k + 64 <= |all|
    ensures Fold(t, all[..k + 64]) == t(Fold(t, all[..k]), all[k..k + 64])
  {
    var b := all[..k + 64];
    assert b[..k] == all[..k] && b[k..] == all[k..k + 64];
  }
}
