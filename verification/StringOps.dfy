/** Words of eight bytes, and the tests for a byte in a word. */
module Words {
  type Byte = bv8

  const WORD: nat := 8

  /** The word that eight bytes make, least significant first. */
  function Join(a: Byte, b: Byte, c: Byte, d: Byte, e: Byte, f: Byte, g: Byte, h: Byte): bv64 {
    (a as bv64) | (b as bv64 << 8) | (c as bv64 << 16) | (d as bv64 << 24) | (e as bv64 << 32) | (f as bv64 << 40) | (g as bv64 << 48) | (h as bv64 << 56)
  }

  function Word(s: seq<Byte>): bv64
    requires |s| == WORD
  {
    Join(s[0], s[1], s[2], s[3], s[4], s[5], s[6], s[7])
  }

  function Low(w: bv64): Byte {
    (w & 0xFF) as Byte
  }

  function Bytes(w: bv64): (s: seq<Byte>)
    ensures |s| == WORD
  {
    [Low(w), Low(w >> 8), Low(w >> 16), Low(w >> 24), Low(w >> 32), Low(w >> 40), Low(w >> 48), Low(w >> 56)]
  }

  function DetectNull(x: bv64): bv64 {
    (x - 0x0101_0101_0101_0101) & !x & 0x8080_8080_8080_8080
  }

  function DetectChar(x: bv64, mask: bv64): bv64 {
    DetectNull(XorWord(x, mask))
  }

  function Xor(a: Byte, b: Byte): Byte {
    a ^ b
  }

  function XorWord(x: bv64, y: bv64): bv64 {
    x ^ y
  }

  /** The word with the same byte everywhere, as the source builds it. */
  function Mask(d: Byte): bv64 {
    var m := (d as bv64 << 8) | d as bv64;
    var n := m | (m << 16);
    (n << 32) | n
  }

  lemma JoinBytes(a: Byte, b: Byte, c: Byte, d: Byte, e: Byte, f: Byte, g: Byte, h: Byte)
    ensures Bytes(Join(a, b, c, d, e, f, g, h)) == [a, b, c, d, e, f, g, h]
  {
  }

  /** A word stored is the bytes it was loaded from. */
  lemma BytesOfWord(s: seq<Byte>)
    requires |s| == WORD
    ensures Bytes(Word(s)) == s
  {
    hide Join, Bytes;
    JoinBytes(s[0], s[1], s[2], s[3], s[4], s[5], s[6], s[7]);
  }

  lemma BytesOfMask(d: Byte)
    ensures Bytes(Mask(d)) == [d, d, d, d, d, d, d, d]
  {
  }

  lemma HasNull(x: bv64)
    ensures DetectNull(x) != 0 <==> 0 in Bytes(x)
  {
    var s := Bytes(x);
    assert 0 in s <==> s[0] == 0 || s[1] == 0 || s[2] == 0 || s[3] == 0 || s[4] == 0 || s[5] == 0 || s[6] == 0 || s[7] == 0;
  }

  /** The null test is nonzero exactly when some byte of the word is zero. */
  lemma DetectNullIs(s: seq<Byte>)
    requires |s| == WORD
    ensures DetectNull(Word(s)) != 0 <==> 0 in s
  {
    hide DetectNull, Word, Bytes;
    HasNull(Word(s));
    BytesOfWord(s);
  }

  lemma XorFirstParts(x: bv64, y: bv64)
    ensures Low(XorWord(x, y)) == Xor(Low(x), Low(y))
    ensures Low(XorWord(x, y) >> 8) == Xor(Low(x >> 8), Low(y >> 8))
  {
  }

  lemma XorSecondParts(x: bv64, y: bv64)
    ensures Low(XorWord(x, y) >> 16) == Xor(Low(x >> 16), Low(y >> 16))
    ensures Low(XorWord(x, y) >> 24) == Xor(Low(x >> 24), Low(y >> 24))
  {
  }

  lemma XorThirdParts(x: bv64, y: bv64)
    ensures Low(XorWord(x, y) >> 32) == Xor(Low(x >> 32), Low(y >> 32))
    ensures Low(XorWord(x, y) >> 40) == Xor(Low(x >> 40), Low(y >> 40))
  {
  }

  lemma XorFourthParts(x: bv64, y: bv64)
    ensures Low(XorWord(x, y) >> 48) == Xor(Low(x >> 48), Low(y >> 48))
    ensures Low(XorWord(x, y) >> 56) == Xor(Low(x >> 56), Low(y >> 56))
  {
  }

  lemma XorBytes(x: bv64, y: bv64)
    ensures var s, a, b := Bytes(XorWord(x, y)), Bytes(x), Bytes(y);
            s == [Xor(a[0], b[0]), Xor(a[1], b[1]), Xor(a[2], b[2]), Xor(a[3], b[3]), Xor(a[4], b[4]), Xor(a[5], b[5]), Xor(a[6], b[6]), Xor(a[7], b[7])]
  {
    hide Low, Xor, XorWord;
    XorFirstParts(x, y);
    XorSecondParts(x, y);
    XorThirdParts(x, y);
    XorFourthParts(x, y);
  }

  lemma XorZero(a: Byte, b: Byte)
    ensures Xor(a, b) == 0 <==> a == b
  {
  }

  /** The test for a character is nonzero exactly when the word contains it. */
  lemma DetectCharIs(s: seq<Byte>, d: Byte)
    requires |s| == WORD
    ensures DetectChar(Word(s), Mask(d)) != 0 <==> d in s
  {
    hide DetectNull, Word, Mask, Bytes, Xor, XorWord;
    HasNull(XorWord(Word(s), Mask(d)));
    XorBytes(Word(s), Mask(d));
    BytesOfWord(s);
    BytesOfMask(d);
    XorMember(s, d);
  }

  lemma XorMember(s: seq<Byte>, d: Byte)
    requires |s| == WORD
    ensures 0 in [Xor(s[0], d), Xor(s[1], d), Xor(s[2], d), Xor(s[3], d), Xor(s[4], d), Xor(s[5], d), Xor(s[6], d), Xor(s[7], d)] <==> d in s
  {
    hide Xor;
    for i := 0 to WORD
      invariant forall k :: 0 <= k < i ==> (Xor(s[k], d) == 0 <==> s[k] == d)
    {
      XorZero(s[i], d);
    }
    assert d in s <==> s[0] == d || s[1] == d || s[2] == d || s[3] == d || s[4] == d || s[5] == d || s[6] == d || s[7] == d;
  }

  /** Words are equal exactly when their bytes are. */
  lemma WordsEqual(s: seq<Byte>, t: seq<Byte>)
    requires |s| == WORD && |t| == WORD
    ensures Word(s) == Word(t) <==> s == t
  {
    hide Word, Bytes;
    BytesOfWord(s);
    BytesOfWord(t);
  }
}

/** Memory and strings a byte at a time. */
module ByteStrings {
  type Byte = bv8

  function Difference(a: Byte, b: Byte): int {
    a as int - b as int
  }

  /** The difference of the first bytes that differ, where a sequence goes on with zeroes; zero if there are none. */
  function Compare(a: seq<Byte>, b: seq<Byte>): int {
    if a == [] && b == [] then 0
    else if a == [] then -(b[0] as int)
    else if b == [] then a[0] as int
    else if a[0] != b[0] then Difference(a[0], b[0])
    else Compare(a[1..], b[1..])
  }

  /** Sequences in which the end is told from a byte: they have the same length, or no zeroes. */
  predicate Comparable(a: seq<Byte>, b: seq<Byte>) {
    |a| == |b| || (0 !in a && 0 !in b)
  }

  /** The order of the dictionary. */
  ghost predicate Before(a: seq<Byte>, b: seq<Byte>) {
    exists k: nat :: DiffersAt(a, b, k)
  }

  ghost predicate DiffersAt(a: seq<Byte>, b: seq<Byte>, k: nat) {
    k <= |a| && k < |b| && a[..k] == b[..k] && (k == |a| || a[k] as int < b[k] as int)
  }

  lemma ByteAsInt(a: Byte, b: Byte)
    ensures a as int == b as int <==> a == b
    ensures 0 <= a as int < 256 && (a as int == 0 <==> a == 0)
  {
    assert (a as int) as Byte == a && (b as int) as Byte == b;
  }

  /** The comparison is zero for equal sequences only, its sign is the order of the dictionary, and it turns
      around with its arguments. */
  lemma {:induction false} CompareIs(a: seq<Byte>, b: seq<Byte>)
    requires Comparable(a, b)
    ensures Compare(a, b) == 0 <==> a == b
    ensures Compare(a, b) < 0 <==> Before(a, b)
    ensures Compare(b, a) == -Compare(a, b)
  {
    if a != [] && b != [] && a[0] == b[0] {
      CompareIs(a[1..], b[1..]);
      assert a == [a[0]] + a[1..] && b == [b[0]] + b[1..];
      BeforeTail(a, b);
    } else {
      BeforeHead(a, b);
    }
  }

  lemma BeforeTail(a: seq<Byte>, b: seq<Byte>)
    requires a != [] && b != [] && a[0] == b[0]
    ensures Before(a, b) <==> Before(a[1..], b[1..])
  {
    if Before(a, b) {
      var k: nat :| DiffersAt(a, b, k);
      assert a[1..][..k - 1] == a[..k][1..] && b[1..][..k - 1] == b[..k][1..];
      assert DiffersAt(a[1..], b[1..], k - 1);
    }
    if Before(a[1..], b[1..]) {
      var k: nat :| DiffersAt(a[1..], b[1..], k);
      assert a[..k + 1] == [a[0]] + a[1..][..k] && b[..k + 1] == [b[0]] + b[1..][..k];
      assert DiffersAt(a, b, k + 1);
    }
  }

  lemma SameHeads(a: seq<Byte>, b: seq<Byte>, k: nat)
    requires k <= |a| && k <= |b| && a[..k] == b[..k]
    ensures k > 0 ==> a[0] == b[0]
  {
    if k > 0 { assert a[..k][0] == a[0] && b[..k][0] == b[0]; }
  }

  lemma BeforeHead(a: seq<Byte>, b: seq<Byte>)
    requires Comparable(a, b) && (a == [] || b == [] || a[0] != b[0])
    ensures Compare(a, b) == 0 <==> a == b
    ensures Compare(a, b) < 0 <==> Before(a, b)
    ensures Compare(b, a) == -Compare(a, b)
  {
    if a != [] { ByteAsInt(a[0], 0); }
    if b != [] { ByteAsInt(b[0], 0); }
    if a != [] && b != [] { ByteAsInt(a[0], b[0]); }
    forall k: nat | DiffersAt(a, b, k) ensures k == 0 {
      SameHeads(a, b, k);
    }
    if Compare(a, b) < 0 {
      assert DiffersAt(a, b, 0);
    }
  }

  lemma {:induction false} CompareSkips(w: seq<Byte>, a: seq<Byte>, b: seq<Byte>)
    ensures Compare(w + a, w + b) == Compare(a, b)
  {
    if w == [] {
      assert w + a == a && w + b == b;
    } else {
      assert (w + a)[1..] == w[1..] + a && (w + b)[1..] == w[1..] + b;
      CompareSkips(w[1..], a, b);
    }
  }

  lemma CompareSame(a: seq<Byte>)
    ensures Compare(a, a) == 0
  {
    CompareSkips(a, [], []);
    assert a + [] == a;
  }

  /** The string at an address: the bytes before the first null, or all there are. */
  function Text(m: seq<Byte>, i: nat): (t: seq<Byte>)
    requires i <= |m|
    ensures i + |t| <= |m| && t == m[i..i + |t|] && 0 !in t
    ensures i + |t| < |m| ==> m[i + |t|] == 0
    decreases |m| - i
  {
    if i == |m| || m[i] == 0 then [] else [m[i]] + Text(m, i + 1)
  }

  predicate Terminated(m: seq<Byte>, i: nat) {
    i < |m| && i + |Text(m, i)| < |m|
  }

  function Take(t: seq<Byte>, n: nat): seq<Byte> {
    if n < |t| then t[..n] else t
  }

  lemma {:induction false} TextSkips(m: seq<Byte>, i: nat, k: nat)
    requires i + k <= |m| && 0 !in m[i..i + k]
    ensures Text(m, i) == m[i..i + k] + Text(m, i + k)
    decreases k
  {
    if k > 0 {
      assert m[i..i + k][0] == m[i] && m[i..i + k] == [m[i]] + m[i + 1..i + k];
      TextSkips(m, i + 1, k - 1);
    }
  }

  lemma {:induction false} TextStops(m: seq<Byte>, i: nat, k: nat)
    requires i + k < |m| && 0 !in m[i..i + k] && m[i + k] == 0
    ensures Text(m, i) == m[i..i + k]
  {
    TextSkips(m, i, k);
    assert m[i..i + k] + [] == m[i..i + k];
  }

  /** Equal stretches without a null do not change how two strings compare, up to a length. */
  lemma EqualStretch(m: seq<Byte>, i: nat, j: nat, k: nat, n: nat)
    requires i + k <= |m| && j + k <= |m| && k <= n && m[i..i + k] == m[j..j + k] && 0 !in m[i..i + k]
    ensures Compare(Take(Text(m, i), n), Take(Text(m, j), n)) == Compare(Take(Text(m, i + k), n - k), Take(Text(m, j + k), n - k))
    ensures Terminated(m, i) ==> Terminated(m, i + k)
    ensures Terminated(m, j) ==> Terminated(m, j + k)
  {
    var w := m[i..i + k];
    TextSkips(m, i, k);
    TextSkips(m, j, k);
    assert Take(w + Text(m, i + k), n) == w + Take(Text(m, i + k), n - k);
    assert Take(w + Text(m, j + k), n) == w + Take(Text(m, j + k), n - k);
    CompareSkips(w, Take(Text(m, i + k), n - k), Take(Text(m, j + k), n - k));
  }

  /** Strings are equal, up to a length, when an equal stretch has a null or reaches that length. */
  lemma EqualEnd(m: seq<Byte>, i: nat, j: nat, k: nat, n: nat)
    requires i + k <= |m| && j + k <= |m| && k <= n && m[i..i + k] == m[j..j + k] && (0 in m[i..i + k] || n == k)
    ensures Compare(Take(Text(m, i), n), Take(Text(m, j), n)) == 0
  {
    var w := m[i..i + k];
    if 0 in w {
      var z := FirstNull(w);
      assert m[i + z] == w[z] && m[j + z] == m[j..j + k][z];
      assert m[i..i + z] == w[..z] && m[j..j + z] == m[j..j + k][..z];
      TextStops(m, i, z);
      TextStops(m, j, z);
    } else {
      TextSkips(m, i, k);
      TextSkips(m, j, k);
      assert Take(Text(m, i), n) == w && Take(Text(m, j), n) == w;
    }
    CompareSame(Take(Text(m, i), n));
  }

  lemma {:induction false} FirstNull(w: seq<Byte>) returns (z: nat)
    requires 0 in w
    ensures z < |w| && w[z] == 0 && 0 !in w[..z]
  {
    if w[0] == 0 {
      z := 0;
    } else {
      z := FirstNull(w[1..]);
      z := z + 1;
      assert w[..z] == [w[0]] + w[1..][..z - 1];
    }
  }
}

/** The routines of the C library that work on whole words. Memory is an array of bytes whose indices are the
    addresses, and whole words of it can be read. */
module StringOps {
  import opened ByteStrings
  import opened Options
  import opened Words

  type Byte = bv8

  const BIG_BLOCK: nat := 4 * WORD

  predicate Unaligned(address: nat) {
    address % WORD != 0
  }

  predicate WholeWords(length: nat) {
    length % WORD == 0
  }

  function Moved(m: seq<Byte>, dst: nat, src: nat, n: nat): (t: seq<Byte>)
    requires dst + n <= |m| && src + n <= |m|
    ensures |t| == |m|
  {
    m[..dst] + m[src..src + n] + m[dst + n..]
  }

  function Filled(m: seq<Byte>, a: nat, n: nat, c: Byte): (t: seq<Byte>)
    requires a + n <= |m|
    ensures |t| == |m|
  {
    m[..a] + seq(n, _ => c) + m[a + n..]
  }

  /** Copying forward goes on with bytes that have not been written. */
  lemma MovedForward(m: seq<Byte>, dst: nat, src: nat, n: nat, k: nat)
    requires dst + n + k <= |m| && src + n + k <= |m| && (dst <= src || src + n + k <= dst)
    ensures Moved(Moved(m, dst, src, n), dst + n, src + n, k) == Moved(m, dst, src, n + k)
  {
    hide Moved;
    var t, u := Moved(m, dst, src, n), Moved(m, dst, src, n + k);
    var v := Moved(t, dst + n, src + n, k);
    forall q | 0 <= q < |m| ensures u[q] == v[q] {
      MovedAt(t, dst + n, src + n, k, q);
      MovedAt(m, dst, src, n + k, q);
      if dst + n <= q < dst + n + k {
        MovedAt(m, dst, src, n, src + q - dst);
      } else {
        MovedAt(m, dst, src, n, q);
      }
    }
  }

  lemma MovedAt(m: seq<Byte>, dst: nat, src: nat, n: nat, q: nat)
    requires dst + n <= |m| && src + n <= |m| && q < |m|
    ensures Moved(m, dst, src, n)[q] == if dst <= q < dst + n then m[src + (q - dst)] else m[q]
  {
  }

  lemma MovedBackward(m: seq<Byte>, dst: nat, src: nat, n: nat, done: nat)
    requires done < n && dst + n <= |m| && src + n <= |m| && src < dst
    ensures var at := n - done - 1;
            Moved(Moved(m, dst + at + 1, src + at + 1, done), dst + at, src + at, 1) == Moved(m, dst + at, src + at, done + 1)
  {
  }

  lemma FilledMore(m: seq<Byte>, a: nat, n: nat, k: nat, c: Byte)
    requires a + n + k <= |m|
    ensures Filled(Filled(m, a, n, c), a + n, k, c) == Filled(m, a, n + k, c)
  {
  }

  function WordAt(m: seq<Byte>, a: nat): bv64
    requires a + WORD <= |m|
  {
    Word(m[a..a + WORD])
  }

  method StoreWord(mem: array<Byte>, a: nat, w: bv64)
    requires a + WORD <= mem.Length
    modifies mem
    ensures mem[..] == old(mem[..a]) + Bytes(w) + old(mem[a + WORD..])
  {
    hide Bytes;
    var b := Bytes(w);
    forall i | 0 <= i < WORD {
      mem[a + i] := b[i];
    }
    assert mem[..] == old(mem[..a]) + b + old(mem[a + WORD..]);
  }

  method CopyWord(mem: array<Byte>, dst: nat, src: nat)
    requires dst + WORD <= mem.Length && src + WORD <= mem.Length
    modifies mem
    ensures mem[..] == Moved(old(mem[..]), dst, src, WORD)
  {
    BytesOfWord(mem[src..src + WORD]);
    StoreWord(mem, dst, Word(mem[src..src + WORD]));
  }

  lemma MovedNone(m: seq<Byte>, dst: nat, src: nat)
    requires dst <= |m| && src <= |m|
    ensures Moved(m, dst, src, 0) == m
  {
    assert Moved(m, dst, src, 0) == m;
  }

  method CopyByte(mem: array<Byte>, dst: nat, src: nat)
    requires dst < mem.Length && src < mem.Length
    modifies mem
    ensures mem[..] == Moved(old(mem[..]), dst, src, 1)
  {
    hide Moved;
    MovedOne(mem[..], dst, src);
    SetByte(mem, dst, mem[src]);
  }

  method SetByte(mem: array<Byte>, a: nat, b: Byte)
    requires a < mem.Length
    modifies mem
    ensures mem[..] == old(mem[..])[a := b]
  {
    mem[a] := b;
  }

  lemma MovedOne(m: seq<Byte>, dst: nat, src: nat)
    requires dst < |m| && src < |m|
    ensures Moved(m, dst, src, 1) == m[dst := m[src]]
  {
  }

  lemma FilledOne(m: seq<Byte>, a: nat, c: Byte)
    requires a < |m|
    ensures Filled(m, a, 1, c) == m[a := c]
  {
  }

  /** The state of a copy forward. */
  ghost predicate Copying(now: seq<Byte>, m: seq<Byte>, dst: nat, src: nat, left: nat, dst0: nat, src0: nat, length: nat) {
    && dst0 + length <= |m| && src0 + length <= |m| && (dst0 <= src0 || src0 + length <= dst0)
    && left <= length && dst - dst0 == src - src0 == length - left && now == Moved(m, dst0, src0, length - left)
  }

  /** One more word of a copy. */
  method CopyNext(mem: array<Byte>, dst: nat, src: nat, ghost left: nat, ghost m: seq<Byte>, ghost dst0: nat, ghost src0: nat, ghost length: nat)
    requires Copying(mem[..], m, dst, src, left, dst0, src0, length) && left >= WORD
    modifies mem
    ensures Copying(mem[..], m, dst + WORD, src + WORD, left - WORD, dst0, src0, length)
  {
    hide Moved;
    MovedForward(m, dst0, src0, length - left, WORD);
    assert |mem[..]| == |m|;
    CopyWord(mem, dst, src);
  }

  /** A copy forward, by words when both addresses are aligned. */
  method CopyForward(mem: array<Byte>, dst0: nat, src0: nat, length0: nat)
    requires dst0 + length0 <= mem.Length && src0 + length0 <= mem.Length && (dst0 <= src0 || src0 + length0 <= dst0)
    modifies mem
    ensures mem[..] == Moved(old(mem[..]), dst0, src0, length0)
  {
    hide Moved;
    ghost var m := mem[..];
    var dst: nat, src: nat, length: nat := dst0, src0, length0;
    MovedNone(m, dst, src);
    if length >= BIG_BLOCK && !Unaligned(src) && !Unaligned(dst) {
      while length >= BIG_BLOCK
        invariant Copying(mem[..], m, dst, src, length, dst0, src0, length0)
      {
        CopyNext(mem, dst, src, length, m, dst0, src0, length0);
        CopyNext(mem, dst + WORD, src + WORD, length - WORD, m, dst0, src0, length0);
        CopyNext(mem, dst + 2 * WORD, src + 2 * WORD, length - 2 * WORD, m, dst0, src0, length0);
        CopyNext(mem, dst + 3 * WORD, src + 3 * WORD, length - 3 * WORD, m, dst0, src0, length0);
        dst, src := dst + BIG_BLOCK, src + BIG_BLOCK;
        length := length - BIG_BLOCK;
      }
      while length >= WORD
        invariant Copying(mem[..], m, dst, src, length, dst0, src0, length0)
      {
        CopyNext(mem, dst, src, length, m, dst0, src0, length0);
        dst, src := dst + WORD, src + WORD;
        length := length - WORD;
      }
    }
    while length > 0
      invariant Copying(mem[..], m, dst, src, length, dst0, src0, length0)
    {
      MovedForward(m, dst0, src0, length0 - length, 1);
      assert |mem[..]| == |m|;
      CopyByte(mem, dst, src);
      length := length - 1;
      dst, src := dst + 1, src + 1;
    }
  }

  /** Copy a range that is overwritten from its end. */
  method CopyBackward(mem: array<Byte>, dst0: nat, src0: nat, length0: nat)
    requires dst0 + length0 <= mem.Length && src0 < dst0
    modifies mem
    ensures mem[..] == Moved(old(mem[..]), dst0, src0, length0)
  {
    hide Moved;
    ghost var m := mem[..];
    var length: nat := length0;
    var dst: nat, src: nat := dst0 + length, src0 + length;
    MovedNone(m, dst, src);
    while length > 0
      invariant length <= length0 && dst == dst0 + length && src == src0 + length && |m| == mem.Length
      invariant mem[..] == Moved(m, dst0 + length, src0 + length, length0 - length)
    {
      MovedBackward(m, dst0, src0, length0, length0 - length);
      dst, src := dst - 1, src - 1;
      CopyByte(mem, dst, src);
      length := length - 1;
    }
  }

  /** Move a range of memory, whatever the overlap: the bytes that were at the source end up at the destination,
      and nothing else changes. */
  method Memmove(mem: array<Byte>, dst: nat, src: nat, length: nat) returns (r: nat)
    requires dst + length <= mem.Length && src + length <= mem.Length
    modifies mem
    ensures r == dst && mem[..] == old(mem[..dst]) + old(mem[src..src + length]) + old(mem[dst + length..])
  {
    ghost var m := mem[..];
    if src < dst < src + length {
      // Destructive overlap: copy backwards.
      CopyBackward(mem, dst, src, length);
    } else {
      CopyForward(mem, dst, src, length);
    }
    assert m[..dst] == old(mem[..dst]) && m[src..src + length] == old(mem[src..src + length]) && m[dst + length..] == old(mem[dst + length..]);
    r := dst;
  }

  lemma FilledNone(m: seq<Byte>, a: nat, c: Byte)
    requires a <= |m|
    ensures Filled(m, a, 0, c) == m
  {
    assert Filled(m, a, 0, c) == m;
  }

  /** The state of a fill. */
  ghost predicate Filling(now: seq<Byte>, m: seq<Byte>, s: nat, left: nat, a: nat, length: nat, c: Byte) {
    a + length <= |m| && left <= length && s - a == length - left && now == Filled(m, a, length - left, c)
  }

  method FillByte(mem: array<Byte>, s: nat, c: Byte, ghost left: nat, ghost m: seq<Byte>, ghost a: nat, ghost length: nat)
    requires Filling(mem[..], m, s, left, a, length, c) && left > 0
    modifies mem
    ensures Filling(mem[..], m, s + 1, left - 1, a, length, c)
  {
    hide Filled;
    FilledMore(m, a, length - left, 1, c);
    assert |mem[..]| == |m|;
    FilledOne(mem[..], s, c);
    SetByte(mem, s, c);
  }

  method FillWord(mem: array<Byte>, s: nat, buffer: bv64, ghost c: Byte, ghost left: nat, ghost m: seq<Byte>, ghost a: nat, ghost length: nat)
    requires Filling(mem[..], m, s, left, a, length, c) && left >= WORD && buffer == Mask(c)
    modifies mem
    ensures Filling(mem[..], m, s + WORD, left - WORD, a, length, c)
  {
    hide Mask, Bytes;
    FilledMore(m, a, length - left, WORD, c);
    assert |mem[..]| == |m|;
    BytesOfMask(c);
    StoreWord(mem, s, buffer);
    assert mem[..] == Filled(old(mem[..]), s, WORD, c);
  }

  /** Set a range of memory to one byte, by words where it can be done; nothing else changes. */
  method Memset(mem: array<Byte>, a: nat, c: int, length: nat) returns (r: nat)
    requires a + length <= mem.Length
    modifies mem
    ensures r == a && mem[..] == old(mem[..a]) + seq(length, _ => (c % 256) as Byte) + old(mem[a + length..])
  {
    hide Mask, Filled;
    ghost var m := mem[..];
    var d := (c % 256) as Byte;
    var s: nat, n: nat := a, length;
    FilledNone(m, a, d);
    r := a;
    while Unaligned(s)
      invariant Filling(mem[..], m, s, n, a, length, d)
      decreases n
    {
      if n == 0 {
        FilledIs(m, a, length, d);
        return;
      }
      FillByte(mem, s, d, n, m, a, length);
      n := n - 1;
      s := s + 1;
    }
    if n >= WORD {
      var buffer := Mask(d);
      while n >= BIG_BLOCK
        invariant Filling(mem[..], m, s, n, a, length, d)
      {
        FillWord(mem, s, buffer, d, n, m, a, length);
        FillWord(mem, s + WORD, buffer, d, n - WORD, m, a, length);
        FillWord(mem, s + 2 * WORD, buffer, d, n - 2 * WORD, m, a, length);
        FillWord(mem, s + 3 * WORD, buffer, d, n - 3 * WORD, m, a, length);
        s := s + BIG_BLOCK;
        n := n - BIG_BLOCK;
      }
      while n >= WORD
        invariant Filling(mem[..], m, s, n, a, length, d)
      {
        FillWord(mem, s, buffer, d, n, m, a, length);
        s := s + WORD;
        n := n - WORD;
      }
    }
    while n > 0
      invariant Filling(mem[..], m, s, n, a, length, d)
    {
      FillByte(mem, s, d, n, m, a, length);
      n := n - 1;
      s := s + 1;
    }
    FilledIs(m, a, length, d);
  }

  lemma FilledIs(m: seq<Byte>, a: nat, n: nat, c: Byte)
    requires a + n <= |m|
    ensures Filled(m, a, n, c) == m[..a] + seq(n, _ => c) + m[a + n..]
  {
  }

  /** A word of memory. */
  function LoadWord(mem: array<Byte>, a: nat): (w: bv64)
    requires a + WORD <= mem.Length
    reads mem
    ensures w == WordAt(mem[..], a)
  {
    assert mem[a..a + WORD] == mem[..][a..a + WORD];
    Word(mem[a..a + WORD])
  }

  /** The byte has not been found so far. */
  ghost predicate Missing(m: seq<Byte>, start: nat, i: nat, d: Byte) {
    start <= i <= |m| && d !in m[start..i]
  }

  lemma MissingByte(m: seq<Byte>, start: nat, i: nat, d: Byte)
    requires Missing(m, start, i, d) && i < |m| && m[i] != d
    ensures Missing(m, start, i + 1, d)
  {
    assert m[start..i + 1] == m[start..i] + [m[i]];
  }

  lemma MissingWord(m: seq<Byte>, start: nat, i: nat, d: Byte)
    requires Missing(m, start, i, d) && i + WORD <= |m| && DetectChar(WordAt(m, i), Mask(d)) == 0
    ensures Missing(m, start, i + WORD, d)
  {
    hide Word, Mask, DetectChar;
    DetectCharIs(m[i..i + WORD], d);
    assert m[start..i + WORD] == m[start..i] + m[i..i + WORD];
  }

  /** The first occurrence of a byte in a range of memory, or none. */
  method Memchr(mem: array<Byte>, start: nat, c: int, count: nat) returns (r: Option<nat>)
    requires start + count <= mem.Length
    ensures r.None? ==> (c % 256) as Byte !in mem[start..start + count]
    ensures r.Some? ==> start <= r.value < start + count && mem[r.value] == (c % 256) as Byte && (c % 256) as Byte !in mem[start..r.value]
  {
    var d := (c % 256) as Byte;
    r := FindByte(mem, start, d, count);
    ghost var m := mem[..];
    assert m[start..start + count] == mem[start..start + count];
    assert r.Some? ==> m[start..r.value] == mem[start..r.value];
  }

  method FindByte(mem: array<Byte>, start: nat, d: Byte, count: nat) returns (r: Option<nat>)
    requires start + count <= mem.Length
    ensures r.None? ==> Missing(mem[..], start, start + count, d)
    ensures r.Some? ==> start <= r.value < start + count && mem[r.value] == d && Missing(mem[..], start, r.value, d)
  {
    hide Mask, WordAt, DetectChar, Missing, Unaligned;
    ghost var m := mem[..];
    var src: nat, length: nat := start, count;
    MissingNone(m, start, d);
    while Unaligned(src)
      invariant length <= count && src == start + count - length && Missing(m, start, src, d)
      decreases length
    {
      if length == 0 {
        return None;
      }
      length := length - 1;
      if mem[src] == d {
        return Some(src);
      }
      MissingByte(m, start, src, d);
      src := src + 1;
    }
    if length >= WORD {
      var mask := Mask(d);
      while length >= WORD
        invariant length <= count && src == start + count - length && Missing(m, start, src, d)
      {
        if DetectChar(LoadWord(mem, src), mask) != 0 {
          break;
        }
        MissingWord(m, start, src, d);
        length := length - WORD;
        src := src + WORD;
      }
    }
    while length > 0
      invariant length <= count && src == start + count - length && Missing(m, start, src, d)
    {
      length := length - 1;
      if mem[src] == d {
        return Some(src);
      }
      MissingByte(m, start, src, d);
      src := src + 1;
    }
    return None;
  }

  lemma MissingNone(m: seq<Byte>, start: nat, d: Byte)
    requires start <= |m|
    ensures Missing(m, start, start, d)
  {
  }

  /** The ranges of `n` bytes at two addresses compare with that result. */
  ghost predicate Remaining(m: seq<Byte>, i: nat, j: nat, n: nat, result: int) {
    i + n <= |m| && j + n <= |m| && Compare(m[i..i + n], m[j..j + n]) == result
  }

  lemma RemainingStretch(m: seq<Byte>, i: nat, j: nat, n: nat, k: nat, result: int)
    requires Remaining(m, i, j, n, result) && k <= n && m[i..i + k] == m[j..j + k]
    ensures Remaining(m, i + k, j + k, n - k, result)
  {
    assert m[i..i + n] == m[i..i + k] + m[i + k..i + n] && m[j..j + n] == m[j..j + k] + m[j + k..j + n];
    CompareSkips(m[i..i + k], m[i + k..i + n], m[j + k..j + n]);
  }

  lemma RemainingByte(m: seq<Byte>, i: nat, j: nat, n: nat, result: int)
    requires Remaining(m, i, j, n, result)
    ensures n == 0 ==> result == 0
    ensures n > 0 && m[i] != m[j] ==> result == Difference(m[i], m[j])
    ensures n > 0 && m[i] == m[j] ==> Remaining(m, i + 1, j + 1, n - 1, result)
  {
    if n > 0 && m[i] == m[j] {
      assert m[i..i + 1] == m[j..j + 1];
      RemainingStretch(m, i, j, n, 1, result);
    }
  }

  lemma RemainingWord(m: seq<Byte>, i: nat, j: nat, n: nat, result: int)
    requires Remaining(m, i, j, n, result) && n >= WORD && WordAt(m, i) == WordAt(m, j)
    ensures Remaining(m, i + WORD, j + WORD, n - WORD, result)
  {
    hide Word;
    WordsEqual(m[i..i + WORD], m[j..j + WORD]);
    RemainingStretch(m, i, j, n, WORD, result);
  }

  /** Compare two ranges of memory: exactly the comparison a byte at a time. */
  method Memcmp(mem: array<Byte>, m1: nat, m2: nat, count: nat) returns (r: int)
    requires m1 + count <= mem.Length && m2 + count <= mem.Length
    ensures r == Compare(mem[m1..m1 + count], mem[m2..m2 + count])
  {
    hide Unaligned, Compare, WordAt, Difference, Remaining;
    var s1: nat, s2: nat, n: nat := m1, m2, count;
    ghost var m, result := mem[..], Compare(mem[m1..m1 + count], mem[m2..m2 + count]);
    assert m[m1..m1 + count] == mem[m1..m1 + count] && m[m2..m2 + count] == mem[m2..m2 + count];
    RemainingAll(m, m1, m2, count);
    // Compare a word at a time, if that can be done.
    if n >= WORD && !Unaligned(s1) && !Unaligned(s2) {
      s1, s2, n := SkipEqualWords(mem, s1, s2, n, result);
    }
    while n > 0
      invariant s1 + n <= |m| && s2 + n <= |m| && Remaining(m, s1, s2, n, result)
    {
      RemainingByte(m, s1, s2, n, result);
      n := n - 1;
      if mem[s1] != mem[s2] {
        return Difference(mem[s1], mem[s2]);
      }
      s1, s2 := s1 + 1, s2 + 1;
    }
    RemainingByte(m, s1, s2, n, result);
    return 0;
  }

  /** The first loop of memcmp: it stops at words that differ, or near the end. */
  method SkipEqualWords(mem: array<Byte>, m1: nat, m2: nat, count: nat, ghost result: int) returns (s1: nat, s2: nat, n: nat)
    requires m1 + count <= mem.Length && m2 + count <= mem.Length && Remaining(mem[..], m1, m2, count, result)
    ensures s1 + n <= mem.Length && s2 + n <= mem.Length && Remaining(mem[..], s1, s2, n, result)
  {
    hide WordAt, Remaining;
    ghost var m := mem[..];
    s1, s2, n := m1, m2, count;
    while n >= WORD
      invariant s1 + n <= |m| && s2 + n <= |m| && Remaining(m, s1, s2, n, result)
    {
      if LoadWord(mem, s1) != LoadWord(mem, s2) {
        break;
      }
      RemainingWord(m, s1, s2, n, result);
      s1, s2 := s1 + WORD, s2 + WORD;
      n := n - WORD;
    }
  }

  lemma RemainingAll(m: seq<Byte>, i: nat, j: nat, n: nat)
    requires i + n <= |m| && j + n <= |m|
    ensures Remaining(m, i, j, n, Compare(m[i..i + n], m[j..j + n]))
  {
  }

  lemma WholeWord(length: nat, i: nat)
    requires WholeWords(length) && !Unaligned(i) && i < length
    ensures i + WORD <= length
  {
  }

  lemma NextWord(i: nat)
    requires !Unaligned(i)
    ensures !Unaligned(i + WORD)
  {
  }

  /** No null has been found yet. */
  ghost predicate Searching(m: seq<Byte>, start: nat, i: nat) {
    start <= i < |m| && 0 !in m[start..i] && Terminated(m, i)
  }

  lemma StepOver(m: seq<Byte>, start: nat, i: nat, k: nat)
    requires Searching(m, start, i) && i + k <= |m| && 0 !in m[i..i + k]
    ensures Searching(m, start, i + k)
  {
    TextSkips(m, i, k);
    assert m[start..i + k] == m[start..i] + m[i..i + k];
  }

  lemma StepOverByte(m: seq<Byte>, start: nat, i: nat)
    requires Searching(m, start, i)
    ensures m[i] == 0 ==> i - start == |Text(m, start)|
    ensures m[i] != 0 ==> Searching(m, start, i + 1)
  {
    assert m[i..i + 1] == [m[i]];
    if m[i] == 0 {
      TextStops(m, start, i - start);
    } else {
      StepOver(m, start, i, 1);
    }
  }

  lemma StepOverWord(m: seq<Byte>, start: nat, i: nat)
    requires Searching(m, start, i) && i + WORD <= |m| && DetectNull(WordAt(m, i)) == 0
    ensures Searching(m, start, i + WORD)
  {
    hide DetectNull, Word;
    DetectNullIs(m[i..i + WORD]);
    StepOver(m, start, i, WORD);
  }

  /** The length of a string. Reading whole words never goes past the word of its null. */
  method Strlen(mem: array<Byte>, start: nat) returns (r: nat)
    requires WholeWords(mem.Length) && start < mem.Length && Terminated(mem[..], start)
    ensures r == |Text(mem[..], start)|
  {
    hide Unaligned, WholeWords, WordAt, DetectNull, Text, Terminated, Searching;
    var str: nat := start;
    ghost var m := mem[..];
    StartSearch(m, start);
    while Unaligned(str)
      invariant str < |m| && Searching(m, start, str)
      decreases |m| - str
    {
      StepOverByte(m, start, str);
      if mem[str] == 0 {
        return str - start;
      }
      str := str + 1;
      InSearch(m, start, str);
    }
    WholeWord(mem.Length, str);
    while DetectNull(LoadWord(mem, str)) == 0
      invariant str + WORD <= |m| && !Unaligned(str) && Searching(m, start, str)
      decreases |m| - str
    {
      StepOverWord(m, start, str);
      NextWord(str);
      str := str + WORD;
      InSearch(m, start, str);
      WholeWord(mem.Length, str);
    }
    while mem[str] != 0
      invariant str < |m| && Searching(m, start, str)
      decreases |m| - str
    {
      StepOverByte(m, start, str);
      str := str + 1;
      InSearch(m, start, str);
    }
    StepOverByte(m, start, str);
    InSearch(m, start, str);
    return str - start;
  }

  lemma StartSearch(m: seq<Byte>, i: nat)
    requires i < |m| && Terminated(m, i)
    ensures Searching(m, i, i)
  {
  }

  lemma InSearch(m: seq<Byte>, start: nat, i: nat)
    requires Searching(m, start, i)
    ensures start <= i < |m|
  {
  }

  /** Enough bytes follow for a comparison of up to `n`. */
  predicate Enough(m: seq<Byte>, i: nat, n: nat) {
    i <= |m| && (i + n <= |m| || Terminated(m, i))
  }

  /** How the strings at two addresses compare, up to a length. */
  function CompareAt(m: seq<Byte>, i: nat, j: nat, n: nat): int
    requires i <= |m| && j <= |m|
  {
    Compare(Take(Text(m, i), n), Take(Text(m, j), n))
  }

  /** What remains to be compared decides. */
  ghost predicate Undecided(m: seq<Byte>, i: nat, j: nat, n: nat, result: int) {
    Enough(m, i, n) && Enough(m, j, n) && 0 < n && CompareAt(m, i, j, n) == result
  }

  lemma UndecidedInside(m: seq<Byte>, i: nat, j: nat, n: nat, result: int)
    requires Undecided(m, i, j, n, result)
    ensures i < |m| && j < |m| && n > 0
  {
  }

  /** The stretch that words or bytes compare equal ends both strings, or more has to be compared. */
  lemma Stretch(m: seq<Byte>, i: nat, j: nat, k: nat, n: nat, result: int)
    requires Undecided(m, i, j, n, result) && 0 < k <= n && i + k <= |m| && j + k <= |m| && m[i..i + k] == m[j..j + k]
    ensures 0 in m[i..i + k] || n == k ==> result == 0
    ensures 0 !in m[i..i + k] && n > k ==> Undecided(m, i + k, j + k, n - k, result)
    ensures 0 !in m[i..i + k] ==> (Terminated(m, i) ==> Terminated(m, i + k)) && (Terminated(m, j) ==> Terminated(m, j + k))
  {
    hide Text, Compare, Take, Terminated;
    if 0 in m[i..i + k] || n == k {
      EqualEnd(m, i, j, k, n);
    }
    if 0 !in m[i..i + k] {
      EqualStretch(m, i, j, k, n);
    }
  }

  lemma WordStretch(m: seq<Byte>, i: nat, j: nat, n: nat, result: int)
    requires Undecided(m, i, j, n, result) && WORD <= n && i + WORD <= |m| && j + WORD <= |m| && WordAt(m, i) == WordAt(m, j)
    ensures DetectNull(WordAt(m, i)) != 0 || n == WORD ==> result == 0
    ensures DetectNull(WordAt(m, i)) == 0 && n > WORD ==> Undecided(m, i + WORD, j + WORD, n - WORD, result)
    ensures DetectNull(WordAt(m, i)) == 0 ==> (Terminated(m, i) ==> Terminated(m, i + WORD)) && (Terminated(m, j) ==> Terminated(m, j + WORD))
  {
    hide DetectNull, Word, Undecided, Terminated;
    WordsEqual(m[i..i + WORD], m[j..j + WORD]);
    DetectNullIs(m[i..i + WORD]);
    Stretch(m, i, j, WORD, n, result);
  }

  lemma ByteStretch(m: seq<Byte>, i: nat, j: nat, n: nat, result: int)
    requires Undecided(m, i, j, n, result) && i < |m| && j < |m|
    ensures m[i] != m[j] || m[i] == 0 ==> result == Difference(m[i], m[j])
    ensures m[i] == m[j] && (n == 1 || m[i] == 0) ==> result == 0
    ensures m[i] == m[j] && n > 1 && m[i] != 0 ==> Undecided(m, i + 1, j + 1, n - 1, result)
    ensures m[i] == m[j] && m[i] != 0 ==> (Terminated(m, i) ==> Terminated(m, i + 1)) && (Terminated(m, j) ==> Terminated(m, j + 1))
  {
    hide Text, Compare, Take, Terminated;
    assert m[i..i + 1] == [m[i]] && m[j..j + 1] == [m[j]];
    if m[i] != m[j] || m[i] == 0 {
      FirstBytes(m, i, j, n);
    }
    if m[i] == m[j] {
      Stretch(m, i, j, 1, n, result);
    }
  }

  /** Where strings differ, or the first one ends, their bytes there say how they compare. */
  lemma FirstBytes(m: seq<Byte>, i: nat, j: nat, n: nat)
    requires i < |m| && j < |m| && n > 0 && (m[i] == 0 || m[i] != m[j])
    ensures CompareAt(m, i, j, n) == Difference(m[i], m[j])
  {
    ByteAsInt(m[i], 0);
    ByteAsInt(m[j], 0);
    var a, b := Take(Text(m, i), n), Take(Text(m, j), n);
    assert if m[i] == 0 then a == [] else a != [] && a[0] == m[i];
    assert if m[j] == 0 then b == [] else b != [] && b[0] == m[j];
  }

  /** Compare two strings: exactly the comparison a byte at a time, of the strings up to their nulls. */
  method Strcmp(mem: array<Byte>, a: nat, b: nat) returns (r: int)
    requires WholeWords(mem.Length) && a < mem.Length && b < mem.Length && Terminated(mem[..], a) && Terminated(mem[..], b)
    ensures r == Compare(Text(mem[..], a), Text(mem[..], b))
  {
    hide Unaligned, WholeWords, WordAt, DetectNull, Compare, Text, Undecided, Terminated, Difference;
    var s1: nat, s2: nat := a, b;
    ghost var m, n: nat, result := mem[..], mem.Length, Compare(Text(mem[..], a), Text(mem[..], b));
    StartCompare(m, a, b);
    // If both strings are aligned, compare them a word at a time.
    if !Unaligned(s1) && !Unaligned(s2) {
      var equal;
      equal, s1, s2, n := SkipWords(mem, s1, s2, n, result);
      if equal {
        return 0;
      }
    }
    while mem[s1] != 0 && mem[s1] == mem[s2]
      invariant Open(m, s1, s2, n, result)
      decreases |m| - s1
    {
      ByteStretch(m, s1, s2, n, result);
      TerminatedInside(m, s1 + 1, s2 + 1);
      s1, s2, n := s1 + 1, s2 + 1, n - 1;
    }
    ByteStretch(m, s1, s2, n, result);
    return Difference(mem[s1], mem[s2]);
  }

  /** The first loop of strcmp: stop at words that differ, or at a null in words that are equal. */
  method SkipWords(mem: array<Byte>, a: nat, b: nat, ghost count: nat, ghost result: int)
    returns (equal: bool, s1: nat, s2: nat, ghost n: nat)
    requires WholeWords(mem.Length) && !Unaligned(a) && !Unaligned(b) && Open(mem[..], a, b, count, result)
    ensures if equal then result == 0 else Open(mem[..], s1, s2, n, result)
  {
    hide Unaligned, WholeWords, WordAt, DetectNull, Undecided, Terminated;
    ghost var m := mem[..];
    s1, s2, n := a, b, count;
    WholeWord(mem.Length, s1);
    WholeWord(mem.Length, s2);
    while LoadWord(mem, s1) == LoadWord(mem, s2)
      invariant s1 + WORD <= |m| && s2 + WORD <= |m| && !Unaligned(s1) && !Unaligned(s2) && Open(m, s1, s2, n, result)
      decreases |m| - s1
    {
      WordStretch(m, s1, s2, n, result);
      if DetectNull(LoadWord(mem, s1)) != 0 {
        return true, s1, s2, n;
      }
      TerminatedInside(m, s1 + WORD, s2 + WORD);
      NextWord(s1);
      NextWord(s2);
      s1, s2, n := s1 + WORD, s2 + WORD, n - WORD;
      WholeWord(mem.Length, s1);
      WholeWord(mem.Length, s2);
    }
    equal := false;
  }

  /** Two terminated strings still to be compared, up to a length that neither reaches. */
  ghost predicate Open(m: seq<Byte>, i: nat, j: nat, n: nat, result: int) {
    && i < |m| && j < |m| && |m| <= i + n && |m| <= j + n
    && Terminated(m, i) && Terminated(m, j) && Undecided(m, i, j, n, result)
  }

  lemma TerminatedInside(m: seq<Byte>, i: nat, j: nat)
    requires Terminated(m, i) && Terminated(m, j)
    ensures i < |m| && j < |m|
  {
  }

  lemma StartCompare(m: seq<Byte>, a: nat, b: nat)
    requires a < |m| && b < |m| && Terminated(m, a) && Terminated(m, b)
    ensures Undecided(m, a, b, |m|, Compare(Text(m, a), Text(m, b)))
  {
  }

  /** Compare two strings up to a length: exactly the comparison a byte at a time. The strings need not be
      terminated when there are that many bytes of them. */
  method Strncmp(mem: array<Byte>, a: nat, b: nat, count: nat) returns (r: int)
    requires WholeWords(mem.Length) && Enough(mem[..], a, count) && Enough(mem[..], b, count)
    ensures r == CompareAt(mem[..], a, b, count)
  {
    hide Unaligned, WholeWords, WordAt, DetectNull, CompareAt, Text, Enough, Undecided, Difference;
    var s1: nat, s2: nat, n: nat := a, b, count;
    ghost var m := mem[..];
    EnoughInside(m, a, count);
    EnoughInside(m, b, count);
    ghost var result := CompareAt(m, a, b, count);
    if n == 0 {
      CompareNothing(m, a, b);
      return 0;
    }
    StartCompareUpTo(m, a, b, n);
    UndecidedInside(m, s1, s2, n, result);
    if !Unaligned(s1) && !Unaligned(s2) {
      var equal;
      equal, s1, s2, n := SkipWordsUpTo(mem, s1, s2, n, result);
      if equal {
        return 0;
      }
    }
    UndecidedInside(m, s1, s2, n, result);
    while n > 0 && mem[s1] == mem[s2]
      invariant n > 0 && s1 < |m| && s2 < |m| && Undecided(m, s1, s2, n, result)
      decreases n
    {
      ByteStretch(m, s1, s2, n, result);
      n := n - 1;
      if n == 0 || mem[s1] == 0 {
        return 0;
      }
      s1, s2 := s1 + 1, s2 + 1;
      UndecidedInside(m, s1, s2, n, result);
    }
    ByteStretch(m, s1, s2, n, result);
    return Difference(mem[s1], mem[s2]);
  }

  /** The first loop of strncmp, for strings of which something is left to be compared. */
  method SkipWordsUpTo(mem: array<Byte>, a: nat, b: nat, count: nat, ghost result: int) returns (equal: bool, s1: nat, s2: nat, n: nat)
    requires WholeWords(mem.Length) && !Unaligned(a) && !Unaligned(b) && Undecided(mem[..], a, b, count, result)
    ensures if equal then result == 0 else Undecided(mem[..], s1, s2, n, result)
  {
    hide Unaligned, WholeWords, WordAt, DetectNull, Undecided;
    ghost var m := mem[..];
    s1, s2, n := a, b, count;
    UndecidedInside(m, s1, s2, n, result);
    WholeWord(mem.Length, s1);
    WholeWord(mem.Length, s2);
    while n >= WORD && LoadWord(mem, s1) == LoadWord(mem, s2)
      invariant s1 + WORD <= |m| && s2 + WORD <= |m| && !Unaligned(s1) && !Unaligned(s2) && Undecided(m, s1, s2, n, result)
      decreases n
    {
      WordStretch(m, s1, s2, n, result);
      n := n - WORD;
      if n == 0 || DetectNull(LoadWord(mem, s1)) != 0 {
        return true, s1, s2, n;
      }
      NextWord(s1);
      NextWord(s2);
      s1, s2 := s1 + WORD, s2 + WORD;
      UndecidedInside(m, s1, s2, n, result);
      WholeWord(mem.Length, s1);
      WholeWord(mem.Length, s2);
    }
    equal := false;
  }

  lemma EnoughInside(m: seq<Byte>, i: nat, n: nat)
    requires Enough(m, i, n)
    ensures i <= |m|
  {
  }

  lemma StartCompareUpTo(m: seq<Byte>, a: nat, b: nat, n: nat)
    requires Enough(m, a, n) && Enough(m, b, n) && n > 0
    ensures Undecided(m, a, b, n, CompareAt(m, a, b, n))
  {
  }

  lemma CompareNothing(m: seq<Byte>, i: nat, j: nat)
    requires i <= |m| && j <= |m|
    ensures CompareAt(m, i, j, 0) == 0
  {
  }
}
