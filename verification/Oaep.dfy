/** The OAEP encoding of RFC 8017, section 7.1, with MGF1 of section B.2.1, for any hash function with
    results of 32 bytes, and keys of 256 bytes. */
module OaepFormat {
  import opened Options

  const HASH_SIZE: nat := 32
  const RSA_SIZE: nat := 0x100
  const DB_SIZE: nat := RSA_SIZE - HASH_SIZE - 1

  type Bytes = seq<bv8>

  ghost predicate IsHash(hash: Bytes -> Bytes) {
    forall x :: |hash(x)| == HASH_SIZE
  }

  /** A counter as four bytes, most significant first. */
  function BigEndian(n: nat): (s: Bytes)
    requires n < 0x1_0000_0000
    ensures |s| == 4
  {
    [(n / 0x100_0000) as bv8, (n / 0x1_0000 % 0x100) as bv8, (n / 0x100 % 0x100) as bv8, (n % 0x100) as bv8]
  }

  /** The most significant byte comes first. */
  lemma BigEndianOrder()
    ensures BigEndian(0x0102_0304) == [1, 2, 3, 4]
  {
    assert 0x0102_0304 / 0x100_0000 == 1 && 0x0102_0304 / 0x1_0000 % 0x100 == 2;
    assert 0x0102_0304 / 0x100 % 0x100 == 3 && 0x0102_0304 % 0x100 == 4;
  }

  /** The concatenation of the hashes of the seed with the first `n` counters. */
  function Hashes(hash: Bytes -> Bytes, seed: Bytes, n: nat): (t: Bytes)
    requires IsHash(hash) && n <= 0x1_0000_0000
    ensures |t| == n * HASH_SIZE
  {
    if n == 0 then [] else Hashes(hash, seed, n - 1) + hash(seed + BigEndian(n - 1))
  }

  /** MGF1: as many of those bytes as the mask needs. */
  function Mgf1(hash: Bytes -> Bytes, seed: Bytes, maskLen: nat): (mask: Bytes)
    requires IsHash(hash) && maskLen <= 0x1_0000_0000 * HASH_SIZE
    ensures |mask| == maskLen
  {
    Hashes(hash, seed, (maskLen + HASH_SIZE - 1) / HASH_SIZE)[..maskLen]
  }

  function Xor(a: Bytes, b: Bytes): (c: Bytes)
    requires |a| == |b|
    ensures |c| == |a|
  {
    seq(|a|, i requires 0 <= i < |a| => a[i] ^ b[i])
  }

  lemma XorTwice(a: Bytes, b: Bytes)
    requires |a| == |b|
    ensures Xor(Xor(a, b), b) == a
  {
    forall i | 0 <= i < |a| ensures Xor(Xor(a, b), b)[i] == a[i] {
      XorBack(a[i], b[i]);
    }
  }

  lemma XorBack(a: bv8, b: bv8)
    ensures (a ^ b) ^ b == a
  {
  }

  function Zeros(n: nat): (s: Bytes)
    ensures |s| == n
  {
    seq(n, i => 0)
  }

  /** The data block: the digest of the label, zeros, a one, and the message. */
  function DataBlock(labelDigest: Bytes, message: Bytes): (db: Bytes)
    requires |labelDigest| == HASH_SIZE && |message| <= DB_SIZE - HASH_SIZE - 1
    ensures |db| == DB_SIZE
  {
    labelDigest + Zeros(DB_SIZE - HASH_SIZE - 1 - |message|) + [1] + message
  }

  /** The encoding operation. */
  function Encode(hash: Bytes -> Bytes, labelDigest: Bytes, seed: Bytes, message: Bytes): (em: Bytes)
    requires IsHash(hash) && |labelDigest| == HASH_SIZE && |seed| == HASH_SIZE && |message| <= DB_SIZE - HASH_SIZE - 1
    ensures |em| == RSA_SIZE
  {
    var maskedDb := Xor(DataBlock(labelDigest, message), Mgf1(hash, seed, DB_SIZE));
    [0] + Xor(seed, Mgf1(hash, maskedDb, HASH_SIZE)) + maskedDb
  }

  /** The number of zeros that a string starts with. */
  function LeadingZeros(s: Bytes): (k: nat)
    ensures k <= |s| && (k < |s| ==> s[k] != 0) && forall i :: 0 <= i < k ==> s[i] == 0
  {
    if s == [] || s[0] != 0 then 0 else 1 + LeadingZeros(s[1..])
  }

  /** The message after the padding: what follows the first byte that is not zero, which must be a one.
      With nothing but zeros, all of it. */
  function Unpad(s: Bytes): Option<Bytes> {
    var k := LeadingZeros(s);
    if k == |s| then Some(s) else if s[k] == 1 then Some(s[k + 1..]) else None
  }

  /** The seed and the data block that are in an encoded message. */
  function Unmask(hash: Bytes -> Bytes, em: Bytes): (r: (Bytes, Bytes))
    requires IsHash(hash) && |em| == RSA_SIZE
    ensures |r.0| == HASH_SIZE && |r.1| == DB_SIZE
  {
    var seed := Xor(em[1..1 + HASH_SIZE], Mgf1(hash, em[1 + HASH_SIZE..], HASH_SIZE));
    (seed, Xor(em[1 + HASH_SIZE..], Mgf1(hash, seed, DB_SIZE)))
  }

  /** What decoding makes of an encoded message: nothing at all if anything about it is wrong. */
  function Decoded(hash: Bytes -> Bytes, em: Bytes, labelDigest: Bytes): Bytes
    requires IsHash(hash) && |em| == RSA_SIZE && |labelDigest| == HASH_SIZE
  {
    var db := Unmask(hash, em).1;
    if em[0] == 0 && db[..HASH_SIZE] == labelDigest && Unpad(db[HASH_SIZE..]).Some? then Unpad(db[HASH_SIZE..]).value else []
  }

  /** The masks of an encoding come off. */
  lemma UnmaskEncode(hash: Bytes -> Bytes, labelDigest: Bytes, seed: Bytes, message: Bytes)
    requires IsHash(hash) && |labelDigest| == HASH_SIZE && |seed| == HASH_SIZE && |message| <= DB_SIZE - HASH_SIZE - 1
    ensures Unmask(hash, Encode(hash, labelDigest, seed, message)) == (seed, DataBlock(labelDigest, message))
  {
    hide Mgf1, DataBlock;
    var em, db := Encode(hash, labelDigest, seed, message), DataBlock(labelDigest, message);
    var maskedDb := Xor(db, Mgf1(hash, seed, DB_SIZE));
    assert em[1..1 + HASH_SIZE] == Xor(seed, Mgf1(hash, maskedDb, HASH_SIZE)) && em[1 + HASH_SIZE..] == maskedDb;
    XorTwice(seed, Mgf1(hash, maskedDb, HASH_SIZE));
    XorTwice(db, Mgf1(hash, seed, DB_SIZE));
  }

  /** What is under the masks determines the encoded message. */
  lemma EncodeUnmask(hash: Bytes -> Bytes, labelDigest: Bytes, message: Bytes, em: Bytes)
    requires IsHash(hash) && |em| == RSA_SIZE && em[0] == 0
    requires |labelDigest| == HASH_SIZE && |message| <= DB_SIZE - HASH_SIZE - 1
    requires Unmask(hash, em).1 == DataBlock(labelDigest, message)
    ensures Encode(hash, labelDigest, Unmask(hash, em).0, message) == em
  {
    hide Mgf1, DataBlock;
    var a, b := em[1..1 + HASH_SIZE], em[1 + HASH_SIZE..];
    var seed := Unmask(hash, em).0;
    XorTwice(b, Mgf1(hash, seed, DB_SIZE));
    XorTwice(a, Mgf1(hash, b, HASH_SIZE));
    assert em == [em[0]] + a + b;
  }

  lemma DataBlockParts(labelDigest: Bytes, message: Bytes)
    requires |labelDigest| == HASH_SIZE && |message| <= DB_SIZE - HASH_SIZE - 1
    ensures var db := DataBlock(labelDigest, message);
            db[..HASH_SIZE] == labelDigest && db[HASH_SIZE..] == Zeros(DB_SIZE - HASH_SIZE - 1 - |message|) + ([1] + message)
  {
  }

  /** Decoding an encoding gives back the message, and nothing when the label is another one. */
  lemma DecodeEncode(hash: Bytes -> Bytes, labelDigest: Bytes, seed: Bytes, message: Bytes, expected: Bytes)
    requires IsHash(hash) && |labelDigest| == |expected| == HASH_SIZE && |seed| == HASH_SIZE && |message| <= DB_SIZE - HASH_SIZE - 1
    ensures Decoded(hash, Encode(hash, labelDigest, seed, message), expected) == if expected == labelDigest then message else []
  {
    hide Mgf1, DataBlock;
    var n := DB_SIZE - HASH_SIZE - 1 - |message|;
    UnmaskEncode(hash, labelDigest, seed, message);
    DataBlockParts(labelDigest, message);
    ZerosCounted(n, [1] + message);
    var s := Zeros(n) + ([1] + message);
    assert s[n] == 1 && s[n + 1..] == message;
  }

  /** Only encodings with the right label are decoded to anything, apart from a data block that is zero after the digest. */
  lemma OnlyEncodings(hash: Bytes -> Bytes, em: Bytes, labelDigest: Bytes)
    requires IsHash(hash) && |em| == RSA_SIZE && |labelDigest| == HASH_SIZE && Decoded(hash, em, labelDigest) != []
    ensures var m := Decoded(hash, em, labelDigest);
            || (|m| <= DB_SIZE - HASH_SIZE - 1 && em == Encode(hash, labelDigest, Unmask(hash, em).0, m))
            || (em[0] == 0 && Unmask(hash, em).1 == labelDigest + Zeros(DB_SIZE - HASH_SIZE))
  {
    hide Mgf1, Unmask;
    var db, m := Unmask(hash, em).1, Decoded(hash, em, labelDigest);
    var s := db[HASH_SIZE..];
    var k := LeadingZeros(s);
    assert db == db[..HASH_SIZE] + s;
    if k == |s| {
      assert s == Zeros(|s|);
    } else {
      assert s == Zeros(k) + [1] + m;
      assert DataBlock(labelDigest, m) == labelDigest + (Zeros(k) + [1] + m);
      EncodeUnmask(hash, labelDigest, m, em);
    }
  }

  lemma {:induction false} ZerosCounted(n: nat, rest: Bytes)
    requires rest != [] && rest[0] != 0
    ensures LeadingZeros(Zeros(n) + rest) == n
  {
    var s := Zeros(n) + rest;
    if n > 0 {
      assert s[1..] == Zeros(n - 1) + rest;
      ZerosCounted(n - 1, rest);
    } else {
      assert s == rest;
    }
  }

  /** What the standard demands and the decoder does not: a one after the zeros. The encodings for which
      that makes a difference are those with a data block of zeros. */
  lemma SeparatorMissed(s: Bytes)
    ensures Unpad(s).Some? && !(exists k :: 0 <= k < |s| && s[k] == 1 && forall i :: 0 <= i < k ==> s[i] == 0) <==> s == Zeros(|s|)
  {
    var k := LeadingZeros(s);
    if k == |s| {
      assert s == Zeros(|s|);
    } else if s[k] == 1 {
      assert s[k] == 1 && forall i :: 0 <= i < k ==> s[i] == 0;
    }
  }
}

/** Decoding in place. */
module Oaep {
  import opened OaepFormat

  /** The bytes `s` with the mask applied from `at` on. */
  function Masked(s: Bytes, at: nat, mask: Bytes): Bytes
    requires at + |mask| <= |s|
  {
    s[..at] + Xor(s[at..at + |mask|], mask) + s[at + |mask|..]
  }

  lemma {:induction false} HashesPrefix(hash: Bytes -> Bytes, seed: Bytes, m: nat, n: nat)
    requires IsHash(hash) && m <= n <= 0x1_0000_0000
    ensures m * HASH_SIZE <= n * HASH_SIZE && Hashes(hash, seed, n)[..m * HASH_SIZE] == Hashes(hash, seed, m)
  {
    if m < n {
      HashesPrefix(hash, seed, m, n - 1);
    }
  }

  /** The mask of one round is the next part of the mask generation function. */
  lemma MaskPart(hash: Bytes -> Bytes, seed: Bytes, len: nat, counter: nat, cur: nat)
    requires IsHash(hash) && len <= RSA_SIZE && counter * HASH_SIZE < len && cur <= len - counter * HASH_SIZE && cur <= HASH_SIZE
    ensures counter < 0x1_0000_0000 && forall i :: 0 <= i < cur ==>
              hash(seed + BigEndian(counter))[i] == Mgf1(hash, seed, len)[counter * HASH_SIZE + i]
  {
    var n := (len + HASH_SIZE - 1) / HASH_SIZE;
    HashesPrefix(hash, seed, counter + 1, n);
    var t := Hashes(hash, seed, counter + 1);
    forall i | 0 <= i < cur ensures hash(seed + BigEndian(counter))[i] == Mgf1(hash, seed, len)[counter * HASH_SIZE + i] {
      assert t[counter * HASH_SIZE + i] == hash(seed + BigEndian(counter))[i];
    }
  }

  /** Mask one part of a buffer with the mask that another part generates, a hash at a time. */
  method ApplyMgf1(hash: Bytes -> Bytes, buf: array<bv8>, dst: nat, dstSize: nat, src: nat, srcSize: nat)
    requires IsHash(hash) && srcSize <= RSA_SIZE - (1 + HASH_SIZE) && dstSize <= RSA_SIZE
    requires dst + dstSize <= buf.Length && src + srcSize <= buf.Length && (dst + dstSize <= src || src + srcSize <= dst)
    modifies buf
    ensures buf[..] == Masked(old(buf[..]), dst, Mgf1(hash, old(buf[src..src + srcSize]), dstSize))
  {
    hide Mgf1, Hashes, Masked, BigEndian;
    ghost var s, seed := buf[..], buf[src..src + srcSize];
    ghost var mask := Mgf1(hash, seed, dstSize);
    var counter, done := 0, 0;
    while done < dstSize
      invariant 0 <= done <= dstSize && counter >= 0 && (done < dstSize ==> done == counter * HASH_SIZE)
      invariant forall k {:trigger buf[k]} :: 0 <= k < buf.Length ==>
                  buf[k] == if dst <= k < dst + done then s[k] ^ mask[k - dst] else s[k]
      decreases dstSize - done
    {
      var curSize := if HASH_SIZE < dstSize - done then HASH_SIZE else dstSize - done;
      assert buf[src..src + srcSize] == seed;
      MaskPart(hash, seed, dstSize, counter, curSize);
      var bytes := hash(buf[src..src + srcSize] + BigEndian(counter));
      for i := 0 to curSize
        invariant forall k {:trigger buf[k]} :: 0 <= k < buf.Length ==>
                    buf[k] == if dst <= k < dst + done + i then s[k] ^ mask[k - dst] else s[k]
      {
        buf[dst + done + i] := buf[dst + done + i] ^ bytes[i];
      }
      counter, done := counter + 1, done + curSize;
    }
    MaskedIs(s, dst, mask, buf[..]);
  }

  lemma MaskedIs(s: Bytes, at: nat, mask: Bytes, t: Bytes)
    requires at + |mask| <= |s| == |t|
    requires forall k {:trigger t[k]} :: 0 <= k < |t| ==> t[k] == if at <= k < at + |mask| then s[k] ^ mask[k - at] else s[k]
    ensures t == Masked(s, at, mask)
  {
  }

  /** Look for the end of the padding without branching on what is found. */
  method ScanPadding(db: Bytes) returns (valid: bool, msgOfs: nat)
    ensures valid <==> Unpad(db).Some?
    ensures valid ==> msgOfs <= |db| && db[msgOfs..] == Unpad(db).value
  {
    msgOfs := 0;
    var lookingForOne: bv8 := 1;
    var invalidDbPadding: bv8 := 0;
    ghost var k := LeadingZeros(db);
    var i := 0;
    while i < |db|
      invariant 0 <= i <= |db|
      invariant i <= k ==> lookingForOne == 1 && invalidDbPadding == 0 && msgOfs == 0
      invariant i > k && db[k] == 1 ==> lookingForOne == 0 && invalidDbPadding == 0 && msgOfs == k + 1
      invariant i > k && db[k] != 1 ==> invalidDbPadding == 1
      invariant lookingForOne == 0 || lookingForOne == 1
    {
      var isZero: bv8 := if db[i] == 0 then 1 else 0;
      var isOne: bv8 := if db[i] == 1 then 1 else 0;
      FlagBits(lookingForOne, isOne, isZero, invalidDbPadding);
      i := i + 1;
      msgOfs := msgOfs + (if lookingForOne & isOne == 1 then 1 else 0) * i;
      lookingForOne := lookingForOne & !isOne;
      invalidDbPadding := invalidDbPadding | (lookingForOne & !isZero);
    }
    valid := invalidDbPadding == 0;
    assert db[0..] == db;
  }

  lemma FlagBits(looking: bv8, isOne: bv8, isZero: bv8, invalid: bv8)
    requires (looking == 0 || looking == 1) && (isOne == 0 || isOne == 1) && (isZero == 0 || isZero == 1)
    ensures looking & isOne == (if looking == 1 && isOne == 1 then 1 else 0)
    ensures looking & !isOne == if looking == 1 && isOne == 0 then 1 else 0
    ensures (looking & !isOne) & !isZero == if looking == 1 && isOne == 0 && isZero == 0 then 1 else 0
    ensures invalid | 0 == invalid && (invalid == 1 ==> invalid | 1 == 1) && (0 as bv8) | 1 == 1
  {
  }

  /** Take the masks off the seed and the data block. */
  method TakeMasksOff(hash: Bytes -> Bytes, src: array<bv8>)
    requires IsHash(hash) && src.Length == RSA_SIZE
    modifies src
    ensures (src[1..1 + HASH_SIZE], src[1 + HASH_SIZE..]) == Unmask(hash, old(src[..])) && src[0] == old(src[0])
  {
    hide Masked, Unmask, Mgf1;
    ghost var em := src[..];
    ApplyMgf1(hash, src, 1, HASH_SIZE, 1 + HASH_SIZE, DB_SIZE);
    ApplyMgf1(hash, src, 1 + HASH_SIZE, DB_SIZE, 1, HASH_SIZE);
    Unmasked(hash, em, src[..]);
  }

  method CopyOut(dst: array<bv8>, src: array<bv8>, from: nat, size: nat)
    requires dst != src && size <= dst.Length && from + size <= src.Length
    modifies dst
    ensures dst[..size] == src[from..from + size] && dst[size..] == old(dst[size..])
  {
    forall i | 0 <= i < size {
      dst[i] := src[from + i];
    }
  }

  /** The first byte is not zero, or the digest is another one, or the first byte after it that is not zero is not one. */
  ghost predicate Malformed(first: bv8, db: Bytes, labelDigest: Bytes)
    requires |db| == DB_SIZE
  {
    || first != 0
    || db[..HASH_SIZE] != labelDigest
    || exists k {:trigger db[k]} :: HASH_SIZE <= k < DB_SIZE && db[k] != 0 && db[k] != 1 && forall i {:trigger db[i]} :: HASH_SIZE <= i < k ==> db[i] == 0
  }

  lemma MalformedIsNothing(hash: Bytes -> Bytes, em: Bytes, labelDigest: Bytes)
    requires IsHash(hash) && |em| == RSA_SIZE && |labelDigest| == HASH_SIZE && Malformed(em[0], Unmask(hash, em).1, labelDigest)
    ensures Decoded(hash, em, labelDigest) == []
  {
    hide Unmask;
    var db := Unmask(hash, em).1;
    if em[0] == 0 && db[..HASH_SIZE] == labelDigest {
      var k :| HASH_SIZE <= k < DB_SIZE && db[k] != 0 && db[k] != 1 && forall i {:trigger db[i]} :: HASH_SIZE <= i < k ==> db[i] == 0;
      var s := db[HASH_SIZE..];
      assert s[k - HASH_SIZE] == db[k];
      assert forall i {:trigger s[i]} :: 0 <= i < k - HASH_SIZE ==> s[i] == db[HASH_SIZE + i];
      assert LeadingZeros(s) == k - HASH_SIZE;
    }
  }

  /** Decode the message in `src` into `dst`. */
  method DecodeRsaOaepSha256(hash: Bytes -> Bytes, dst: array<bv8>, dstSize: nat, src: array<bv8>, labelDigest: Bytes) returns (msgSize: nat)
    requires IsHash(hash) && src.Length == RSA_SIZE && |labelDigest| == HASH_SIZE && dst != src && dstSize <= dst.Length
    modifies src, dst
    ensures var m := Decoded(hash, old(src[..]), labelDigest);
            && msgSize == (if dstSize < |m| then dstSize else |m|)
            && dst[..msgSize] == m[..msgSize] && dst[msgSize..] == old(dst[msgSize..])
    // Nothing is written when the first byte, the label digest or the byte that ends the padding is wrong.
    ensures var em := old(src[..]);
            Malformed(em[0], Unmask(hash, em).1, labelDigest) ==> msgSize == 0 && dst[..] == old(dst[..])
    // An encoding with this label gives its message, and one with another label nothing.
    ensures forall d, seed, m {:trigger Encode(hash, d, seed, m)} ::
              |d| == |seed| == HASH_SIZE && |m| <= DB_SIZE - HASH_SIZE - 1 && Encode(hash, d, seed, m) == old(src[..]) ==>
                && msgSize == (if d != labelDigest then 0 else if dstSize < |m| then dstSize else |m|)
                && dst[..msgSize] == m[..msgSize] && dst[msgSize..] == old(dst[msgSize..])
  {
    hide Unmask, Unpad, Encode, Malformed;
    ghost var em := src[..];
    var isValid := src[0] == 0;
    TakeMasksOff(hash, src);
    ghost var db := Unmask(hash, em).1;
    isValid := isValid && src[1 + HASH_SIZE..1 + 2 * HASH_SIZE] == labelDigest;
    assert src[1 + HASH_SIZE..1 + 2 * HASH_SIZE] == src[1 + HASH_SIZE..][..HASH_SIZE];
    var start := 1 + 2 * HASH_SIZE;
    var padded, msgOfs := ScanPadding(src[start..]);
    assert src[start..] == src[1 + HASH_SIZE..][HASH_SIZE..];
    isValid := isValid && padded;
    msgSize := if isValid then DB_SIZE - HASH_SIZE - msgOfs else 0;
    if dstSize < msgSize {
      msgSize := dstSize;
    }
    ghost var m := Decoded(hash, em, labelDigest);
    assert isValid ==> m == src[start..][msgOfs..];
    CopyOut(dst, src, if isValid then start + msgOfs else 0, msgSize);
    assert isValid ==> src[start..][msgOfs..][..msgSize] == src[start + msgOfs..start + msgOfs + msgSize];
    if Malformed(em[0], db, labelDigest) {
      MalformedIsNothing(hash, em, labelDigest);
    }
    forall d, l, t {:trigger Encode(hash, d, l, t)} | |d| == |l| == HASH_SIZE && |t| <= DB_SIZE - HASH_SIZE - 1 && Encode(hash, d, l, t) == em
      ensures m == if d == labelDigest then t else []
    {
      DecodeEncode(hash, d, l, t, labelDigest);
    }
  }

  /** Both masks are off. */
  lemma Unmasked(hash: Bytes -> Bytes, em: Bytes, t: Bytes)
    requires IsHash(hash) && |em| == RSA_SIZE
    requires var s1 := Masked(em, 1, Mgf1(hash, em[1 + HASH_SIZE..1 + HASH_SIZE + DB_SIZE], HASH_SIZE));
             t == Masked(s1, 1 + HASH_SIZE, Mgf1(hash, s1[1..1 + HASH_SIZE], DB_SIZE))
    ensures |t| == RSA_SIZE && (t[1..1 + HASH_SIZE], t[1 + HASH_SIZE..]) == Unmask(hash, em) && t[0] == em[0]
  {
    var s1 := Masked(em, 1, Mgf1(hash, em[1 + HASH_SIZE..1 + HASH_SIZE + DB_SIZE], HASH_SIZE));
    assert em[1 + HASH_SIZE..1 + HASH_SIZE + DB_SIZE] == em[1 + HASH_SIZE..];
    assert s1[1..1 + HASH_SIZE] == Unmask(hash, em).0;
    assert s1[1 + HASH_SIZE..1 + HASH_SIZE + DB_SIZE] == em[1 + HASH_SIZE..];
    assert t[1 + HASH_SIZE..] == Unmask(hash, em).1;
    assert t[1..1 + HASH_SIZE] == s1[1..1 + HASH_SIZE] && t[0] == s1[0] && s1[0] == em[0];
  }
}
