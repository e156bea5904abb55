/** The backwards LZ format of initial processes: what a compressed stream means, and how it is
    uncompressed in the buffer that it lies in. */
module BlzFormat {
  import opened Options

  type byte = x: int | 0 <= x < 0x100

  /** A literal byte, or a copy of `size` bytes from `offset` bytes further on. */
  datatype Token = Literal(b: byte) | Copy(offset: int, size: int) {
    /** What the format can express. */
    predicate Valid() {
      Copy? ==> 3 <= offset < 3 + 0x1000 && 3 <= size < 3 + 0x10
    }
  }

  function Min(a: int, b: int): int {
    if a < b then a else b
  }

  /** The bytes that one token puts before the output `out` when `need` bytes are still missing. */
  function Produced(t: Token, need: nat, out: seq<byte>): Option<seq<byte>>
    requires need > 0
  {
    match t
    case Literal(b) => Some([b])
    case Copy(offset, size) =>
      var n := Min(size, need);
      if 0 <= n <= offset <= |out| then Some(out[offset - n..offset]) else None
  }

  /** Expand tokens, from the last byte of the output to the first. */
  function Expand(tokens: seq<Token>, need: nat, out: seq<byte>): Option<seq<byte>>
    requires forall t :: t in tokens ==> t.Valid()
  {
    if need == 0 then Some(out)
    else if tokens == [] then None
    else
      var p := Produced(tokens[0], need, out);
      if p.None? then None else Expand(tokens[1..], need - |p.value|, p.value + out)
  }

  function CopyOf(lo: byte, hi: byte): (t: Token)
    ensures t.Copy? && t.Valid()
  {
    var flags := lo + 0x100 * hi;
    Copy(flags % 0x1000 + 3, flags / 0x1000 + 3)
  }

  /** Decode a stream out of place. It is read downwards from offset `cmp`; `left` tokens of the current
      group are still to come, and the flags of those are the top bits of `control`. */
  function Decode(inp: seq<byte>, cmp: nat, need: nat, out: seq<byte>, control: byte, left: nat): (r: Option<seq<byte>>)
    requires cmp <= |inp|
    ensures r.Some? ==> |r.value| == need + |out|
    decreases need, if left == 0 then 1 else 0
  {
    if need == 0 then Some(out)
    else if left == 0 then
      if cmp == 0 then None else Decode(inp, cmp - 1, need, out, inp[cmp - 1], 8)
    else if control >= 0x80 then
      if cmp < 2 then None
      else
        var p := Produced(CopyOf(inp[cmp - 2], inp[cmp - 1]), need, out);
        if p.None? then None else Decode(inp, cmp - 2, need - |p.value|, p.value + out, control * 2 % 0x100, left - 1)
    else
      if cmp < 1 then None else Decode(inp, cmp - 1, need - 1, [inp[cmp - 1]] + out, control * 2 % 0x100, left - 1)
  }

  /** Decoding never puts output where unread input still lies. */
  predicate InPlace(inp: seq<byte>, cmp: nat, need: nat, control: byte, left: nat)
    requires cmp <= |inp|
    decreases need, if left == 0 then 1 else 0
  {
    if need == 0 || cmp == 0 then true
    else if left == 0 then InPlace(inp, cmp - 1, need, inp[cmp - 1], 8)
    else if control >= 0x80 then
      if cmp < 2 then true
      else
        var n := Min(CopyOf(inp[cmp - 2], inp[cmp - 1]).size, need);
        cmp - 2 <= need - n && InPlace(inp, cmp - 2, need - n, control * 2 % 0x100, left - 1)
    else cmp - 1 <= need - 1 && InPlace(inp, cmp - 1, need - 1, control * 2 % 0x100, left - 1)
  }

  /** The bytes of a token, lowest address first. */
  function TokenBytes(t: Token): (s: seq<byte>)
    requires t.Valid()
    ensures |s| == if t.Literal? then 1 else 2
    ensures t.Copy? ==> CopyOf(s[0], s[1]) == t
  {
    match t
    case Literal(b) => [b]
    case Copy(offset, size) =>
      var flags := offset - 3 + 0x1000 * (size - 3);
      [flags % 0x100, flags / 0x100]
  }

  /** The control byte of the next `left` tokens, shifted to the top. */
  function Control(tokens: seq<Token>, left: nat): (c: byte)
    ensures c >= 0x80 <==> left > 0 && tokens != [] && tokens[0].Copy?
  {
    if left == 0 || tokens == [] then 0
    else (if tokens[0].Copy? then 0x80 else 0) + Control(tokens[1..], left - 1) / 2
  }

  /** Encode tokens in groups of eight, each under a control byte, when the current group has room for `left` more. */
  function Encode(tokens: seq<Token>, left: nat): seq<byte>
    requires forall t :: t in tokens ==> t.Valid()
    decreases |tokens|, if left == 0 then 1 else 0
  {
    if tokens == [] then []
    else if left == 0 then Encode(tokens, 8) + [Control(tokens, 8)]
    else Encode(tokens[1..], left - 1) + TokenBytes(tokens[0])
  }

  /** What the control byte of so many tokens is a multiple of. */
  function Step(left: nat): (n: nat)
    requires left <= 8
    ensures n > 0
  {
    if left == 8 then 1 else if left == 7 then 2 else if left == 6 then 4 else if left == 5 then 8 else if left == 4 then 16
    else if left == 3 then 32 else if left == 2 then 64 else if left == 1 then 128 else 256
  }

  /** The control byte of few tokens has zeros at its end. */
  lemma {:induction false} ControlEnds(tokens: seq<Token>, left: nat)
    requires left <= 8
    ensures Control(tokens, left) % Step(left) == 0
  {
    if left > 0 && tokens != [] {
      ControlEnds(tokens[1..], left - 1);
      HalfEnds(Control(tokens[1..], left - 1), left);
    }
  }

  lemma HalfEnds(c: byte, left: nat)
    requires 1 <= left <= 8 && c % Step(left - 1) == 0
    ensures (c / 2) % Step(left) == 0 && (0x80 + c / 2) % Step(left) == 0 && c % 2 == 0
  {
    if left == 1 {} else if left == 2 {} else if left == 3 {} else if left == 4 {} else if left == 5 {} else if left == 6 {} else if left == 7 {} else {}
  }

  lemma ControlShifts(tokens: seq<Token>, left: nat)
    requires 1 <= left <= 8 && tokens != []
    ensures Control(tokens, left) * 2 % 0x100 == Control(tokens[1..], left - 1)
  {
    ControlEnds(tokens[1..], left - 1);
    HalfEnds(Control(tokens[1..], left - 1), left);
  }

  /** Decoding one token. */
  lemma DecodeToken(inp: seq<byte>, rest: seq<byte>, t: Token, need: nat, out: seq<byte>, control: byte, left: nat)
    requires t.Valid() && inp == rest + TokenBytes(t) && need > 0 && left > 0 && (control >= 0x80 <==> t.Copy?) && Produced(t, need, out).Some?
    ensures var p := Produced(t, need, out).value;
            |p| <= need && Decode(inp, |inp|, need, out, control, left) == Decode(inp, |rest|, need - |p|, p + out, control * 2 % 0x100, left - 1)
  {
    var n, s := |inp|, TokenBytes(t);
    assert inp[n - 1] == s[|s| - 1] && (t.Copy? ==> inp[n - 2] == s[0]);
  }

  /** Decoding what has been encoded expands the tokens. */
  lemma {:induction false} DecodeEncode(tokens: seq<Token>, pre: seq<byte>, need: nat, out: seq<byte>, left: nat)
    requires (forall t :: t in tokens ==> t.Valid()) && left <= 8 && Expand(tokens, need, out).Some?
    ensures var inp := pre + Encode(tokens, left);
            Decode(inp, |inp|, need, out, Control(tokens, left), left) == Expand(tokens, need, out)
    decreases |tokens|, 1, if left == 0 then 1 else 0
  {
    var inp := pre + Encode(tokens, left);
    if need > 0 {
      if left == 0 {
        var rest := pre + Encode(tokens, 8);
        assert inp == rest + [Control(tokens, 8)];
        DecodeEncode(tokens, pre, need, out, 8);
        Below(rest, [Control(tokens, 8)], need, out, Control(tokens, 8), 8);
      } else {
        DecodeEncodeToken(tokens, pre, need, out, left);
      }
    }
  }

  lemma {:induction false} DecodeEncodeToken(tokens: seq<Token>, pre: seq<byte>, need: nat, out: seq<byte>, left: nat)
    requires (forall t :: t in tokens ==> t.Valid()) && 0 < left <= 8 && need > 0 && Expand(tokens, need, out).Some?
    ensures var inp := pre + Encode(tokens, left);
            Decode(inp, |inp|, need, out, Control(tokens, left), left) == Expand(tokens, need, out)
    decreases |tokens|, 0, 0
  {
    hide Decode, Control, Produced;
    var inp := pre + Encode(tokens, left);
    var t := tokens[0];
    var rest := pre + Encode(tokens[1..], left - 1);
    assert inp == rest + TokenBytes(t);
    var p := Produced(t, need, out).value;
    ControlShifts(tokens, left);
    DecodeToken(inp, rest, t, need, out, Control(tokens, left), left);
    DecodeEncode(tokens[1..], pre, need - |p|, p + out, left - 1);
    Below(rest, TokenBytes(t), need - |p|, p + out, Control(tokens[1..], left - 1), left - 1);
  }

  /** Bytes above the offset that is read from do not matter. */
  lemma {:induction false} Below(inp: seq<byte>, more: seq<byte>, need: nat, out: seq<byte>, control: byte, left: nat)
    ensures Decode(inp + more, |inp|, need, out, control, left) == Decode(inp, |inp|, need, out, control, left)
  {
    BelowAt(inp, more, |inp|, need, out, control, left);
  }

  lemma {:induction false} BelowAt(inp: seq<byte>, more: seq<byte>, cmp: nat, need: nat, out: seq<byte>, control: byte, left: nat)
    requires cmp <= |inp|
    ensures Decode(inp + more, cmp, need, out, control, left) == Decode(inp, cmp, need, out, control, left)
    decreases need, if left == 0 then 1 else 0
  {
    var all := inp + more;
    if need > 0 {
      if left == 0 {
        if cmp > 0 {
          BelowAt(inp, more, cmp - 1, need, out, inp[cmp - 1], 8);
        }
      } else if control >= 0x80 {
        if cmp >= 2 {
          var p := Produced(CopyOf(inp[cmp - 2], inp[cmp - 1]), need, out);
          assert all[cmp - 2] == inp[cmp - 2] && all[cmp - 1] == inp[cmp - 1];
          if p.Some? {
            BelowAt(inp, more, cmp - 2, need - |p.value|, p.value + out, control * 2 % 0x100, left - 1);
          }
        }
      } else if cmp >= 1 {
        BelowAt(inp, more, cmp - 1, need - 1, [inp[cmp - 1]] + out, control * 2 % 0x100, left - 1);
      }
    }
  }
}

/** Uncompressing in place. */
module Blz {
  import opened BlzFormat
  import opened Options

  /** A 32-bit number, least significant byte first. */
  function Le32(s: seq<byte>, i: nat): int
    requires i + 4 <= |s|
  {
    (s[i] as int) + 0x100 * (s[i + 1] as int) + 0x1_0000 * (s[i + 2] as int) + 0x100_0000 * (s[i + 3] as int)
  }

  /** The sizes in the footer that ends at `end`: of the compressed data with footer, of the footer, and what uncompressing adds. */
  datatype Footer = Footer(total: nat, footer: nat, additional: nat)

  function FooterAt(s: seq<byte>, end: nat): Footer
    requires 12 <= end <= |s|
  {
    Footer(Le32(s, end - 12), Le32(s, end - 8), Le32(s, end - 4))
  }

  function Bytes32(n: nat): (s: seq<byte>)
    requires n < 0x1_0000_0000
    ensures |s| == 4
  {
    [n % 0x100, n / 0x100 % 0x100, n / 0x1_0000 % 0x100, n / 0x100_0000]
  }

  lemma Le32Bytes(s: seq<byte>, i: nat, n: nat)
    requires n < 0x1_0000_0000 && i + 4 <= |s| && s[i..i + 4] == Bytes32(n)
    ensures Le32(s, i) == n
  {
    var b := Bytes32(n);
    assert s[i] == b[0] && s[i + 1] == b[1] && s[i + 2] == b[2] && s[i + 3] == b[3];
    FourBytes(n);
  }

  lemma FourBytes(n: nat)
    ensures n % 0x100 + 0x100 * (n / 0x100 % 0x100) + 0x1_0000 * (n / 0x1_0000 % 0x100) + 0x100_0000 * (n / 0x100_0000) == n
  {
    var a := n / 0x100;
    var b := a / 0x100;
    assert b == n / 0x1_0000 && b / 0x100 == n / 0x100_0000;
  }

  /** A footer that has been written is read back. */
  lemma FooterRead(data: seq<byte>, total: nat, footer: nat, additional: nat)
    requires total < 0x1_0000_0000 && footer < 0x1_0000_0000 && additional < 0x1_0000_0000
    ensures var s := data + (Bytes32(total) + Bytes32(footer) + Bytes32(additional));
            FooterAt(s, |s|) == Footer(total, footer, additional)
  {
    hide Le32, Bytes32;
    var s := data + (Bytes32(total) + Bytes32(footer) + Bytes32(additional));
    var n := |s|;
    assert s[n - 12..n - 12 + 4] == Bytes32(total) && s[n - 8..n - 8 + 4] == Bytes32(footer) && s[n - 4..n - 4 + 4] == Bytes32(additional);
    Le32Bytes(s, n - 12, total);
    Le32Bytes(s, n - 8, footer);
    Le32Bytes(s, n - 4, additional);
  }

  /** The buffer starts with compressed data that ends at `end`, and has room for what comes out of it. */
  ghost predicate Compressed(s: seq<byte>, end: nat) {
    && 12 <= end <= |s|
    && var f := FooterAt(s, end);
    && f.total == end && f.footer <= end && end + f.additional <= |s|
    && Decode(s[..end - f.footer], end - f.footer, end + f.additional, [], 0, 0).Some?
    && InPlace(s[..end - f.footer], end - f.footer, end + f.additional, 0, 0)
  }

  /** What is left to decode, given the output from offset `out` on, comes to `result`. */
  ghost predicate Decoding(inp: seq<byte>, s: seq<byte>, cmp: nat, out: nat, n: nat, control: byte, left: nat, result: seq<byte>) {
    && cmp <= |inp| <= n <= |s| && out <= n && (out > 0 ==> cmp <= out)
    && (out > 0 ==> s[..cmp] == inp[..cmp])
    && Decode(inp, cmp, out, s[out..n], control, left) == Some(result)
    && InPlace(inp, cmp, out, control, left)
  }

  /** There is something to decode from. */
  lemma NotDry(inp: seq<byte>, s: seq<byte>, cmp: nat, out: nat, n: nat, control: byte, left: nat, result: seq<byte>)
    requires Decoding(inp, s, cmp, out, n, control, left, result) && out > 0
    ensures 0 < cmp <= |inp| <= n <= |s| && cmp <= out <= n && (left > 0 && control >= 0x80 ==> cmp >= 2)
    ensures forall k {:trigger s[k]} :: 0 <= k < cmp ==> s[k] == inp[k]
  {
    forall k {:trigger s[k]} | 0 <= k < cmp ensures s[k] == inp[k] {
      assert s[..cmp][k] == inp[..cmp][k];
    }
  }

  lemma ControlRead(inp: seq<byte>, s: seq<byte>, cmp: nat, out: nat, n: nat, control: byte, result: seq<byte>)
    requires Decoding(inp, s, cmp, out, n, control, 0, result) && out > 0 && cmp > 0
    ensures Decoding(inp, s, cmp - 1, out, n, inp[cmp - 1], 8, result)
  {
    assert s[..cmp - 1] == s[..cmp][..cmp - 1] && inp[..cmp - 1] == inp[..cmp][..cmp - 1];
  }

  lemma LiteralMoved(inp: seq<byte>, s: seq<byte>, cmp: nat, out: nat, n: nat, control: byte, left: nat, result: seq<byte>)
    requires Decoding(inp, s, cmp, out, n, control, left, result) && out > 0 && cmp > 0 && left > 0 && control < 0x80
    ensures var t := s[out - 1 := inp[cmp - 1]]; Decoding(inp, t, cmp - 1, out - 1, n, control * 2 % 0x100, left - 1, result) && t[n..] == s[n..]
  {
    var t := s[out - 1 := inp[cmp - 1]];
    assert t[out - 1..n] == [inp[cmp - 1]] + s[out..n];
    assert t[..cmp - 1] == s[..cmp][..cmp - 1] && inp[..cmp - 1] == inp[..cmp][..cmp - 1];
  }

  lemma SegmentCopied(inp: seq<byte>, s: seq<byte>, t: seq<byte>, cmp: nat, out: nat, n: nat, control: byte, left: nat, result: seq<byte>)
    requires Decoding(inp, s, cmp, out, n, control, left, result) && out > 0 && cmp > 1 && left > 0 && control >= 0x80
    requires var c := CopyOf(inp[cmp - 2], inp[cmp - 1]);
             var k := Min(c.size, out);
             k <= c.offset && out - k + c.offset + k <= |s| && t == s[..out - k] + s[out - k + c.offset..out + c.offset] + s[out..]
    ensures var k := Min(CopyOf(inp[cmp - 2], inp[cmp - 1]).size, out);
            Decoding(inp, t, cmp - 2, out - k, n, control * 2 % 0x100, left - 1, result) && t[n..] == s[n..]
  {
    hide CopyOf;
    var c := CopyOf(inp[cmp - 2], inp[cmp - 1]);
    var k := Min(c.size, out);
    Within(s, out, n, c.offset - k, c.offset);
    PutBefore(s, t, out - k, s[out - k + c.offset..out + c.offset], out, n);
    assert t[..cmp - 2] == s[..cmp][..cmp - 2] && inp[..cmp - 2] == inp[..cmp][..cmp - 2];
  }

  lemma Within(s: seq<byte>, out: nat, n: nat, a: nat, b: nat)
    requires a <= b && out + b <= n <= |s|
    ensures s[out..n][a..b] == s[out + a..out + b]
  {
    var u, v := s[out..n][a..b], s[out + a..out + b];
    forall i | 0 <= i < b - a ensures u[i] == v[i] {
      assert s[out..n][a + i] == s[out + a + i];
    }
  }

  lemma PutBefore(s: seq<byte>, t: seq<byte>, lo: nat, part: seq<byte>, out: nat, n: nat)
    requires lo + |part| == out <= n <= |s| && t == s[..lo] + part + s[out..]
    ensures |t| == |s| && t[lo..n] == part + s[out..n] && t[n..] == s[n..] && t[..lo] == s[..lo]
  {
    assert t == s[..lo] + (part + s[out..n]) + s[n..];
  }

  /** The bounds that the source audits. */
  lemma SegmentInBounds(inp: seq<byte>, s: seq<byte>, cmp: nat, out: nat, n: nat, control: byte, left: nat, result: seq<byte>)
    requires Decoding(inp, s, cmp, out, n, control, left, result) && out > 0 && cmp > 1 && left > 0 && control >= 0x80
    ensures var c := CopyOf(inp[cmp - 2], inp[cmp - 1]); 0 <= Min(c.size, out) <= c.offset && out + c.offset <= n
  {
  }

  method BlzUncompress(buf: array<byte>, end: nat)
    requires Compressed(buf[..], end)
    modifies buf
    ensures var f := FooterAt(old(buf[..]), end);
            var n := end + f.additional;
            && Some(buf[..n]) == Decode(old(buf[..end - f.footer]), end - f.footer, n, [], 0, 0)
            && buf[n..] == old(buf[n..])
    // So what has been encoded comes out expanded.
    ensures var f := FooterAt(old(buf[..]), end);
            var n := end + f.additional;
            forall tokens: seq<Token> {:trigger Encode(tokens, 0)} ::
              (forall t :: t in tokens ==> t.Valid()) && Encode(tokens, 0) == old(buf[..end - f.footer]) && Expand(tokens, n, []).Some? ==>
                Some(buf[..n]) == Expand(tokens, n, [])
  {
    hide Decode, InPlace, Le32, Encode, Expand;
    var footer := FooterAt(buf[..], end);
    var cmpOfs: nat := footer.total - footer.footer;
    var outOfs: nat := footer.total + footer.additional;
    ghost var s0, n := buf[..], outOfs;
    ghost var inp := s0[..cmpOfs];
    ghost var result := Decode(inp, cmpOfs, n, [], 0, 0).value;
    var control: byte := 0;
    ghost var left: nat := 0;
    assert s0[n..n] == [] && s0[..cmpOfs] == inp[..cmpOfs];
    assert Decoding(inp, buf[..], cmpOfs, outOfs, n, control, left, result);
    while outOfs > 0
      invariant Decoding(inp, buf[..], cmpOfs, outOfs, n, control, left, result) && (outOfs > 0 ==> left == 0)
      invariant buf[..][n..] == s0[n..]
      decreases outOfs
    {
      NotDry(inp, buf[..], cmpOfs, outOfs, n, control, left, result);
      ControlRead(inp, buf[..], cmpOfs, outOfs, n, control, result);
      cmpOfs := cmpOfs - 1;
      control := buf[cmpOfs];
      left := 8;
      ghost var before := outOfs;
      var i := 0;
      while i < 8 && outOfs > 0
        invariant 0 <= i <= 8 && left == 8 - i && outOfs <= before && (i > 0 ==> outOfs < before)
        invariant Decoding(inp, buf[..], cmpOfs, outOfs, n, control, left, result)
        invariant buf[..][n..] == s0[n..]
      {
        cmpOfs, outOfs := OneToken(buf, cmpOfs, outOfs, control, inp, n, left, result);
        i, control, left := i + 1, control * 2 % 0x100, left - 1;
      }
    }
    Finished(inp, buf[..], cmpOfs, n, control, left, result);
    forall tokens: seq<Token> {:trigger Encode(tokens, 0)}
      | (forall t :: t in tokens ==> t.Valid()) && Encode(tokens, 0) == inp && Expand(tokens, n, []).Some?
      ensures Some(result) == Expand(tokens, n, [])
    {
      DecodeEncode(tokens, [], n, [], 0);
      assert [] + Encode(tokens, 0) == inp;
    }
    assert buf[..n] == buf[..][..n] && s0[..cmpOfs] == s0[..cmpOfs];
  }

  lemma Finished(inp: seq<byte>, s: seq<byte>, cmp: nat, n: nat, control: byte, left: nat, result: seq<byte>)
    requires Decoding(inp, s, cmp, 0, n, control, left, result)
    ensures s[..n] == result
  {
    assert s[0..n] == s[..n];
  }

  /** One token: a byte is moved, or a segment copied. */
  method OneToken(buf: array<byte>, cmp: nat, out: nat, control: byte, ghost inp: seq<byte>, ghost n: nat, ghost left: nat, ghost result: seq<byte>)
    returns (cmpOfs: nat, outOfs: nat)
    requires left > 0 && out > 0 && Decoding(inp, buf[..], cmp, out, n, control, left, result)
    modifies buf
    ensures outOfs < out && Decoding(inp, buf[..], cmpOfs, outOfs, n, control * 2 % 0x100, left - 1, result)
    ensures buf[..][n..] == old(buf[..])[n..]
  {
    hide Decode, InPlace, Decoding, Produced;
    ghost var s := buf[..];
    NotDry(inp, s, cmp, out, n, control, left, result);
    if control >= 0x80 {
      assert cmp >= 2;  // the audit in the source
      cmpOfs := cmp - 2;
      outOfs := CopySegment(buf, cmpOfs, out, control, inp, n, left, result);
    } else {
      assert cmp >= 1;  // the audit in the source
      LiteralMoved(inp, s, cmp, out, n, control, left, result);
      cmpOfs, outOfs := cmp - 1, out - 1;
      buf[outOfs] := buf[cmpOfs];
      assert buf[..] == s[out - 1 := inp[cmp - 1]];
    }
  }

  /** Copy the segment that the two bytes at `cmpOfs` name. */
  method CopySegment(buf: array<byte>, cmpOfs: nat, out: nat, ghost control: byte, ghost inp: seq<byte>, ghost n: nat, ghost left: nat, ghost result: seq<byte>)
    returns (outOfs: nat)
    requires left > 0 && out > 0 && control >= 0x80 && Decoding(inp, buf[..], cmpOfs + 2, out, n, control, left, result)
    modifies buf
    ensures outOfs < out && Decoding(inp, buf[..], cmpOfs, outOfs, n, control * 2 % 0x100, left - 1, result)
    ensures buf[..][n..] == old(buf[..])[n..]
  {
    hide Decode, InPlace, Decoding, Produced, CopyOf;
    ghost var s := buf[..];
    NotDry(inp, s, cmpOfs + 2, out, n, control, left, result);
    SegmentInBounds(inp, s, cmpOfs + 2, out, n, control, left, result);
    assert s[cmpOfs] == inp[cmpOfs] && s[cmpOfs + 1] == inp[cmpOfs + 1];
    var segment := CopyOf(buf[cmpOfs], buf[cmpOfs + 1]);
    var segSize := Min(segment.size, out);
    assert out + segment.offset <= n;  // the audit in the source
    outOfs := out - segSize;
    CopyForward(buf, outOfs, segment.offset, segSize);
    SegmentDone(inp, s, buf[..], cmpOfs, out, segment, segSize, n, control, left, result);
  }

  lemma SegmentDone(inp: seq<byte>, s: seq<byte>, t: seq<byte>, cmp: nat, out: nat, c: Token, k: nat, n: nat, control: byte, left: nat, result: seq<byte>)
    requires Decoding(inp, s, cmp + 2, out, n, control, left, result) && out > 0 && left > 0 && control >= 0x80
    requires c == CopyOf(inp[cmp], inp[cmp + 1]) && k == Min(c.size, out) && k <= c.offset && out + c.offset <= |s|
    requires t == s[..out - k] + s[out - k + c.offset..out - k + c.offset + k] + s[out - k + k..]
    ensures Decoding(inp, t, cmp, out - k, n, control * 2 % 0x100, left - 1, result) && t[n..] == s[n..]
  {
    hide CopyOf, Decode, InPlace, Produced;
    assert out - k + c.offset + k == out + c.offset && out - k + k == out;
    SegmentCopied(inp, s, t, cmp + 2, out, n, control, left, result);
  }

  /** Copy a segment upwards from where it lies to `outOfs`. A segment that is no longer than its distance
      is copied from finished output only. */
  method CopyForward(buf: array<byte>, outOfs: nat, segOfs: nat, segSize: nat)
    requires segSize <= segOfs && outOfs + segOfs + segSize <= buf.Length
    modifies buf
    ensures var s := old(buf[..]); buf[..] == s[..outOfs] + s[outOfs + segOfs..outOfs + segOfs + segSize] + s[outOfs + segSize..]
  {
    ghost var s := buf[..];
    for j := 0 to segSize
      invariant forall k {:trigger buf[k]} :: 0 <= k < buf.Length ==>
                  buf[k] == if outOfs <= k < outOfs + j then s[k + segOfs] else s[k]
    {
      buf[outOfs + j] := buf[outOfs + segOfs + j];
    }
    ghost var t := s[..outOfs] + s[outOfs + segOfs..outOfs + segOfs + segSize] + s[outOfs + segSize..];
    assert forall k :: 0 <= k < buf.Length ==> t[k] == if outOfs <= k < outOfs + segSize then s[k + segOfs] else s[k];
    assert buf[..] == t;
  }
}
