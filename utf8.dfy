/** UTF-8 as section 3 of RFC 3629 defines it: the encoding that
    `strings.Builder.WriteRune` appends for each rune written through
    `LazyBuffer.WriteRunes`. The decoder is the encoder's partner: it accepts
    exactly the shortest-form encodings of Unicode scalar values. */
module Utf8 {
  import opened Wrappers

  newtype byte = x: int | 0 <= x < 256

  /** A rune (Go `int32`) that is a Unicode scalar value: at most U+10FFFF
      and not a surrogate. */
  predicate IsScalarValue(r: int) {
    0 <= r <= 0x10FFFF && !(0xD800 <= r <= 0xDFFF)
  }

  /** Every rune of a run is a scalar value. */
  predicate AllScalar(rs: seq<int>) {
    forall i :: 0 <= i < |rs| ==> IsScalarValue(rs[i])
  }

  /** The number of bytes UTF-8 uses for `r`. */
  function Width(r: int): (n: nat)
    requires IsScalarValue(r)
    ensures 1 <= n <= 4
  {
    if r < 0x80 then 1 else if r < 0x800 then 2 else if r < 0x10000 then 3 else 4
  }

  /** A continuation byte, 10xxxxxx. */
  predicate IsContinuation(b: byte) {
    0x80 <= b < 0xC0
  }

  /** The bytes of one rune: one byte for U+0000..U+007F, a lead byte
      110xxxxx, 1110xxxx or 11110xxx followed by one, two or three
      continuation bytes otherwise. */
  function EncodeRune(r: int): (bs: seq<byte>)
    requires IsScalarValue(r)
    ensures |bs| == Width(r)
    ensures !IsContinuation(bs[0])
    ensures forall i :: 1 <= i < |bs| ==> IsContinuation(bs[i])
  {
    if r < 0x80 then
      [r as byte]
    else if r < 0x800 then
      [(0xC0 + r / 64) as byte, (0x80 + r % 64) as byte]
    else if r < 0x10000 then
      [(0xE0 + r / 4096) as byte, (0x80 + (r / 64) % 64) as byte, (0x80 + r % 64) as byte]
    else
      [(0xF0 + r / 262144) as byte, (0x80 + (r / 4096) % 64) as byte,
       (0x80 + (r / 64) % 64) as byte, (0x80 + r % 64) as byte]
  }

  /** Reads one rune from the front of `bs`: the rune and the number of bytes
      it took, or None when the front is not the shortest-form encoding of a
      scalar value (a stray continuation byte, a truncated sequence, an
      overlong form, a surrogate, or a value above U+10FFFF). */
  function DecodeRune(bs: seq<byte>): (d: Option<(int, nat)>)
    ensures d.Some? ==> 1 <= d.value.1 <= |bs| && IsScalarValue(d.value.0)
  {
    if |bs| == 0 then None
    else
      var b0 := bs[0] as int;
      if b0 < 0x80 then Some((b0, 1))
      else if b0 < 0xC0 then None
      else if b0 < 0xE0 then
        if |bs| < 2 || !IsContinuation(bs[1]) then None
        else
          var r := (b0 - 0xC0) * 64 + (bs[1] as int - 0x80);
          if r < 0x80 then None else Some((r, 2))
      else if b0 < 0xF0 then
        if |bs| < 3 || !IsContinuation(bs[1]) || !IsContinuation(bs[2]) then None
        else
          var r := (b0 - 0xE0) * 4096 + (bs[1] as int - 0x80) * 64 + (bs[2] as int - 0x80);
          if r < 0x800 || (0xD800 <= r <= 0xDFFF) then None else Some((r, 3))
      else if b0 < 0xF8 then
        if |bs| < 4 || !IsContinuation(bs[1]) || !IsContinuation(bs[2]) || !IsContinuation(bs[3]) then None
        else
          var r := (b0 - 0xF0) * 262144 + (bs[1] as int - 0x80) * 4096
                   + (bs[2] as int - 0x80) * 64 + (bs[3] as int - 0x80);
          if r < 0x10000 || r > 0x10FFFF then None else Some((r, 4))
      else None
  }

  /** A two-byte rune from its lead and continuation payloads. */
  lemma EncodeTwo(lead: int, c1: int)
    requires 0 <= lead < 32 && 0 <= c1 < 64 && 0x80 <= lead * 64 + c1
    ensures IsScalarValue(lead * 64 + c1)
    ensures EncodeRune(lead * 64 + c1) == [(0xC0 + lead) as byte, (0x80 + c1) as byte]
  {
    var r := lead * 64 + c1;
    assert r / 64 == lead && r % 64 == c1;
  }

  /** A three-byte rune from its lead and continuation payloads. */
  lemma EncodeThree(lead: int, c1: int, c2: int)
    requires 0 <= lead < 16 && 0 <= c1 < 64 && 0 <= c2 < 64
    requires IsScalarValue(lead * 4096 + c1 * 64 + c2) && 0x800 <= lead * 4096 + c1 * 64 + c2
    ensures EncodeRune(lead * 4096 + c1 * 64 + c2)
            == [(0xE0 + lead) as byte, (0x80 + c1) as byte, (0x80 + c2) as byte]
  {
    var r := lead * 4096 + c1 * 64 + c2;
    assert r / 64 == lead * 64 + c1;
    assert r / 4096 == lead;
    assert (r / 64) % 64 == c1 && r % 64 == c2;
  }

  /** A four-byte rune from its lead and continuation payloads. */
  lemma EncodeFour(lead: int, c1: int, c2: int, c3: int)
    requires 0 <= lead < 8 && 0 <= c1 < 64 && 0 <= c2 < 64 && 0 <= c3 < 64
    requires IsScalarValue(lead * 262144 + c1 * 4096 + c2 * 64 + c3)
    requires 0x10000 <= lead * 262144 + c1 * 4096 + c2 * 64 + c3
    ensures EncodeRune(lead * 262144 + c1 * 4096 + c2 * 64 + c3)
            == [(0xF0 + lead) as byte, (0x80 + c1) as byte, (0x80 + c2) as byte, (0x80 + c3) as byte]
  {
    var r := lead * 262144 + c1 * 4096 + c2 * 64 + c3;
    assert r / 64 == lead * 4096 + c1 * 64 + c2;
    assert r / 4096 == lead * 64 + c1;
    assert r / 262144 == lead;
    assert (r / 4096) % 64 == c1 && (r / 64) % 64 == c2 && r % 64 == c3;
  }

  /** The decoder reads a two-byte form back to its payloads. */
  lemma DecodeTwo(lead: int, c1: int, rest: seq<byte>)
    requires 0 <= lead < 32 && 0 <= c1 < 64 && 0x80 <= lead * 64 + c1
    ensures DecodeRune([(0xC0 + lead) as byte, (0x80 + c1) as byte] + rest) == Some((lead * 64 + c1, 2))
  {
    var bs := [(0xC0 + lead) as byte, (0x80 + c1) as byte] + rest;
    assert bs[0] as int == 0xC0 + lead && bs[1] as int == 0x80 + c1;
  }

  /** The decoder reads a three-byte form back to its payloads. */
  lemma DecodeThree(lead: int, c1: int, c2: int, rest: seq<byte>)
    requires 0 <= lead < 16 && 0 <= c1 < 64 && 0 <= c2 < 64
    requires IsScalarValue(lead * 4096 + c1 * 64 + c2) && 0x800 <= lead * 4096 + c1 * 64 + c2
    ensures DecodeRune([(0xE0 + lead) as byte, (0x80 + c1) as byte, (0x80 + c2) as byte] + rest)
            == Some((lead * 4096 + c1 * 64 + c2, 3))
  {
    var bs := [(0xE0 + lead) as byte, (0x80 + c1) as byte, (0x80 + c2) as byte] + rest;
    assert bs[0] as int == 0xE0 + lead && bs[1] as int == 0x80 + c1 && bs[2] as int == 0x80 + c2;
  }

  /** The decoder reads a four-byte form back to its payloads. */
  lemma DecodeFour(lead: int, c1: int, c2: int, c3: int, rest: seq<byte>)
    requires 0 <= lead < 8 && 0 <= c1 < 64 && 0 <= c2 < 64 && 0 <= c3 < 64
    requires IsScalarValue(lead * 262144 + c1 * 4096 + c2 * 64 + c3)
    requires 0x10000 <= lead * 262144 + c1 * 4096 + c2 * 64 + c3
    ensures DecodeRune([(0xF0 + lead) as byte, (0x80 + c1) as byte, (0x80 + c2) as byte, (0x80 + c3) as byte] + rest)
            == Some((lead * 262144 + c1 * 4096 + c2 * 64 + c3, 4))
  {
    var bs := [(0xF0 + lead) as byte, (0x80 + c1) as byte, (0x80 + c2) as byte, (0x80 + c3) as byte] + rest;
    assert bs[0] as int == 0xF0 + lead && bs[1] as int == 0x80 + c1;
    assert bs[2] as int == 0x80 + c2 && bs[3] as int == 0x80 + c3;
  }

  /** A rune below U+0800 split into 5 + 6 payload bits. */
  lemma SplitTwo(r: int)
    requires 0 <= r < 0x800
    ensures 0 <= r / 64 < 32 && 0 <= r % 64 < 64 && r == (r / 64) * 64 + r % 64
  {
  }

  /** A rune below U+10000 split into 4 + 6 + 6 payload bits. */
  lemma SplitThree(r: int)
    requires 0 <= r < 0x10000
    ensures 0 <= r / 4096 < 16 && 0 <= (r / 64) % 64 < 64 && 0 <= r % 64 < 64
    ensures r == (r / 4096) * 4096 + ((r / 64) % 64) * 64 + r % 64
  {
    var q := r / 64;
    assert r == q * 64 + r % 64;
    assert q == (q / 64) * 64 + q % 64;
    assert q / 64 == r / 4096;
  }

  /** A rune below U+110000 split into 3 + 6 + 6 + 6 payload bits. */
  lemma SplitFour(r: int)
    requires 0 <= r < 0x110000
    ensures 0 <= r / 262144 < 8 && 0 <= (r / 4096) % 64 < 64
    ensures 0 <= (r / 64) % 64 < 64 && 0 <= r % 64 < 64
    ensures r == (r / 262144) * 262144 + ((r / 4096) % 64) * 4096 + ((r / 64) % 64) * 64 + r % 64
  {
    var q := r / 64;
    var p := q / 64;
    assert r == q * 64 + r % 64;
    assert q == p * 64 + q % 64;
    assert p == (p / 64) * 64 + p % 64;
    assert p == r / 4096;
    assert p / 64 == r / 262144;
  }

  /** Decoding the encoding of a rune, whatever follows it, gives the rune
      back and consumes exactly its bytes. */
  lemma DecodeEncodeRune(r: int, rest: seq<byte>)
    requires IsScalarValue(r)
    ensures DecodeRune(EncodeRune(r) + rest) == Some((r, Width(r)))
  {
    if r < 0x80 {
      assert (EncodeRune(r) + rest)[0] as int == r;
    } else if r < 0x800 {
      SplitTwo(r);
      EncodeTwo(r / 64, r % 64);
      DecodeTwo(r / 64, r % 64, rest);
    } else if r < 0x10000 {
      SplitThree(r);
      EncodeThree(r / 4096, (r / 64) % 64, r % 64);
      DecodeThree(r / 4096, (r / 64) % 64, r % 64, rest);
    } else {
      SplitFour(r);
      EncodeFour(r / 262144, (r / 4096) % 64, (r / 64) % 64, r % 64);
      DecodeFour(r / 262144, (r / 4096) % 64, (r / 64) % 64, r % 64, rest);
    }
  }

  /** Every rune the decoder accepts was read from its own encoding: the
      decoder accepts shortest forms only. */
  lemma EncodeDecodeRune(bs: seq<byte>)
    requires DecodeRune(bs).Some?
    ensures EncodeRune(DecodeRune(bs).value.0) == bs[..DecodeRune(bs).value.1]
  {
    var (r, n) := DecodeRune(bs).value;
    var b0 := bs[0] as int;
    if n == 2 {
      EncodeTwo(b0 - 0xC0, bs[1] as int - 0x80);
      assert bs[..2] == [bs[0], bs[1]];
    } else if n == 3 {
      EncodeThree(b0 - 0xE0, bs[1] as int - 0x80, bs[2] as int - 0x80);
      assert bs[..3] == [bs[0], bs[1], bs[2]];
    } else if n == 4 {
      EncodeFour(b0 - 0xF0, bs[1] as int - 0x80, bs[2] as int - 0x80, bs[3] as int - 0x80);
      assert bs[..4] == [bs[0], bs[1], bs[2], bs[3]];
    }
  }

  /** U+FFFD, the replacement character written in place of a rune that is
      not a scalar value. */
  const RuneError: int := 0xFFFD

  /** The rune actually written for `r`: `r` itself when it is a scalar
      value, the replacement character otherwise. */
  function Scalar(r: int): (s: int)
    ensures IsScalarValue(s)
  {
    if IsScalarValue(r) then r else RuneError
  }

  /** The bytes `strings.Builder.WriteRune` appends for `r`. */
  function RuneBytes(r: int): (bs: seq<byte>)
    ensures 1 <= |bs| <= 4
  {
    EncodeRune(Scalar(r))
  }

  /** A rune that is not a scalar value (negative, a surrogate, or above
      U+10FFFF) is written as the three bytes EF BF BD of U+FFFD. */
  lemma InvalidRuneBytes(r: int)
    requires !IsScalarValue(r)
    ensures RuneBytes(r) == [0xEF, 0xBF, 0xBD]
  {
  }

  /** The bytes appended for a run of runes, one after another. */
  function EncodeRunes(rs: seq<int>): (bs: seq<byte>)
  {
    if rs == [] then [] else EncodeRunes(rs[..|rs| - 1]) + RuneBytes(rs[|rs| - 1])
  }

  /** Encoding distributes over concatenation of rune runs. */
  lemma {:induction false} EncodeRunesAppend(a: seq<int>, b: seq<int>)
    ensures EncodeRunes(a + b) == EncodeRunes(a) + EncodeRunes(b)
    decreases |b|
  {
    if b == [] {
      assert a + b == a;
    } else {
      var last := |b| - 1;
      var ab := a + b;
      assert ab[..|ab| - 1] == a + b[..last];
      assert ab[|ab| - 1] == b[last];
      EncodeRunesAppend(a, b[..last]);
      calc {
        EncodeRunes(ab);
        EncodeRunes(a + b[..last]) + RuneBytes(b[last]);
        EncodeRunes(a) + EncodeRunes(b[..last]) + RuneBytes(b[last]);
        EncodeRunes(a) + (EncodeRunes(b[..last]) + RuneBytes(b[last]));
        EncodeRunes(a) + EncodeRunes(b);
      }
    }
  }

  /** Reads runes until the bytes run out; None if any rune is malformed. */
  function DecodeAll(bs: seq<byte>): (d: Option<seq<int>>)
    decreases |bs|
  {
    if bs == [] then Some([])
    else match DecodeRune(bs)
      case None => None
      case Some((r, n)) =>
        match DecodeAll(bs[n..])
        case None => None
        case Some(rs) => Some([r] + rs)
  }

  /** The runes actually written for a run of runes. */
  function Sanitized(rs: seq<int>): (ss: seq<int>)
    ensures |ss| == |rs| && AllScalar(ss)
  {
    seq(|rs|, i requires 0 <= i < |rs| => Scalar(rs[i]))
  }

  /** A run of scalar values is its own sanitized form. */
  lemma SanitizedScalars(rs: seq<int>)
    requires AllScalar(rs)
    ensures Sanitized(rs) == rs
  {
  }

  /** The bytes for a run are those of its first rune, then the rest's. */
  lemma EncodeRunesCons(head: int, tail: seq<int>)
    ensures EncodeRunes([head] + tail) == RuneBytes(head) + EncodeRunes(tail)
  {
    EncodeRunesAppend([head], tail);
    assert [head][..0] == [];
  }

  /** Decoding bytes that start with a rune's encoding reads that rune and
      then decodes the rest. */
  lemma DecodeAllCons(r: int, bs: seq<byte>)
    requires IsScalarValue(r)
    ensures DecodeAll(EncodeRune(r) + bs)
            == match DecodeAll(bs) case None => None case Some(rs) => Some([r] + rs)
  {
    DecodeEncodeRune(r, bs);
    var all := EncodeRune(r) + bs;
    assert all[Width(r)..] == bs;
  }

  /** The bytes appended for a run of runes decode to that run, with each
      rune that is not a scalar value replaced by U+FFFD; a run of scalar
      values comes back unchanged. */
  lemma {:induction false} DecodeAllEncodeRunes(rs: seq<int>)
    ensures DecodeAll(EncodeRunes(rs)) == Some(Sanitized(rs))
    ensures AllScalar(rs) ==> DecodeAll(EncodeRunes(rs)) == Some(rs)
    decreases |rs|
  {
    if rs == [] {
      assert Sanitized(rs) == [];
    } else {
      EncodeRunesCons(rs[0], rs[1..]);
      assert [rs[0]] + rs[1..] == rs;
      DecodeAllEncodeRunes(rs[1..]);
      DecodeAllCons(Scalar(rs[0]), EncodeRunes(rs[1..]));
      assert Sanitized(rs) == [Scalar(rs[0])] + Sanitized(rs[1..]);
    }
    if AllScalar(rs) {
      SanitizedScalars(rs);
    }
  }

  /** The sum of the widths of the runes actually written. */
  function TotalWidth(rs: seq<int>): nat
  {
    if rs == [] then 0 else TotalWidth(rs[..|rs| - 1]) + Width(Scalar(rs[|rs| - 1]))
  }

  /** A run of runes takes the sum of its widths, between one and four bytes
      a rune. */
  lemma {:induction false} EncodeRunesLength(rs: seq<int>)
    ensures |EncodeRunes(rs)| == TotalWidth(rs)
    ensures |rs| <= |EncodeRunes(rs)| <= 4 * |rs|
    decreases |rs|
  {
    if rs != [] {
      EncodeRunesLength(rs[..|rs| - 1]);
    }
  }
}
