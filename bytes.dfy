/**
 * Fixed-width unsigned integers, their big-endian byte layout (the layout of
 * `bytes::Buf::get_u16`/`get_u32`/`get_u128` and of tokio's `write_u16`/`write_u32`/
 * `write_u128`), UTF-8 well-formedness (`String::from_utf8`) and ASCII text.
 */
module Bytes {

  type u8 = x: int | 0 <= x < 0x100
  type u16 = x: int | 0 <= x < 0x1_0000
  type u32 = x: int | 0 <= x < 0x1_0000_0000
  type u128 = x: int | 0 <= x < 0x1_0000_0000_0000_0000_0000_0000_0000_0000

  function Pow256(n: nat): (r: nat)
    ensures r > 0
  {
    if n == 0 then 1 else 256 * Pow256(n - 1)
  }

  /** The number whose big-endian bytes are `bs`. */
  function BeValue(bs: seq<u8>): (v: nat)
    ensures v < Pow256(|bs|)
  {
    if bs == [] then 0 else BeValue(bs[..|bs| - 1]) * 256 + bs[|bs| - 1]
  }

  /** The `n` big-endian bytes of `x`. */
  function BeBytes(x: nat, n: nat): (bs: seq<u8>)
    requires x < Pow256(n)
    ensures |bs| == n
  {
    if n == 0 then [] else BeBytes(x / 256, n - 1) + [x % 256]
  }

  lemma {:induction false} BeValueOfBeBytes(x: nat, n: nat)
    requires x < Pow256(n)
    ensures BeValue(BeBytes(x, n)) == x
  {
    if n > 0 {
      var bs := BeBytes(x, n);
      assert bs[..n - 1] == BeBytes(x / 256, n - 1);
      BeValueOfBeBytes(x / 256, n - 1);
    }
  }

  lemma {:induction false} BeBytesOfBeValue(bs: seq<u8>)
    ensures BeBytes(BeValue(bs), |bs|) == bs
  {
    if bs != [] {
      var n := |bs|;
      var v := BeValue(bs);
      assert v / 256 == BeValue(bs[..n - 1]) && v % 256 == bs[n - 1];
      BeBytesOfBeValue(bs[..n - 1]);
      assert bs == bs[..n - 1] + [bs[n - 1]];
    }
  }

  lemma Pow256Widths()
    ensures Pow256(2) == 0x1_0000 && Pow256(4) == 0x1_0000_0000
    ensures Pow256(16) == 0x1_0000_0000_0000_0000_0000_0000_0000_0000
  {
  }

  function U16Be(x: u16): (bs: seq<u8>)
    ensures |bs| == 2 && BeValue(bs) == x
  {
    Pow256Widths();
    BeValueOfBeBytes(x, 2);
    BeBytes(x, 2)
  }

  function U32Be(x: u32): (bs: seq<u8>)
    ensures |bs| == 4 && BeValue(bs) == x
  {
    Pow256Widths();
    BeValueOfBeBytes(x, 4);
    BeBytes(x, 4)
  }

  function U128Be(x: u128): (bs: seq<u8>)
    ensures |bs| == 16 && BeValue(bs) == x
  {
    Pow256Widths();
    BeValueOfBeBytes(x, 16);
    BeBytes(x, 16)
  }

  /** Every byte string of width 2, 4 or 16 is the encoding of its own value. */
  lemma BeWidthRoundTrip(bs: seq<u8>)
    ensures |bs| == 2 ==> BeValue(bs) < 0x1_0000 && U16Be(BeValue(bs)) == bs
    ensures |bs| == 4 ==> BeValue(bs) < 0x1_0000_0000 && U32Be(BeValue(bs)) == bs
    ensures |bs| == 16 ==> BeValue(bs) < 0x1_0000_0000_0000_0000_0000_0000_0000_0000 && U128Be(BeValue(bs)) == bs
  {
    Pow256Widths();
    BeBytesOfBeValue(bs);
  }

  lemma BeValue2(a: u8, b: u8)
    ensures BeValue([a, b]) == a * 256 + b
  {
    assert [a, b][..1] == [a];
    assert [a][..0] == [];
  }

  predicate IsCont(b: u8) { 0x80 <= b < 0xC0 }

  /**
   * Well-formed UTF-8 as `String::from_utf8` accepts it: no overlong forms,
   * no surrogates, nothing above U+10FFFF.
   */
  predicate ValidUtf8(bs: seq<u8>) { Utf8From(bs, 0) }

  /** The bytes a character takes, by its lead byte; 0 for a byte no character starts with. */
  function CharWidth(b: u8): nat
  {
    if b < 0x80 then 1
    else if 0xC2 <= b <= 0xDF then 2
    else if 0xE0 <= b <= 0xEF then 3
    else if 0xF0 <= b <= 0xF4 then 4
    else 0
  }

  /** The character of width `CharWidth(bs[i])` at `i` is well formed. */
  predicate CharAt(bs: seq<u8>, i: nat)
    requires i < |bs|
  {
    var w := CharWidth(bs[i]);
    && w > 0 && i + w <= |bs|
    && (w >= 2 ==> IsCont(bs[i + 1]))
    && (w >= 3 ==> IsCont(bs[i + 2]))
    && (w == 4 ==> IsCont(bs[i + 3]))
    && (bs[i] == 0xE0 ==> bs[i + 1] >= 0xA0)
    && (bs[i] == 0xED ==> bs[i + 1] < 0xA0)
    && (bs[i] == 0xF0 ==> bs[i + 1] >= 0x90)
    && (bs[i] == 0xF4 ==> bs[i + 1] < 0x90)
  }

  /** The bytes from `i` on are a sequence of well-formed characters. */
  predicate Utf8From(bs: seq<u8>, i: nat)
    requires i <= |bs|
    decreases |bs| - i
  {
    i == |bs| || (CharAt(bs, i) && Utf8From(bs, i + CharWidth(bs[i])))
  }

  /**
   * Cutting well-formed UTF-8 at a character boundary (`str::is_char_boundary`:
   * the end, or a byte that is not a continuation byte) leaves well-formed UTF-8.
   */
  lemma ValidUtf8Prefix(bs: seq<u8>, k: nat)
    requires ValidUtf8(bs) && k <= |bs|
    requires k == |bs| || !IsCont(bs[k])
    ensures ValidUtf8(bs[..k])
  {
    Utf8FromPrefix(bs, k, 0);
  }

  lemma {:induction false} Utf8FromPrefix(bs: seq<u8>, k: nat, i: nat)
    requires i <= k <= |bs| && Utf8From(bs, i)
    requires k == |bs| || !IsCont(bs[k])
    ensures Utf8From(bs[..k], i)
    decreases k - i
  {
    if i < k {
      var w := CharWidth(bs[i]);
      assert i + w <= k;
      assert bs[..k][i] == bs[i];
      assert CharAt(bs[..k], i);
      Utf8FromPrefix(bs, k, i + w);
    }
  }

  predicate IsAscii(bs: seq<u8>) { forall i :: 0 <= i < |bs| ==> bs[i] < 0x80 }

  lemma AsciiIsUtf8(bs: seq<u8>)
    requires IsAscii(bs)
    ensures ValidUtf8(bs)
  {
    AsciiFrom(bs, 0);
  }

  lemma {:induction false} AsciiFrom(bs: seq<u8>, i: nat)
    requires IsAscii(bs) && i <= |bs|
    ensures Utf8From(bs, i)
    decreases |bs| - i
  {
    if i < |bs| {
      AsciiFrom(bs, i + 1);
    }
  }
}
