/** Bytes, little-endian integers and UTF-8 text. */
module Bytes {

  datatype Result<+T, +E> = Ok(value: T) | Err(error: E)

  datatype Option<+T> = None | Some(value: T)

  type byte = b: int | 0 <= b < 256

  const U64: nat := 0x1_0000_0000_0000_0000

  /** A 64-bit word; `usize` and `u64` are the same on the supported targets. */
  type Word = w: nat | w < U64

  /** `width` little-endian bytes of `value`, dropping what does not fit. */
  function ToLe(value: nat, width: nat): (bytes: seq<byte>)
    ensures |bytes| == width
  {
    if width == 0 then [] else [value % 256] + ToLe(value / 256, width - 1)
  }

  function FromLe(bytes: seq<byte>): nat {
    if bytes == [] then 0 else bytes[0] + 256 * FromLe(bytes[1..])
  }

  /** The number of values `width` bytes can hold. */
  function Span(width: nat): (span: nat)
    ensures span >= 1
  {
    if width == 0 then 1 else 256 * Span(width - 1)
  }

  lemma SpanValues()
    ensures Span(2) == 0x1_0000 && Span(4) == 0x1_0000_0000 && Span(8) == U64
  {
    assert Span(2) == 256 * Span(1) && Span(1) == 256;
    assert Span(4) == 256 * Span(3) && Span(3) == 256 * Span(2);
    assert Span(8) == 256 * Span(7) && Span(7) == 256 * Span(6) && Span(6) == 256 * Span(5) && Span(5) == 256 * Span(4);
  }

  lemma {:induction false} FromToLe(value: nat, width: nat)
    requires value < Span(width)
    ensures FromLe(ToLe(value, width)) == value
  {
    if width > 0 {
      FromToLe(value / 256, width - 1);
      assert ToLe(value, width)[1..] == ToLe(value / 256, width - 1);
    }
  }

  lemma {:induction false} FromLeBound(bytes: seq<byte>)
    ensures FromLe(bytes) < Span(|bytes|)
  {
    if bytes != [] { FromLeBound(bytes[1..]); }
  }

  function Zeros(n: nat): (bytes: seq<byte>)
    ensures |bytes| == n
  {
    seq(n, _ => 0)
  }

  /** The index of the first zero byte, or the length. */
  function NameLength(bytes: seq<byte>): (n: nat)
    ensures n <= |bytes|
    ensures 0 !in bytes[..n] && (n < |bytes| ==> bytes[n] == 0)
  {
    if bytes == [] || bytes[0] == 0 then 0
    else
      var n := 1 + NameLength(bytes[1..]);
      assert bytes[..n] == [bytes[0]] + bytes[1..][..n - 1];
      n
  }

  lemma {:induction false} NameLengthAt(name: seq<byte>, rest: seq<byte>)
    requires 0 !in name
    ensures NameLength(name + [0] + rest) == |name|
  {
    if name == [] {
      assert (name + [0] + rest)[0] == 0;
    } else {
      NameLengthAt(name[1..], rest);
      assert (name + [0] + rest)[1..] == name[1..] + [0] + rest;
      assert name[0] in name;
    }
  }

  lemma SubSlice(bytes: seq<byte>, start: nat, end: nat, from: nat, to: nat)
    requires start <= end <= |bytes| && from <= to <= end - start
    ensures bytes[start..end][from..to] == bytes[start + from..start + to]
  {
    var window := bytes[start..end];
    assert forall k :: 0 <= k < |window| ==> window[k] == bytes[start + k];
    assert forall k :: 0 <= k < to - from ==> window[from..to][k] == window[from + k];
  }

  /** The length of the well-formed UTF-8 sequence that `s` starts with, or 0. */
  function ScalarLength(s: seq<byte>): (n: nat)
    ensures n <= |s|
  {
    if s == [] then 0
    else if s[0] < 0x80 then 1
    else if 0xC2 <= s[0] <= 0xDF then
      if |s| >= 2 && Tail(s[1]) then 2 else 0
    else if 0xE0 <= s[0] <= 0xEF then
      if |s| >= 3 && Tail(s[1]) && Tail(s[2])
         && (s[0] == 0xE0 ==> 0xA0 <= s[1]) && (s[0] == 0xED ==> s[1] <= 0x9F) then 3 else 0
    else if 0xF0 <= s[0] <= 0xF4 then
      if |s| >= 4 && Tail(s[1]) && Tail(s[2]) && Tail(s[3])
         && (s[0] == 0xF0 ==> 0x90 <= s[1]) && (s[0] == 0xF4 ==> s[1] <= 0x8F) then 4 else 0
    else 0
  }

  predicate Tail(b: byte) {
    0x80 <= b <= 0xBF
  }

  predicate IsUtf8(s: seq<byte>) {
    s == [] || (ScalarLength(s) > 0 && IsUtf8(s[ScalarLength(s)..]))
  }

  /** The contents of a `str`. */
  type Str = s: seq<byte> | IsUtf8(s)
}
