/**
  Decoding the scalar at either end of arbitrary bytes. Encoding follows
  section 3 of RFC 3629, validity the grammar in its section 4.
 */
module Utf8 {
  import opened Wrappers
  import opened Hir

  /** Unicode scalar values: no surrogates. */
  predicate IsScalar(c: int) {
    0 <= c <= 0xD7FF || 0xE000 <= c <= 0x10FFFF
  }

  // ----- Encoding -----

  /** The low six bits, marked as a continuation byte; the bits above them. */
  function Tail(x: nat): Byte {
    0x80 + x % 0x40
  }

  function Above(x: nat): nat {
    x / 0x40
  }

  function Encode(c: int): (r: Bytes)
    requires IsScalar(c)
    ensures 1 <= |r| <= 4
  {
    if c <= 0x7F then [c]
    else if c <= 0x7FF then [0xC0 + Above(c), Tail(c)]
    else if c <= 0xFFFF then [0xE0 + Above(Above(c)), Tail(Above(c)), Tail(c)]
    else [0xF0 + Above(Above(Above(c))), Tail(Above(Above(c))), Tail(Above(c)), Tail(c)]
  }

  // ----- The grammar of well-formed strings -----

  predicate IsTail(b: Byte) {
    0x80 <= b <= 0xBF
  }

  predicate IsTwo(s: Bytes) {
    |s| == 2 && 0xC2 <= s[0] <= 0xDF && IsTail(s[1])
  }

  predicate IsThree(s: Bytes) {
    |s| == 3 && IsTail(s[2]) &&
    (|| (s[0] == 0xE0 && 0xA0 <= s[1] <= 0xBF)
     || (0xE1 <= s[0] <= 0xEC && IsTail(s[1]))
     || (s[0] == 0xED && 0x80 <= s[1] <= 0x9F)
     || (0xEE <= s[0] <= 0xEF && IsTail(s[1])))
  }

  predicate IsFour(s: Bytes) {
    |s| == 4 && IsTail(s[2]) && IsTail(s[3]) &&
    (|| (s[0] == 0xF0 && 0x90 <= s[1] <= 0xBF)
     || (0xF1 <= s[0] <= 0xF3 && IsTail(s[1]))
     || (s[0] == 0xF4 && 0x80 <= s[1] <= 0x8F))
  }

  predicate IsChar(s: Bytes) {
    (|s| == 1 && s[0] <= 0x7F) || IsTwo(s) || IsThree(s) || IsFour(s)
  }

  /** Six more bits below some bits. */
  function Below(x: int, tail: Byte): int {
    x * 0x40 + tail - 0x80
  }

  function Lead(b: Byte, marker: int): int {
    0 - marker + b
  }

  /** The scalar that one well-formed character stands for. */
  function ScalarOf(s: Bytes): int
    requires IsChar(s)
  {
    if |s| == 1 then s[0]
    else if |s| == 2 then Below(Lead(s[0], 0xC0), s[1])
    else if |s| == 3 then Below(Below(Lead(s[0], 0xE0), s[1]), s[2])
    else Below(Below(Below(Lead(s[0], 0xF0), s[1]), s[2]), s[3])
  }

  /** The scalars of a well-formed string, read from the front; none if it is malformed. */
  function FromUtf8(s: Bytes): Option<seq<int>>
    decreases |s|
  {
    if s == [] then Some([])
    else
      var n := CharLength(s, 1);
      if n > 4 then None
      else
        var rest := FromUtf8(s[n..]);
        if rest.None? then None else Some([ScalarOf(s[..n])] + rest.value)
  }

  /** Length of the well-formed character of at least `n` bytes at the front, or 5. */
  function CharLength(s: Bytes, n: nat): (r: nat)
    requires 1 <= n <= 5
    ensures n <= r <= 5
    ensures r <= 4 ==> r <= |s| && IsChar(s[..r])
    ensures forall k :: n <= k < r && k <= |s| ==> !IsChar(s[..k])
    decreases 5 - n
  {
    if n == 5 then 5
    else if n <= |s| && IsChar(s[..n]) then n
    else CharLength(s, n + 1)
  }

  // ----- The decoders -----

  function LeadWidth(first: Byte): (r: Option<nat>)
    ensures r.Some? ==> 1 <= r.value <= 4
  {
    if first <= 0x7F then Some(1)
    else if 0xC2 <= first <= 0xDF then Some(2)
    else if 0xE0 <= first <= 0xEF then Some(3)
    else if 0xF0 <= first <= 0xF4 then Some(4)
    else None
  }

  function DecodeFirst(s: Bytes): Option<int> {
    if s == [] then None
    else
      var width := LeadWidth(s[0]);
      if width.None? || width.value > |s| then None
      else
        var scalars := FromUtf8(s[..width.value]);
        if scalars.None? || scalars.value == [] then None else Some(scalars.value[0])
  }

  // ----- Encoding and the grammar agree -----

  lemma SplitBits(x: nat)
    ensures IsTail(Tail(x)) && Below(Above(x), Tail(x)) == x
  {
  }

  lemma JoinBits(x: nat, tail: Byte)
    requires IsTail(tail)
    ensures Below(x, tail) >= 0 && Above(Below(x, tail)) == x && Tail(Below(x, tail)) == tail
  {
  }

  /** Every encoding is a well-formed character that stands for its scalar. */
  lemma EncodeIsChar(c: int)
    requires IsScalar(c)
    ensures IsChar(Encode(c)) && ScalarOf(Encode(c)) == c
  {
    hide Tail, Above, Below, IsTwo, IsThree, IsFour;
    SplitBits(c);
    SplitBits(Above(c));
    SplitBits(Above(Above(c)));
    if 0x80 <= c <= 0x7FF {
      TwoBytes(c);
    } else if 0x800 <= c <= 0xFFFF {
      ThreeBytes(c);
    } else if 0x10000 <= c {
      FourBytes(c);
    }
  }

  lemma TwoBytes(c: int)
    requires 0x80 <= c <= 0x7FF
    ensures IsTwo(Encode(c))
  {
  }

  lemma ThreeBytes(c: int)
    requires IsScalar(c) && 0x800 <= c <= 0xFFFF
    ensures IsThree(Encode(c))
  {
    var h := Above(c);
    var g := Above(h);
    assert g == 0 ==> 0x20 <= h;
    assert g == 0xD ==> h % 0x40 < 0x20;
  }

  lemma FourBytes(c: int)
    requires IsScalar(c) && 0x10000 <= c
    ensures IsFour(Encode(c))
  {
    var g := Above(Above(c));
    var f := Above(g);
    assert 0x10 <= g <= 0x10F;
    assert f == 0 ==> 0x10 <= g % 0x40;
    assert f == 4 ==> g % 0x40 <= 0xF;
  }

  /** Every well-formed character is the encoding of the scalar it stands for. */
  lemma CharIsEncoded(s: Bytes)
    requires IsChar(s)
    ensures IsScalar(ScalarOf(s)) && Encode(ScalarOf(s)) == s
  {
    if |s| == 2 {
      TwoIsEncoded(s);
    } else if |s| == 3 {
      ThreeIsEncoded(s);
    } else if |s| == 4 {
      FourIsEncoded(s);
    }
  }

  lemma TwoIsEncoded(s: Bytes)
    requires IsTwo(s)
    ensures IsScalar(ScalarOf(s)) && Encode(ScalarOf(s)) == s
  {
    JoinBits(Lead(s[0], 0xC0), s[1]);
    hide Tail, Above;
  }

  lemma ThreeIsEncoded(s: Bytes)
    requires IsThree(s)
    ensures IsScalar(ScalarOf(s)) && Encode(ScalarOf(s)) == s
  {
    hide Tail, Above;
    var x := Lead(s[0], 0xE0);
    JoinBits(x, s[1]);
    JoinBits(Below(x, s[1]), s[2]);
  }

  lemma FourIsEncoded(s: Bytes)
    requires IsFour(s)
    ensures IsScalar(ScalarOf(s)) && Encode(ScalarOf(s)) == s
  {
    hide Tail, Above;
    var x := Lead(s[0], 0xF0);
    JoinBits(x, s[1]);
    JoinBits(Below(x, s[1]), s[2]);
    JoinBits(Below(Below(x, s[1]), s[2]), s[3]);
  }

  lemma LeadDecides(s: Bytes)
    requires IsChar(s)
    ensures LeadWidth(s[0]) == Some(|s|)
  {
  }

  // ----- The decoders and the encoding agree -----

  lemma OneCharIsRead(s: Bytes)
    requires IsChar(s)
    ensures FromUtf8(s) == Some([ScalarOf(s)])
  {
    hide IsChar, ScalarOf;
    NoShorterChar(s);
    var n := CharLength(s, 1);
    assert s[..|s|] == s && s[|s|..] == [];
    assert n == |s|;
    assert FromUtf8([]) == Some([]);
    assert [ScalarOf(s)] + [] == [ScalarOf(s)];
  }

  /** No proper front of a character is one. */
  lemma NoShorterChar(s: Bytes)
    requires IsChar(s)
    ensures 1 <= |s| <= 4 && forall k :: 1 <= k < |s| ==> !IsChar(s[..k])
  {
  }

  /** A well-formed string whose lead byte announces its whole length is one character. */
  lemma AnnouncedIsOneChar(s: Bytes)
    requires s != [] && LeadWidth(s[0]) == Some(|s|) && FromUtf8(s).Some?
    ensures IsChar(s)
  {
    var n := CharLength(s, 1);
    LeadDecides(s[..n]);
    assert s[..n] == s;
  }

  /** A scalar is decoded at the front exactly when its encoding is there. */
  lemma DecodeFirstIsExact(s: Bytes, c: int)
    ensures DecodeFirst(s) == Some(c) <==> IsScalar(c) && Encode(c) <= s
  {
    hide IsChar, ScalarOf, FromUtf8, LeadWidth, Encode, IsScalar;
    if DecodeFirst(s) == Some(c) {
      var t := s[..LeadWidth(s[0]).value];
      assert t[0] == s[0];
      AnnouncedIsOneChar(t);
      OneCharIsRead(t);
      CharIsEncoded(t);
    }
    if IsScalar(c) && Encode(c) <= s {
      EncodeIsChar(c);
      var t := Encode(c);
      LeadDecides(t);
      OneCharIsRead(t);
      assert s[..|t|] == t && s[0] == t[0];
    }
  }

  /** The encoding of `c` ends the bytes. */
  ghost predicate EndsWith(s: Bytes, c: int) {
    IsScalar(c) && |Encode(c)| <= |s| && s[|s| - |Encode(c)|..] == Encode(c)
  }

  function LenUtf8(c: int): nat {
    if c < 0x80 then 1 else if c < 0x800 then 2 else if c < 0x10000 then 3 else 4
  }

  lemma EncodeLength(c: int)
    requires IsScalar(c)
    ensures |Encode(c)| == LenUtf8(c)
  {
  }

  /** Only the first byte of an encoding is not a continuation byte. */
  lemma OnlyTheFirstLeads(c: int)
    requires IsScalar(c)
    ensures !IsTail(Encode(c)[0]) && forall k :: 1 <= k < |Encode(c)| ==> IsTail(Encode(c)[k])
  {
    hide Tail, Above, Encode;
    EncodeIsChar(c);
  }

  /** Going back over continuation bytes, at most four bytes in all, finds where the last character starts. */
  lemma LastCharStarts(s: Bytes, start: nat, c: int)
    requires start < |s| && start >= |s| - 4
    requires forall k :: start < k < |s| ==> IsTail(s[k])
    requires start == 0 || start == |s| - 4 || !IsTail(s[start])
    requires EndsWith(s, c)
    ensures s[start..] == Encode(c)
  {
    hide IsTail, Encode;
    OnlyTheFirstLeads(c);
    var e, n := Encode(c), |s| - |Encode(c)|;
    assert s[n..][0] == s[n];
  }

  /** A scalar is decoded at the end exactly when its encoding is there. */
  method DecodeLastScalar(s: Bytes) returns (r: Option<int>)
    ensures forall c :: r == Some(c) <==> EndsWith(s, c)
  {
    hide IsTail, Encode, IsScalar, DecodeFirst;
    var end := |s|;
    if end == 0 {
      return None;
    }
    var start, limit := end - 1, if end >= 4 then end - 4 else 0;
    while start > limit && IsTail(s[start])
      invariant limit <= start < end
      invariant forall k :: start < k < end ==> IsTail(s[k])
    {
      start := start - 1;
    }
    var encoded := s[start..end];
    assert encoded == s[start..];
    forall c
      ensures DecodeFirst(encoded) == Some(c) <==> IsScalar(c) && Encode(c) <= encoded
      ensures EndsWith(s, c) ==> encoded == Encode(c)
      ensures IsScalar(c) ==> |Encode(c)| == LenUtf8(c)
    {
      DecodeFirstIsExact(encoded, c);
      if EndsWith(s, c) {
        LastCharStarts(s, start, c);
      }
      if IsScalar(c) {
        EncodeLength(c);
      }
    }
    var scalar := DecodeFirst(encoded);
    if scalar.None? || LenUtf8(scalar.value) != |encoded| {
      return None;
    }
    return scalar;
  }
}
