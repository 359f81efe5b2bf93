/** The UTF-16 and UCS-2 conversions of Unicode, on a little-endian host.
    Surrogate pairs are those of sections 2.1 and 2.2 of RFC 2781, the byte order mark that of section 3.2. */
module Utf16 {
  import opened Utf8

  // uint16_t
  type Unit = u: int | 0 <= u < 0x1_0000

  predicate IsHigh(u: Unit) {
    0xd800 <= u <= 0xdbff
  }

  predicate IsLow(u: Unit) {
    0xdc00 <= u <= 0xdfff
  }

  // ---------- Units and bytes ----------

  function TwoBytes(u: Unit): (s: seq<Byte>)
    ensures |s| == 2
  {
    [u % 0x100, u / 0x100]
  }

  function BytesOf(us: seq<Unit>): (s: seq<Byte>)
    ensures |s| == 2 * |us|
  {
    if us == [] then [] else TwoBytes(us[0]) + BytesOf(us[1..])
  }

  /** The unit whose bytes are at `data`. */
  function Decode16(src: seq<Byte>, data: nat, byteSwapped: bool): Unit
    requires data + 2 <= |src|
  {
    var first: int, second: int := src[data], src[data + 1];
    if byteSwapped then second + first * 0x100 else first + second * 0x100
  }

  /** All whole units of a string; an odd last byte is dropped. */
  function UnitsOf(src: seq<Byte>): (us: seq<Unit>)
    ensures |us| == |src| / 2
    ensures forall i :: 0 <= i < |us| ==> us[i] == Decode16(src, 2 * i, false)
    decreases |src|
  {
    if |src| < 2 then [] else [Decode16(src, 0, false)] + UnitsOf(src[2..])
  }

  function Swapped(u: Unit): Unit {
    u % 0x100 * 0x100 + u / 0x100
  }

  function SwapAll(us: seq<Unit>): (r: seq<Unit>)
    ensures |r| == |us| && forall i :: 0 <= i < |us| ==> r[i] == Swapped(us[i])
  {
    seq(|us|, i requires 0 <= i < |us| => Swapped(us[i]))
  }

  /** The units after the byte order mark, if there is one, in host order. */
  function Body(us: seq<Unit>): seq<Unit> {
    if us == [] then us
    else if us[0] == 0xfeff then us[1..]
    else if us[0] == 0xfffe then SwapAll(us[1..])
    else us
  }

  lemma {:induction false} UnitsOfBytes(us: seq<Unit>)
    ensures UnitsOf(BytesOf(us)) == us
  {
    if us != [] {
      UnitsOfBytes(us[1..]);
      assert BytesOf(us)[2..] == BytesOf(us[1..]);
    }
  }

  lemma BytesStep(us: seq<Unit>)
    ensures us == [] ==> BytesOf(us) == []
    ensures us != [] ==> BytesOf(us) == TwoBytes(us[0]) + BytesOf(us[1..])
  {
    hide TwoBytes;
  }

  lemma {:induction false} BytesOfConcat(a: seq<Unit>, b: seq<Unit>)
    ensures BytesOf(a + b) == BytesOf(a) + BytesOf(b)
  {
    hide BytesOf, TwoBytes;
    BytesStep(a);
    BytesStep(a + b);
    if a == [] {
      assert a + b == b;
    } else {
      BytesOfConcat(a[1..], b);
      assert (a + b)[1..] == a[1..] + b;
    }
  }

  // ---------- Code points to units ----------

  predicate FitsUtf16(c: CodePoint) {
    c < 0x11_0000 && !IsSurrogate(c)
  }

  predicate AllFit(cs: seq<CodePoint>) {
    forall i :: 0 <= i < |cs| ==> FitsUtf16(cs[i])
  }

  /** One unit, or a surrogate pair. */
  function ToUnits(c: CodePoint): seq<Unit>
    requires c < 0x11_0000
  {
    if c < 0x1_0000 then [c] else [0xd800 + (c - 0x1_0000) / 0x400, 0xdc00 + (c - 0x1_0000) % 0x400]
  }

  /** Malformed and unrepresentable characters become U+FFFD. */
  function Fit(c: CodePoint): (r: CodePoint)
    ensures c == INVALID || Readable(c) ==> FitsUtf16(r)
  {
    if c == INVALID || c >= 0x11_0000 then REPLACEMENT else c
  }

  function AllToUnits(cs: seq<CodePoint>): seq<Unit> {
    if cs == [] then [] else ToUnits(Fit(cs[0])) + AllToUnits(cs[1..])
  }

  datatype Conversion = Conversion(dst: seq<Byte>, errors: bool)

  /** Some character is beyond the range of surrogate pairs. */
  predicate SomeBeyond(cs: seq<CodePoint>) {
    exists i :: 0 <= i < |cs| && cs[i] >= 0x11_0000
  }

  function Utf16OfUtf8(src: seq<Byte>): Conversion {
    var cs := DecodeAll(Counted(src));
    Conversion(BytesOf(AllToUnits(cs)), SomeBeyond(cs))
  }

  lemma AllToUnitsStep(c: CodePoint, cs: seq<CodePoint>)
    ensures BytesOf(AllToUnits([c] + cs)) == BytesOf(ToUnits(Fit(c))) + BytesOf(AllToUnits(cs))
    ensures SomeBeyond([c] + cs) <==> c >= 0x11_0000 || SomeBeyond(cs)
  {
    assert ([c] + cs)[1..] == cs;
    BytesOfConcat(ToUnits(Fit(c)), AllToUnits(cs));
    assert forall i :: 0 <= i < |cs| ==> ([c] + cs)[i + 1] == cs[i];
    if c >= 0x11_0000 {
      assert ([c] + cs)[0] == c;
    }
  }

  /** Appends one unit, the low byte first. */
  method AppendUnit(dst: seq<Byte>, u: Unit) returns (dst': seq<Byte>)
    ensures dst' == dst + BytesOf([u])
  {
    assert BytesOf([u]) == [u % 0x100, u / 0x100];
    dst' := dst + [u % 0x100, u / 0x100];
  }

  /** Appends one representable character. */
  method AppendUTF16(dst: seq<Byte>, c: CodePoint) returns (dst': seq<Byte>)
    requires c < 0x11_0000
    ensures dst' == dst + BytesOf(ToUnits(c))
  {
    if c < 0x1_0000 {
      dst' := AppendUnit(dst, c);
    } else {
      var x := c - 0x1_0000;
      var utf16h: Unit, utf16l: Unit := x / 0x400 + 0xd800, x % 0x400 + 0xdc00;
      BytesOfConcat([utf16h], [utf16l]);
      assert ToUnits(c) == [utf16h] + [utf16l];
      dst' := AppendUnit(dst, utf16h);
      dst' := AppendUnit(dst', utf16l);
    }
  }

  /** Converts one character at `data`, of which `n` bytes are left, and moves both past it. */
  method NextUTF8(dst: seq<Byte>, src: seq<Byte>, data: nat, n: nat)
    returns (dst': seq<Byte>, data': nat, n': nat, error: bool)
    requires 0 < n && data + n <= |src|
    ensures
      var d := Decode(src[data..data + n]);
      && data' == data + d.size && data' + n' == data + n
      && dst' == dst + BytesOf(ToUnits(Fit(d.c))) && (error <==> d.c >= 0x11_0000)
  {
    hide Decode, BytesOf, ToUnits;
    var c;
    c, data', n' := FromUTF8(src, data, n);
    error := false;
    if c == INVALID {
      c := REPLACEMENT;
    } else if c >= 0x11_0000 {
      error := true;
      c := REPLACEMENT;
    }
    dst' := AppendUTF16(dst, c);
  }

  method UTF8ToUTF16(src: seq<Byte>) returns (dst: seq<Byte>, errors: bool)
    ensures Conversion(dst, errors) == Utf16OfUtf8(src)
  {
    hide Decode, DecodeAll, BytesOf, AllToUnits, SomeBeyond, ToUnits, Fit;
    errors, dst := false, [];
    var data: nat, n: nat := 0, |src| % 0x1_0000_0000;
    ghost var w := Counted(src);
    assert w[0..] == w;
    while n > 0
      invariant data + n == |w|
      invariant dst + BytesOf(AllToUnits(DecodeAll(w[data..]))) == Utf16OfUtf8(src).dst
      invariant errors || SomeBeyond(DecodeAll(w[data..])) <==> Utf16OfUtf8(src).errors
    {
      CountedRest(src, data, n);
      ReadOne(w, data);
      AllToUnitsStep(Decode(w[data..]).c, DecodeAll(w[data + Decode(w[data..]).size..]));
      var error;
      dst, data, n, error := NextUTF8(dst, src, data, n);
      errors := errors || error;
    }
    NothingLeft(w[data..]);
  }

  lemma NothingLeft(s: seq<Byte>)
    requires s == []
    ensures BytesOf(AllToUnits(DecodeAll(s))) == [] && !SomeBeyond(DecodeAll(s))
  {
  }

  // ---------- Units to code points ----------

  /** Every surrogate stands in a pair. */
  predicate Paired(us: seq<Unit>) {
    && (forall i :: 0 <= i < |us| && IsHigh(us[i]) ==> i + 1 < |us| && IsLow(us[i + 1]))
    && (forall i :: 0 <= i < |us| && IsLow(us[i]) ==> 0 < i && IsHigh(us[i - 1]))
  }

  /** How many units the first character takes up: a high surrogate takes the next unit along, whatever it is. */
  function Width(us: seq<Unit>): (width: nat)
    requires us != []
    ensures 1 <= width <= 2 && width <= |us|
  {
    if IsHigh(us[0]) && |us| > 1 then 2 else 1
  }

  /** The first character; U+FFFD for an unpaired surrogate. */
  function First(us: seq<Unit>): (c: CodePoint)
    requires us != []
    ensures FitsUtf16(c)
  {
    if !IsSurrogate(us[0]) then us[0]
    else if IsHigh(us[0]) && |us| > 1 && IsLow(us[1]) then
      (us[0] - 0xd800) * 0x400 + (us[1] - 0xdc00) + 0x1_0000
    else REPLACEMENT
  }

  function Scalars(us: seq<Unit>): (cs: seq<CodePoint>)
    ensures AllFit(cs) && AllWritable(cs)
  {
    if us == [] then [] else [First(us)] + Scalars(us[Width(us)..])
  }

  /** The first character stands for exactly the units it takes up. */
  predicate Intact(us: seq<Unit>)
    requires us != []
  {
    ToUnits(First(us)) == us[..Width(us)]
  }

  lemma PairedFront(us: seq<Unit>)
    requires us != [] && Paired(us)
    ensures Intact(us) && Paired(us[Width(us)..])
  {
    var w := Width(us);
    var rest := us[w..];
    assert IsHigh(us[0]) ==> IsLow(us[1]);
    forall i | 0 <= i < |rest| && IsHigh(rest[i]) ensures i + 1 < |rest| && IsLow(rest[i + 1]) {
      assert IsHigh(us[i + w]);
    }
    forall i | 0 <= i < |rest| && IsLow(rest[i]) ensures 0 < i && IsHigh(rest[i - 1]) {
      assert IsLow(us[i + w]);
    }
  }

  lemma PairedBack(us: seq<Unit>)
    requires us != [] && Intact(us) && Paired(us[Width(us)..])
    ensures Paired(us)
  {
    var w := Width(us);
    var rest := us[w..];
    assert us[0] == us[..w][0] && (w == 2 ==> us[1] == us[..w][1]);
    forall i | 0 <= i < |us| && IsHigh(us[i]) ensures i + 1 < |us| && IsLow(us[i + 1]) {
      assert i >= w ==> IsHigh(rest[i - w]);
    }
    forall i | 0 <= i < |us| && IsLow(us[i]) ensures 0 < i && IsHigh(us[i - 1]) {
      assert i >= w ==> IsLow(rest[i - w]);
    }
  }

  /** Pairing can be told character by character. */
  lemma PairedStep(us: seq<Unit>)
    requires us != []
    ensures Paired(us) <==> Intact(us) && Paired(us[Width(us)..])
  {
    hide Paired, Intact, Width;
    if Paired(us) {
      PairedFront(us);
    }
    if Intact(us) && Paired(us[Width(us)..]) {
      PairedBack(us);
    }
  }

  function Utf8OfUtf16(src: seq<Byte>): Conversion {
    var us := Body(UnitsOf(Counted(src)));
    Conversion(EncodeAll(Scalars(us)), !Paired(us))
  }

  lemma ScalarsStep(us: seq<Unit>)
    requires us != []
    ensures EncodeAll(Scalars(us)) == Encode(First(us)) + EncodeAll(Scalars(us[Width(us)..]))
  {
    assert Scalars(us)[1..] == Scalars(us[Width(us)..]);
  }

  /** Units of which `n` are left at `data`. */
  ghost predicate Remaining(src: seq<Byte>, data: nat, n: nat, byteSwapped: bool, us: seq<Unit>) {
    && data + 2 * n <= |src|
    && |us| == n
    && forall i :: 0 <= i < n ==> us[i] == Decode16(src, data + 2 * i, byteSwapped)
  }

  lemma SwappedUnit(src: seq<Byte>, data: nat)
    requires data + 2 <= |src|
    ensures Decode16(src, data, true) == Swapped(Decode16(src, data, false))
  {
    var low: int, high: int := src[data], src[data + 1];
    assert (low + high * 0x100) % 0x100 == low && (low + high * 0x100) / 0x100 == high;
  }

  /** Looks for a byte order mark and moves past it. */
  method SkipMark(src: seq<Byte>, n: nat) returns (data: nat, n': nat, byteSwapped: bool)
    requires 2 * n <= |src|
    ensures Remaining(src, data, n', byteSwapped, Body(UnitsOf(src[..2 * n])))
  {
    hide Decode16, UnitsOf, Swapped;
    ghost var us := UnitsOf(src[..2 * n]);
    forall i | 0 <= i < n
      ensures us[i] == Decode16(src, 2 * i, false) && Swapped(us[i]) == Decode16(src, 2 * i, true)
    {
      DecodePrefix(src, 2 * n, 2 * i);
      SwappedUnit(src, 2 * i);
    }
    data, n', byteSwapped := 0, n, false;
    if n >= 1 {
      var mark := Decode16(src, 0, false);
      assert mark == us[0];
      if mark == 0xfeff {
        data, n' := 2, n - 1;
      } else if mark == 0xfffe {
        byteSwapped, data, n' := true, 2, n - 1;
      }
    }
  }

  lemma DecodePrefix(src: seq<Byte>, end: nat, data: nat)
    requires data + 2 <= end <= |src|
    ensures Decode16(src[..end], data, false) == Decode16(src, data, false)
  {
  }

  lemma IntactIff(us: seq<Unit>)
    requires us != []
    ensures Intact(us) <==> !IsSurrogate(us[0]) || (IsHigh(us[0]) && |us| > 1 && IsLow(us[1]))
  {
    if !IsSurrogate(us[0]) {
      assert us[..1] == [us[0]];
    } else if IsHigh(us[0]) && |us| > 1 && IsLow(us[1]) {
      assert us[..2] == [us[0], us[1]];
    } else {
      assert ToUnits(First(us))[0] != us[..Width(us)][0];
    }
  }

  lemma RemainingLength(src: seq<Byte>, data: nat, n: nat, byteSwapped: bool, us: seq<Unit>)
    requires Remaining(src, data, n, byteSwapped, us)
    ensures data + 2 * n <= |src| && |us| == n
  {
  }

  lemma RemainingFront(src: seq<Byte>, data: nat, n: nat, byteSwapped: bool, us: seq<Unit>)
    requires 0 < n && Remaining(src, data, n, byteSwapped, us)
    ensures data + 2 * n <= |src| && |us| == n && us[0] == Decode16(src, data, byteSwapped)
    ensures n > 1 ==> us[1] == Decode16(src, data + 2, byteSwapped)
  {
    hide Decode16;
    assert us[0] == Decode16(src, data + 2 * 0, byteSwapped);
    assert n > 1 ==> us[1] == Decode16(src, data + 2 * 1, byteSwapped);
  }

  lemma RemainingRest(src: seq<Byte>, data: nat, n: nat, byteSwapped: bool, us: seq<Unit>, w: nat)
    requires Remaining(src, data, n, byteSwapped, us) && w <= n
    ensures Remaining(src, data + 2 * w, n - w, byteSwapped, us[w..])
  {
    hide Decode16;
  }

  /** Converts one character at `data`, of which `n` units are left, and moves both past it. */
  method NextUTF16(dst: seq<Byte>, src: seq<Byte>, data: nat, n: nat, byteSwapped: bool, ghost us: seq<Unit>)
    returns (dst': seq<Byte>, data': nat, n': nat, error: bool)
    requires 0 < n && Remaining(src, data, n, byteSwapped, us)
    ensures dst' == dst + Encode(First(us))
    ensures Remaining(src, data', n', byteSwapped, us[Width(us)..]) && n' == n - Width(us)
    ensures error <==> !Intact(us)
  {
    hide Decode16, Encode, Intact, ToUnits, Remaining;
    RemainingFront(src, data, n, byteSwapped, us);
    IntactIff(us);
    RemainingRest(src, data, n, byteSwapped, us, Width(us));
    data', n', error := data, n, false;
    var bad;
    var c: CodePoint := Decode16(src, data', byteSwapped);
    assert c == us[0];
    if c < 0xd800 || c > 0xdfff {
      dst', bad := ToUTF8(dst, c);
      error := bad;
    } else if n' == 1 {
      error := true;
      dst', bad := ToUTF8(dst, REPLACEMENT);
    } else if c >= 0xd800 && c <= 0xdbff {
      data', n' := data' + 2, n' - 1;
      var c2: CodePoint := Decode16(src, data', byteSwapped);
      assert c2 == us[1];
      if c2 < 0xdc00 || c2 > 0xdfff {
        error := true;
        dst', bad := ToUTF8(dst, REPLACEMENT);
      } else {
        c := (c - 0xd800) * 0x400 + (c2 - 0xdc00) + 0x1_0000;
        dst', bad := ToUTF8(dst, c);
        error := bad;
      }
    } else {
      error := true;
      dst', bad := ToUTF8(dst, REPLACEMENT);
    }
    data', n' := data' + 2, n' - 1;
  }

  method DoUTF16ToUTF8(src: seq<Byte>, n: nat) returns (dst: seq<Byte>, errors: bool)
    requires 2 * n <= |src|
    ensures dst == EncodeAll(Scalars(Body(UnitsOf(src[..2 * n]))))
    ensures errors <==> !Paired(Body(UnitsOf(src[..2 * n])))
  {
    hide Paired, Encode, EncodeAll, Scalars, Body, First, Intact, Decode16, Remaining, UnitsOf;
    dst, errors := [], false;
    var data, left, byteSwapped := SkipMark(src, n);
    ghost var all := Body(UnitsOf(src[..2 * n]));
    ghost var us := all;
    while left > 0
      invariant Remaining(src, data, left, byteSwapped, us)
      invariant dst + EncodeAll(Scalars(us)) == EncodeAll(Scalars(all))
      invariant !errors && Paired(us) <==> Paired(all)
    {
      RemainingLength(src, data, left, byteSwapped, us);
      PairedStep(us);
      ScalarsStep(us);
      var error;
      dst, data, left, error := NextUTF16(dst, src, data, left, byteSwapped, us);
      errors := errors || error;
      us := us[Width(us)..];
    }
    RemainingLength(src, data, left, byteSwapped, us);
    NoUnitsLeft(us);
  }

  lemma NoUnitsLeft(us: seq<Unit>)
    requires us == []
    ensures EncodeAll(Scalars(us)) == [] && Paired(us)
  {
  }

  method UTF16ToUTF8(src: seq<Byte>) returns (dst: seq<Byte>, errors: bool)
    ensures Conversion(dst, errors) == Utf8OfUtf16(src)
  {
    hide UnitsOf, Body, Scalars, EncodeAll, Paired;
    var n := |src| % 0x1_0000_0000 / 2;
    dst, errors := DoUTF16ToUTF8(src, n);
    WholeUnits(Counted(src));
    assert src[..2 * n] == Counted(src)[..2 * n];
  }

  lemma {:induction false} WholeUnits(src: seq<Byte>)
    ensures UnitsOf(src[..|src| / 2 * 2]) == UnitsOf(src)
  {
  }

  // ---------- Round trips ----------

  /** Code points that reading accepts and that units can hold. */
  predicate AllExchangeable(cs: seq<CodePoint>) {
    AllReadable(cs) && AllFit(cs)
  }

  lemma FirstOfPair(c: CodePoint, rest: seq<Unit>)
    requires FitsUtf16(c)
    ensures var us := ToUnits(c) + rest;
      First(us) == c && Width(us) == |ToUnits(c)| && us[Width(us)..] == rest && Intact(us)
  {
    assert (ToUnits(c) + rest)[..|ToUnits(c)|] == ToUnits(c);
  }

  /** The units of a string read back as its code points, all in pairs. */
  lemma {:induction false} ScalarsOfUnits(cs: seq<CodePoint>)
    requires AllExchangeable(cs)
    ensures Scalars(AllToUnits(cs)) == cs && Paired(AllToUnits(cs))
  {
    hide Intact, ToUnits, First, Width;
    if cs != [] {
      ScalarsOfUnits(cs[1..]);
      FirstOfPair(cs[0], AllToUnits(cs[1..]));
      PairedStep(AllToUnits(cs));
    }
  }

  /** Paired units are the units of the code points they stand for. */
  lemma {:induction false} UnitsOfScalars(us: seq<Unit>)
    requires Paired(us) && AllReadable(Scalars(us))
    ensures AllToUnits(Scalars(us)) == us
    decreases |us|
  {
    hide Paired;
    if us != [] {
      var w := Width(us);
      PairedStep(us);
      assert Scalars(us)[0] == First(us) && Scalars(us)[1..] == Scalars(us[w..]);
      UnitsOfScalars(us[w..]);
      assert us == us[..w] + us[w..];
    }
  }

  lemma DecodeReadable(cs: seq<CodePoint>)
    requires AllReadable(cs)
    ensures DecodeAll(EncodeAll(cs)) == cs
  {
    DecodeAllEncodeAll(cs);
  }

  lemma MarkOfUnits(cs: seq<CodePoint>)
    requires AllExchangeable(cs)
    ensures Body(AllToUnits(cs)) == AllToUnits(if cs != [] && cs[0] == 0xfeff then cs[1..] else cs)
  {
    if cs != [] {
      assert AllToUnits(cs)[0] == ToUnits(cs[0])[0];
    }
  }

  /** The round trip of the encoding of any code points. */
  lemma {:induction false} EncodedRoundTrip(cs: seq<CodePoint>)
    requires AllExchangeable(cs)
    requires |EncodeAll(cs)| < 0x1_0000_0000 && |Utf16OfUtf8(EncodeAll(cs)).dst| < 0x1_0000_0000
    ensures
      var there := Utf16OfUtf8(EncodeAll(cs));
      var back := Utf8OfUtf16(there.dst);
      && !there.errors && !back.errors
      && back.dst == EncodeAll(if cs != [] && cs[0] == 0xfeff then cs[1..] else cs)
  {
    hide DecodeAll, EncodeAll, UnitsOf, BytesOf, AllToUnits, Scalars, Paired, Body;
    var kept := if cs != [] && cs[0] == 0xfeff then cs[1..] else cs;
    DecodeReadable(cs);
    assert !SomeBeyond(cs);
    UnitsOfBytes(AllToUnits(cs));
    MarkOfUnits(cs);
    ScalarsOfUnits(kept);
  }

  /** UTF-8 to UTF-16 and back, for well-formed strings without characters beyond U+10FFFF: no errors, and nothing
      lost but a U+FEFF in front, which is taken for a mark. */
  lemma {:induction false} Utf16RoundTrip(s: seq<Byte>)
    requires WellFormed(s) && !SomeBeyond(DecodeAll(s))
    requires |s| < 0x1_0000_0000 && |Utf16OfUtf8(s).dst| < 0x1_0000_0000
    ensures
      var there := Utf16OfUtf8(s);
      var back := Utf8OfUtf16(there.dst);
      && !there.errors && !back.errors
      && back.dst == if s != [] && Decode(s).c == 0xfeff then s[Decode(s).size..] else s
  {
    hide Decode, EncodeAll, Utf16OfUtf8, Utf8OfUtf16, WellFormed;
    var cs := DecodeAll(s);
    WellFormedIff(s);
    EncodeAllDecodeAll(s);
    assert AllExchangeable(cs);
    EncodedRoundTrip(cs);
    if s != [] {
      var rest := s[Decode(s).size..];
      assert cs == [Decode(s).c] + DecodeAll(rest);
      assert cs[1..] == DecodeAll(rest);
      EncodeAllDecodeAll(rest);
    }
  }

  /** UTF-16 to UTF-8 and back: paired units without U+FFFE and U+FFFF come back without their byte order mark. */
  lemma {:induction false} Utf8RoundTrip(src: seq<Byte>)
    requires |src| < 0x1_0000_0000 && |Utf8OfUtf16(src).dst| < 0x1_0000_0000
    requires Paired(Body(UnitsOf(src))) && AllReadable(Scalars(Body(UnitsOf(src))))
    ensures !Utf8OfUtf16(src).errors
    ensures Utf16OfUtf8(Utf8OfUtf16(src).dst) == Conversion(BytesOf(Body(UnitsOf(src))), false)
  {
    var us := Body(UnitsOf(src));
    DecodeReadable(Scalars(us));
    UnitsOfScalars(us);
  }

  /** The result of reading UTF-16 is well formed unless a character of its own is U+FFFE or U+FFFF. */
  lemma Utf8OfUtf16WellFormed(src: seq<Byte>)
    ensures WellFormed(Utf8OfUtf16(src).dst) <==> AllReadable(Scalars(Body(UnitsOf(Counted(src)))))
  {
    EncodeAllWellFormed(Scalars(Body(UnitsOf(Counted(src)))));
  }

  predicate NoRefused(us: seq<Unit>) {
    forall i :: 0 <= i < |us| ==> us[i] != 0xfffe && us[i] != 0xffff
  }

  lemma {:induction false} ScalarsReadable(us: seq<Unit>)
    requires NoRefused(us)
    ensures AllReadable(Scalars(us))
    decreases |us|
  {
    if us != [] {
      var rest := us[Width(us)..];
      assert forall i :: 0 <= i < |rest| ==> rest[i] == us[i + Width(us)];
      ScalarsReadable(rest);
    }
  }

  /** In particular when no unit after the mark is U+FFFE or U+FFFF, paired or not. */
  lemma Utf8OfUtf16Accepted(src: seq<Byte>)
    requires NoRefused(Body(UnitsOf(Counted(src))))
    ensures WellFormed(Utf8OfUtf16(src).dst)
  {
    ScalarsReadable(Body(UnitsOf(Counted(src))));
    Utf8OfUtf16WellFormed(src);
  }

  /** A character that spells U+FFFE or U+FFFF is a unit of its own. */
  lemma {:induction false} RefusedExactly(us: seq<Unit>)
    requires Paired(us)
    ensures AllReadable(Scalars(us)) <==> NoRefused(us)
    decreases |us|
  {
    if us != [] {
      hide Paired, NoRefused, AllReadable;
      PairedStep(us);
      IntactIff(us);
      RefusedExactly(us[Width(us)..]);
      RefusedStep(us);
      assert Scalars(us)[1..] == Scalars(us[Width(us)..]);
      ReadableStep(Scalars(us));
    } else {
      assert NoRefused(us) && AllReadable(Scalars(us));
    }
  }

  lemma ReadableStep(cs: seq<CodePoint>)
    requires cs != []
    ensures AllReadable(cs) <==> Readable(cs[0]) && AllReadable(cs[1..])
  {
    assert forall i :: 1 <= i < |cs| ==> cs[i] == cs[1..][i - 1];
  }

  lemma RefusedStep(us: seq<Unit>)
    requires us != []
    requires !IsSurrogate(us[0]) || (IsHigh(us[0]) && |us| > 1 && IsLow(us[1]))
    ensures NoRefused(us) <==> Readable(First(us)) && NoRefused(us[Width(us)..])
  {
    var w := Width(us);
    assert forall i :: w <= i < |us| ==> us[i] == us[w..][i - w];
    assert forall i :: 0 <= i < |us| - w ==> us[w..][i] == us[i + w];
  }

  /** Reading UTF-16 gives a malformed string without an error exactly when all surrogates are in pairs and some unit
      after the mark is U+FFFE or U+FFFF. */
  lemma {:induction false} SilentlyMalformed(src: seq<Byte>)
    ensures
      var us := Body(UnitsOf(Counted(src)));
      !Utf8OfUtf16(src).errors && !WellFormed(Utf8OfUtf16(src).dst) <==> Paired(us) && !NoRefused(us)
  {
    hide Paired, Scalars, EncodeAll, NoRefused, WellFormed, Body, UnitsOf;
    var us := Body(UnitsOf(Counted(src)));
    Utf8OfUtf16WellFormed(src);
    if Paired(us) {
      RefusedExactly(us);
    }
  }

  /** The one unit U+FFFF is such an input. */
  lemma SilentlyMalformedInput()
    ensures !Utf8OfUtf16([0xff, 0xff]).errors && !WellFormed(Utf8OfUtf16([0xff, 0xff]).dst)
  {
    var src: seq<Byte> := [0xff, 0xff];
    assert UnitsOf(src) == [0xffff] by {
      assert src[2..] == [];
    }
    SilentlyMalformed(src);
  }

  lemma SwapTwice(u: Unit)
    ensures Swapped(Swapped(u)) == u
  {
    var low, high := u % 0x100, u / 0x100;
    assert (low * 0x100 + high) % 0x100 == high && (low * 0x100 + high) / 0x100 == low;
  }

  lemma SwappedTwice(us: seq<Unit>)
    ensures SwapAll(SwapAll(us)) == us
  {
    hide Swapped;
    forall i | 0 <= i < |us| ensures Swapped(Swapped(us[i])) == us[i] {
      SwapTwice(us[i]);
    }
  }

  /** With a byte order mark in front, both byte orders convert to the same string. */
  lemma {:induction false} ByteOrderIrrelevant(us: seq<Unit>)
    requires 2 * |us| + 2 < 0x1_0000_0000
    ensures Utf8OfUtf16(BytesOf([0xfeff] + us)) == Utf8OfUtf16(BytesOf(SwapAll([0xfeff] + us)))
    ensures Utf8OfUtf16(BytesOf([0xfeff] + us)) == Conversion(EncodeAll(Scalars(us)), !Paired(us))
  {
    hide Paired, EncodeAll, Scalars, UnitsOf, BytesOf, Body;
    UnitsOfBytes([0xfeff] + us);
    UnitsOfBytes(SwapAll([0xfeff] + us));
    BodyOfMarked(us);
  }

  lemma BodyOfMarked(us: seq<Unit>)
    ensures Body([0xfeff] + us) == us && Body(SwapAll([0xfeff] + us)) == us
  {
    SwappedTwice(us);
    assert SwapAll([0xfeff] + us) == [0xfffe] + SwapAll(us);
  }

  // ---------- UCS-2 ----------

  /** Some character needs more than one unit. */
  predicate SomeWide(cs: seq<CodePoint>) {
    exists i :: 0 <= i < |cs| && cs[i] >= 0x1_0000
  }

  function FitUcs2(c: CodePoint): Unit {
    if c == INVALID || c >= 0x1_0000 then REPLACEMENT else c
  }

  function AllToUcs2(cs: seq<CodePoint>): (us: seq<Unit>)
    ensures |us| == |cs|
  {
    if cs == [] then [] else [FitUcs2(cs[0])] + AllToUcs2(cs[1..])
  }

  function Ucs2OfUtf8(src: seq<Byte>): Conversion {
    var cs := DecodeAll(Counted(src));
    Conversion(BytesOf(AllToUcs2(cs)), SomeWide(cs))
  }

  lemma AllToUcs2Step(c: CodePoint, cs: seq<CodePoint>)
    ensures BytesOf(AllToUcs2([c] + cs)) == BytesOf([FitUcs2(c)]) + BytesOf(AllToUcs2(cs))
    ensures SomeWide([c] + cs) <==> c >= 0x1_0000 || SomeWide(cs)
  {
    assert ([c] + cs)[1..] == cs;
    BytesOfConcat([FitUcs2(c)], AllToUcs2(cs));
    assert forall i :: 0 <= i < |cs| ==> ([c] + cs)[i + 1] == cs[i];
    if c >= 0x1_0000 {
      assert ([c] + cs)[0] == c;
    }
  }

  /** Converts one character at `data`, of which `n` bytes are left, and moves both past it. */
  method NextUTF8ToUCS2(dst: seq<Byte>, src: seq<Byte>, data: nat, n: nat)
    returns (dst': seq<Byte>, data': nat, n': nat, error: bool)
    requires 0 < n && data + n <= |src|
    ensures
      var d := Decode(src[data..data + n]);
      && data' == data + d.size && data' + n' == data + n
      && dst' == dst + BytesOf([FitUcs2(d.c)]) && (error <==> d.c >= 0x1_0000)
  {
    hide Decode, BytesOf;
    var c;
    c, data', n' := FromUTF8(src, data, n);
    error := false;
    if c == INVALID {
      c := REPLACEMENT;
    } else if c >= 0x1_0000 {
      error := true;
      c := REPLACEMENT;
    }
    dst' := AppendUnit(dst, c);
  }

  method UTF8ToUCS2(src: seq<Byte>) returns (dst: seq<Byte>, errors: bool)
    ensures Conversion(dst, errors) == Ucs2OfUtf8(src)
  {
    hide Decode, DecodeAll, BytesOf, AllToUcs2, SomeWide, FitUcs2;
    errors, dst := false, [];
    var data: nat, n: nat := 0, |src| % 0x1_0000_0000;
    ghost var w := Counted(src);
    assert w[0..] == w;
    while n > 0
      invariant data + n == |w|
      invariant dst + BytesOf(AllToUcs2(DecodeAll(w[data..]))) == Ucs2OfUtf8(src).dst
      invariant errors || SomeWide(DecodeAll(w[data..])) <==> Ucs2OfUtf8(src).errors
    {
      CountedRest(src, data, n);
      ReadOne(w, data);
      AllToUcs2Step(Decode(w[data..]).c, DecodeAll(w[data + Decode(w[data..]).size..]));
      var error;
      dst, data, n, error := NextUTF8ToUCS2(dst, src, data, n);
      errors := errors || error;
    }
    NothingLeftUcs2(w[data..]);
  }

  lemma NothingLeftUcs2(s: seq<Byte>)
    requires s == []
    ensures BytesOf(AllToUcs2(DecodeAll(s))) == [] && !SomeWide(DecodeAll(s))
  {
  }

  /** UCS-2 and UTF-16 agree on a string exactly when it has no character that takes a surrogate pair. */
  lemma {:induction false} Ucs2Agrees(cs: seq<CodePoint>)
    requires forall i :: 0 <= i < |cs| ==> cs[i] == INVALID || Readable(cs[i])
    ensures |AllToUcs2(cs)| <= |AllToUnits(cs)|
    ensures AllToUcs2(cs) == AllToUnits(cs) <==> forall i :: 0 <= i < |cs| ==> !(0x1_0000 <= cs[i] < 0x11_0000)
  {
    if cs != [] {
      Ucs2Agrees(cs[1..]);
      assert AllToUnits(cs)[..|ToUnits(Fit(cs[0]))|] == ToUnits(Fit(cs[0]));
      assert 0x1_0000 <= cs[0] < 0x11_0000 ==> |AllToUnits(cs)| == 2 + |AllToUnits(cs[1..])|;
      assert !(0x1_0000 <= cs[0] < 0x11_0000) ==> AllToUnits(cs)[1..] == AllToUnits(cs[1..]);
      assert AllToUcs2(cs)[1..] == AllToUcs2(cs[1..]);
    }
  }

  /** Each unit for itself; U+FFFD for a surrogate. */
  function Alone(us: seq<Unit>): (cs: seq<CodePoint>)
    ensures |cs| == |us| && AllWritable(cs)
    ensures forall i :: 0 <= i < |us| ==> cs[i] == if IsSurrogate(us[i]) then REPLACEMENT else us[i]
  {
    if us == [] then [] else [if IsSurrogate(us[0]) then REPLACEMENT else us[0]] + Alone(us[1..])
  }

  predicate SomeSurrogate(us: seq<Unit>) {
    exists i :: 0 <= i < |us| && IsSurrogate(us[i])
  }

  function Utf8OfUcs2(src: seq<Byte>): Conversion {
    var us := Body(UnitsOf(Counted(src)));
    Conversion(EncodeAll(Alone(us)), SomeSurrogate(us))
  }

  lemma AloneStep(us: seq<Unit>)
    requires us != []
    ensures EncodeAll(Alone(us)) == Encode(if IsSurrogate(us[0]) then REPLACEMENT else us[0]) + EncodeAll(Alone(us[1..]))
    ensures SomeSurrogate(us) <==> IsSurrogate(us[0]) || SomeSurrogate(us[1..])
  {
    assert Alone(us)[1..] == Alone(us[1..]);
    assert forall i :: 0 <= i < |us| - 1 ==> us[1..][i] == us[i + 1];
    if i :| 0 <= i < |us| && IsSurrogate(us[i]) {
      assert i > 0 ==> us[1..][i - 1] == us[i];
    }
  }

  method DoUCS2ToUTF8(src: seq<Byte>, n: nat) returns (dst: seq<Byte>, errors: bool)
    requires 2 * n <= |src|
    ensures dst == EncodeAll(Alone(Body(UnitsOf(src[..2 * n]))))
    ensures errors <==> SomeSurrogate(Body(UnitsOf(src[..2 * n])))
  {
    hide Encode, EncodeAll, Alone, Body, Decode16, SomeSurrogate, Remaining, UnitsOf;
    dst, errors := [], false;
    var data, left, byteSwapped := SkipMark(src, n);
    ghost var all := Body(UnitsOf(src[..2 * n]));
    ghost var us := all;
    while left > 0
      invariant Remaining(src, data, left, byteSwapped, us)
      invariant dst + EncodeAll(Alone(us)) == EncodeAll(Alone(all))
      invariant errors || SomeSurrogate(us) <==> SomeSurrogate(all)
    {
      RemainingFront(src, data, left, byteSwapped, us);
      AloneStep(us);
      RemainingRest(src, data, left, byteSwapped, us, 1);
      var error;
      dst, error := ToUTF8(dst, Decode16(src, data, byteSwapped));
      errors := errors || error;
      data, left := data + 2, left - 1;
      us := us[1..];
    }
    RemainingLength(src, data, left, byteSwapped, us);
    NoneLeftAlone(us);
  }

  lemma NoneLeftAlone(us: seq<Unit>)
    requires us == []
    ensures EncodeAll(Alone(us)) == [] && !SomeSurrogate(us)
  {
  }

  method UCS2ToUTF8(src: seq<Byte>) returns (dst: seq<Byte>, errors: bool)
    ensures Conversion(dst, errors) == Utf8OfUcs2(src)
  {
    hide UnitsOf, Body, Alone, EncodeAll, SomeSurrogate;
    var n := |src| % 0x1_0000_0000 / 2;
    dst, errors := DoUCS2ToUTF8(src, n);
    WholeUnits(Counted(src));
    assert src[..2 * n] == Counted(src)[..2 * n];
  }

  predicate AllNarrow(cs: seq<CodePoint>) {
    AllReadable(cs) && forall i :: 0 <= i < |cs| ==> cs[i] < 0x1_0000
  }

  lemma {:induction false} AloneOfUnits(cs: seq<CodePoint>)
    requires AllNarrow(cs)
    ensures AllToUcs2(cs) == cs && Alone(AllToUcs2(cs)) == cs && !SomeSurrogate(AllToUcs2(cs))
  {
    if cs != [] {
      AloneOfUnits(cs[1..]);
      assert AllToUcs2(cs) == [cs[0]] + AllToUcs2(cs[1..]);
      AloneStep(AllToUcs2(cs));
    }
  }

  /** UTF-8 to UCS-2 and back: what fits one unit is kept, but for a U+FEFF in front. */
  lemma Ucs2RoundTrip(cs: seq<CodePoint>)
    requires AllNarrow(cs)
    requires |EncodeAll(cs)| < 0x1_0000_0000 && 2 * |cs| < 0x1_0000_0000
    ensures
      var there := Ucs2OfUtf8(EncodeAll(cs));
      var back := Utf8OfUcs2(there.dst);
      && !there.errors && !back.errors
      && back.dst == EncodeAll(if cs != [] && cs[0] == 0xfeff then cs[1..] else cs)
  {
    hide DecodeAll, EncodeAll, UnitsOf, BytesOf, AllToUcs2, Alone;
    var kept := if cs != [] && cs[0] == 0xfeff then cs[1..] else cs;
    DecodeReadable(cs);
    assert !SomeWide(cs);
    AloneOfUnits(cs);
    UnitsOfBytes(AllToUcs2(cs));
    AloneOfUnits(kept);
    assert Body(AllToUcs2(cs)) == AllToUcs2(kept);
  }

  /** No high surrogate has a unit behind it that it could take along. */
  predicate NoneTaken(us: seq<Unit>) {
    forall i :: 0 <= i < |us| && IsHigh(us[i]) ==> i + 1 == |us|
  }

  lemma NoneTakenStep(us: seq<Unit>)
    requires us != []
    ensures NoneTaken(us) <==> Width(us) == 1 && NoneTaken(us[1..])
  {
    assert forall i :: 0 <= i < |us| - 1 ==> us[1..][i] == us[i + 1];
    if !NoneTaken(us) && Width(us) == 1 {
      var i :| 0 <= i < |us| && IsHigh(us[i]) && i + 1 != |us|;
      assert us[1..][i - 1] == us[i];
    }
  }

  /** UTF-16 never sees more characters than UCS-2, and sees the same ones exactly when no unit is taken along. */
  lemma {:induction false} TakenExactly(us: seq<Unit>)
    ensures |Scalars(us)| <= |us|
    ensures NoneTaken(us) ==> Scalars(us) == Alone(us)
    ensures !NoneTaken(us) ==> |Scalars(us)| < |us|
    decreases |us|
  {
    if us != [] {
      hide NoneTaken;
      NoneTakenStep(us);
      TakenExactly(us[Width(us)..]);
    } else {
      assert NoneTaken(us);
    }
  }

  lemma PairedWithoutTaking(us: seq<Unit>)
    requires NoneTaken(us)
    ensures Paired(us) <==> !SomeSurrogate(us)
  {
    if SomeSurrogate(us) {
      var i :| 0 <= i < |us| && IsSurrogate(us[i]);
      assert IsLow(us[i]) && 0 < i ==> !IsHigh(us[i - 1]);
    } else {
      assert forall i :: 0 <= i < |us| ==> !IsSurrogate(us[i]);
    }
  }

  /** Encodings of different numbers of characters differ. */
  lemma EncodingsDiffer(a: seq<CodePoint>, b: seq<CodePoint>)
    requires AllWritable(a) && AllWritable(b) && |a| != |b|
    ensures EncodeAll(a) != EncodeAll(b)
  {
    DecodeAllEncodeAll(a);
    DecodeAllEncodeAll(b);
  }

  /** Reading units as UCS-2 and as UTF-16 agree exactly when no high surrogate has a unit behind it; on well-paired
      units, exactly when there is no surrogate. */
  lemma {:induction false} Ucs2ReadingAgrees(src: seq<Byte>)
    ensures
      var us := Body(UnitsOf(Counted(src)));
      && (Utf8OfUcs2(src) == Utf8OfUtf16(src) <==> NoneTaken(us))
      && (Paired(us) ==> (NoneTaken(us) <==> !SomeSurrogate(us)))
  {
    hide Paired, Scalars, Alone, EncodeAll, UnitsOf, Body, SomeSurrogate, NoneTaken;
    var us := Body(UnitsOf(Counted(src)));
    TakenExactly(us);
    if NoneTaken(us) {
      PairedWithoutTaking(us);
      assert EncodeAll(Scalars(us)) == EncodeAll(Alone(us));
    } else {
      EncodingsDiffer(Scalars(us), Alone(us));
      TakenIsSurrogate(us);
    }
    assert Utf8OfUtf16(src) == Conversion(EncodeAll(Scalars(us)), !Paired(us));
    assert Utf8OfUcs2(src) == Conversion(EncodeAll(Alone(us)), SomeSurrogate(us));
  }

  lemma TakenIsSurrogate(us: seq<Unit>)
    requires !NoneTaken(us)
    ensures SomeSurrogate(us)
  {
  }

  // ---------- What is replaced ----------

  /** The low byte of a unit comes first. */
  lemma LowByteFirst(u: Unit)
    ensures BytesOf([u]) == [u % 0x100, u / 0x100]
  {
    assert BytesOf([]) == [];
    assert [u][1..] == [];
  }

  /** What becomes of a character of UTF-8 in UTF-16. */
  function Kept(c: CodePoint): CodePoint {
    if c == 0xffff || c >= 0x11_0000 then 0xfffd else c
  }

  /** The units of any string read back as its characters, with U+FFFD for the malformed and the unrepresentable ones,
      and all surrogates are in pairs. */
  lemma {:induction false} UnitsReadBack(cs: seq<CodePoint>)
    requires forall i :: 0 <= i < |cs| ==> cs[i] == 0xffff || (!IsSurrogate(cs[i]) && cs[i] < 0x8000_0000)
    ensures Scalars(AllToUnits(cs)) == seq(|cs|, i requires 0 <= i < |cs| => Kept(cs[i]))
    ensures Paired(AllToUnits(cs))
  {
    hide Intact, ToUnits, First, Width;
    if cs != [] {
      UnitsReadBack(cs[1..]);
      FirstOfPair(Fit(cs[0]), AllToUnits(cs[1..]));
      PairedStep(AllToUnits(cs));
    }
  }

  /** In UCS-2 the replaced ones are the malformed and those that need more than one unit. */
  lemma {:induction false} NarrowUnits(cs: seq<CodePoint>, i: nat)
    requires i < |cs|
    ensures AllToUcs2(cs)[i] == if cs[i] == 0xffff || cs[i] >= 0x1_0000 then 0xfffd else cs[i]
  {
    if i > 0 {
      NarrowUnits(cs[1..], i - 1);
    }
  }

  /** A surrogate that is not in a pair reads as U+FFFD; a high one takes the next unit along, if there is one. */
  lemma UnpairedReplaced(us: seq<Unit>)
    requires us != [] && 0xd800 <= us[0] <= 0xdfff
    requires us[0] >= 0xdc00 || |us| == 1 || !(0xdc00 <= us[1] <= 0xdfff)
    ensures Scalars(us) == [0xfffd] + Scalars(us[if us[0] < 0xdc00 && |us| > 1 then 2 else 1..])
    ensures !Paired(us)
  {
    IntactIff(us);
    PairedStep(us);
  }

  /** A surrogate pair reads as the one character that RFC 2781 gives it, and any other unit as itself. */
  lemma PairRead(us: seq<Unit>)
    requires us != []
    ensures us[0] < 0xd800 || us[0] > 0xdfff ==> Scalars(us) == [us[0]] + Scalars(us[1..])
    ensures 0xd800 <= us[0] < 0xdc00 && |us| > 1 && 0xdc00 <= us[1] <= 0xdfff ==>
      Scalars(us) == [0x1_0000 + (us[0] as int - 0xd800) * 0x400 + (us[1] as int - 0xdc00)] + Scalars(us[2..])
  {
  }
}
