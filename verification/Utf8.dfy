/** The UTF-8 half of Unicode: reading one character, writing one character, and testing
    a whole string.  The encoding is that of section 2 of RFC 2279, of up to six bytes.
    Masks and shifts of unsigned numbers are written as remainders and divisions by powers of two. */
module Utf8 {

  type Byte = b: int | 0 <= b < 0x100

  // uint32_t
  type CodePoint = c: int | 0 <= c < 0x1_0000_0000

  const INVALID: CodePoint := 0xffff
  const REPLACEMENT: CodePoint := 0xfffd

  predicate IsSurrogate(c: CodePoint) {
    0xd800 <= c <= 0xdfff
  }

  /** What six bytes can hold and is not a surrogate: these are written as they are. */
  predicate Writable(c: CodePoint) {
    c < 0x8000_0000 && !IsSurrogate(c)
  }

  /** The code points that reading accepts. */
  predicate Readable(c: CodePoint) {
    Writable(c) && c != 0xfffe && c != 0xffff
  }

  predicate AllWritable(cs: seq<CodePoint>) {
    forall i :: 0 <= i < |cs| ==> Writable(cs[i])
  }

  predicate AllReadable(cs: seq<CodePoint>) {
    forall i :: 0 <= i < |cs| ==> Readable(cs[i])
  }

  /** A string whose length is kept in a uint32_t: 2^32 bytes and more are cut. */
  function Counted(src: seq<Byte>): (s: seq<Byte>)
    ensures |src| < 0x1_0000_0000 ==> s == src
  {
    src[..|src| % 0x1_0000_0000]
  }

  // ---------- The format, as the RFC states it ----------

  predicate IsContinuation(b: Byte) {
    0x80 <= b < 0xc0
  }

  /** What the lead byte of a sequence of `size` bytes adds to the topmost payload bits. */
  function Marker(size: nat): Byte {
    match size
    case 1 => 0x00
    case 2 => 0xc0
    case 3 => 0xe0
    case 4 => 0xf0
    case 5 => 0xf8
    case _ => 0xfc
  }

  /** The number of payload values that a lead byte can hold. */
  function LeadRoom(size: nat): nat {
    match size
    case 1 => 0x80
    case 2 => 0x20
    case 3 => 0x10
    case 4 => 0x08
    case 5 => 0x04
    case _ => 0x02
  }

  /** Length of the sequence that a lead byte announces; 0 for a byte that cannot lead. */
  function AnnouncedSize(lead: Byte): (size: nat)
    ensures size <= 6
    ensures size != 0 ==> Marker(size) <= lead < Marker(size) + LeadRoom(size)
    ensures forall k {:trigger Marker(k)} :: 1 <= k <= 6 && Marker(k) <= lead < Marker(k) + LeadRoom(k) ==> size == k
  {
    if lead < 0x80 then 1
    else if lead < 0xc0 then 0
    else if lead < 0xe0 then 2
    else if lead < 0xf0 then 3
    else if lead < 0xf8 then 4
    else if lead < 0xfc then 5
    else if lead < 0xfe then 6
    else 0
  }

  /** The payload of a sequence, most significant bits first: six more bits per byte. */
  function Payload(s: seq<Byte>): nat
    requires s != [] && AnnouncedSize(s[0]) != 0
  {
    if |s| == 1 then s[0] - Marker(AnnouncedSize(s[0])) else Payload(s[..|s| - 1]) * 0x40 + s[|s| - 1] % 0x40
  }

  /** One more than the greatest payload of `size` bytes whose lead byte has `room` values. */
  function Limit(room: nat, size: nat): nat {
    if size <= 1 then room else 0x40 * Limit(room, size - 1)
  }

  /** The least code point that needs `size` bytes. */
  function LeastOfSize(size: nat): nat {
    if size <= 1 then 0 else Limit(LeadRoom(size - 1), size - 1)
  }

  /** Index of the first byte at or after `k`, and before `size`, that does not continue a sequence; else `size`. */
  function ContinuationEnd(s: seq<Byte>, k: nat, size: nat): (end: nat)
    requires k <= size <= |s|
    ensures k <= end <= size
    ensures forall i :: k <= i < end ==> IsContinuation(s[i])
    ensures end < size ==> !IsContinuation(s[end])
    decreases size - k
  {
    if k == size || !IsContinuation(s[k]) then k else ContinuationEnd(s, k + 1, size)
  }

  datatype Decoded = Decoded(c: CodePoint, size: nat)

  /** One character read from the front of `s`: its code point or INVALID, and the bytes it takes up. */
  function Decode(s: seq<Byte>): (r: Decoded)
    requires s != []
    ensures 1 <= r.size <= |s|
    ensures r.c == INVALID || Readable(r.c)
  {
    var size := AnnouncedSize(s[0]);
    if size == 0 then Decoded(INVALID, 1)
    else if size > |s| then Decoded(INVALID, |s|)
    else
      var end := ContinuationEnd(s, 1, size);
      if end < size then Decoded(INVALID, end)
      else
        var c := Payload(s[..size]);
        if LeastOfSize(size) <= c < 0x8000_0000 && Readable(c) then Decoded(c, size) else Decoded(INVALID, size)
  }

  /** The payload `c` over `size` bytes, the first of them marked. */
  function Spread(c: nat, marker: Byte, size: nat): (s: seq<Byte>)
    requires size != 0
    requires c < Limit(0x100 - marker, size)
    ensures |s| == size
  {
    if size == 1 then [marker + c] else Spread(c / 0x40, marker, size - 1) + [0x80 + c % 0x40]
  }

  /** The number of bytes of the shortest sequence for `c`. */
  function SizeOf(c: CodePoint): (size: nat)
    requires c < 0x8000_0000
    ensures 1 <= size <= 6 && LeastOfSize(size) <= c < Limit(LeadRoom(size), size)
  {
    LimitValues();
    if c < 0x80 then 1
    else if c < 0x800 then 2
    else if c < 0x1_0000 then 3
    else if c < 0x20_0000 then 4
    else if c < 0x400_0000 then 5
    else 6
  }

  function Encode(c: CodePoint): (s: seq<Byte>)
    requires c < 0x8000_0000
    ensures |s| == SizeOf(c)
  {
    LimitGrows(LeadRoom(SizeOf(c)), 0x100 - Marker(SizeOf(c)), SizeOf(c));
    Spread(c, Marker(SizeOf(c)), SizeOf(c))
  }

  function EncodeAll(cs: seq<CodePoint>): (s: seq<Byte>)
    requires AllWritable(cs)
  {
    if cs == [] then [] else Encode(cs[0]) + EncodeAll(cs[1..])
  }

  /** All characters of a string, malformed ones as INVALID. */
  function DecodeAll(s: seq<Byte>): (cs: seq<CodePoint>)
    ensures forall i :: 0 <= i < |cs| ==> cs[i] == INVALID || Readable(cs[i])
    decreases |s|
  {
    if s == [] then [] else [Decode(s).c] + DecodeAll(s[Decode(s).size..])
  }

  lemma LimitValues()
    ensures Limit(0x80, 1) == 0x80 && Limit(0x20, 2) == 0x800 && Limit(0x10, 3) == 0x1_0000
    ensures Limit(0x08, 4) == 0x20_0000 && Limit(0x04, 5) == 0x400_0000 && Limit(0x02, 6) == 0x8000_0000
  {
  }

  lemma LimitGrows(a: nat, b: nat, size: nat)
    requires a <= b
    ensures Limit(a, size) <= Limit(b, size)
  {
  }

  // ---------- Reading and writing are inverse ----------

  lemma LeadFits(size: nat)
    ensures LeadRoom(size) <= 0x100 - Marker(size)
  {
  }

  /** A continuation byte takes up the six low bits and leaves the others. */
  lemma Shifted(high: nat, last: Byte)
    ensures (high * 0x40 + last % 0x40) / 0x40 == high && (high * 0x40 + last % 0x40) % 0x40 == last % 0x40
    ensures IsContinuation(last) ==> 0x80 + last % 0x40 == last
  {
  }

  /** The payload of a sequence fits the sequence, and spreading it gives the sequence back. */
  lemma {:induction false} SpreadPayload(s: seq<Byte>)
    requires s != [] && AnnouncedSize(s[0]) != 0
    requires forall i :: 1 <= i < |s| ==> IsContinuation(s[i])
    ensures Payload(s) < Limit(LeadRoom(AnnouncedSize(s[0])), |s|) <= Limit(0x100 - Marker(AnnouncedSize(s[0])), |s|)
    ensures Spread(Payload(s), Marker(AnnouncedSize(s[0])), |s|) == s
  {
    hide AnnouncedSize, Marker, LeadRoom;
    LeadFits(AnnouncedSize(s[0]));
    LimitGrows(LeadRoom(AnnouncedSize(s[0])), 0x100 - Marker(AnnouncedSize(s[0])), |s|);
    if |s| > 1 {
      var front, last := s[..|s| - 1], s[|s| - 1];
      SpreadPayload(front);
      Shifted(Payload(front), last);
      assert s == front + [last];
    }
  }

  /** Spreading gives a marked lead byte and continuations, and loses nothing of the payload. */
  lemma {:induction false} PayloadSpread(c: nat, lead: nat, size: nat)
    requires 1 <= lead <= 6 && size != 0
    requires c < Limit(LeadRoom(lead), size) <= Limit(0x100 - Marker(lead), size)
    ensures var s := Spread(c, Marker(lead), size);
      && AnnouncedSize(s[0]) == lead
      && (forall i :: 1 <= i < |s| ==> IsContinuation(s[i]))
      && Payload(s) == c
  {
    if size == 1 {
      assert Spread(c, Marker(lead), 1) == [Marker(lead) + c];
    } else {
      LimitGrows(LeadRoom(lead), 0x100 - Marker(lead), size - 1);
      PayloadSpread(c / 0x40, lead, size - 1);
      PayloadAppend(Spread(c / 0x40, Marker(lead), size - 1), 0x80 + c % 0x40);
    }
  }

  lemma PayloadAppend(t: seq<Byte>, b: Byte)
    requires t != [] && AnnouncedSize(t[0]) != 0
    ensures Payload(t + [b]) == Payload(t) * 0x40 + b % 0x40
  {
    assert (t + [b])[..|t|] == t;
  }

  /** The first byte of an encoding announces its length, and its payload is the code point. */
  lemma EncodeShape(c: CodePoint)
    requires c < 0x8000_0000
    ensures AnnouncedSize(Encode(c)[0]) == |Encode(c)|
    ensures forall i :: 1 <= i < |Encode(c)| ==> IsContinuation(Encode(c)[i])
    ensures Payload(Encode(c)) == c
  {
    var size := SizeOf(c);
    LimitGrows(LeadRoom(size), 0x100 - Marker(size), size);
    PayloadSpread(c, size, size);
  }

  /** Reading undoes writing, whatever follows; U+FFFE and U+FFFF can be written but are refused on reading. */
  lemma DecodeEncode(c: CodePoint, rest: seq<Byte>)
    requires Writable(c)
    ensures Decode(Encode(c) + rest) == Decoded(if Readable(c) then c else INVALID, |Encode(c)|)
  {
    EncodeShape(c);
    var s := Encode(c) + rest;
    assert s[..|Encode(c)|] == Encode(c);
  }

  /** Writing undoes reading: an accepted sequence is the encoding of its value, so the shortest one. */
  lemma EncodeDecode(s: seq<Byte>)
    requires s != [] && Decode(s).c != INVALID
    ensures Readable(Decode(s).c) && Encode(Decode(s).c) == s[..Decode(s).size]
  {
    var t := s[..Decode(s).size];
    SpreadPayload(t);
    SizeUnique(Decode(s).c, |t|);
  }

  lemma SizeUnique(c: CodePoint, size: nat)
    requires c < 0x8000_0000 && 1 <= size <= 6 && LeastOfSize(size) <= c < Limit(LeadRoom(size), size)
    ensures SizeOf(c) == size
  {
    LimitValues();
  }

  // ---------- Whole strings ----------

  lemma {:induction false} EncodeAllConcat(a: seq<CodePoint>, b: seq<CodePoint>)
    requires AllWritable(a) && AllWritable(b)
    ensures AllWritable(a + b) && EncodeAll(a + b) == EncodeAll(a) + EncodeAll(b)
  {
    hide Encode;
    if a == [] {
      assert a + b == b;
    } else {
      EncodeAllConcat(a[1..], b);
      assert (a + b)[1..] == a[1..] + b;
    }
  }

  /** What reading makes of a written code point. */
  function ReadBack(c: CodePoint): CodePoint {
    if Readable(c) then c else INVALID
  }

  lemma DecodeAllStep(c: CodePoint, rest: seq<Byte>)
    requires Writable(c)
    ensures DecodeAll(Encode(c) + rest) == [ReadBack(c)] + DecodeAll(rest)
  {
    DecodeEncode(c, rest);
    assert (Encode(c) + rest)[|Encode(c)|..] == rest;
  }

  /** Reading a whole written string gives its code points back, one for one. */
  lemma {:induction false} DecodeAllEncodeAll(cs: seq<CodePoint>)
    requires AllWritable(cs)
    ensures DecodeAll(EncodeAll(cs)) == seq(|cs|, i requires 0 <= i < |cs| => ReadBack(cs[i]))
  {
    if cs != [] {
      DecodeAllEncodeAll(cs[1..]);
      DecodeAllStep(cs[0], EncodeAll(cs[1..]));
    }
  }

  /** A string that reads without error is the encoding of what was read. */
  lemma {:induction false} EncodeAllDecodeAll(s: seq<Byte>)
    requires INVALID !in DecodeAll(s)
    ensures AllReadable(DecodeAll(s)) && EncodeAll(DecodeAll(s)) == s
    decreases |s|
  {
    hide Decode, Encode;
    if s != [] {
      var size := Decode(s).size;
      assert DecodeAll(s) == [Decode(s).c] + DecodeAll(s[size..]);
      EncodeDecode(s);
      EncodeAllDecodeAll(s[size..]);
      assert s == s[..size] + s[size..];
    }
  }

  /** The strings of well-formed UTF-8: concatenations of encodings. */
  ghost predicate WellFormed(s: seq<Byte>) {
    exists cs: seq<CodePoint> :: AllReadable(cs) && EncodeAll(cs) == s
  }

  /** A string is well formed exactly when reading it meets no malformed character. */
  lemma WellFormedIff(s: seq<Byte>)
    ensures WellFormed(s) <==> INVALID !in DecodeAll(s)
  {
    if INVALID !in DecodeAll(s) {
      EncodeAllDecodeAll(s);
    }
    if cs: seq<CodePoint> :| AllReadable(cs) && EncodeAll(cs) == s {
      DecodeAllEncodeAll(cs);
    }
  }

  /** The encoding of writable code points is well formed exactly when none of them is U+FFFE or U+FFFF. */
  lemma EncodeAllWellFormed(cs: seq<CodePoint>)
    requires AllWritable(cs)
    ensures WellFormed(EncodeAll(cs)) <==> AllReadable(cs)
  {
    DecodeAllEncodeAll(cs);
    WellFormedIff(EncodeAll(cs));
    if i :| 0 <= i < |cs| && !Readable(cs[i]) {
      assert DecodeAll(EncodeAll(cs))[i] == INVALID;
    }
  }

  // ---------- The program ----------

  /** The low six bits. */
  function Low(c: nat): nat {
    c % 0x40
  }

  /** The running payload, spelled out for each length. */
  lemma {:induction false} PayloadFlat(s: seq<Byte>, l: nat)
    requires 1 <= |s| <= 6 && AnnouncedSize(s[0]) != 0 && l == s[0] - Marker(AnnouncedSize(s[0]))
    ensures Payload(s) == match |s|
      case 1 => l
      case 2 => l * 0x40 + Low(s[1])
      case 3 => l * 0x1000 + Low(s[1]) * 0x40 + Low(s[2])
      case 4 => l * 0x4_0000 + Low(s[1]) * 0x1000 + Low(s[2]) * 0x40 + Low(s[3])
      case 5 => l * 0x100_0000 + Low(s[1]) * 0x4_0000 + Low(s[2]) * 0x1000 + Low(s[3]) * 0x40 + Low(s[4])
      case _ => l * 0x4000_0000 + Low(s[1]) * 0x100_0000 + Low(s[2]) * 0x4_0000 + Low(s[3]) * 0x1000
                + Low(s[4]) * 0x40 + Low(s[5])
  {
    if |s| > 1 {
      PayloadFlat(s[..|s| - 1], l);
    }
  }

  /** Shifting by six bits and then by more. */
  lemma Shifts(c: nat)
    ensures c / 0x40 / 0x40 == c / 0x1000 && c / 0x40 / 0x1000 == c / 0x4_0000
    ensures c / 0x40 / 0x4_0000 == c / 0x100_0000 && c / 0x40 / 0x100_0000 == c / 0x4000_0000
  {
  }

  lemma SpreadStep(c: nat, m: Byte, size: nat)
    requires size > 1 && c < Limit(0x100 - m, size)
    ensures c / 0x40 < Limit(0x100 - m, size - 1)
    ensures Spread(c, m, size) == Spread(c / 0x40, m, size - 1) + [0x80 + Low(c)]
  {
  }

  /** The spread payload, spelled out for each length. */
  lemma {:induction false} SpreadFlat(c: nat, m: Byte, size: nat)
    requires 1 <= size <= 6 && c < Limit(0x100 - m, size)
    ensures Spread(c, m, size) == match size
      case 1 => [m + c]
      case 2 => [m + c / 0x40, 0x80 + Low(c)]
      case 3 => [m + c / 0x1000, 0x80 + Low(c / 0x40), 0x80 + Low(c)]
      case 4 => [m + c / 0x4_0000, 0x80 + Low(c / 0x1000), 0x80 + Low(c / 0x40), 0x80 + Low(c)]
      case 5 => [m + c / 0x100_0000, 0x80 + Low(c / 0x4_0000), 0x80 + Low(c / 0x1000), 0x80 + Low(c / 0x40), 0x80 + Low(c)]
      case _ => [m + c / 0x4000_0000, 0x80 + Low(c / 0x100_0000), 0x80 + Low(c / 0x4_0000), 0x80 + Low(c / 0x1000),
                 0x80 + Low(c / 0x40), 0x80 + Low(c)]
  {
    hide Low, Limit;
    if size > 1 {
      SpreadStep(c, m, size);
      SpreadFlat(c / 0x40, m, size - 1);
      Shifts(c);
      hide Spread;
    }
  }

  /** Masking a lead byte takes its marker off. */
  lemma LeadMask(lead: Byte)
    ensures AnnouncedSize(lead) == 2 ==> lead as int % 0x20 == lead - Marker(2)
    ensures AnnouncedSize(lead) == 3 ==> lead as int % 0x10 == lead - Marker(3)
    ensures AnnouncedSize(lead) == 4 ==> lead as int % 0x08 == lead - Marker(4)
    ensures AnnouncedSize(lead) == 5 ==> lead as int % 0x04 == lead - Marker(5)
    ensures AnnouncedSize(lead) == 6 ==> lead as int % 0x02 == lead - Marker(6)
  {
  }

  /** The payload bits of the first `size` bytes, put together at once. */
  function Extract(d: seq<Byte>, size: nat): (x: nat)
    requires 1 <= size <= |d| && AnnouncedSize(d[0]) == size
    ensures x == Payload(d[..size])
  {
    PayloadFlat(d[..size], d[0] - Marker(size));
    LeadMask(d[0]);
    match size
    case 1 => d[0]
    case 2 => d[0] as int % 0x20 * 0x40 + Low(d[1])
    case 3 => d[0] as int % 0x10 * 0x1000 + Low(d[1]) * 0x40 + Low(d[2])
    case 4 => d[0] as int % 0x08 * 0x4_0000 + Low(d[1]) * 0x1000 + Low(d[2]) * 0x40 + Low(d[3])
    case 5 =>
      d[0] as int % 0x04 * 0x100_0000 + Low(d[1]) * 0x4_0000 + Low(d[2]) * 0x1000 + Low(d[3]) * 0x40 + Low(d[4])
    case _ =>
      d[0] as int % 0x02 * 0x4000_0000 + Low(d[1]) * 0x100_0000 + Low(d[2]) * 0x4_0000 + Low(d[3]) * 0x1000
      + Low(d[4]) * 0x40 + Low(d[5])
  }

  /** Cuts a sequence of `full` bytes before the first byte that does not continue it. */
  method Truncate(d: seq<Byte>, full: nat) returns (size: nat, truncated: bool)
    requires 1 <= full <= |d| && full <= 6
    ensures size == ContinuationEnd(d, 1, full) && (truncated <==> size < full)
  {
    size, truncated := full, false;
    if full >= 6 && d[5] / 0x40 != 2 { truncated, size := true, 5; }
    if full >= 5 && d[4] / 0x40 != 2 { truncated, size := true, 4; }
    if full >= 4 && d[3] / 0x40 != 2 { truncated, size := true, 3; }
    if full >= 3 && d[2] / 0x40 != 2 { truncated, size := true, 2; }
    if full >= 2 && d[1] / 0x40 != 2 { truncated, size := true, 1; }
    assert forall i :: 1 <= i < size ==> IsContinuation(d[i]);
    assert size < full ==> !IsContinuation(d[size]);
  }

  /** Reads one character at `data`, of which `n` bytes are left, and moves both past it. */
  method FromUTF8(src: seq<Byte>, data: nat, n: nat) returns (c: CodePoint, data': nat, n': nat)
    requires 0 < n && data + n <= |src|
    ensures data < data' && data' + n' == data + n
    ensures Decoded(c, data' - data) == Decode(src[data..data + n])
  {
    var d := src[data..data + n];

    // the length that the first byte announces
    var size: nat;
    if d[0] < 0x80 {
      size := 1;
    } else if d[0] < 0xc0 {
      return INVALID, data + 1, n - 1;
    } else if d[0] < 0xe0 {
      size := 2;
    } else if d[0] < 0xf0 {
      size := 3;
    } else if d[0] < 0xf8 {
      size := 4;
    } else if d[0] < 0xfc {
      size := 5;
    } else if d[0] < 0xfe {
      size := 6;
    } else {
      return INVALID, data + 1, n - 1;
    }
    if size > n {
      return INVALID, data + n, 0;
    }

    var x := Extract(d, size);
    var truncated;
    size, truncated := Truncate(d, size);
    data', n' := data + size, n - size;
    if truncated {
      return INVALID, data', n';
    }

    var minChar := [0, 0, 0x80, 0x800, 0x1_0000, 0x20_0000, 0x400_0000];
    LimitValues();
    assert x < 0x8000_0000 by {
      SpreadPayload(d[..size]);
    }
    if x < minChar[size] {
      return INVALID, data', n';
    }
    if 0xd800 <= x <= 0xdfff || 0xfffe <= x <= 0xffff {
      return INVALID, data', n';
    }
    c := x;
  }

  lemma TopMask(c: CodePoint)
    ensures c < 0x800 ==> c / 0x40 % 0x20 == c / 0x40
    ensures c < 0x1_0000 ==> c / 0x1000 % 0x10 == c / 0x1000
    ensures c < 0x20_0000 ==> c / 0x4_0000 % 0x08 == c / 0x4_0000
    ensures c < 0x400_0000 ==> c / 0x100_0000 % 0x04 == c / 0x100_0000
    ensures c < 0x8000_0000 ==> c / 0x4000_0000 % 0x02 == c / 0x4000_0000
  {
  }

  lemma EncodeFlat(c: CodePoint)
    requires c < 0x8000_0000
    ensures Encode(c) ==
      if c < 0x80 then [c]
      else if c < 0x800 then [c / 0x40 % 0x20 + 0xc0, Low(c) + 0x80]
      else if c < 0x1_0000 then [c / 0x1000 % 0x10 + 0xe0, Low(c / 0x40) + 0x80, Low(c) + 0x80]
      else if c < 0x20_0000 then
        [c / 0x4_0000 % 0x08 + 0xf0, Low(c / 0x1000) + 0x80, Low(c / 0x40) + 0x80, Low(c) + 0x80]
      else if c < 0x400_0000 then
        [c / 0x100_0000 % 0x04 + 0xf8, Low(c / 0x4_0000) + 0x80, Low(c / 0x1000) + 0x80, Low(c / 0x40) + 0x80, Low(c) + 0x80]
      else
        [c / 0x4000_0000 % 0x02 + 0xfc, Low(c / 0x100_0000) + 0x80, Low(c / 0x4_0000) + 0x80, Low(c / 0x1000) + 0x80,
         Low(c / 0x40) + 0x80, Low(c) + 0x80]
  {
    var size := SizeOf(c);
    LimitGrows(LeadRoom(size), 0x100 - Marker(size), size);
    SpreadFlat(c, Marker(size), size);
    TopMask(c);
    hide Spread, Limit, Low;
  }

  /** Appends the character `c` to `dst`; `error` says that it had to be replaced. */
  method ToUTF8(dst: seq<Byte>, c: CodePoint) returns (dst': seq<Byte>, error: bool)
    ensures error <==> !Writable(c)
    ensures dst' == dst + Encode(if error then REPLACEMENT else c)
  {
    var x := c;
    error := (0xd800 <= c <= 0xdfff) || c >= 0x8000_0000;
    if error {
      x := REPLACEMENT;
    }
    EncodeFlat(x);
    hide Encode, Low;
    if x < 0x80 {
      dst' := dst + [x];
    } else if x < 0x800 {
      dst' := dst + [x / 0x40 % 0x20 + 0xc0, Low(x) + 0x80];
    } else if x < 0x1_0000 {
      dst' := dst + [x / 0x1000 % 0x10 + 0xe0, Low(x / 0x40) + 0x80, Low(x) + 0x80];
    } else if x < 0x20_0000 {
      dst' := dst + [x / 0x4_0000 % 0x08 + 0xf0, Low(x / 0x1000) + 0x80, Low(x / 0x40) + 0x80, Low(x) + 0x80];
    } else if x < 0x400_0000 {
      dst' := dst + [x / 0x100_0000 % 0x04 + 0xf8, Low(x / 0x4_0000) + 0x80, Low(x / 0x1000) + 0x80,
                     Low(x / 0x40) + 0x80, Low(x) + 0x80];
    } else {
      dst' := dst + [x / 0x4000_0000 % 0x02 + 0xfc, Low(x / 0x100_0000) + 0x80, Low(x / 0x4_0000) + 0x80,
                     Low(x / 0x1000) + 0x80, Low(x / 0x40) + 0x80, Low(x) + 0x80];
    }
  }

  /** Reading the rest of a string starts with reading one character. */
  lemma ReadOne(w: seq<Byte>, data: nat)
    requires data < |w|
    ensures var d := Decode(w[data..]);
      data + d.size <= |w| && DecodeAll(w[data..]) == [d.c] + DecodeAll(w[data + d.size..])
  {
    hide Decode;
    var d := Decode(w[data..]);
    assert w[data..][d.size..] == w[data + d.size..];
  }

  /** What is left of the counted bytes is the rest of the counted string. */
  lemma CountedRest(src: seq<Byte>, data: nat, n: nat)
    requires data + n == |Counted(src)|
    ensures data + n <= |src| && src[data..data + n] == Counted(src)[data..]
  {
  }

  /** Tells well-formed UTF-8. */
  method IsUTF8(src: seq<Byte>) returns (ok: bool)
    ensures ok <==> WellFormed(Counted(src))
  {
    hide Decode, Encode, DecodeAll;
    var data: nat, n: nat := 0, |src| % 0x1_0000_0000;
    ghost var w := Counted(src);
    WellFormedIff(w);
    assert w[0..] == w;
    while n > 0
      invariant data + n == |w|
      invariant INVALID in DecodeAll(w) <==> INVALID in DecodeAll(w[data..])
    {
      var c;
      CountedRest(src, data, n);
      ReadOne(w, data);
      c, data, n := FromUTF8(src, data, n);
      if c == INVALID {
        return false;
      }
    }
    assert DecodeAll(w[data..]) == [] by { NothingToRead(w[data..]); }
    return true;
  }

  lemma NothingToRead(s: seq<Byte>)
    ensures s == [] ==> DecodeAll(s) == []
  {
  }
}
