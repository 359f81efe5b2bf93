/** What reading makes of malformed UTF-8: how many bytes it takes, and that it goes on right behind them. */
module MalformedUtf8 {
  import opened Utf8

  /** A lead byte and its continuations, whether or not they are what writing would make: the payload `c` spread over
      `size` bytes. */
  function Sequence(c: nat, size: nat): (s: seq<Byte>)
    requires 1 <= size <= 6 && c < Limit(LeadRoom(size), size)
    ensures |s| == size && AnnouncedSize(s[0]) == size && Payload(s) == c
    ensures forall i :: 1 <= i < size ==> IsContinuation(s[i])
  {
    LeadFits(size);
    LimitGrows(LeadRoom(size), 0x100 - Marker(size), size);
    PayloadSpread(c, size, size);
    Spread(c, Marker(size), size)
  }

  lemma EncodeIsSequence(c: CodePoint)
    requires c < 0x8000_0000
    ensures Encode(c) == Sequence(c, SizeOf(c))
  {
  }

  /** Code points that are not read although they could be written in some number of bytes. */
  predicate Refused(c: nat) {
    0xd800 <= c <= 0xdfff || c == 0xfffe || c == 0xffff
  }

  /** The least code points of two bytes and more. */
  predicate Overlong(c: nat, size: nat) {
    || (size == 2 && c < 0x80) || (size == 3 && c < 0x800) || (size == 4 && c < 0x1_0000)
    || (size == 5 && c < 0x20_0000) || (size == 6 && c < 0x400_0000)
  }

  lemma ContinuesTo(s: seq<Byte>, k: nat, end: nat, size: nat)
    requires k <= end <= size <= |s|
    requires forall i :: k <= i < end ==> IsContinuation(s[i])
    requires end < size ==> !IsContinuation(s[end])
    ensures ContinuationEnd(s, k, size) == end
  {
  }

  lemma OneThenRest(s: seq<Byte>, rest: seq<Byte>)
    requires s != [] && Decode(s + rest) == Decoded(INVALID, |s|)
    ensures DecodeAll(s + rest) == [INVALID] + DecodeAll(rest)
  {
    assert (s + rest)[|s|..] == rest;
  }

  /** A byte that continues a sequence, where a character should begin, and 0xFE and 0xFF count for one character. */
  lemma StrayByte(b: Byte, rest: seq<Byte>)
    requires 0x80 <= b < 0xc0 || b == 0xfe || b == 0xff
    ensures DecodeAll([b] + rest) == [INVALID] + DecodeAll(rest)
  {
    OneThenRest([b], rest);
  }

  /** A sequence that is cut by a byte that does not continue it counts for one character up to that byte. */
  lemma CutSequence(c: nat, size: nat, j: nat, rest: seq<Byte>)
    requires 1 <= size <= 6 && c < Limit(LeadRoom(size), size) && 1 <= j < size <= j + |rest|
    requires !(0x80 <= rest[0] < 0xc0)
    ensures DecodeAll(Sequence(c, size)[..j] + rest) == [INVALID] + DecodeAll(rest)
  {
    var front := Sequence(c, size)[..j];
    ContinuesTo(front + rest, 1, j, size);
    OneThenRest(front, rest);
  }

  /** In particular the encoding of any code point. */
  lemma CutEncoding(c: CodePoint, j: nat, rest: seq<Byte>)
    requires c < 0x8000_0000 && 1 <= j < |Encode(c)| <= j + |rest| && !(0x80 <= rest[0] < 0xc0)
    ensures DecodeAll(Encode(c)[..j] + rest) == [INVALID] + DecodeAll(rest)
  {
    EncodeIsSequence(c);
    CutSequence(c, SizeOf(c), j, rest);
  }

  /** A sequence that announces more bytes than are left counts for one character, with whatever is left behind it. */
  lemma SequenceTooLong(c: nat, size: nat, j: nat, rest: seq<Byte>)
    requires 1 <= size <= 6 && c < Limit(LeadRoom(size), size) && 1 <= j && j + |rest| < size
    ensures DecodeAll(Sequence(c, size)[..j] + rest) == [INVALID]
  {
    var s := Sequence(c, size)[..j] + rest;
    assert s + [] == s;
    OneThenRest(s, []);
  }

  /** A whole sequence that spells a refused code point, or spells any in more bytes than it needs, counts for one
      character; every other whole sequence is read as what it spells. */
  lemma WholeSequence(c: nat, size: nat, rest: seq<Byte>)
    requires 1 <= size <= 6 && c < Limit(LeadRoom(size), size)
    ensures c < 0x8000_0000
    ensures DecodeAll(Sequence(c, size) + rest)
         == [if Refused(c) || Overlong(c, size) then INVALID else c] + DecodeAll(rest)
  {
    var front := Sequence(c, size);
    var s := front + rest;
    LimitValues();
    LeastValues();
    ContinuesTo(s, 1, size, size);
    assert s[..size] == front && s[size..] == rest;
  }

  lemma LeastValues()
    ensures LeastOfSize(1) == 0 && LeastOfSize(2) == 0x80 && LeastOfSize(3) == 0x800 && LeastOfSize(4) == 0x1_0000
    ensures LeastOfSize(5) == 0x20_0000 && LeastOfSize(6) == 0x400_0000
  {
    LimitValues();
  }

  /** These are all cases: every string begins with a stray byte, or with a sequence that is whole, cut or too long. */
  lemma EveryString(s: seq<Byte>)
    requires s != []
    ensures
      || 0x80 <= s[0] < 0xc0 || s[0] == 0xfe || s[0] == 0xff
      || exists c: nat, size: nat, j: nat ::
           && 1 <= size <= 6 && c < Limit(LeadRoom(size), size) && 1 <= j <= size && j <= |s|
           && s[..j] == Sequence(c, size)[..j]
           && (j == size || |s| < size || !(0x80 <= s[j] < 0xc0))
  {
    var size := AnnouncedSize(s[0]);
    if size != 0 {
      var most := if size <= |s| then size else |s|;
      var j := ContinuationEnd(s, 1, most);
      var whole := s[..j] + seq(size - j, _ => 0x80 as Byte);
      Rebuilt(whole, size);
      assert whole[..j] == s[..j];
    }
  }

  lemma Rebuilt(s: seq<Byte>, size: nat)
    requires |s| == size != 0 && AnnouncedSize(s[0]) == size
    requires forall i :: 1 <= i < size ==> IsContinuation(s[i])
    ensures Payload(s) < Limit(LeadRoom(size), size) && Sequence(Payload(s), size) == s
  {
    SpreadPayload(s);
  }

  lemma Ascii(b: Byte, rest: seq<Byte>)
    requires b < 0x80
    ensures DecodeAll([b] + rest) == [b] + DecodeAll(rest)
  {
    LimitValues();
    assert Sequence(b, 1) == [b];
    WholeSequence(b, 1, rest);
  }

  lemma AsciiText()
    ensures DecodeAll([0x74, 0x61, 0x74]) == [0x74, 0x61, 0x74]
  {
    hide DecodeAll;
    Ascii(0x74, [0x61, 0x74]);
    Ascii(0x61, [0x74]);
    Ascii(0x74, []);
    NothingToRead([]);
    assert [0x74] + [0x61, 0x74] == [0x74, 0x61, 0x74] && [0x61] + [0x74] == [0x61, 0x74] && [0x74] + [] == [0x74];
  }

  lemma AccentedLetter()
    ensures 0x9000 < Limit(LeadRoom(3), 3) && Sequence(0x9000, 3) == [0xe9, 0x80, 0x80]
  {
    LimitValues();
    LimitGrows(LeadRoom(3), 0x100 - Marker(3), 3);
    SpreadFlat(0x9000, Marker(3), 3);
  }

  /** Latin-1 text that is taken for UTF-8: the accented letter is lost, and the letters behind it are not. */
  lemma Latin1Loses()
    ensures DecodeAll([0xe9, 0x74, 0x61, 0x74]) == [INVALID, 0x74, 0x61, 0x74]
  {
    hide DecodeAll, Sequence, Limit;
    AccentedLetter();
    CutSequence(0x9000, 3, 1, [0x74, 0x61, 0x74]);
    AsciiText();
    assert Sequence(0x9000, 3)[..1] + [0x74, 0x61, 0x74] == [0xe9, 0x74, 0x61, 0x74];
  }
}
