/**
  The conversions between UTF-8 and the wide encodings of the Unicode class: UTF-16 (sections 2.1
  and 2.2 of RFC 2781) and UCS-4. Wide text is a sequence of words in the host's byte order.
*/
module Utf16 {
  import opened Utf8

  type Word = bv16

  // ---------------------------------------------------------------------------
  // UTF-16 as a function of the decoded characters
  // ---------------------------------------------------------------------------

  /** The values UTF-16 can hold: section 2.1 of RFC 2781. */
  predicate IsScalar(c: bv32) {
    c < 0x11_0000 && !IsSurrogate(c)
  }

  predicate AllScalars(cs: seq<bv32>) {
    forall i :: 0 <= i < |cs| ==> IsScalar(cs[i])
  }

  /** One word, or a surrogate pair. */
  function Units(c: bv32): (w: seq<Word>)
    requires IsScalar(c)
    ensures 1 <= |w| <= 2
  {
    if c < 0x1_0000 then [c as Word]
    else [HighUnit(c), LowUnit(c)]
  }

  function HighUnit(c: bv32): Word
    requires 0x1_0000 <= c < 0x11_0000
  {
    HighHalf(c - 0x1_0000)
  }

  function LowUnit(c: bv32): Word {
    LowHalf(c - 0x1_0000)
  }

  function HighHalf(d: bv32): Word
    requires d < 0x10_0000
  {
    ((d >> 10) + 0xd800) as Word
  }

  function LowHalf(d: bv32): Word {
    ((d & 0x03ff) + 0xdc00) as Word
  }

  function UnitsAll(cs: seq<bv32>): seq<Word>
    requires AllScalars(cs)
    decreases |cs|
  {
    if cs == [] then [] else Units(cs[0]) + UnitsAll(cs[1..])
  }

  /** What the converters write for the result of one decoding step. */
  function Kept(c: bv32): (r: bv32)
    ensures IsDecoded(c) ==> IsScalar(r) && IsCharacter(r)
  {
    if c == INVALID || c >= 0x11_0000 then REPLACEMENT else c
  }

  function KeptAll(cs: seq<bv32>): (rs: seq<bv32>)
    requires AllDecoded(cs)
    ensures |rs| == |cs|
    ensures AllScalars(rs) && AllCharacters(rs)
    decreases |cs|
  {
    if cs == [] then [] else [Kept(cs[0])] + KeptAll(cs[1..])
  }

  lemma {:induction false} KeptAllConcat(cs: seq<bv32>, ds: seq<bv32>)
    requires AllDecoded(cs) && AllDecoded(ds)
    ensures AllDecoded(cs + ds) && KeptAll(cs + ds) == KeptAll(cs) + KeptAll(ds)
    decreases |cs|
  {
    hide Kept, IsDecoded, IsScalar, IsCharacter;
    if cs == [] {
      assert cs + ds == ds;
    } else {
      assert (cs + ds)[1..] == cs[1..] + ds;
      KeptAllConcat(cs[1..], ds);
    }
  }

  lemma {:induction false} KeptAllFitting(cs: seq<bv32>)
    requires AllDecoded(cs) && INVALID !in cs && !OutOfRange(cs)
    ensures KeptAll(cs) == cs
    decreases |cs|
  {
    if cs != [] {
      assert cs[0] < 0x11_0000;
      assert !OutOfRange(cs[1..]) by {
        OutOfRangeCons(cs[0], cs[1..]);
        assert [cs[0]] + cs[1..] == cs;
      }
      KeptAllFitting(cs[1..]);
    }
  }

  function ToUTF16(s: seq<Octet>): seq<Word> {
    UnitsAll(KeptAll(DecodeAll(s)))
  }

  predicate OutOfRange(cs: seq<bv32>) {
    exists i :: 0 <= i < |cs| && cs[i] >= 0x11_0000
  }

  // ---------------------------------------------------------------------------
  // Reading UTF-16
  // ---------------------------------------------------------------------------

  datatype Read = Read(c: bv32, size: nat, bad: bool)

  predicate IsHigh(w: Word) {
    0xd800 <= w <= 0xdbff
  }

  predicate IsLow(w: Word) {
    0xdc00 <= w <= 0xdfff
  }

  /** A high surrogate c followed by c2. */
  function ReadPair(c: Word, c2: Word): (r: Read)
    requires IsHigh(c)
    ensures r.size == 2
    ensures IsScalar(r.c)
  {
    if IsLow(c2) then
      PairBits(c, c2);
      Read(Pair(c, c2), 2, false)
    else
      Read(REPLACEMENT, 2, true)
  }

  /** The first value of w: section 2.2 of RFC 2781. */
  function ReadUnits(w: seq<Word>): (r: Read)
    requires w != []
    ensures 1 <= r.size <= |w|
    ensures IsScalar(r.c)
  {
    if !IsHigh(w[0]) && !IsLow(w[0]) then Read(w[0] as bv32, 1, false)
    else if |w| == 1 || IsLow(w[0]) then Read(REPLACEMENT, 1, true)
    else ReadPair(w[0], w[1])
  }

  function Pair(high: Word, low: Word): bv32 {
    Halves(high, low) + 0x1_0000
  }

  function Halves(high: Word, low: Word): bv32 {
    ((high as bv32 - 0xd800) << 10) | (low as bv32 - 0xdc00)
  }

  lemma HalvesIn(high: Word, low: Word)
    requires IsHigh(high) && IsLow(low)
    ensures Halves(high, low) < 0x10_0000
    ensures HighHalf(Halves(high, low)) == high && LowHalf(Halves(high, low)) == low
  {
  }

  lemma PairBits(high: Word, low: Word)
    requires IsHigh(high) && IsLow(low)
    ensures 0x1_0000 <= Pair(high, low) < 0x11_0000
    ensures HighUnit(Pair(high, low)) == high && LowUnit(Pair(high, low)) == low
  {
    hide Halves, HighHalf, LowHalf, IsHigh, IsLow;
    HalvesIn(high, low);
    assert Pair(high, low) - 0x1_0000 == Halves(high, low);
  }

  lemma HighOut(d: bv32)
    requires d < 0x10_0000
    ensures IsHigh(HighHalf(d)) && HighHalf(d) as bv32 - 0xd800 == d >> 10
  {
  }

  lemma LowOut(d: bv32)
    ensures IsLow(LowHalf(d)) && LowHalf(d) as bv32 - 0xdc00 == d & 0x03ff
  {
  }

  lemma HalvesOut(d: bv32)
    requires d < 0x10_0000
    ensures IsHigh(HighHalf(d)) && IsLow(LowHalf(d)) && Halves(HighHalf(d), LowHalf(d)) == d
  {
    hide IsHigh, IsLow, HighHalf, LowHalf;
    HighOut(d);
    LowOut(d);
  }

  lemma UnitBits(c: bv32)
    requires 0x1_0000 <= c < 0x11_0000
    ensures IsHigh(HighUnit(c)) && IsLow(LowUnit(c)) && Pair(HighUnit(c), LowUnit(c)) == c
  {
    hide IsHigh, IsLow, HighHalf, LowHalf, Halves;
    HalvesOut(c - 0x1_0000);
  }

  lemma SingleBits(c: bv32)
    requires IsScalar(c) && c < 0x1_0000
    ensures var w := c as Word; !IsHigh(w) && !IsLow(w) && w as bv32 == c
  {
  }

  function ReadAll(w: seq<Word>): (cs: seq<bv32>)
    ensures AllScalars(cs)
    decreases |w|
  {
    if w == [] then [] else [ReadUnits(w).c] + ReadAll(w[ReadUnits(w).size..])
  }

  /** Some surrogate of w is not part of a pair. */
  predicate HasLoneSurrogate(w: seq<Word>)
    decreases |w|
  {
    w != [] && (ReadUnits(w).bad || HasLoneSurrogate(w[ReadUnits(w).size..]))
  }

  function Swap(w: Word): Word {
    (w << 8) | (w >> 8)
  }

  /** The words after the byte order mark, in the order the mark announces. */
  function Unmarked(w: seq<Word>): (b: seq<Word>)
    ensures |b| <= |w|
  {
    if w != [] && w[0] == 0xfeff then w[1..]
    else if w != [] && w[0] == 0xfffe then seq(|w| - 1, i requires 0 <= i < |w| - 1 => Swap(w[i + 1]))
    else w
  }

  function FromUTF16(w: seq<Word>): seq<Octet> {
    EncodeAll(ReadAll(Unmarked(w)))
  }

  // ---------------------------------------------------------------------------
  // UTF-16 is read back as it was written
  // ---------------------------------------------------------------------------

  lemma ReadOfSingle(c: bv32, t: seq<Word>)
    requires IsScalar(c) && c < 0x1_0000
    ensures ReadUnits([c as Word] + t) == Read(c, 1, false)
  {
    SingleBits(c);
    hide IsHigh, IsLow, Pair, IsScalar;
  }

  lemma ReadOfPair(c: bv32, t: seq<Word>)
    requires 0x1_0000 <= c < 0x11_0000
    ensures ReadUnits([HighUnit(c), LowUnit(c)] + t) == Read(c, 2, false)
  {
    UnitBits(c);
    assert !IsLow(HighUnit(c));
    hide IsHigh, IsLow, Pair, HighUnit, LowUnit, IsScalar;
  }

  lemma ReadOfUnits(c: bv32, t: seq<Word>)
    requires IsScalar(c)
    ensures ReadUnits(Units(c) + t) == Read(c, |Units(c)|, false)
  {
    hide ReadUnits, HighUnit, LowUnit;
    if c < 0x1_0000 {
      ReadOfSingle(c, t);
    } else {
      ReadOfPair(c, t);
    }
  }

  lemma ReadAllPrepend(c: bv32, t: seq<Word>)
    requires IsScalar(c)
    ensures ReadAll(Units(c) + t) == [c] + ReadAll(t)
    ensures HasLoneSurrogate(Units(c) + t) == HasLoneSurrogate(t)
  {
    ReadOfUnits(c, t);
    hide Units, ReadUnits, IsScalar;
    assert (Units(c) + t)[|Units(c)|..] == t;
  }

  lemma {:induction false} ReadAllOfUnitsAll(cs: seq<bv32>, t: seq<Word>)
    requires AllScalars(cs)
    ensures ReadAll(UnitsAll(cs) + t) == cs + ReadAll(t)
    ensures HasLoneSurrogate(UnitsAll(cs) + t) == HasLoneSurrogate(t)
    decreases |cs|
  {
    hide Units, ReadUnits, ReadAll, HasLoneSurrogate, IsScalar;
    if cs == [] {
      assert UnitsAll(cs) + t == t;
    } else {
      ReadAllPrepend(cs[0], UnitsAll(cs[1..]) + t);
      ReadAllOfUnitsAll(cs[1..], t);
      assert UnitsAll(cs) + t == Units(cs[0]) + (UnitsAll(cs[1..]) + t);
    }
  }

  lemma UnitsOfRead(w: seq<Word>)
    requires w != [] && !ReadUnits(w).bad
    ensures Units(ReadUnits(w).c) == w[..ReadUnits(w).size]
  {
    hide IsHigh, IsLow, Pair, Units;
    if IsHigh(w[0]) {
      UnitsOfPair(w[0], w[1]);
      assert w[..2] == [w[0], w[1]];
    } else {
      UnitsOfSingle(w[0]);
      assert w[..1] == [w[0]];
    }
  }

  lemma UnitsOfPair(high: Word, low: Word)
    requires IsHigh(high) && IsLow(low)
    ensures Units(Pair(high, low)) == [high, low]
  {
    hide IsHigh, IsLow, Pair, HighUnit, LowUnit;
    PairBits(high, low);
  }

  lemma UnitsOfSingle(w: Word)
    requires !IsHigh(w) && !IsLow(w)
    ensures Units(w as bv32) == [w]
  {
    hide HighUnit, LowUnit;
  }

  lemma ReadAllStep(w: seq<Word>)
    requires w != [] && !ReadUnits(w).bad
    ensures var r := ReadUnits(w); UnitsAll(ReadAll(w)) == w[..r.size] + UnitsAll(ReadAll(w[r.size..]))
  {
    UnitsOfRead(w);
    hide Units, ReadUnits, IsScalar;
    assert ReadAll(w)[1..] == ReadAll(w[ReadUnits(w).size..]);
  }

  lemma {:induction false} UnitsAllOfReadAll(w: seq<Word>)
    requires !HasLoneSurrogate(w)
    ensures UnitsAll(ReadAll(w)) == w
    decreases |w|
  {
    hide Units, UnitsAll, ReadUnits, ReadAll, IsScalar;
    if w == [] {
      ReadNothing();
    } else {
      var r := ReadUnits(w);
      ReadAllStep(w);
      UnitsAllOfReadAll(w[r.size..]);
      assert w == w[..r.size] + w[r.size..];
    }
  }

  lemma ReadNothing()
    ensures ReadAll([]) == [] && UnitsAll([]) == []
  {
  }

  /** Well-formed UTF-16: surrogates only in pairs. */
  ghost predicate IsWideText(w: seq<Word>) {
    exists cs: seq<bv32> :: AllScalars(cs) && w == UnitsAll(cs)
  }

  lemma WideTextReads(w: seq<Word>)
    ensures IsWideText(w) <==> !HasLoneSurrogate(w)
  {
    if IsWideText(w) {
      var cs :| AllScalars(cs) && w == UnitsAll(cs);
      ReadAllOfUnitsAll(cs, []);
      assert UnitsAll(cs) + [] == w;
    }
    if !HasLoneSurrogate(w) {
      UnitsAllOfReadAll(w);
    }
  }

  /**
    On arbitrary octets the result is well-formed UTF-16, with one scalar value per decoding step.
  */
  lemma ToUTF16WellFormed(s: seq<Octet>)
    ensures IsWideText(ToUTF16(s))
    ensures ReadAll(ToUTF16(s)) == KeptAll(DecodeAll(s))
    ensures |ReadAll(ToUTF16(s))| == |DecodeAll(s)|
  {
    ReadAllOfUnitsAll(KeptAll(DecodeAll(s)), []);
    assert UnitsAll(KeptAll(DecodeAll(s))) + [] == ToUTF16(s);
  }

  lemma {:induction false} UnitsAllConcat(cs: seq<bv32>, ds: seq<bv32>)
    requires AllScalars(cs) && AllScalars(ds)
    ensures UnitsAll(cs + ds) == UnitsAll(cs) + UnitsAll(ds)
    decreases |cs|
  {
    hide Units, IsScalar;
    if cs == [] {
      assert cs + ds == ds;
    } else {
      assert (cs + ds)[1..] == cs[1..] + ds;
      UnitsAllConcat(cs[1..], ds);
    }
  }

  /** Converting distributes over well-formed text followed by anything. */
  lemma ToUTF16Distributes(s: seq<Octet>, t: seq<Octet>)
    requires IsText(s)
    ensures ToUTF16(s + t) == ToUTF16(s) + ToUTF16(t)
  {
    var cs :| AllCharacters(cs) && s == EncodeAll(cs);
    TextDecodes(s);
    EncodeAllOfDecodeAll(s);
    EncodeAllInjective(cs, DecodeAll(s));
    DecodeTextThen(cs, t);
    hide Decode, Encode, EncodeAll, DecodeAll, IsCharacter, IsText, KeptAll, UnitsAll, Units;
    KeptAllConcat(cs, DecodeAll(t));
    UnitsAllConcat(KeptAll(cs), KeptAll(DecodeAll(t)));
  }

  // ---------------------------------------------------------------------------
  // Round trips
  // ---------------------------------------------------------------------------

  /** The characters a reader gets, who takes a leading U+FEFF for a byte order mark. */
  function AfterMark(cs: seq<bv32>): seq<bv32> {
    if cs != [] && cs[0] == 0xfeff then cs[1..] else cs
  }

  lemma FirstUnit(c: bv32)
    requires IsScalar(c) && IsCharacter(c)
    ensures forall w :: w in Units(c) ==> w != 0xfffe && w != 0xffff
    ensures Units(c)[0] == 0xfeff <==> c == 0xfeff
    ensures c == 0xfeff ==> |Units(c)| == 1
  {
    if c < 0x1_0000 {
      SingleBits(c);
    } else {
      UnitBits(c);
      assert !IsHigh(0xfeff) && !IsHigh(0xfffe) && !IsHigh(0xffff) && !IsLow(0xfffe) && !IsLow(0xffff);
      hide HighUnit, LowUnit, IsHigh, IsLow;
    }
  }

  lemma UnmarkedUnits(cs: seq<bv32>)
    requires AllScalars(cs) && AllCharacters(cs)
    ensures Unmarked(UnitsAll(cs)) == UnitsAll(AfterMark(cs))
  {
    if cs != [] {
      FirstUnit(cs[0]);
      hide Units;
      assert UnitsAll(cs)[0] == Units(cs[0])[0];
      assert |Units(cs[0])| == 1 ==> UnitsAll(cs)[1..] == UnitsAll(cs[1..]);
    }
  }

  lemma ScalarsFit(cs: seq<bv32>)
    requires AllScalars(cs)
    ensures !OutOfRange(cs)
  {
  }

  /** Whatever octets were converted, converting back meets no lone surrogate. */
  lemma FromToUTF16(s: seq<Octet>)
    ensures FromUTF16(ToUTF16(s)) == EncodeAll(AfterMark(KeptAll(DecodeAll(s))))
    ensures !HasLoneSurrogate(Unmarked(ToUTF16(s)))
  {
    hide Units, Kept, IsCharacter, IsScalar, ReadUnits, Unmarked;
    var ks := KeptAll(DecodeAll(s));
    var rest := AfterMark(ks);
    UnmarkedUnits(ks);
    ReadAllOfUnitsAll(rest, []);
    assert UnitsAll(rest) + [] == UnitsAll(rest) && rest + [] == rest;
  }

  /**
    UTF-8 to UTF-16 and back is the identity on text whose characters fit UTF-16 and whose
    first character is not U+FEFF, and on no other octets.
  */
  lemma UTF8RoundTrip(s: seq<Octet>)
    ensures FromUTF16(ToUTF16(s)) == s
            <==> IsText(s) && !OutOfRange(DecodeAll(s)) && AfterMark(DecodeAll(s)) == DecodeAll(s)
  {
    hide Decode, Encode, Units, IsScalar, FromUTF16, ToUTF16;
    var cs := DecodeAll(s);
    var ks := KeptAll(cs);
    FromToUTF16(s);
    TextDecodes(s);
    if FromUTF16(ToUTF16(s)) == s {
      var rest := AfterMark(ks);
      assert AllCharacters(rest) && s == EncodeAll(rest);
      EncodeAllOfDecodeAll(s);
      EncodeAllInjective(cs, rest);
      assert |cs| == |ks| && cs == ks;
      ScalarsFit(ks);
    }
    if INVALID !in cs && !OutOfRange(cs) && AfterMark(cs) == cs {
      KeptAllFitting(cs);
      EncodeAllOfDecodeAll(s);
    }
  }

  lemma {:induction false} UnitsAvoidNoncharacters(cs: seq<bv32>)
    requires AllScalars(cs) && AllCharacters(cs)
    ensures 0xfffe !in UnitsAll(cs) && 0xffff !in UnitsAll(cs)
    decreases |cs|
  {
    if cs != [] {
      FirstUnit(cs[0]);
      UnitsAvoidNoncharacters(cs[1..]);
    }
  }

  lemma ReadUnitsCharacter(w: seq<Word>)
    requires w != [] && w[0] != 0xfffe && w[0] != 0xffff
    ensures IsCharacter(ReadUnits(w).c)
  {
    if |w| >= 2 && IsHigh(w[0]) && IsLow(w[1]) {
      PairBits(w[0], w[1]);
      hide Pair, HighUnit, LowUnit;
    }
  }

  lemma {:induction false} ReadAllCharacters(w: seq<Word>)
    requires 0xfffe !in w && 0xffff !in w
    ensures AllCharacters(ReadAll(w))
    decreases |w|
  {
    hide ReadUnits, IsCharacter, IsScalar;
    if w != [] {
      ReadUnitsCharacter(w);
      ReadAllCharacters(w[ReadUnits(w).size..]);
    }
  }

  /** What UTF-16 gives for the values cs after they went through UTF-8. */
  function Relayed(cs: seq<bv32>): (ks: seq<bv32>)
    ensures |ks| == |cs| && AllScalars(ks) && AllCharacters(ks)
  {
    KeptAll(ReadBackAll(cs))
  }

  lemma RelayedCharacters(cs: seq<bv32>)
    requires AllScalars(cs) && AllCharacters(cs)
    ensures Relayed(cs) == cs
  {
    ReadBackCharacters(cs);
    KeptAllFitting(cs);
  }

  lemma RelayedUnits(w: seq<Word>)
    requires w != []
    ensures IsScalar(Kept(ReadBack(ReadUnits(w).c)))
    ensures |Units(Kept(ReadBack(ReadUnits(w).c)))| <= ReadUnits(w).size
  {
    if |w| >= 2 && IsHigh(w[0]) && IsLow(w[1]) {
      PairBits(w[0], w[1]);
      hide Pair, HighUnit, LowUnit;
    }
  }

  lemma {:induction false} RelayedLength(w: seq<Word>)
    ensures |UnitsAll(Relayed(ReadAll(w)))| <= |w|
    decreases |w|
  {
    if w != [] {
      RelayedUnits(w);
      hide Units, ReadUnits, IsCharacter, IsScalar, ReadBack, Kept;
      var r := ReadUnits(w);
      RelayedLength(w[r.size..]);
      assert ReadAll(w)[1..] == ReadAll(w[r.size..]);
      assert Relayed(ReadAll(w))[0] == Kept(ReadBack(r.c));
      assert Relayed(ReadAll(w))[1..] == Relayed(ReadAll(w[r.size..]));
    }
  }

  lemma ToFromUTF16(w: seq<Word>)
    ensures ToUTF16(FromUTF16(w)) == UnitsAll(Relayed(ReadAll(Unmarked(w))))
  {
    var rs := ReadAll(Unmarked(w));
    DecodeAllOfEncodeAll(rs, []);
    assert EncodeAll(rs) + [] == FromUTF16(w);
    assert ReadBackAll(rs) + [] == ReadBackAll(rs);
  }

  lemma {:induction false} ReadBackInRange(cs: seq<bv32>)
    requires AllScalars(cs)
    ensures !OutOfRange(ReadBackAll(cs))
  {
    if cs != [] {
      ReadBackInRange(cs[1..]);
      var rest := ReadBackAll(cs[1..]);
      forall i | 0 <= i < |cs|
        ensures ReadBackAll(cs)[i] < 0x11_0000
      {
        if i > 0 {
          assert ReadBackAll(cs)[i] == rest[i - 1];
        }
      }
    }
  }

  /** On the way back from UTF-8 to UTF-16 there is never an error. */
  lemma BackIsInRange(w: seq<Word>)
    ensures !OutOfRange(DecodeAll(FromUTF16(w)))
  {
    hide OutOfRange;
    var rs := ReadAll(Unmarked(w));
    DecodeAllOfEncodeAll(rs, []);
    assert EncodeAll(rs) + [] == FromUTF16(w);
    assert ReadBackAll(rs) + [] == ReadBackAll(rs);
    ReadBackInRange(rs);
  }

  /**
    UTF-16 to UTF-8 and back is the identity on well-formed UTF-16 that has neither U+FFFE nor
    U+FFFF and does not start with U+FEFF, and on no other words.
  */
  lemma UTF16RoundTrip(w: seq<Word>)
    ensures ToUTF16(FromUTF16(w)) == w
            <==> IsWideText(w) && 0xfffe !in w && 0xffff !in w && (w == [] || w[0] != 0xfeff)
    ensures !OutOfRange(DecodeAll(FromUTF16(w)))
  {
    var b := Unmarked(w);
    BackIsInRange(w);
    ToFromUTF16(w);
    WideTextReads(w);
    if ToUTF16(FromUTF16(w)) == w {
      var ks := Relayed(ReadAll(b));
      assert IsWideText(UnitsAll(ks));
      UnitsAvoidNoncharacters(ks);
      RelayedLength(b);
    }
    if !HasLoneSurrogate(w) && 0xfffe !in w && 0xffff !in w && (w == [] || w[0] != 0xfeff) {
      assert b == w;
      ReadAllCharacters(w);
      RelayedCharacters(ReadAll(w));
      UnitsAllOfReadAll(w);
    }
  }

  // ---------------------------------------------------------------------------
  // Byte order
  // ---------------------------------------------------------------------------

  /** v has the octets of each word of w in the other order. */
  predicate Exchanged(v: seq<Word>, w: seq<Word>) {
    && |v| == |w|
    && forall i :: 0 <= i < |v| ==> v[i] & 0xff == w[i] >> 8 && v[i] >> 8 == w[i] & 0xff
  }

  lemma SwapExchanges(v: Word, w: Word)
    requires v & 0xff == w >> 8 && v >> 8 == w & 0xff
    ensures Swap(v) == w
  {
  }

  /** A mark in the other byte order has the words after it read in that order, with the same errors. */
  lemma SwappedIsRead(v: seq<Word>, w: seq<Word>)
    requires Exchanged(v, w)
    ensures Unmarked([0xfffe] + v) == w == Unmarked([0xfeff] + w)
    ensures FromUTF16([0xfffe] + v) == FromUTF16([0xfeff] + w)
  {
    hide Swap, FromUTF16;
    var swapped := [0xfffe] + v;
    forall i | 0 <= i < |v|
      ensures Swap(swapped[i + 1]) == w[i]
    {
      SwapExchanges(v[i], w[i]);
    }
    assert Unmarked(swapped) == w;
    assert ([0xfeff] + w)[1..] == w;
    FromUTF16OfUnmarked(swapped, [0xfeff] + w);
  }

  lemma FromUTF16OfUnmarked(v: seq<Word>, w: seq<Word>)
    requires Unmarked(v) == Unmarked(w)
    ensures FromUTF16(v) == FromUTF16(w)
  {
  }

  /**
    With a mark in front, in either byte order, all text whose characters fit UTF-16 comes back
    whole, and what follows it is read as if it were alone.
  */
  lemma MarkedRoundTrip(s: seq<Octet>, t: seq<Word>)
    requires IsText(s) && !OutOfRange(DecodeAll(s))
    ensures FromUTF16([0xfeff] + ToUTF16(s) + t) == s + FromUTF16([0xfeff] + t)
    ensures FromUTF16([0xfeff] + ToUTF16(s)) == s
    ensures forall v :: Exchanged(v, ToUTF16(s)) ==> FromUTF16([0xfffe] + v) == s
  {
    MarkedText(s, t);
    MarkedText(s, []);
    hide ToUTF16, FromUTF16, Decode, Exchanged;
    var w := ToUTF16(s);
    NothingAfterMark();
    assert [0xfeff] + w + [] == [0xfeff] + w && [0xfeff] + [] == [0xfeff];
    assert s + [] == s;
    forall v | Exchanged(v, w)
      ensures FromUTF16([0xfffe] + v) == s
    {
      SwappedIsRead(v, w);
    }
  }

  lemma NothingAfterMark()
    ensures FromUTF16([0xfeff]) == []
  {
    assert [0xfeff as Word][1..] == [];
  }

  lemma MarkedText(s: seq<Octet>, t: seq<Word>)
    requires IsText(s) && !OutOfRange(DecodeAll(s))
    ensures FromUTF16([0xfeff] + ToUTF16(s) + t) == s + FromUTF16([0xfeff] + t)
  {
    hide Decode, Encode, Units, ReadUnits, ReadAll, EncodeAll, DecodeAll, UnitsAll, KeptAll, IsScalar;
    var cs := DecodeAll(s);
    TextDecodes(s);
    KeptAllFitting(cs);
    EncodeAllOfDecodeAll(s);
    ReadAllOfUnitsAll(cs, t);
    assert ([0xfeff] + ToUTF16(s) + t)[1..] == UnitsAll(cs) + t;
    assert ([0xfeff] + t)[1..] == t;
    EncodeAllOfBoth(cs, ReadAll(t));
  }

  lemma {:induction false} EncodeAllOfBoth(cs: seq<bv32>, ds: seq<bv32>)
    ensures EncodeAll(cs + ds) == EncodeAll(cs) + EncodeAll(ds)
    decreases |cs|
  {
    hide Encode;
    if cs == [] {
      assert cs + ds == ds;
    } else {
      assert (cs + ds)[1..] == cs[1..] + ds;
      EncodeAllOfBoth(cs[1..], ds);
    }
  }

  // ---------------------------------------------------------------------------
  // What is written for malformed input
  // ---------------------------------------------------------------------------

  /** U+FFFD in UTF-8. */
  const REPLACED: seq<Octet> := [0xef, 0xbf, 0xbd]

  lemma ReplacementOctets()
    ensures Encode(0xfffd) == REPLACED
  {
    assert Tail(0xf, 0) == [] && Tail(0x3ff, 1) == [0xbf] && Tail(0xfffd, 2) == [0xbf, 0xbd];
    assert High(0xf, 0) == 0xf && High(0x3ff, 1) == 0xf && High(0xfffd, 2) == 0xf;
  }

  /**
    In marked UTF-16 a high surrogate takes the word after it along unless that is a low one; a low
    surrogate, and a high one at the end, stand alone. Each such case gives one U+FFFD.
  */
  lemma LoneSurrogates(s: seq<Octet>, high: Word, other: Word, low: Word, t: seq<Word>)
    requires IsText(s) && !OutOfRange(DecodeAll(s))
    requires 0xd800 <= high < 0xdc00 <= low < 0xe000
    requires other < 0xdc00 || other >= 0xe000
    ensures FromUTF16([0xfeff] + ToUTF16(s) + ([high, other] + t)) == s + REPLACED + FromUTF16([0xfeff] + t)
    ensures FromUTF16([0xfeff] + ToUTF16(s) + ([low] + t)) == s + REPLACED + FromUTF16([0xfeff] + t)
    ensures FromUTF16([0xfeff] + ToUTF16(s) + [high]) == s + REPLACED
  {
    LoneAfterText(s, [high, other] + t, 2);
    LoneAfterText(s, [low] + t, 1);
    LoneAfterText(s, [high], 1);
    hide FromUTF16, ToUTF16, DecodeAll, IsText;
    NothingAfterMark();
    assert ([high, other] + t)[2..] == t && ([low] + t)[1..] == t && [high][1..] == [];
    assert [0xfeff] + [] == [0xfeff];
    assert s + REPLACED + [] == s + REPLACED;
  }

  lemma LoneAfterText(s: seq<Octet>, w: seq<Word>, size: nat)
    requires IsText(s) && !OutOfRange(DecodeAll(s))
    requires IsLone(w, size)
    ensures FromUTF16([0xfeff] + ToUTF16(s) + w) == s + REPLACED + FromUTF16([0xfeff] + w[size..])
  {
    hide FromUTF16, ToUTF16, DecodeAll, IsText;
    MarkedText(s, w);
    LoneRead(w, size);
    assert s + (REPLACED + FromUTF16([0xfeff] + w[size..])) == s + REPLACED + FromUTF16([0xfeff] + w[size..]);
  }

  /** w starts with a surrogate that is no part of a pair; reading it takes `size` words. */
  predicate IsLone(w: seq<Word>, size: nat) {
    && 1 <= size <= 2 && size <= |w|
    && (size == 2 ==> 0xd800 <= w[0] < 0xdc00 && !(0xdc00 <= w[1] < 0xe000))
    && (size == 1 ==> 0xdc00 <= w[0] < 0xe000 || (|w| == 1 && 0xd800 <= w[0] < 0xdc00))
  }

  lemma LoneUnits(w: seq<Word>, size: nat)
    requires IsLone(w, size)
    ensures ReadUnits(w) == Read(0xfffd, size, true)
  {
  }

  lemma LoneRead(w: seq<Word>, size: nat)
    requires IsLone(w, size)
    ensures FromUTF16([0xfeff] + w) == REPLACED + FromUTF16([0xfeff] + w[size..])
  {
    FromUTF16Step(w);
    ReplacementOctets();
    LoneUnits(w, size);
    hide ReadUnits, Encode, ReadAll, EncodeAll;
    assert ([0xfeff] + w)[1..] == w && ([0xfeff] + w[size..])[1..] == w[size..];
  }

  /** After any text, octets without a value and values UTF-16 cannot hold give one U+FFFD each. */
  lemma BadOctetsAreReplaced(s: seq<Octet>, bad: seq<Octet>)
    requires IsText(s) && bad != []
    requires Decode(bad).c == 0xffff || Decode(bad).c >= 0x11_0000
    ensures ToUTF16(s + bad) == ToUTF16(s) + [0xfffd] + ToUTF16(bad[Decode(bad).size..])
  {
    ToUTF16Distributes(s, bad);
    ToUTF16Step(bad);
    hide ToUTF16, Decode, IsText;
  }

  /** Section 2.1 of RFC 2781, by arithmetic: a pair holds 20 bits, ten in each half. */
  lemma PairHoldsTwentyBits(c: bv32)
    requires IsScalar(c)
    ensures c < 0x1_0000 ==> Units(c) == [c as Word]
    ensures c >= 0x1_0000 ==>
              && |Units(c)| == 2 && 0xd800 <= Units(c)[0] < 0xdc00 <= Units(c)[1] < 0xe000
              && c == 0x1_0000 + (Units(c)[0] as bv32 - 0xd800) * 0x400 + (Units(c)[1] as bv32 - 0xdc00)
  {
    if c >= 0x1_0000 {
      UnitBits(c);
      PairByArithmetic(HighUnit(c), LowUnit(c));
    }
  }

  lemma PairByArithmetic(high: Word, low: Word)
    requires IsHigh(high) && IsLow(low)
    ensures Pair(high, low) == 0x1_0000 + (high as bv32 - 0xd800) * 0x400 + (low as bv32 - 0xdc00)
  {
  }

  // ---------------------------------------------------------------------------
  // The original's code
  // ---------------------------------------------------------------------------

  lemma OutOfRangeCons(c: bv32, rest: seq<bv32>)
    ensures OutOfRange([c] + rest) <==> c >= 0x11_0000 || OutOfRange(rest)
  {
    var cs := [c] + rest;
    assert cs[0] == c && forall i :: 0 <= i < |rest| ==> cs[i + 1] == rest[i];
  }

  lemma ToUTF16Step(s: seq<Octet>)
    requires s != []
    ensures var d := Decode(s); IsScalar(Kept(d.c)) && ToUTF16(s) == Units(Kept(d.c)) + ToUTF16(s[d.size..])
    ensures var d := Decode(s);
            OutOfRange(DecodeAll(s)) <==> d.c >= 0x11_0000 || OutOfRange(DecodeAll(s[d.size..]))
  {
    hide Decode, Units, IsScalar, IsCharacter, IsDecoded, Kept, OutOfRange;
    var d := Decode(s);
    OutOfRangeCons(d.c, DecodeAll(s[d.size..]));
    assert DecodeAll(s)[1..] == DecodeAll(s[d.size..]);
    assert KeptAll(DecodeAll(s))[1..] == KeptAll(DecodeAll(s[d.size..]));
  }

  lemma ToUTF16Empty()
    ensures ToUTF16([]) == [] && !OutOfRange(DecodeAll([]))
  {
  }

  /** The end of the loop body of UTF8ToUTF16: one word, or the two halves of a pair. */
  method AppendUnits(dst: seq<Word>, c: bv32) returns (out: seq<Word>)
    requires IsScalar(c)
    ensures out == dst + Units(c)
  {
    hide HighHalf, LowHalf;
    if c < 0x1_0000 {
      out := dst + [c as Word];
    } else {
      var rest := c - 0x1_0000;
      var utf16h, utf16l := HighHalf(rest), LowHalf(rest);
      out := dst + [utf16h] + [utf16l];
    }
  }

  /** Unicode::UTF8ToUTF16. */
  method UTF8ToUTF16(src: seq<Octet>) returns (dst: seq<Word>, errors: bool)
    ensures dst == ToUTF16(src)
    ensures errors <==> OutOfRange(DecodeAll(src))
  {
    hide Decode, IsCharacter, ToUTF16, DecodeAll, OutOfRange, Units, IsScalar;
    errors, dst := false, [];
    var data := 0;
    ToUTF16Empty();
    while data < |src|
      invariant 0 <= data <= |src|
      invariant dst + ToUTF16(src[data..]) == ToUTF16(src)
      invariant OutOfRange(DecodeAll(src)) <==> errors || OutOfRange(DecodeAll(src[data..]))
    {
      var c, next := FromUTF8(src, data);
      assert src[next..] == src[data..][next - data..];
      ToUTF16Step(src[data..]);
      if c == INVALID {
        c := REPLACEMENT;
      } else if c >= 0x11_0000 {
        errors := true;
        c := REPLACEMENT;
      }
      dst := AppendUnits(dst, c);
      data := next;
    }
  }

  function Decode16(w: seq<Word>, data: nat, byteSwapped: bool): Word
    requires data < |w|
  {
    if byteSwapped then Swap(w[data]) else w[data]
  }

  lemma FromUTF16Step(w: seq<Word>)
    requires w != []
    ensures var r := ReadUnits(w); EncodeAll(ReadAll(w)) == Encode(r.c) + EncodeAll(ReadAll(w[r.size..]))
    ensures var r := ReadUnits(w); HasLoneSurrogate(w) <==> r.bad || HasLoneSurrogate(w[r.size..])
  {
    hide ReadUnits, Encode, IsScalar;
    var r := ReadUnits(w);
    assert ReadAll(w)[0] == r.c && ReadAll(w)[1..] == ReadAll(w[r.size..]);
  }

  lemma WordClasses(c: Word)
    ensures c < 0xd800 || c > 0xdfff <==> !IsHigh(c) && !IsLow(c)
    ensures c >= 0xd800 && c <= 0xdbff <==> IsHigh(c)
    ensures c < 0xdc00 || c > 0xdfff <==> !IsLow(c)
    ensures !(IsHigh(c) && IsLow(c))
  {
  }

  lemma ReadUnitsCases(w: seq<Word>, c: Word)
    requires w != [] && w[0] == c
    ensures c < 0xd800 || c > 0xdfff ==> ReadUnits(w) == Read(c as bv32, 1, false)
    ensures 0xd800 <= c <= 0xdfff && (|w| == 1 || c > 0xdbff) ==> ReadUnits(w) == Read(REPLACEMENT, 1, true)
    ensures 0xd800 <= c <= 0xdbff && |w| > 1 ==> IsHigh(c) && ReadUnits(w) == ReadPair(c, w[1])
  {
    hide IsHigh, IsLow, ReadPair;
    WordClasses(c);
  }

  lemma ScalarIsStorable(c: bv32)
    requires IsScalar(c)
    ensures Storable(c) == c
  {
  }

  /** toUTF8 without an error flag, as doUTF16ToUTF8 calls it for a malformed word. */
  method AppendReplacement(dst: seq<Octet>) returns (out: seq<Octet>)
    ensures out == dst + Encode(REPLACEMENT)
  {
    hide Encode;
    var errors;
    out, errors := ToUTF8(dst, REPLACEMENT);
  }

  /** The branch of doUTF16ToUTF8 for a high surrogate c with another word c2 after it. */
  method AppendPair(dst: seq<Octet>, c: Word, c2: Word) returns (out: seq<Octet>, errors: bool)
    requires IsHigh(c)
    ensures out == dst + Encode(ReadPair(c, c2).c) && errors == ReadPair(c, c2).bad
  {
    hide Encode, Pair, IsHigh, IsLow, Storable, IsScalar;
    WordClasses(c2);
    ScalarIsStorable(ReadPair(c, c2).c);
    if c2 < 0xdc00 || c2 > 0xdfff {
      errors := true;
      out := AppendReplacement(dst);
    } else {
      out, errors := ToUTF8(dst, Pair(c, c2));
    }
  }

  /** The loop body of doUTF16ToUTF8: one word or a pair of words at `data`; `pair` says it took two. */
  method AppendWord(dst: seq<Octet>, w: seq<Word>, data: nat, byteSwapped: bool, ghost rest: seq<Word>)
    returns (out: seq<Octet>, errors: bool, pair: bool)
    requires data < |w| && |rest| == |w| - data
    requires rest[0] == Decode16(w, data, byteSwapped)
    requires |rest| > 1 ==> rest[1] == Decode16(w, data + 1, byteSwapped)
    ensures var r := ReadUnits(rest);
            out == dst + Encode(r.c) && errors == r.bad && r.size == (if pair then 2 else 1)
  {
    hide Encode, Decode16, ReadUnits, Storable, IsScalar, ReadPair;
    ghost var r := ReadUnits(rest);
    var c := Decode16(w, data, byteSwapped);
    ReadUnitsCases(rest, c);
    ScalarIsStorable(r.c);
    errors, pair := true, false;
    if c < 0xd800 || c > 0xdfff {
      assert r == Read(c as bv32, 1, false);
      out, errors := ToUTF8(dst, c as bv32);
    } else if |w| - data == 1 {
      assert r == Read(REPLACEMENT, 1, true);
      out := AppendReplacement(dst);
    } else if c >= 0xd800 && c <= 0xdbff {
      var c2 := Decode16(w, data + 1, byteSwapped);
      assert r == ReadPair(c, c2);
      pair := true;
      out, errors := AppendPair(dst, c, c2);
    } else {
      assert r == Read(REPLACEMENT, 1, true);
      out := AppendReplacement(dst);
    }
  }

  /** Where the text starts and whether its bytes are swapped. */
  lemma UnmarkedWords(w: seq<Word>)
    ensures var swapped := w != [] && w[0] == 0xfffe;
            var start := if w != [] && (w[0] == 0xfeff || w[0] == 0xfffe) then 1 else 0;
            && |Unmarked(w)| == |w| - start
            && forall i :: 0 <= i < |w| - start ==> Unmarked(w)[i] == Decode16(w, start + i, swapped)
  {
  }

  /** Unicode::doUTF16ToUTF8. */
  method UTF16ToUTF8(w: seq<Word>) returns (dst: seq<Octet>, errors: bool)
    ensures dst == FromUTF16(w)
    ensures errors <==> HasLoneSurrogate(Unmarked(w))
  {
    hide EncodeAll, ReadAll, HasLoneSurrogate, ReadUnits, Encode, Octets, Storable, IsScalar, Unmarked, Decode16;
    UnmarkedWords(w);
    ghost var body := Unmarked(w);
    errors, dst := false, [];
    var byteSwapped, data := false, 0;
    if |w| >= 1 {
      if w[0] == 0xfeff {
        data := 1;
      } else if w[0] == 0xfffe {
        byteSwapped, data := true, 1;
      }
    }
    ghost var start, done := data, 0;
    assert body[0..] == body;
    while data < |w|
      invariant 0 <= done <= |body| && data == start + done && |w| == start + |body|
      invariant dst + EncodeAll(ReadAll(body[done..])) == EncodeAll(ReadAll(body))
      invariant HasLoneSurrogate(body) <==> errors || HasLoneSurrogate(body[done..])
    {
      ghost var rest := body[done..];
      FromUTF16Step(rest);
      var e, pair;
      dst, e, pair := AppendWord(dst, w, data, byteSwapped, rest);
      errors := errors || e;
      if pair {
        data := data + 1;
      }
      data := data + 1;
      done := data - start;
      assert rest[ReadUnits(rest).size..] == body[done..];
    }
    FromUTF16Empty();
    assert body[done..] == [];
  }

  lemma FromUTF16Empty()
    ensures EncodeAll(ReadAll([])) == [] && !HasLoneSurrogate([])
  {
  }
}
