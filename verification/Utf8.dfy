/**
  The UTF-8 decoder and encoder of the Unicode class, in the six-octet form of
  section 2 of RFC 2279, on bytes and 32-bit words with the masks and shifts of
  the original. The functions say what one character is; the methods are the
  original's switches and loops, proved to compute those functions.
*/
module Utf8 {

  type Octet = bv8

  const INVALID: bv32 := 0x0000ffff
  const REPLACEMENT: bv32 := 0x0000fffd

  // ---------------------------------------------------------------------------
  // What a character is
  // ---------------------------------------------------------------------------

  predicate IsSurrogate(c: bv32) {
    0xd800 <= c <= 0xdfff
  }

  /** The values UTF-8 text can hold: 31 bits, no surrogate, neither U+FFFE nor U+FFFF. */
  predicate IsCharacter(c: bv32) {
    c < 0x8000_0000 && !IsSurrogate(c) && c != 0xfffe && c != 0xffff
  }

  predicate IsContinuation(b: Octet) {
    b & 0xc0 == 0x80
  }

  /** How many octets a sequence starting with b has; 0 if no sequence starts with b. */
  function DeclaredSize(b: Octet): (n: nat)
    ensures n <= 6
  {
    if b < 0x80 then 1
    else if b < 0xc0 then 0
    else if b < 0xe0 then 2
    else if b < 0xf0 then 3
    else if b < 0xf8 then 4
    else if b < 0xfc then 5
    else if b < 0xfe then 6
    else 0
  }

  /** The bits of the value that the first of n octets carries. */
  function LeadBits(b: Octet, n: nat): bv32
    requires 1 <= n <= 6
  {
    b as bv32 & (match n case 1 => 0x7f case 2 => 0x1f case 3 => 0x0f case 4 => 0x07 case 5 => 0x03 case 6 => 0x01)
  }

  /** high with the six bits of a continuation octet appended. */
  function Push(high: bv32, b: Octet): bv32 {
    (high << 6) | (b as bv32 & 0x3f)
  }

  /** The value of the octets s that follow a lead octet carrying `high`. */
  function Accumulate(high: bv32, s: seq<Octet>): bv32
    decreases |s|
  {
    if s == [] then high else Push(Accumulate(high, s[..|s| - 1]), s[|s| - 1])
  }

  /** The smallest value that needs n octets. */
  function MinValue(n: nat): bv32
    requires 1 <= n <= 6
  {
    match n case 1 => 0 case 2 => 0x80 case 3 => 0x800 case 4 => 0x1_0000 case 5 => 0x20_0000 case 6 => 0x400_0000
  }

  /** The index of the first octet from i on that does not continue the sequence, or n. */
  function IntactSize(s: seq<Octet>, i: nat, n: nat): (k: nat)
    requires 1 <= i <= n <= |s|
    ensures i <= k <= n
    ensures forall j :: i <= j < k ==> IsContinuation(s[j])
    ensures k < n ==> !IsContinuation(s[k])
    decreases n - i
  {
    if i == n || !IsContinuation(s[i]) then i else IntactSize(s, i + 1, n)
  }

  datatype Decoded = Decoded(c: bv32, size: nat)

  /** The first character of s and the number of octets it takes up. */
  function Decode(s: seq<Octet>): (d: Decoded)
    requires s != []
    ensures 1 <= d.size <= |s|
    ensures IsDecoded(d.c)
  {
    var n := DeclaredSize(s[0]);
    if n == 0 then Decoded(INVALID, 1)
    else if n > |s| then Decoded(INVALID, |s|)
    else
      var k := IntactSize(s, 1, n);
      if k < n then Decoded(INVALID, k)
      else
        var c := Accumulate(LeadBits(s[0], n), s[1..n]);
        AccumulateFits(s, n);
        Decoded(if c < MinValue(n) || !IsCharacter(c) then INVALID else c, n)
  }

  /** How many octets c is written in. */
  function Octets(c: bv32): (n: nat)
    ensures 1 <= n <= 6
    ensures MinValue(n) <= c
  {
    if c < 0x80 then 1
    else if c < 0x800 then 2
    else if c < 0x1_0000 then 3
    else if c < 0x20_0000 then 4
    else if c < 0x400_0000 then 5
    else 6
  }

  /** A continuation octet carrying the low six bits of c. */
  function Six(c: bv32): Octet {
    ((c & 0x3f) + 0x80) as Octet
  }

  /** The last k octets of the encoding of c: six bits each, the low bits last. */
  function Tail(c: bv32, k: nat): (s: seq<Octet>)
    ensures |s| == k
  {
    if k == 0 then [] else Tail(c >> 6, k - 1) + [Six(c)]
  }

  /** What is left of c for the lead octet when k octets follow. */
  function High(c: bv32, k: nat): bv32 {
    if k == 0 then c else High(c >> 6, k - 1)
  }

  function LeadMark(n: nat): bv32
    requires 1 <= n <= 6
  {
    match n case 1 => 0 case 2 => 0xc0 case 3 => 0xe0 case 4 => 0xf0 case 5 => 0xf8 case 6 => 0xfc
  }

  /** The first of n octets, carrying high. */
  function Lead(high: bv32, n: nat): Octet
    requires 1 <= n <= 6
  {
    ((LeadMark(n) + high) & 0xff) as Octet
  }

  /** What the encoder writes for c: the replacement character where c has no encoding. */
  function Storable(c: bv32): (r: bv32)
    ensures r < 0x8000_0000 && !IsSurrogate(r)
    ensures IsCharacter(c) ==> r == c
  {
    if IsSurrogate(c) || c >= 0x8000_0000 then REPLACEMENT else c
  }

  /** The encoding of c. */
  function Encode(c: bv32): (s: seq<Octet>)
    ensures |s| == Octets(Storable(c))
  {
    var r := Storable(c);
    var n := Octets(r);
    [Lead(High(r, n - 1), n)] + Tail(r, n - 1)
  }

  // ---------------------------------------------------------------------------
  // Closed forms, one per size: the formulas of the original's two switches
  // ---------------------------------------------------------------------------

  lemma Accumulate1(high: bv32, s: seq<Octet>)
    requires |s| == 1
    ensures Accumulate(high, s) ==
            (high << 6) | (s[0] as bv32 & 0x3f)
  {
    assert Accumulate(high, s[..0]) == high;
  }

  lemma Accumulate2(high: bv32, s: seq<Octet>)
    requires |s| == 2
    ensures Accumulate(high, s) ==
            (high << 12) | ((s[0] as bv32 & 0x3f) << 6) | (s[1] as bv32 & 0x3f)
  {
    Accumulate1(high, s[..1]);
  }

  lemma Accumulate3(high: bv32, s: seq<Octet>)
    requires |s| == 3
    ensures Accumulate(high, s) ==
            (high << 18) | ((s[0] as bv32 & 0x3f) << 12) | ((s[1] as bv32 & 0x3f) << 6) | (s[2] as bv32 & 0x3f)
  {
    Accumulate2(high, s[..2]);
  }

  lemma Accumulate4(high: bv32, s: seq<Octet>)
    requires |s| == 4
    ensures Accumulate(high, s) ==
            (high << 24) | ((s[0] as bv32 & 0x3f) << 18) | ((s[1] as bv32 & 0x3f) << 12)
            | ((s[2] as bv32 & 0x3f) << 6) | (s[3] as bv32 & 0x3f)
  {
    Accumulate3(high, s[..3]);
  }

  lemma Accumulate5(high: bv32, s: seq<Octet>)
    requires |s| == 5
    ensures Accumulate(high, s) ==
            (high << 30) | ((s[0] as bv32 & 0x3f) << 24) | ((s[1] as bv32 & 0x3f) << 18)
            | ((s[2] as bv32 & 0x3f) << 12) | ((s[3] as bv32 & 0x3f) << 6) | (s[4] as bv32 & 0x3f)
  {
    Accumulate4(high, s[..4]);
  }

  lemma AccumulateClosed(high: bv32, s: seq<Octet>)
    requires |s| <= 5
    ensures |s| == 0 ==> Accumulate(high, s) == high
    ensures |s| == 1 ==> Accumulate(high, s) ==
                         (high << 6) | (s[0] as bv32 & 0x3f)
    ensures |s| == 2 ==> Accumulate(high, s) ==
                         (high << 12) | ((s[0] as bv32 & 0x3f) << 6) | (s[1] as bv32 & 0x3f)
    ensures |s| == 3 ==> Accumulate(high, s) ==
                         (high << 18) | ((s[0] as bv32 & 0x3f) << 12) | ((s[1] as bv32 & 0x3f) << 6)
                         | (s[2] as bv32 & 0x3f)
    ensures |s| == 4 ==> Accumulate(high, s) ==
                         (high << 24) | ((s[0] as bv32 & 0x3f) << 18) | ((s[1] as bv32 & 0x3f) << 12)
                         | ((s[2] as bv32 & 0x3f) << 6) | (s[3] as bv32 & 0x3f)
    ensures |s| == 5 ==> Accumulate(high, s) ==
                         (high << 30) | ((s[0] as bv32 & 0x3f) << 24) | ((s[1] as bv32 & 0x3f) << 18)
                         | ((s[2] as bv32 & 0x3f) << 12) | ((s[3] as bv32 & 0x3f) << 6) | (s[4] as bv32 & 0x3f)
  {
    match |s| {
      case 0 =>
      case 1 => Accumulate1(high, s);
      case 2 => Accumulate2(high, s);
      case 3 => Accumulate3(high, s);
      case 4 => Accumulate4(high, s);
      case 5 => Accumulate5(high, s);
    }
  }

  lemma AccumulateFits(s: seq<Octet>, n: nat)
    requires 1 <= n <= |s| && n == DeclaredSize(s[0])
    ensures Accumulate(LeadBits(s[0], n), s[1..n]) < 0x8000_0000
  {
    AccumulateClosed(LeadBits(s[0], n), s[1..n]);
  }

  lemma ShiftTwice(c: bv32)
    ensures (c >> 6) >> 6 == c >> 12 && (c >> 6) >> 12 == c >> 18
    ensures (c >> 6) >> 18 == c >> 24 && (c >> 6) >> 24 == c >> 30
  {
  }

  lemma Tail1(c: bv32)
    ensures High(c, 1) == c >> 6 && Tail(c, 1) == [Six(c)]
  {
    assert Tail(c >> 6, 0) == [];
  }

  lemma Tail2(c: bv32)
    ensures High(c, 2) == c >> 12 && Tail(c, 2) == [Six(c >> 6), Six(c)]
  {
    ShiftTwice(c);
    Tail1(c >> 6);
  }

  lemma Tail3(c: bv32)
    ensures High(c, 3) == c >> 18 && Tail(c, 3) == [Six(c >> 12), Six(c >> 6), Six(c)]
  {
    ShiftTwice(c);
    Tail2(c >> 6);
  }

  lemma Tail4(c: bv32)
    ensures High(c, 4) == c >> 24 && Tail(c, 4) == [Six(c >> 18), Six(c >> 12), Six(c >> 6), Six(c)]
  {
    ShiftTwice(c);
    Tail3(c >> 6);
  }

  lemma Tail5(c: bv32)
    ensures High(c, 5) == c >> 30
    ensures Tail(c, 5) == [Six(c >> 24), Six(c >> 18), Six(c >> 12), Six(c >> 6), Six(c)]
  {
    ShiftTwice(c);
    Tail4(c >> 6);
  }

  // ---------------------------------------------------------------------------
  // Six bits at a time
  // ---------------------------------------------------------------------------

  lemma SixCarriesLowBits(c: bv32)
    ensures IsContinuation(Six(c))
    ensures Push(c >> 6, Six(c)) == c
  {
  }

  lemma ShiftedInBack(v: bv32, b: Octet)
    requires v < 0x400_0000 && IsContinuation(b)
    ensures Push(v, b) >> 6 == v && Six(Push(v, b)) == b
  {
  }

  /** high leaves room for k octets in 32 bits. */
  predicate HasRoom(high: bv32, k: nat) {
    match k
    case 0 => true
    case 1 => high < 0x400_0000
    case 2 => high < 0x10_0000
    case 3 => high < 0x4000
    case 4 => high < 0x100
    case 5 => high < 0x4
    case _ => false
  }

  lemma RoomForOneMore(high: bv32, s: seq<Octet>)
    requires HasRoom(high, |s| + 1)
    ensures HasRoom(high, |s|) && Accumulate(high, s) < 0x400_0000
  {
    AccumulateClosed(high, s);
  }

  lemma AccumulateSnoc(high: bv32, s: seq<Octet>, b: Octet)
    ensures Accumulate(high, s + [b]) == Push(Accumulate(high, s), b)
  {
    hide Push;
    assert (s + [b])[..|s|] == s;
  }

  lemma NoTail(high: bv32)
    ensures Accumulate(high, []) == high && High(high, 0) == high && Tail(high, 0) == []
  {
  }

  lemma TailUnfold(c: bv32, k: nat)
    ensures Tail(c, k + 1) == Tail(c >> 6, k) + [Six(c)] && High(c, k + 1) == High(c >> 6, k)
  {
    hide Six;
  }

  lemma {:induction false} AccumulateOfTail(c: bv32, k: nat)
    ensures Accumulate(High(c, k), Tail(c, k)) == c
    ensures forall i :: 0 <= i < k ==> IsContinuation(Tail(c, k)[i])
  {
    hide Accumulate, Tail, High, Push, Six, IsContinuation;
    if k == 0 {
      NoTail(c);
    } else {
      AccumulateOfTail(c >> 6, k - 1);
      TailUnfold(c, k - 1);
      AccumulateSnoc(High(c, k), Tail(c >> 6, k - 1), Six(c));
      SixCarriesLowBits(c);
    }
  }

  lemma TailOfSnoc(high: bv32, s: seq<Octet>, b: Octet)
    requires HasRoom(high, |s| + 1) && IsContinuation(b)
    requires High(Accumulate(high, s), |s|) == high && Tail(Accumulate(high, s), |s|) == s
    ensures High(Accumulate(high, s + [b]), |s| + 1) == high
    ensures Tail(Accumulate(high, s + [b]), |s| + 1) == s + [b]
  {
    hide Accumulate, Tail, High, Push, Six, IsContinuation, HasRoom;
    var v := Accumulate(high, s);
    RoomForOneMore(high, s);
    AccumulateSnoc(high, s, b);
    ShiftedInBack(v, b);
    TailUnfold(Push(v, b), |s|);
  }

  lemma {:induction false} TailOfAccumulate(high: bv32, s: seq<Octet>)
    requires HasRoom(high, |s|)
    requires forall i :: 0 <= i < |s| ==> IsContinuation(s[i])
    ensures High(Accumulate(high, s), |s|) == high
    ensures Tail(Accumulate(high, s), |s|) == s
    decreases |s|
  {
    hide Accumulate, Tail, High, IsContinuation, HasRoom;
    if s == [] {
      NoTail(high);
    } else {
      var init, b := s[..|s| - 1], s[|s| - 1];
      assert s == init + [b];
      RoomForOneMore(high, init);
      TailOfAccumulate(high, init);
      TailOfSnoc(high, init, b);
    }
  }

  // ---------------------------------------------------------------------------
  // The lead octet
  // ---------------------------------------------------------------------------

  lemma LeadOut(high: bv32, n: nat)
    requires 1 <= n <= 6
    requires high <= (match n case 1 => 0x7f case 2 => 0x1f case 3 => 0x0f case 4 => 0x07 case 5 => 0x03 case 6 => 0x01)
    ensures DeclaredSize(Lead(high, n)) == n && LeadBits(Lead(high, n), n) == high
  {
  }

  lemma LeadIn(b: Octet)
    requires DeclaredSize(b) > 0
    ensures var n := DeclaredSize(b); Lead(LeadBits(b, n), n) == b && HasRoom(LeadBits(b, n), n - 1)
  {
  }

  lemma HighFits(c: bv32)
    requires c < 0x8000_0000
    ensures var n, high := Octets(c), High(c, Octets(c) - 1);
            high <= (match n case 1 => 0x7f case 2 => 0x1f case 3 => 0x0f case 4 => 0x07 case 5 => 0x03 case 6 => 0x01)
  {
    Tail1(c); Tail2(c); Tail3(c); Tail4(c); Tail5(c);
  }

  lemma LeadFormulas(c: bv32)
    ensures c < 0x80 ==> Lead(c, 1) == c as Octet
    ensures 0x80 <= c < 0x800 ==> Lead(c >> 6, 2) == (((c >> 6) & 0x1f) + 0xc0) as Octet
    ensures 0x800 <= c < 0x1_0000 ==> Lead(c >> 12, 3) == (((c >> 12) & 0x0f) + 0xe0) as Octet
    ensures 0x1_0000 <= c < 0x20_0000 ==> Lead(c >> 18, 4) == (((c >> 18) & 0x07) + 0xf0) as Octet
    ensures 0x20_0000 <= c < 0x400_0000 ==> Lead(c >> 24, 5) == (((c >> 24) & 0x03) + 0xf8) as Octet
    ensures 0x400_0000 <= c < 0x8000_0000 ==> Lead(c >> 30, 6) == (((c >> 30) & 0x01) + 0xfc) as Octet
  {
  }

  lemma AccumulateNeedsOctets(s: seq<Octet>, n: nat)
    requires 1 <= n <= |s| && n == DeclaredSize(s[0])
    requires MinValue(n) <= Accumulate(LeadBits(s[0], n), s[1..n])
    ensures Octets(Accumulate(LeadBits(s[0], n), s[1..n])) == n
  {
    AccumulateClosed(LeadBits(s[0], n), s[1..n]);
  }

  // ---------------------------------------------------------------------------
  // Decoding undoes encoding, and the other way round
  // ---------------------------------------------------------------------------

  lemma {:induction false} IntactSizeIsFull(s: seq<Octet>, i: nat, n: nat)
    requires 1 <= i <= n <= |s|
    requires forall j :: i <= j < n ==> IsContinuation(s[j])
    ensures IntactSize(s, i, n) == n
  {
  }

  /** A lead octet that declares |e| octets, then continuations, with value c. */
  predicate IsSequenceFor(e: seq<Octet>, c: bv32) {
    && e != []
    && DeclaredSize(e[0]) == |e|
    && (forall j :: 1 <= j < |e| ==> IsContinuation(e[j]))
    && Accumulate(LeadBits(e[0], |e|), e[1..]) == c
  }

  lemma EncodeIsSequence(c: bv32)
    requires Storable(c) == c
    ensures IsSequenceFor(Encode(c), c)
  {
    hide Accumulate, Tail, High, Lead, LeadBits, IsContinuation, DeclaredSize;
    var n := Octets(c);
    HighFits(c);
    LeadOut(High(c, n - 1), n);
    AccumulateOfTail(c, n - 1);
  }

  /** What reading back the encoding of c gives. */
  function ReadBack(c: bv32): bv32 {
    if IsCharacter(c) then c else INVALID
  }

  lemma DecodeIntact(e: seq<Octet>, t: seq<Octet>, c: bv32)
    requires IsSequenceFor(e, c) && MinValue(|e|) <= c
    ensures Decode(e + t) == Decoded(ReadBack(c), |e|)
  {
    hide Accumulate, LeadBits, IsContinuation, DeclaredSize, MinValue;
    IntactSizeIsFull(e + t, 1, |e|);
    assert (e + t)[1..|e|] == e[1..];
  }

  /** An encoding is consumed whole, whatever follows it, and a character is read back unchanged. */
  lemma DecodeOfEncode(c: bv32, t: seq<Octet>)
    requires Storable(c) == c
    ensures Decode(Encode(c) + t) == Decoded(ReadBack(c), |Encode(c)|)
  {
    hide Decode, Encode, IsSequenceFor, MinValue;
    EncodeIsSequence(c);
    DecodeIntact(Encode(c), t, c);
  }

  lemma SequenceParts(e: seq<Octet>, c: bv32)
    requires IsSequenceFor(e, c) && MinValue(|e|) <= c && c < 0x8000_0000
    ensures Octets(c) == |e| && Lead(LeadBits(e[0], |e|), |e|) == e[0]
    ensures High(c, |e| - 1) == LeadBits(e[0], |e|) && Tail(c, |e| - 1) == e[1..]
  {
    hide Accumulate, Tail, High, IsContinuation, HasRoom, MinValue, LeadBits, Lead, DeclaredSize, Octets;
    assert e[1..] == e[1..|e|];
    AccumulateNeedsOctets(e, |e|);
    LeadIn(e[0]);
    TailOfAccumulate(LeadBits(e[0], |e|), e[1..]);
  }

  lemma SequenceIsEncode(e: seq<Octet>, c: bv32)
    requires IsSequenceFor(e, c) && MinValue(|e|) <= c && Storable(c) == c
    ensures Encode(c) == e
  {
    hide Accumulate, Tail, High, IsContinuation, MinValue, LeadBits, Lead, DeclaredSize, Octets;
    SequenceParts(e, c);
    assert e == [e[0]] + e[1..];
  }

  /** Only the shortest form is accepted: a decoded character was written exactly as Encode writes it. */
  lemma EncodeOfDecode(s: seq<Octet>)
    requires s != [] && Decode(s).c != INVALID
    ensures Encode(Decode(s).c) == s[..Decode(s).size]
  {
    var d := Decode(s);
    assert s[..d.size][1..] == s[1..d.size];
    SequenceIsEncode(s[..d.size], d.c);
  }

  /**
    Where the decoder resumes after a malformed sequence: it never swallows an octet that could
    start a character, unless the sequence declares more octets than the text has left.
  */
  lemma Resynchronises(s: seq<Octet>)
    requires s != []
    ensures (exists i :: 1 <= i < Decode(s).size && !IsContinuation(s[i]))
            <==> (DeclaredSize(s[0]) > |s| && exists i :: 1 <= i < |s| && !IsContinuation(s[i]))
  {
  }

  /** At the end of a text, the lead octet of a longer sequence takes the letter A with it. */
  lemma LetterIsSwallowed()
    ensures Decode([0xe0, 0x41]) == Decoded(INVALID, 2) && !IsContinuation(0x41)
  {
  }

  /**
    What a malformed step consumes: a single octet that starts nothing; all that is left if the
    sequence is cut off by the end; and otherwise the octets up to the first that does not continue it.
  */
  lemma MalformedSize(s: seq<Octet>)
    requires s != [] && Decode(s).c == 0xffff
    ensures s[0] >= 0x80
    ensures s[0] < 0xc0 || s[0] >= 0xfe ==> Decode(s).size == 1
    ensures 0xc0 <= s[0] < 0xfe ==>
              var n := if s[0] < 0xe0 then 2 else if s[0] < 0xf0 then 3 else if s[0] < 0xf8 then 4
                       else if s[0] < 0xfc then 5 else 6;
              var k := Decode(s).size;
              if |s| < n then k == |s|
              else k <= n && (forall j :: 1 <= j < k ==> 0x80 <= s[j] < 0xc0)
                   && (k < n ==> !(0x80 <= s[k] < 0xc0))
  {
    ContinuationRange();
    hide IsContinuation;
    if s[0] < 0x80 {
      OneOctet(s);
    }
  }

  lemma OneOctet(s: seq<Octet>)
    requires s != [] && s[0] < 0x80
    ensures Decode(s) == Decoded(s[0] as bv32, 1)
  {
    hide IsContinuation;
    assert s[1..1] == [];
  }

  lemma ContinuationRange()
    ensures forall b: Octet :: IsContinuation(b) <==> 0x80 <= b < 0xc0
  {
  }

  // ---------------------------------------------------------------------------
  // Whole texts
  // ---------------------------------------------------------------------------

  /** What a decoding step can give. */
  predicate IsDecoded(c: bv32) {
    c == INVALID || IsCharacter(c)
  }

  predicate AllDecoded(cs: seq<bv32>) {
    forall i :: 0 <= i < |cs| ==> IsDecoded(cs[i])
  }

  /** The results of decoding s to its end, INVALID for each malformed step. */
  function DecodeAll(s: seq<Octet>): (cs: seq<bv32>)
    ensures AllDecoded(cs)
    ensures |cs| <= |s|
    decreases |s|
  {
    if s == [] then [] else [Decode(s).c] + DecodeAll(s[Decode(s).size..])
  }

  function EncodeAll(cs: seq<bv32>): seq<Octet>
    decreases |cs|
  {
    if cs == [] then [] else Encode(cs[0]) + EncodeAll(cs[1..])
  }

  predicate AllCharacters(cs: seq<bv32>) {
    forall i :: 0 <= i < |cs| ==> IsCharacter(cs[i])
  }

  lemma DecodeAllStep(e: seq<Octet>, t: seq<Octet>, c: bv32)
    requires e != [] && Decode(e + t) == Decoded(c, |e|)
    ensures DecodeAll(e + t) == [c] + DecodeAll(t)
  {
    hide Decode;
    assert (e + t)[|e|..] == t;
  }

  predicate AllStorable(cs: seq<bv32>) {
    forall i :: 0 <= i < |cs| ==> Storable(cs[i]) == cs[i]
  }

  function ReadBackAll(cs: seq<bv32>): (rs: seq<bv32>)
    ensures |rs| == |cs|
    ensures AllDecoded(rs)
    decreases |cs|
  {
    if cs == [] then [] else [ReadBack(cs[0])] + ReadBackAll(cs[1..])
  }

  lemma {:induction false} ReadBackCharacters(cs: seq<bv32>)
    requires AllCharacters(cs)
    ensures ReadBackAll(cs) == cs
    decreases |cs|
  {
    if cs != [] {
      ReadBackCharacters(cs[1..]);
    }
  }

  /** Decoding distributes over anything the encoder wrote, whatever follows it. */
  lemma {:induction false} DecodeAllOfEncodeAll(cs: seq<bv32>, t: seq<Octet>)
    requires AllStorable(cs)
    ensures DecodeAll(EncodeAll(cs) + t) == ReadBackAll(cs) + DecodeAll(t)
    decreases |cs|
  {
    hide Encode, Decode, DecodeAll, ReadBack, Octets, Storable;
    if cs == [] {
      assert EncodeAll(cs) + t == t;
    } else {
      var e, rest := Encode(cs[0]), EncodeAll(cs[1..]) + t;
      assert EncodeAll(cs) + t == e + rest;
      DecodeOfEncode(cs[0], rest);
      DecodeAllStep(e, rest, ReadBack(cs[0]));
      DecodeAllOfEncodeAll(cs[1..], t);
      assert [ReadBack(cs[0])] + (ReadBackAll(cs[1..]) + DecodeAll(t)) == ReadBackAll(cs) + DecodeAll(t);
    }
  }

  /** Text followed by anything decodes to its characters followed by what the rest decodes to. */
  lemma DecodeTextThen(cs: seq<bv32>, t: seq<Octet>)
    requires AllCharacters(cs)
    ensures DecodeAll(EncodeAll(cs) + t) == cs + DecodeAll(t)
  {
    DecodeAllOfEncodeAll(cs, t);
    ReadBackCharacters(cs);
  }

  /** Text without a malformed step is the encoding of what it decodes to. */
  lemma {:induction false} EncodeAllOfDecodeAll(s: seq<Octet>)
    requires INVALID !in DecodeAll(s)
    ensures AllCharacters(DecodeAll(s)) && EncodeAll(DecodeAll(s)) == s
    decreases |s|
  {
    hide Encode, Decode, IsCharacter, Octets, Storable;
    if s != [] {
      var d := Decode(s);
      assert DecodeAll(s)[0] == d.c && DecodeAll(s)[1..] == DecodeAll(s[d.size..]);
      EncodeAllOfDecodeAll(s[d.size..]);
      EncodeOfDecode(s);
      assert s == s[..d.size] + s[d.size..];
    }
  }

  /** UTF-8 text is a concatenation of encodings of characters, and nothing else. */
  ghost predicate IsText(s: seq<Octet>) {
    exists cs: seq<bv32> :: AllCharacters(cs) && s == EncodeAll(cs)
  }

  lemma TextDecodes(s: seq<Octet>)
    ensures IsText(s) <==> INVALID !in DecodeAll(s)
  {
    if IsText(s) {
      var cs :| AllCharacters(cs) && s == EncodeAll(cs);
      DecodeTextThen(cs, []);
      assert s + [] == s && cs + DecodeAll([]) == cs;
    }
    if INVALID !in DecodeAll(s) {
      EncodeAllOfDecodeAll(s);
    }
  }

  /** Different character sequences have different encodings. */
  lemma EncodeAllInjective(cs: seq<bv32>, ds: seq<bv32>)
    requires AllCharacters(cs) && AllCharacters(ds) && EncodeAll(cs) == EncodeAll(ds)
    ensures cs == ds
  {
    DecodeTextThen(cs, []);
    DecodeTextThen(ds, []);
    assert EncodeAll(cs) + [] == EncodeAll(cs);
    assert cs + DecodeAll([]) == cs && ds + DecodeAll([]) == ds;
  }

  // ---------------------------------------------------------------------------
  // The original's code
  // ---------------------------------------------------------------------------

  /** The switch over the size in fromUTF8 that extracts the character's bits. */
  method ExtractBits(s: seq<Octet>) returns (c: bv32)
    requires s != [] && DeclaredSize(s[0]) == |s|
    ensures c == Accumulate(LeadBits(s[0], |s|), s[1..])
  {
    AccumulateClosed(LeadBits(s[0], |s|), s[1..]);
    if |s| == 1 {
      c := s[0] as bv32;
    } else if |s| == 2 {
      c := ((s[0] as bv32 & 0x1f) << 6) | (s[1] as bv32 & 0x3f);
    } else if |s| == 3 {
      c := ((s[0] as bv32 & 0x0f) << 12) | ((s[1] as bv32 & 0x3f) << 6) | (s[2] as bv32 & 0x3f);
    } else if |s| == 4 {
      c := ((s[0] as bv32 & 0x07) << 18) | ((s[1] as bv32 & 0x3f) << 12) | ((s[2] as bv32 & 0x3f) << 6)
      | (s[3] as bv32 & 0x3f);
    } else if |s| == 5 {
      c := ((s[0] as bv32 & 0x03) << 24) | ((s[1] as bv32 & 0x3f) << 18) | ((s[2] as bv32 & 0x3f) << 12)
      | ((s[3] as bv32 & 0x3f) << 6) | (s[4] as bv32 & 0x3f);
    } else {
      c := ((s[0] as bv32 & 0x01) << 30) | ((s[1] as bv32 & 0x3f) << 24) | ((s[2] as bv32 & 0x3f) << 18)
      | ((s[3] as bv32 & 0x3f) << 12) | ((s[4] as bv32 & 0x3f) << 6) | (s[5] as bv32 & 0x3f);
    }
  }

  /**
    The falling-through switch in fromUTF8: from the last octet down to the second, each octet that is
    not a continuation cuts the sequence before itself.
  */
  method TrimToIntact(s: seq<Octet>) returns (truncated: bool, size: nat)
    requires 1 <= |s| <= 6
    ensures 1 <= size <= |s| && truncated == (size < |s|)
    ensures forall j :: 1 <= j < size ==> IsContinuation(s[j])
    ensures truncated ==> !IsContinuation(s[size])
  {
    truncated, size := false, |s|;
    var i := |s| - 1;
    while i >= 1
      invariant 0 <= i < size <= |s|
      invariant truncated == (size < |s|)
      invariant forall j :: i < j < size ==> IsContinuation(s[j])
      invariant truncated ==> !IsContinuation(s[size])
    {
      if s[i] & 0xc0 != 0x80 {
        truncated, size := true, i;
      }
      i := i - 1;
    }
  }

  lemma {:induction false} IntactSizeUnique(s: seq<Octet>, i: nat, n: nat, k: nat)
    requires 1 <= i <= k <= n <= |s|
    requires forall j :: i <= j < k ==> IsContinuation(s[j])
    requires k < n ==> !IsContinuation(s[k])
    ensures IntactSize(s, i, n) == k
  {
  }

  /** The value of a sequence, if that can be accepted. */
  function Accepted(s: seq<Octet>, n: nat): bv32
    requires s != [] && 1 <= n <= 6 && n <= |s|
  {
    CheckedValue(Accumulate(LeadBits(s[0], n), s[1..n]), n)
  }

  function CheckedValue(c: bv32, n: nat): bv32
    requires 1 <= n <= 6
  {
    if c < MinValue(n) || !IsCharacter(c) then INVALID else c
  }

  lemma DecodeCases(s: seq<Octet>)
    requires s != []
    ensures var n := DeclaredSize(s[0]);
            if n == 0 then Decode(s) == Decoded(INVALID, 1)
            else if n > |s| then Decode(s) == Decoded(INVALID, |s|)
            else if IntactSize(s, 1, n) < n then Decode(s) == Decoded(INVALID, IntactSize(s, 1, n))
            else Decode(s) == Decoded(Accepted(s, n), n)
  {
    hide Accumulate, LeadBits, IsContinuation, IntactSize, IsCharacter;
  }

  lemma CharacterCases(c: bv32)
    requires c < 0x8000_0000
    ensures IsCharacter(c) <==> !(c >= 0xd800 && c <= 0xdfff) && !(c >= 0xfffe && c <= 0xffff)
  {
  }

  /** Unicode::fromUTF8: reads one character at `data` and moves `data` past it. */
  method FromUTF8(src: seq<Octet>, data: nat) returns (c: bv32, next: nat)
    requires data < |src|
    ensures data < next <= |src|
    ensures Decoded(c, next - data) == Decode(src[data..])
  {
    hide Decode, IntactSize, Accumulate, LeadBits, IsCharacter, MinValue;
    ghost var s := src[data..];
    DecodeCases(s);
    assert s[0] == src[data];
    var n := |src| - data;
    var size: nat;
    var b0 := src[data];
    if b0 < 0x80 {
      size := 1;
    } else if b0 < 0xc0 {
      return INVALID, data + 1;
    } else if b0 < 0xe0 {
      size := 2;
    } else if b0 < 0xf0 {
      size := 3;
    } else if b0 < 0xf8 {
      size := 4;
    } else if b0 < 0xfc {
      size := 5;
    } else if b0 < 0xfe {
      size := 6;
    } else {
      return INVALID, data + 1;
    }

    if size > n {
      return INVALID, |src|;
    }

    assert src[data..data + size] == s[..size];
    var taken;
    c, taken := FromSequence(src[data..data + size], s);
    next := data + taken;
  }

  lemma SequenceDecodes(s: seq<Octet>, n: nat, k: nat)
    requires s != [] && n == DeclaredSize(s[0]) && 1 <= k <= n <= |s|
    requires forall j :: 1 <= j < k ==> IsContinuation(s[..n][j])
    requires k < n ==> !IsContinuation(s[..n][k])
    ensures Decode(s) == if k < n then Decoded(INVALID, k) else Decoded(Accepted(s[..n], n), n)
  {
    hide IsContinuation, IntactSize, Decode, DeclaredSize, Accepted;
    assert forall j :: 0 <= j < n ==> s[..n][j] == s[j];
    IntactSizeUnique(s, 1, n, k);
    DecodeCases(s);
    AcceptedPrefix(s, n);
  }

  lemma AcceptedPrefix(s: seq<Octet>, n: nat)
    requires s != [] && 1 <= n <= 6 && n <= |s|
    ensures Accepted(s[..n], n) == Accepted(s, n)
  {
    hide Accumulate, LeadBits, CheckedValue;
    assert s[..n][1..n] == s[1..n];
  }

  /** The rest of fromUTF8, for a sequence with as many octets as its lead octet declares. */
  method FromSequence(sequence: seq<Octet>, ghost s: seq<Octet>) returns (c: bv32, taken: nat)
    requires sequence != [] && |sequence| == DeclaredSize(sequence[0]) && sequence <= s
    ensures 0 < taken <= |sequence| && Decoded(c, taken) == Decode(s)
  {
    hide Accumulate, LeadBits, IsContinuation, IntactSize, Decode, CheckedValue, DeclaredSize;
    c := ExtractBits(sequence);
    var truncated;
    truncated, taken := TrimToIntact(sequence);
    assert sequence == s[..|sequence|] && sequence[1..|sequence|] == sequence[1..];
    SequenceDecodes(s, |sequence|, taken);
    if truncated {
      return INVALID, taken;
    }
    AccumulateFits(sequence, |sequence|);
    c := Checked(c, |sequence|);
  }

  /** The checks at the end of fromUTF8: overlong forms, surrogates and noncharacters are invalid. */
  method Checked(c: bv32, size: nat) returns (r: bv32)
    requires 1 <= size <= 6 && c < 0x8000_0000
    ensures r == CheckedValue(c, size)
  {
    hide MinValue, IsCharacter;
    CharacterCases(c);
    if c < MinValue(size) {
      return INVALID;
    }
    if c >= 0xd800 && c <= 0xdfff {
      return INVALID;
    }
    if c >= 0xfffe && c <= 0xffff {
      return INVALID;
    }
    return c;
  }

  lemma Encode2(c: bv32)
    requires Storable(c) == c && 0x80 <= c < 0x800
    ensures Encode(c) ==
            [(((c >> 6) & 0x1f) + 0xc0) as Octet, ((c & 0x3f) + 0x80) as Octet]
  {
    LeadFormulas(c);
    hide LeadMark, Lead;
    Tail1(c);
  }

  lemma Encode3(c: bv32)
    requires Storable(c) == c && 0x800 <= c < 0x1_0000
    ensures Encode(c) ==
            [(((c >> 12) & 0x0f) + 0xe0) as Octet, (((c >> 6) & 0x3f) + 0x80) as Octet,
             ((c & 0x3f) + 0x80) as Octet]
  {
    LeadFormulas(c);
    hide LeadMark, Lead;
    Tail2(c);
  }

  lemma Encode4(c: bv32)
    requires Storable(c) == c && 0x1_0000 <= c < 0x20_0000
    ensures Encode(c) ==
            [(((c >> 18) & 0x07) + 0xf0) as Octet, (((c >> 12) & 0x3f) + 0x80) as Octet,
             (((c >> 6) & 0x3f) + 0x80) as Octet, ((c & 0x3f) + 0x80) as Octet]
  {
    LeadFormulas(c);
    hide LeadMark, Lead;
    Tail3(c);
  }

  lemma Encode5(c: bv32)
    requires Storable(c) == c && 0x20_0000 <= c < 0x400_0000
    ensures Encode(c) ==
            [(((c >> 24) & 0x03) + 0xf8) as Octet, (((c >> 18) & 0x3f) + 0x80) as Octet,
             (((c >> 12) & 0x3f) + 0x80) as Octet, (((c >> 6) & 0x3f) + 0x80) as Octet,
             ((c & 0x3f) + 0x80) as Octet]
  {
    LeadFormulas(c);
    hide LeadMark, Lead;
    Tail4(c);
  }

  lemma Encode6(c: bv32)
    requires Storable(c) == c && 0x400_0000 <= c < 0x8000_0000
    ensures Encode(c) ==
            [(((c >> 30) & 0x01) + 0xfc) as Octet, (((c >> 24) & 0x3f) + 0x80) as Octet,
             (((c >> 18) & 0x3f) + 0x80) as Octet, (((c >> 12) & 0x3f) + 0x80) as Octet,
             (((c >> 6) & 0x3f) + 0x80) as Octet, ((c & 0x3f) + 0x80) as Octet]
  {
    LeadFormulas(c);
    hide LeadMark, Lead;
    Tail5(c);
  }

  /** Unicode::toUTF8: appends the encoding of c to dst. */
  method ToUTF8(dst: seq<Octet>, c: bv32) returns (out: seq<Octet>, errors: bool)
    ensures out == dst + Encode(c)
    ensures errors == (Storable(c) != c)
  {
    var r := c;
    errors := false;
    if (r >= 0xd800 && r <= 0xdfff) || r >= 0x8000_0000 {
      errors := true;
      r := REPLACEMENT;
    }

    LeadFormulas(r);
    hide Lead, LeadMark;
    var data: seq<Octet>;
    if r < 0x80 {
      data := [r as Octet];
    } else if r < 0x800 {
      Encode2(r);
      data := [(((r >> 6) & 0x1f) + 0xc0) as Octet, ((r & 0x3f) + 0x80) as Octet];
    } else if r < 0x1_0000 {
      Encode3(r);
      data := [(((r >> 12) & 0x0f) + 0xe0) as Octet, (((r >> 6) & 0x3f) + 0x80) as Octet,
               ((r & 0x3f) + 0x80) as Octet];
    } else if r < 0x20_0000 {
      Encode4(r);
      data := [(((r >> 18) & 0x07) + 0xf0) as Octet, (((r >> 12) & 0x3f) + 0x80) as Octet,
               (((r >> 6) & 0x3f) + 0x80) as Octet, ((r & 0x3f) + 0x80) as Octet];
    } else if r < 0x400_0000 {
      Encode5(r);
      data := [(((r >> 24) & 0x03) + 0xf8) as Octet, (((r >> 18) & 0x3f) + 0x80) as Octet,
               (((r >> 12) & 0x3f) + 0x80) as Octet, (((r >> 6) & 0x3f) + 0x80) as Octet,
               ((r & 0x3f) + 0x80) as Octet];
    } else {
      Encode6(r);
      data := [(((r >> 30) & 0x01) + 0xfc) as Octet, (((r >> 24) & 0x3f) + 0x80) as Octet,
               (((r >> 18) & 0x3f) + 0x80) as Octet, (((r >> 12) & 0x3f) + 0x80) as Octet,
               (((r >> 6) & 0x3f) + 0x80) as Octet, ((r & 0x3f) + 0x80) as Octet];
    }
    out := dst + data;
  }

  /** Unicode::isUTF8. */
  method IsUTF8(src: seq<Octet>) returns (valid: bool)
    ensures valid <==> IsText(src)
  {
    TextDecodes(src);
    hide Decode, IsText;
    var data := 0;
    while data < |src|
      invariant 0 <= data <= |src|
      invariant INVALID in DecodeAll(src) <==> INVALID in DecodeAll(src[data..])
    {
      ghost var s := src[data..];
      var c, next := FromUTF8(src, data);
      assert src[next..] == s[next - data..];
      assert DecodeAll(s) == [c] + DecodeAll(src[next..]);
      if c == INVALID {
        return false;
      }
      data := next;
    }
    return true;
  }
}
