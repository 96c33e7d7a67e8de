/** Octets, and integers written with their most significant octet first. */
module BigEndian {

  type Octet = x: int | 0 <= x < 256
  type Octets = seq<Octet>

  const WORD: int := 0x1_0000_0000

  type Uint32 = x: int | 0 <= x < WORD
  type Uint64 = x: int | 0 <= x < WORD * WORD

  /** The low 32 bits of a value. */
  function Word(value: nat): (octets: Octets)
    ensures |octets| == 4
  {
    [value / 0x100_0000 % 256, value / 0x1_0000 % 256, value / 0x100 % 256, value % 256]
  }

  /** The value of four octets, shifted in one after the other. */
  function Joined(a: int, b: int, c: int, d: int): int {
    ((a * 256 + b) * 256 + c) * 256 + d
  }

  function WordAt(octets: Octets): (value: Uint32)
    requires |octets| >= 4
  {
    Joined(octets[0], octets[1], octets[2], octets[3])
  }

  lemma ShiftedTwice(value: nat)
    ensures value / 0x100 / 256 == value / 0x1_0000 && value / 0x1_0000 / 256 == value / 0x100_0000
    ensures value / 0x100_0000 / 256 == value / WORD
  {
  }

  lemma WordAtOfWord(value: nat, rest: Octets)
    ensures WordAt(Word(value) + rest) == value % WORD && (Word(value) + rest)[4..] == rest
  {
    var octets := Word(value) + rest;
    var v1, v2, v3 := value / 0x100, value / 0x1_0000, value / 0x100_0000;
    ShiftedTwice(value);
    var d, c, b, a := value % 256, v1 % 256, v2 % 256, v3 % 256;
    assert octets[0] == a && octets[1] == b && octets[2] == c && octets[3] == d;
    assert value == v3 / 256 * WORD + Joined(a, b, c, d);
  }

  lemma DigitsOfJoined(a: int, b: int, c: int, d: int)
    requires 0 <= a < 256 && 0 <= b < 256 && 0 <= c < 256 && 0 <= d < 256
    ensures var value := Joined(a, b, c, d);
            && value % 256 == d && value / 0x100 % 256 == c
            && value / 0x1_0000 % 256 == b && value / 0x100_0000 % 256 == a
  {
    var value := Joined(a, b, c, d);
    assert value / 0x100 == (a * 256 + b) * 256 + c;
    assert value / 0x1_0000 == a * 256 + b;
    assert value / 0x100_0000 == a;
  }

  lemma WordOfWordAt(octets: Octets)
    requires |octets| >= 4
    ensures octets == Word(WordAt(octets)) + octets[4..]
  {
    hide Joined;
    DigitsOfJoined(octets[0], octets[1], octets[2], octets[3]);
    assert Word(WordAt(octets)) == octets[..4];
  }

  /** The first octet in which two words differ decides which of them is smaller. */
  lemma FirstDifferenceDecides(a: Octets, b: Octets, i: nat)
    requires |a| >= 4 && |b| >= 4 && i < 4 && a[i] < b[i]
    requires forall k :: 0 <= k < i ==> a[k] == b[k]
    ensures WordAt(a) < WordAt(b)
  {
  }

  function DoubleWord(value: Uint64): Octets {
    Word(value / WORD) + Word(value % WORD)
  }

  function DoubleWordAt(octets: Octets): (value: Uint64)
    requires |octets| >= 8
  {
    WordAt(octets) * WORD + WordAt(octets[4..])
  }

  lemma DoubleWordAtOfDoubleWord(value: Uint64, rest: Octets)
    ensures DoubleWordAt(DoubleWord(value) + rest) == value
  {
    hide Word, WordAt;
    var high, low := value / WORD, value % WORD;
    var octets := DoubleWord(value) + rest;
    assert octets == Word(high) + (Word(low) + rest) && octets[4..] == Word(low) + rest;
    WordAtOfWord(high, Word(low) + rest);
    WordAtOfWord(low, rest);
  }

  lemma DoubleWordOfDoubleWordAt(octets: Octets)
    requires |octets| >= 8
    ensures octets == DoubleWord(DoubleWordAt(octets)) + octets[8..]
  {
    WordOfWordAt(octets);
    WordOfWordAt(octets[4..]);
    var high, low := WordAt(octets), WordAt(octets[4..]);
    assert DoubleWordAt(octets) / WORD == high && DoubleWordAt(octets) % WORD == low;
    assert octets[4..][4..] == octets[8..];
  }

  /** The most significant octet comes first. */
  lemma OrderOfOctets(rest: Octets)
    ensures Word(0x0102_0304) == [1, 2, 3, 4] && WordAt([1, 2, 3, 4] + rest) == 0x0102_0304
    ensures DoubleWord(0x0102_0304_0506_0708) == [1, 2, 3, 4, 5, 6, 7, 8]
    ensures DoubleWordAt([1, 2, 3, 4, 5, 6, 7, 8] + rest) == 0x0102_0304_0506_0708
  {
    var octets := [1, 2, 3, 4, 5, 6, 7, 8] + rest;
    assert octets[4..] == [5, 6, 7, 8] + rest;
  }

  lemma SmallWord(value: Octet)
    ensures Word(value) == [0, 0, 0, value]
  {
  }

  lemma SmallDoubleWord(value: Octet)
    ensures DoubleWord(value) == [0, 0, 0, 0, 0, 0, 0, value]
  {
  }
}
