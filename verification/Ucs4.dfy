/**
  The conversions between UTF-8 and UCS-4 of the Unicode class: 31-bit values in 32-bit words in
  the host's byte order.
*/
module Ucs4 {
  import opened Utf8

  /** What UTF8ToUCS4 writes for the result of one decoding step. */
  function Word(c: bv32): (w: bv32)
    ensures IsDecoded(c) ==> IsCharacter(w)
  {
    if c == INVALID then REPLACEMENT else c
  }

  function Words(cs: seq<bv32>): (w: seq<bv32>)
    ensures |w| == |cs|
    ensures AllDecoded(cs) ==> AllCharacters(w)
    decreases |cs|
  {
    if cs == [] then [] else [Word(cs[0])] + Words(cs[1..])
  }

  function ToUCS4(s: seq<Octet>): seq<bv32> {
    Words(DecodeAll(s))
  }

  function Swap(w: bv32): bv32 {
    (w << 24) | ((w & 0xff00) << 8) | ((w >> 8) & 0xff00) | (w >> 24)
  }

  function SwapAll(w: seq<bv32>): (b: seq<bv32>)
    ensures |b| == |w|
    ensures forall i :: 0 <= i < |w| ==> b[i] == Swap(w[i])
  {
    seq(|w|, i requires 0 <= i < |w| => Swap(w[i]))
  }

  /** The words after the mark; 0x0000fffe announces swapped bytes, as the original tests it. */
  function Unmarked(w: seq<bv32>): (b: seq<bv32>)
    ensures |b| <= |w|
  {
    if w != [] && w[0] == 0xfeff then w[1..]
    else if w != [] && w[0] == 0xfffe then SwapAll(w[1..])
    else w
  }

  function FromUCS4(w: seq<bv32>): seq<Octet> {
    EncodeAll(Unmarked(w))
  }

  lemma {:induction false} WordsOfCharacters(cs: seq<bv32>)
    requires AllCharacters(cs)
    ensures Words(cs) == cs
    decreases |cs|
  {
    if cs != [] {
      WordsOfCharacters(cs[1..]);
    }
  }

  lemma CharactersUnmarked(cs: seq<bv32>)
    requires AllCharacters(cs)
    ensures Unmarked(cs) == (if cs != [] && cs[0] == 0xfeff then cs[1..] else cs)
    ensures AllCharacters(Unmarked(cs))
  {
  }

  /**
    UTF-8 to UCS-4 and back is the identity on text, of all 31 bits, whose first character is not
    U+FEFF, and on no other octets.
  */
  lemma UTF8RoundTrip(s: seq<Octet>)
    ensures FromUCS4(ToUCS4(s)) == s
            <==> IsText(s) && (DecodeAll(s) == [] || DecodeAll(s)[0] != 0xfeff)
  {
    hide Decode, Encode, EncodeAll, DecodeAll, IsCharacter, Word, Words;
    var cs, ws := DecodeAll(s), ToUCS4(s);
    var rest := Unmarked(ws);
    CharactersUnmarked(ws);
    TextDecodes(s);
    if FromUCS4(ws) == s {
      assert IsText(s);
      EncodeAllOfDecodeAll(s);
      EncodeAllInjective(cs, rest);
    }
    if INVALID !in cs {
      EncodeAllOfDecodeAll(s);
      WordsOfCharacters(cs);
    }
  }

  function StorableAll(cs: seq<bv32>): (rs: seq<bv32>)
    ensures |rs| == |cs|
    ensures AllStorable(rs)
    decreases |cs|
  {
    if cs == [] then [] else [Storable(cs[0])] + StorableAll(cs[1..])
  }

  lemma {:induction false} EncodeAllStorable(cs: seq<bv32>)
    ensures EncodeAll(cs) == EncodeAll(StorableAll(cs))
    ensures AllCharacters(cs) ==> StorableAll(cs) == cs
    decreases |cs|
  {
    hide Octets, Lead, Tail, High;
    if cs != [] {
      assert Encode(Storable(cs[0])) == Encode(cs[0]);
      EncodeAllStorable(cs[1..]);
    }
  }

  /**
    UCS-4 to UTF-8 and back is the identity on words that are all characters and do not start
    with U+FEFF, and on no other words.
  */
  lemma UCS4RoundTrip(w: seq<bv32>)
    ensures ToUCS4(FromUCS4(w)) == w <==> AllCharacters(w) && (w == [] || w[0] != 0xfeff)
  {
    hide Decode, Encode, EncodeAll, DecodeAll, IsCharacter, Word, Words, Storable, StorableAll, ReadBackAll;
    var b := Unmarked(w);
    var stored := StorableAll(b);
    EncodeAllStorable(b);
    DecodeAllOfEncodeAll(stored, []);
    assert EncodeAll(stored) + [] == FromUCS4(w);
    NothingDecodes();
    assert ReadBackAll(stored) + [] == ReadBackAll(stored);
    if AllCharacters(w) && (w == [] || w[0] != 0xfeff) {
      CharactersUnmarked(w);
      ReadBackCharacters(w);
      WordsOfCharacters(w);
    }
  }

  lemma NothingDecodes()
    ensures DecodeAll([]) == []
  {
  }

  lemma NothingEncodes()
    ensures EncodeAll([]) == [] && AllStorable([])
  {
  }

  // ---------------------------------------------------------------------------
  // Byte order
  // ---------------------------------------------------------------------------

  /** v has the four octets of each word of w in the other order. */
  predicate Reversed(v: seq<bv32>, w: seq<bv32>) {
    && |v| == |w|
    && forall i :: 0 <= i < |v| ==>
         && v[i] & 0xff == w[i] >> 24
         && (v[i] >> 8) & 0xff == (w[i] >> 16) & 0xff
         && (v[i] >> 16) & 0xff == (w[i] >> 8) & 0xff
         && v[i] >> 24 == w[i] & 0xff
  }

  lemma SwapReverses(v: bv32, w: bv32)
    requires v & 0xff == w >> 24 && (v >> 8) & 0xff == (w >> 16) & 0xff
    requires (v >> 16) & 0xff == (w >> 8) & 0xff && v >> 24 == w & 0xff
    ensures Swap(v) == w
  {
  }

  /** Reversed words are read as the words they stand for after the mark 0x0000fffe. */
  lemma SwappedIsRead(v: seq<bv32>, w: seq<bv32>)
    requires Reversed(v, w)
    ensures FromUCS4([0xfffe] + v) == FromUCS4([0xfeff] + w) == EncodeAll(w)
  {
    hide Swap, EncodeAll;
    assert ([0xfffe] + v)[1..] == v && ([0xfeff] + w)[1..] == w;
    forall i | 0 <= i < |v|
      ensures Swap(v[i]) == w[i]
    {
      SwapReverses(v[i], w[i]);
    }
    assert SwapAll(v) == w;
  }

  /**
    That mark is not U+FEFF with its four octets reversed, 0xfffe0000. Reversed words with the
    reversed mark are taken for text without a mark.
  */
  lemma ReversedMarkIsText(v: seq<bv32>)
    ensures Reversed([0xfffe_0000], [0xfeff])
    ensures FromUCS4([0xfffe_0000] + v) == Encode(0xfffd) + EncodeAll(v)
    ensures !AllStorable(Unmarked([0xfffe_0000] + v))
  {
    var w := [0xfffe_0000] + v;
    assert w[1..] == v && Unmarked(w) == w;
    assert Storable(w[0]) == 0xfffd && Encode(w[0]) == Encode(0xfffd);
  }

  /** Any text comes back whole with a mark in front, in the host's order. */
  lemma MarkedRoundTrip(s: seq<Octet>)
    requires IsText(s)
    ensures FromUCS4([0xfeff] + ToUCS4(s)) == s
  {
    hide Decode, Encode, EncodeAll, DecodeAll, IsCharacter, Words;
    TextDecodes(s);
    EncodeAllOfDecodeAll(s);
    WordsOfCharacters(DecodeAll(s));
    assert ([0xfeff] + ToUCS4(s))[1..] == ToUCS4(s);
  }

  /** After any text, octets without a value give one U+FFFD; every other value is one word. */
  lemma OneWordPerStep(s: seq<Octet>, t: seq<Octet>)
    requires IsText(s) && t != []
    ensures var d := Decode(t);
            ToUCS4(s + t) == ToUCS4(s) + [if d.c == 0xffff then 0xfffd else d.c] + ToUCS4(t[d.size..])
  {
    TextDecodes(s);
    EncodeAllOfDecodeAll(s);
    var cs := DecodeAll(s);
    DecodeTextThen(cs, t);
    hide Decode, IsText, EncodeAll;
    WordsOfBoth(cs, DecodeAll(t));
    assert DecodeAll(t)[1..] == DecodeAll(t[Decode(t).size..]);
  }

  lemma {:induction false} WordsOfBoth(cs: seq<bv32>, ds: seq<bv32>)
    ensures Words(cs + ds) == Words(cs) + Words(ds)
    decreases |cs|
  {
    if cs == [] {
      assert cs + ds == ds;
    } else {
      assert (cs + ds)[1..] == cs[1..] + ds;
      WordsOfBoth(cs[1..], ds);
    }
  }

  // ---------------------------------------------------------------------------
  // The original's code
  // ---------------------------------------------------------------------------

  /** Unicode::UTF8ToUCS4. */
  method UTF8ToUCS4(src: seq<Octet>) returns (dst: seq<bv32>)
    ensures dst == ToUCS4(src)
  {
    hide Decode, IsCharacter;
    var data := 0;
    dst := [];
    while data < |src|
      invariant 0 <= data <= |src|
      invariant dst + ToUCS4(src[data..]) == ToUCS4(src)
    {
      ghost var s := src[data..];
      var c, next := FromUTF8(src, data);
      assert src[next..] == s[next - data..];
      assert DecodeAll(s)[1..] == DecodeAll(src[next..]);
      if c == INVALID {
        c := REPLACEMENT;
      }
      dst := dst + [c];
      data := next;
    }
  }

  function Decode32(w: seq<bv32>, data: nat, byteSwapped: bool): bv32
    requires data < |w|
  {
    if byteSwapped then Swap(w[data]) else w[data]
  }

  /** Where the text starts and whether its bytes are swapped. */
  lemma UnmarkedWords(w: seq<bv32>)
    ensures var swapped := w != [] && w[0] == 0xfffe;
            var start := if w != [] && (w[0] == 0xfeff || w[0] == 0xfffe) then 1 else 0;
            && |Unmarked(w)| == |w| - start
            && forall i :: 0 <= i < |w| - start ==> Unmarked(w)[i] == Decode32(w, start + i, swapped)
  {
  }

  lemma EncodeAllNext(cs: seq<bv32>, i: nat)
    requires i < |cs|
    ensures EncodeAll(cs[i..]) == Encode(cs[i]) + EncodeAll(cs[i + 1..])
  {
    assert cs[i..][0] == cs[i] && cs[i..][1..] == cs[i + 1..];
  }

  lemma AllStorableNext(cs: seq<bv32>, i: nat)
    requires i < |cs|
    ensures AllStorable(cs[..i + 1]) <==> AllStorable(cs[..i]) && Storable(cs[i]) == cs[i]
  {
    hide Storable;
    assert cs[..i + 1][i] == cs[i] && forall k :: 0 <= k < i ==> cs[..i + 1][k] == cs[..i][k];
  }

  /** Unicode::doUCS4ToUTF8; `errors` is set exactly when a word has no encoding. */
  method UCS4ToUTF8(w: seq<bv32>) returns (dst: seq<Octet>, errors: bool)
    ensures dst == FromUCS4(w)
    ensures !errors <==> AllStorable(Unmarked(w))
  {
    hide Encode, EncodeAll, Octets, Storable, AllStorable, Unmarked, Decode32;
    UnmarkedWords(w);
    ghost var body := Unmarked(w);
    dst, errors := [], false;
    var byteSwapped, data := false, 0;
    if |w| >= 1 {
      if w[0] == 0xfeff {
        data := 1;
      } else if w[0] == 0xfffe {
        byteSwapped, data := true, 1;
      }
    }
    ghost var start, done := data, 0;
    assert body[0..] == body;
    NothingEncodes();
    while data < |w|
      invariant 0 <= done <= |body| && data == start + done && |w| == start + |body|
      invariant dst + EncodeAll(body[done..]) == EncodeAll(body)
      invariant !errors <==> AllStorable(body[..done])
    {
      var c := Decode32(w, data, byteSwapped);
      var e;
      dst, e := ToUTF8(dst, c);
      errors := errors || e;
      assert c == body[done];
      EncodeAllNext(body, done);
      AllStorableNext(body, done);
      data := data + 1;
      done := done + 1;
    }
    assert body[..done] == body && body[done..] == [];
  }
}
