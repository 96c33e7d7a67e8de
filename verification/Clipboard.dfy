/**
  The in-memory clipboard and its encoding: a count, and for each format its number, the length
  of its data and the data. A peer may send formats that this side does not know.
*/
module Clipboards {
  import opened Options
  import opened BigEndian

  const NUM_FORMATS: nat := 8

  datatype Entry = Entry(format: Uint32, data: Octets)

  type Formats = map<nat, Octets>

  // ---------------------------------------------------------------------------
  // The encoding
  // ---------------------------------------------------------------------------

  function EntryData(entry: Entry): Octets {
    Word(entry.format) + Word(|entry.data|) + entry.data
  }

  function EntriesData(entries: seq<Entry>): Octets {
    if entries == [] then [] else EntryData(entries[0]) + EntriesData(entries[1..])
  }

  /** The present formats from a number on, in ascending order. */
  function EntriesFrom(formats: Formats, format: nat): seq<Entry>
    decreases NUM_FORMATS - format
  {
    if format >= NUM_FORMATS then []
    else if format in formats then [Entry(format, formats[format])] + EntriesFrom(formats, format + 1)
    else EntriesFrom(formats, format + 1)
  }

  function Encode(formats: Formats): Octets {
    var entries := EntriesFrom(formats, 0);
    Word(|entries|) + EntriesData(entries)
  }

  // ---------------------------------------------------------------------------
  // Reading
  // ---------------------------------------------------------------------------

  /**
    The entry that a stream begins with, if reading it stays inside: its format, its size and, only if
    the format is known, its data. Data of unknown formats is skipped without being read.
  */
  function TakeEntry(data: Octets): Option<(Entry, Octets)> {
    if |data| < 8 then None
    else
      var format, size := WordAt(data), WordAt(data[4..]);
      if 8 + size <= |data| then Some((Entry(format, data[8..8 + size]), data[8 + size..]))
      else if format < NUM_FORMATS then None
      else Some((Entry(format, data[8..]), []))
  }

  /** The entries of a stream, which may be followed by anything; None if reading them leads outside. */
  function TakeEntries(data: Octets, count: nat): Option<seq<Entry>>
    decreases count
  {
    if count == 0 then Some([])
    else
      match TakeEntry(data)
      case None => None
      case Some((entry, rest)) =>
        match TakeEntries(rest, count - 1)
        case None => None
        case Some(entries) => Some([entry] + entries)
  }

  function Decode(data: Octets): Option<seq<Entry>> {
    if |data| < 4 then None else TakeEntries(data[4..], WordAt(data))
  }

  /** What a clipboard holds after the entries are added one after the other. */
  function Added(formats: Formats, entries: seq<Entry>): Formats
    decreases |entries|
  {
    if entries == [] then formats
    else
      var entry := entries[0];
      Added(if entry.format < NUM_FORMATS then formats[entry.format := entry.data] else formats, entries[1..])
  }

  // ---------------------------------------------------------------------------
  // What is read
  // ---------------------------------------------------------------------------

  predicate Writable(entries: seq<Entry>) {
    |entries| < WORD && forall i :: 0 <= i < |entries| ==> |entries[i].data| < WORD
  }

  lemma EntryTaken(entry: Entry, rest: Octets)
    requires |entry.data| < WORD
    ensures TakeEntry(EntryData(entry) + rest) == Some((entry, rest))
  {
    hide Word, WordAt;
    var data := EntryData(entry) + rest;
    var sized := Word(|entry.data|) + (entry.data + rest);
    assert data == Word(entry.format) + sized;
    WordAtOfWord(entry.format, sized);
    assert data[4..] == sized;
    WordAtOfWord(|entry.data|, entry.data + rest);
    assert data[8..8 + |entry.data|] == entry.data && data[8 + |entry.data|..] == rest;
  }

  lemma EntriesDataSplit(entries: seq<Entry>, rest: Octets)
    requires entries != []
    ensures EntriesData(entries) + rest == EntryData(entries[0]) + (EntriesData(entries[1..]) + rest)
  {
    hide EntryData;
  }

  lemma {:induction false} EntriesTaken(entries: seq<Entry>, rest: Octets)
    requires forall i :: 0 <= i < |entries| ==> |entries[i].data| < WORD
    ensures TakeEntries(EntriesData(entries) + rest, |entries|) == Some(entries)
  {
    hide EntryData, TakeEntry, EntriesData;
    NoEntriesLeft(map[]);
    if entries != [] {
      var more := EntriesData(entries[1..]) + rest;
      EntryTaken(entries[0], more);
      EntriesTaken(entries[1..], rest);
      EntriesDataSplit(entries, rest);
      assert entries == [entries[0]] + entries[1..];
    }
  }

  lemma DecodeCounted(count: nat, body: Octets, entries: seq<Entry>)
    requires count < WORD && TakeEntries(body, count) == Some(entries)
    ensures Decode(Word(count) + body) == Some(entries)
  {
    hide Word, WordAt, TakeEntries;
    WordAtOfWord(count, body);
  }

  /** Any written entries, known or not, are read back whatever follows them. */
  lemma DecodeOfEntries(entries: seq<Entry>, rest: Octets)
    requires Writable(entries)
    ensures Decode(Word(|entries|) + (EntriesData(entries) + rest)) == Some(entries)
  {
    hide Word, TakeEntries, EntriesData, Decode;
    EntriesTaken(entries, rest);
    DecodeCounted(|entries|, EntriesData(entries) + rest, entries);
  }

  lemma {:induction false} EntriesTakenThen(entries: seq<Entry>, rest: Octets, count: nat)
    requires forall i :: 0 <= i < |entries| ==> |entries[i].data| < WORD
    ensures TakeEntries(EntriesData(entries) + rest, |entries| + count) == Prepended(entries, TakeEntries(rest, count))
  {
    hide EntryData, TakeEntry;
    if entries == [] {
      NothingPrepended(TakeEntries(rest, count));
      assert EntriesData(entries) + rest == rest;
    } else {
      var more := EntriesData(entries[1..]) + rest;
      EntryTaken(entries[0], more);
      EntriesTakenThen(entries[1..], rest, count);
      EntriesDataSplit(entries, rest);
      var taken := TakeEntries(rest, count);
      assert taken.Some? ==> [entries[0]] + (entries[1..] + taken.value) == entries + taken.value;
    }
  }

  /**
    The last entry announces more data than there is: that is skipped if its format is not known, and
    leads outside if it is.
  */
  lemma ShortEntry(entries: seq<Entry>, format: Uint32, size: Uint32, data: Octets)
    requires Writable(entries) && |entries| + 1 < WORD && |data| < size
    ensures var stream := Word(|entries| + 1) + (EntriesData(entries) + (Word(format) + Word(size) + data));
            Decode(stream) == if format < NUM_FORMATS then None else Some(entries + [Entry(format, data)])
    ensures Added(map[], entries + [Entry(format, data)])
            == if format < NUM_FORMATS then Added(map[], entries)[format := data] else Added(map[], entries)
  {
    hide Word, WordAt, EntriesData, TakeEntries, Added, Decode, Writable;
    var last := Word(format) + Word(size) + data;
    AddedLast(map[], entries, Entry(format, data));
    WritableEntries(entries);
    EntriesTakenThen(entries, last, 1);
    ShortIsTaken(format, size, data);
    DecodeIs(|entries| + 1, EntriesData(entries) + last);
  }

  lemma WritableEntries(entries: seq<Entry>)
    requires Writable(entries)
    ensures forall i :: 0 <= i < |entries| ==> |entries[i].data| < WORD
  {
  }

  lemma DecodeIs(count: nat, body: Octets)
    requires count < WORD
    ensures Decode(Word(count) + body) == TakeEntries(body, count)
  {
    hide Word, WordAt, TakeEntries;
    WordAtOfWord(count, body);
  }

  lemma ShortIsTaken(format: Uint32, size: Uint32, data: Octets)
    requires |data| < size
    ensures TakeEntries(Word(format) + Word(size) + data, 1)
            == if format < NUM_FORMATS then None else Some([Entry(format, data)])
  {
    hide Word, WordAt, TakeEntry, TakeEntries;
    var sized := Word(size) + data;
    var all := Word(format) + sized;
    WordAtOfWord(format, sized);
    WordAtOfWord(size, data);
    assert all[8..] == all[4..][4..];
    ShortIsTakenAt(all);
    OneTaken(all);
    assert all == Word(format) + Word(size) + data;
  }

  lemma ShortIsTakenAt(data: Octets)
    requires |data| >= 8 && |data| - 8 < WordAt(data[4..])
    ensures TakeEntry(data) == if WordAt(data) < NUM_FORMATS then None else Some((Entry(WordAt(data), data[8..]), []))
  {
    hide WordAt;
  }

  lemma OneTaken(data: Octets)
    ensures TakeEntries(data, 1)
            == match TakeEntry(data) case None => None case Some((entry, _)) => Some([entry])
  {
    hide TakeEntry;
    if TakeEntry(data).Some? {
      var (entry, rest) := TakeEntry(data).value;
      assert TakeEntries(rest, 0) == Some([]) && [entry] + [] == [entry];
    }
  }

  /** The present formats from a number on, each once, in ascending order. */
  predicate AscendFrom(entries: seq<Entry>, formats: Formats, format: nat) {
    && (forall i, j :: 0 <= i < j < |entries| ==> entries[i].format < entries[j].format)
    && (forall e :: e in entries ==> format <= e.format < 8 && e.format in formats && e.data == formats[e.format])
    && (forall f :: format <= f < 8 && f in formats ==> Entry(f, formats[f]) in entries)
  }

  lemma AscendNext(entries: seq<Entry>, formats: Formats, format: nat)
    requires format < 8 && AscendFrom(entries, formats, format + 1)
    ensures AscendFrom(if format in formats then [Entry(format, formats[format])] + entries else entries,
                       formats, format)
  {
    if format in formats {
      var first := Entry(format, formats[format]);
      var all := [first] + entries;
      forall i, j | 0 <= i < j < |all|
        ensures all[i].format < all[j].format
      {
        assert all[j] == entries[j - 1] && all[j] in entries;
        assert i > 0 ==> all[i] == entries[i - 1];
      }
      assert forall e :: e in all <==> e == first || e in entries;
    }
  }

  /** Every present format is written once, in ascending order, and no other. */
  lemma {:induction false} EntriesAscend(formats: Formats, format: nat)
    ensures AscendFrom(EntriesFrom(formats, format), formats, format)
    decreases NUM_FORMATS - format
  {
    hide EntriesFrom, AscendFrom;
    if format < NUM_FORMATS {
      EntriesAscend(formats, format + 1);
      EntriesFromNext(formats, format);
      AscendNext(EntriesFrom(formats, format + 1), formats, format);
    } else {
      NothingAscends(formats, format);
    }
  }

  lemma NothingAscends(formats: Formats, format: nat)
    requires format >= NUM_FORMATS
    ensures AscendFrom(EntriesFrom(formats, format), formats, format)
  {
  }

  /** Octet by octet: the number of formats, and the number of the format, its size and its data. */
  lemma OneFormatIsWritten(data: Octet)
    ensures Encode(map[2 := [data]]) == [0, 0, 0, 1] + [0, 0, 0, 2] + [0, 0, 0, 1] + [data]
  {
    hide EntriesFrom, Word;
    var formats: Formats := map[2 := [data]];
    EntriesFromNext(formats, 0);
    EntriesFromNext(formats, 1);
    EntriesFromNext(formats, 2);
    NothingFrom(formats, 3);
    var entry := Entry(2, [data]);
    assert EntriesFrom(formats, 0) == [entry];
    assert EntriesData([entry]) == EntryData(entry) + EntriesData([]);
    SmallWord(1);
    SmallWord(2);
  }

  lemma {:induction false} NothingFrom(formats: Formats, format: nat)
    requires forall f :: f in formats ==> f < format
    ensures EntriesFrom(formats, format) == []
    decreases NUM_FORMATS - format
  {
    if format < NUM_FORMATS {
      NothingFrom(formats, format + 1);
    }
  }

  predicate AreKnown(entries: seq<Entry>) {
    forall i :: 0 <= i < |entries| ==> entries[i].format < NUM_FORMATS && |entries[i].data| < WORD
  }

  lemma TruncatedEntry(entry: Entry, k: nat)
    requires entry.format < NUM_FORMATS && |entry.data| < WORD && k < |EntryData(entry)|
    ensures TakeEntry(EntryData(entry)[..k]) == None
  {
    hide Word, WordAt;
    var data := EntryData(entry)[..k];
    if k >= 8 {
      var rest := entry.data[..k - 8];
      assert data == Word(entry.format) + (Word(|entry.data|) + rest);
      WordAtOfWord(entry.format, Word(|entry.data|) + rest);
      WordAtOfWord(|entry.data|, rest);
    }
  }

  lemma {:induction false} TruncatedEntries(entries: seq<Entry>, k: nat)
    requires AreKnown(entries) && k < |EntriesData(entries)|
    ensures TakeEntries(EntriesData(entries)[..k], |entries|) == None
  {
    hide EntryData, TakeEntry;
    if entries != [] {
      var first, rest := EntryData(entries[0]), EntriesData(entries[1..]);
      if k < |first| {
        TruncatedEntry(entries[0], k);
        assert EntriesData(entries)[..k] == first[..k];
      } else {
        EntryTaken(entries[0], rest[..k - |first|]);
        assert EntriesData(entries)[..k] == first + rest[..k - |first|];
        TruncatedEntries(entries[1..], k - |first|);
      }
    }
  }

  lemma TruncatedStream(entries: seq<Entry>, k: nat)
    requires AreKnown(entries) && |entries| < WORD && k < 4 + |EntriesData(entries)|
    ensures Decode((Word(|entries|) + EntriesData(entries))[..k]) == None
  {
    hide Word, WordAt, EntriesData, TakeEntries;
    if k >= 4 {
      var rest := EntriesData(entries)[..k - 4];
      assert (Word(|entries|) + EntriesData(entries))[..k] == Word(|entries|) + rest;
      WordAtOfWord(|entries|, rest);
      TruncatedEntries(entries, k - 4);
    }
  }

  /** Every proper beginning of a marshalled clipboard leads the reader outside the data. */
  lemma TruncatedLeadsOutside(formats: Formats, k: nat)
    requires IsFormats(formats) && (forall f :: f in formats ==> |formats[f]| < WORD) && k <= |Encode(formats)|
    ensures Decode(Encode(formats)[..k]).Some? <==> k == |Encode(formats)|
  {
    hide Word, Decode, EntriesData, TakeEntries, EntriesFrom;
    var entries := EntriesFrom(formats, 0);
    EntriesWritable(formats, 0);
    EntriesAreKnown(formats, 0);
    if k == |Encode(formats)| {
      assert Encode(formats)[..k] == Encode(formats) + [];
      RoundTrip(formats, []);
    } else {
      TruncatedStream(entries, k);
    }
  }

  /** One entry is announced and none follows. */
  lemma MissingEntryLeadsOutside()
    ensures Decode(Word(1)) == None
  {
    hide Word, WordAt;
    assert Word(1) + [] == Word(1);
    WordAtOfWord(1, []);
  }

  lemma {:induction false} EntriesAreKnown(formats: Formats, format: nat)
    requires format <= NUM_FORMATS && forall f :: f in formats ==> |formats[f]| < WORD
    ensures AreKnown(EntriesFrom(formats, format))
    decreases NUM_FORMATS - format
  {
    if format < NUM_FORMATS {
      EntriesAreKnown(formats, format + 1);
    }
  }

  /** Without an entry of its own a format stays as it was, and so does one that is not known. */
  lemma {:induction false} OthersStay(formats: Formats, entries: seq<Entry>, format: nat)
    requires format >= NUM_FORMATS || forall i :: 0 <= i < |entries| ==> entries[i].format != format
    ensures format in Added(formats, entries) <==> format in formats
    ensures format in formats ==> Added(formats, entries)[format] == formats[format]
    decreases |entries|
  {
    if entries != [] {
      var entry := entries[0];
      var formats' := if entry.format < NUM_FORMATS then formats[entry.format := entry.data] else formats;
      OthersStay(formats', entries[1..], format);
    }
  }

  /** The last entry of a known format decides what the clipboard holds in it. */
  lemma {:induction false} LastEntryWins(formats: Formats, entries: seq<Entry>, i: nat)
    requires i < |entries| && entries[i].format < NUM_FORMATS
    requires forall j :: i < j < |entries| ==> entries[j].format != entries[i].format
    ensures entries[i].format in Added(formats, entries)
    ensures Added(formats, entries)[entries[i].format] == entries[i].data
    decreases i
  {
    var entry := entries[0];
    var formats' := if entry.format < NUM_FORMATS then formats[entry.format := entry.data] else formats;
    if i == 0 {
      OthersStay(formats', entries[1..], entry.format);
    } else {
      LastEntryWins(formats', entries[1..], i - 1);
    }
  }

  predicate IsFormats(formats: Formats) {
    forall f :: f in formats ==> f < NUM_FORMATS
  }

  lemma {:induction false} EntriesRestore(formats: Formats, partial: Formats, format: nat)
    requires IsFormats(formats) && format <= NUM_FORMATS
    requires forall f :: f in partial <==> f in formats && f < format
    requires forall f :: f in partial ==> partial[f] == formats[f]
    ensures Added(partial, EntriesFrom(formats, format)) == formats
    decreases NUM_FORMATS - format
  {
    if format == NUM_FORMATS {
      assert partial == formats;
    } else if format in formats {
      var entries := EntriesFrom(formats, format);
      assert entries[0] == Entry(format, formats[format]) && entries[1..] == EntriesFrom(formats, format + 1);
      EntriesRestore(formats, partial[format := formats[format]], format + 1);
    } else {
      EntriesRestore(formats, partial, format + 1);
    }
  }

  lemma {:induction false} EntriesWritable(formats: Formats, format: nat)
    requires format <= NUM_FORMATS && forall f :: f in formats ==> |formats[f]| < WORD
    ensures Writable(EntriesFrom(formats, format)) && |EntriesFrom(formats, format)| <= NUM_FORMATS - format
    decreases NUM_FORMATS - format
  {
    if format < NUM_FORMATS {
      EntriesWritable(formats, format + 1);
    }
  }

  /** Writing and reading restores exactly which formats are present and their data. */
  lemma RoundTrip(formats: Formats, rest: Octets)
    requires IsFormats(formats) && forall f :: f in formats ==> |formats[f]| < WORD
    ensures Decode(Encode(formats) + rest).Some?
    ensures Added(map[], Decode(Encode(formats) + rest).value) == formats
  {
    hide Added, EntriesFrom, Decode, EntriesData, Word;
    var entries := EntriesFrom(formats, 0);
    EntriesWritable(formats, 0);
    assert Encode(formats) + rest == Word(|entries|) + (EntriesData(entries) + rest);
    DecodeOfEntries(EntriesFrom(formats, 0), rest);
    EntriesRestore(formats, map[], 0);
  }

  // ---------------------------------------------------------------------------
  // The clipboard
  // ---------------------------------------------------------------------------

  class Clipboard {
    var isOpen: bool
    var owner: bool
    var time: nat
    var timeOwned: nat
    const added: array<bool>
    const data: array<Octets>

    ghost predicate Valid()
    {
      added.Length == NUM_FORMATS && data.Length == NUM_FORMATS
    }

    ghost function Contents(): (formats: Formats)
      reads added, data
      requires Valid()
      ensures IsFormats(formats)
    {
      map f: nat | f < NUM_FORMATS && added[f] :: data[f]
    }

    constructor ()
      ensures Valid() && fresh(added) && fresh(data)
      ensures !isOpen && owner && timeOwned == 0 && Contents() == map[]
    {
      isOpen, owner := false, false;
      time, timeOwned := 0, 0;
      added := new bool[NUM_FORMATS];
      data := new Octets[NUM_FORMATS];
      new;
      Open(0);
      Clear();
      Close();
    }

    method Open(time: nat)
      requires !isOpen
      modifies this`isOpen, this`time
      ensures isOpen && this.time == time
    {
      isOpen := true;
      this.time := time;
    }

    method Close()
      requires isOpen
      modifies this`isOpen
      ensures !isOpen
    {
      isOpen := false;
    }

    method Clear()
      requires Valid() && isOpen
      modifies this`owner, this`timeOwned, added, data
      ensures Contents() == map[] && owner && timeOwned == time
    {
      for index := 0 to NUM_FORMATS
        invariant forall k :: 0 <= k < index ==> !added[k]
      {
        data[index] := [];
        added[index] := false;
      }
      timeOwned := time;
      owner := true;
    }

    method Add(format: nat, octets: Octets)
      requires Valid() && isOpen && owner && format < NUM_FORMATS
      modifies added, data
      ensures Contents() == old(Contents())[format := octets]
    {
      data[format] := octets;
      added[format] := true;
    }

    method Has(format: nat) returns (present: bool)
      requires Valid() && isOpen && format < NUM_FORMATS
      ensures present == (format in Contents())
    {
      present := added[format];
    }

    method Get(format: nat) returns (octets: Octets)
      requires Valid() && isOpen && format < NUM_FORMATS
      ensures format in Contents() ==> octets == Contents()[format]
    {
      octets := data[format];
    }
  }

  /** What is left of the data at a position, which skipping may have moved beyond the end. */
  function Left(data: Octets, index: nat): Octets {
    if index <= |data| then data[index..] else []
  }

  /**
    The reader does not know how long its data is. Here each read is checked, and the first one that
    is not inside the data ends the model: `inside` says that there is none.
  */
  method Unmarshall(clipboard: Clipboard, data: Octets, time: nat) returns (inside: bool, ghost read: seq<Entry>)
    requires clipboard.Valid() && !clipboard.isOpen
    modifies clipboard, clipboard.added, clipboard.data
    ensures Decode(data) == if inside then Some(read) else None
    ensures clipboard.Contents() == Added(map[], read)
    ensures clipboard.isOpen == !inside && clipboard.owner && clipboard.timeOwned == time
  {
    hide WordAt, Added, TakeEntry, TakeEntries;
    clipboard.Open(time);
    clipboard.Clear();
    read := [];
    NothingAdded();
    if |data| < 4 {
      return false, read;
    }
    var numFormats := WordAt(data);
    var index: nat := 4;
    NothingPrepended(TakeEntries(Left(data, 4), numFormats));
    for i := 0 to numFormats
      invariant clipboard.isOpen && clipboard.owner && clipboard.timeOwned == time
      invariant Decode(data) == Prepended(read, TakeEntries(Left(data, index), numFormats - i))
      invariant clipboard.Contents() == Added(map[], read)
    {
      NextEntry(data, index, numFormats - i);
      if index + 4 > |data| {
        return false, read;
      }
      var format := WordAt(data[index..]);
      index := index + 4;
      if index + 4 > |data| {
        return false, read;
      }
      var size := WordAt(data[index..]);
      index := index + 4;
      if format < NUM_FORMATS && index + size > |data| {
        return false, read;
      }
      ghost var entry := TakeEntry(Left(data, index - 8)).value.0;
      PrependedTwice(read, entry, TakeEntries(Left(data, index + size), numFormats - i - 1));
      AddedLast(map[], read, entry);
      read := read + [entry];
      if format < NUM_FORMATS {
        clipboard.Add(format, data[index..index + size]);
      }
      index := index + size;
    }
    AllRead(read, Left(data, index));
    clipboard.Close();
    inside := true;
  }

  /** The reads of one entry, by their positions. */
  lemma NextEntry(data: Octets, index: nat, count: nat)
    requires count > 0
    ensures index + 8 > |data| ==> TakeEntries(Left(data, index), count) == None
    ensures index + 8 <= |data| ==>
              var format, size := WordAt(data[index..]), WordAt(data[index + 4..]);
              if format < NUM_FORMATS && index + 8 + size > |data| then TakeEntries(Left(data, index), count) == None
              else
                && TakeEntry(Left(data, index)).Some?
                && var entry := TakeEntry(Left(data, index)).value.0;
                && entry.format == format
                && (format < NUM_FORMATS ==> entry.data == data[index + 8..index + 8 + size])
                && TakeEntries(Left(data, index), count)
                   == Prepended([entry], TakeEntries(Left(data, index + 8 + size), count - 1))
  {
    hide WordAt;
    if index + 8 <= |data| {
      var left := data[index..];
      LeftAfter(data, index, 4);
      var size := WordAt(left[4..]);
      if 8 + size <= |left| {
        LeftAfter(data, index, 8);
        LeftAfter(data, index, 8 + size);
        LeftUpTo(data, index, 8, 8 + size);
      }
    }
  }

  lemma LeftAfter(data: Octets, index: nat, n: nat)
    requires index + n <= |data|
    ensures data[index..][n..] == data[index + n..]
  {
  }

  lemma LeftUpTo(data: Octets, index: nat, m: nat, n: nat)
    requires m <= n && index + n <= |data|
    ensures data[index..][m..n] == data[index + m..index + n]
  {
  }

  lemma NothingAdded()
    ensures Added(map[], []) == map[]
  {
  }

  lemma AllRead(read: seq<Entry>, left: Octets)
    ensures Prepended(read, TakeEntries(left, 0)) == Some(read)
  {
    assert read + [] == read;
  }

  lemma {:induction false} AddedLast(formats: Formats, entries: seq<Entry>, entry: Entry)
    ensures var before := Added(formats, entries);
            Added(formats, entries + [entry])
            == if entry.format < NUM_FORMATS then before[entry.format := entry.data] else before
    decreases |entries|
  {
    if entries == [] {
      assert (entries + [entry])[1..] == [];
    } else {
      var first := entries[0];
      var next := if first.format < NUM_FORMATS then formats[first.format := first.data] else formats;
      assert (entries + [entry])[1..] == entries[1..] + [entry];
      AddedLast(next, entries[1..], entry);
    }
  }

  method Marshall(clipboard: Clipboard) returns (data: Octets)
    requires clipboard.Valid() && !clipboard.isOpen
    modifies clipboard`isOpen, clipboard`time
    ensures data == Encode(clipboard.Contents()) && !clipboard.isOpen
  {
    hide Word, EntriesFrom, EntriesData;
    data := [];
    var formatData := new Octets[NUM_FORMATS];
    clipboard.Open(0);
    ghost var formats := clipboard.Contents();
    var numFormats := 0;
    for format := 0 to NUM_FORMATS
      invariant clipboard.isOpen && clipboard.Contents() == formats
      invariant numFormats + |EntriesFrom(formats, format)| == |EntriesFrom(formats, 0)|
      invariant forall k :: 0 <= k < format && k in formats ==> formatData[k] == formats[k]
    {
      EntriesFromNext(formats, format);
      var present := clipboard.Has(format);
      if present {
        numFormats := numFormats + 1;
        formatData[format] := clipboard.Get(format);
      }
    }
    NoEntriesLeft(formats);
    data := data + Word(numFormats);
    for format := 0 to NUM_FORMATS
      invariant clipboard.isOpen && clipboard.Contents() == formats
      invariant forall k :: 0 <= k < NUM_FORMATS && k in formats ==> formatData[k] == formats[k]
      invariant data + EntriesData(EntriesFrom(formats, format)) == Encode(formats)
    {
      EntriesFromNext(formats, format);
      var present := clipboard.Has(format);
      if present {
        EntriesDataFirst(data, Entry(format, formats[format]), EntriesFrom(formats, format + 1));
        data := data + Word(format);
        data := data + Word(|formatData[format]|);
        data := data + formatData[format];
      }
    }
    clipboard.Close();
  }

  lemma EntriesFromNext(formats: Formats, format: nat)
    requires format < NUM_FORMATS
    ensures var more := EntriesFrom(formats, format + 1);
            EntriesFrom(formats, format) == if format in formats then [Entry(format, formats[format])] + more else more
  {
  }

  lemma NoEntriesLeft(formats: Formats)
    ensures EntriesFrom(formats, NUM_FORMATS) == [] && EntriesData([]) == []
  {
  }

  lemma EntriesDataFirst(data: Octets, entry: Entry, entries: seq<Entry>)
    ensures data + EntriesData([entry] + entries)
            == data + Word(entry.format) + Word(|entry.data|) + entry.data + EntriesData(entries)
  {
    assert ([entry] + entries)[1..] == entries;
  }

  function UpTo(formats: Formats, format: nat): Formats {
    map f | f in formats && f < format :: formats[f]
  }

  lemma UpToNext(formats: Formats, format: nat)
    ensures UpTo(formats, format + 1)
            == if format in formats then UpTo(formats, format)[format := formats[format]] else UpTo(formats, format)
  {
  }

  lemma UpToBounds(formats: Formats)
    requires IsFormats(formats)
    ensures UpTo(formats, 0) == map[] && UpTo(formats, NUM_FORMATS) == formats
  {
  }

  method Copy(dst: Clipboard, src: Clipboard, time: nat)
    requires dst.Valid() && src.Valid() && dst != src && dst.added != src.added && dst.data != src.data
    requires !dst.isOpen && !src.isOpen
    modifies dst, src`isOpen, src`time, dst.added, dst.data
    ensures dst.Contents() == src.Contents() == old(src.Contents()) && dst.timeOwned == time && dst.owner
    ensures !dst.isOpen && !src.isOpen
  {
    hide UpTo;
    ghost var formats := src.Contents();
    UpToBounds(formats);
    src.Open(time);
    dst.Open(time);
    dst.Clear();
    for format := 0 to NUM_FORMATS
      invariant src.isOpen && dst.isOpen && dst.owner && dst.timeOwned == time
      invariant src.Contents() == formats && dst.Contents() == UpTo(formats, format)
    {
      UpToNext(formats, format);
      var present := src.Has(format);
      if present {
        var octets := src.Get(format);
        dst.Add(format, octets);
      }
    }
    dst.Close();
    src.Close();
  }

  /** A clipboard that is marshalled and read by another one comes out the same. */
  method Transfer(src: Clipboard, dst: Clipboard, time: nat)
    requires dst.Valid() && src.Valid() && dst != src && dst.added != src.added && dst.data != src.data
    requires !dst.isOpen && !src.isOpen && forall f :: f in src.Contents() ==> |src.Contents()[f]| < WORD
    modifies src`isOpen, src`time, dst, dst.added, dst.data
    ensures dst.Contents() == old(src.Contents())
  {
    hide Decode, Encode, Added;
    ghost var formats := src.Contents();
    var data := Marshall(src);
    assert src.Contents() == formats;
    RoundTrip(formats, []);
    assert data + [] == data;
    var inside;
    ghost var read;
    inside, read := Unmarshall(dst, data, time);
  }
}
