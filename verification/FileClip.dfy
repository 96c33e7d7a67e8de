/**
  The list of copied files that travels in the clipboard: how it is written as octets, and how
  octets from another screen are read without ever looking beyond their end.
*/
module FileClips {
  import opened Options
  import opened BigEndian

  datatype File = File(name: Octets, size: Uint64, modified: Uint64)

  datatype FileClip = FileClip(id: Octets, files: seq<File>)

  const MAGIC: Octets := [0x4C, 0x44, 0x46, 0x31] // LDF1
  const MAX_ID_LENGTH: nat := 64
  const MAX_NAME_LENGTH: nat := 1024
  const MAX_FILES: nat := 4096

  const DOT: Octet := 0x2E
  const SLASH: Octet := 0x2F
  const COLON: Octet := 0x3A
  const BACKSLASH: Octet := 0x5C

  predicate IsPlain(c: Octet) {
    c >= 0x20 && c != 0x7F && c != SLASH && c != BACKSLASH && c != COLON
  }

  /** Not a path: no separators, no control characters, and neither "." nor "..". */
  predicate IsPlainName(name: Octets) {
    name != [] && name != [DOT] && name != [DOT, DOT] && forall i :: 0 <= i < |name| ==> IsPlain(name[i])
  }

  predicate IsFile(file: File) {
    IsPlainName(file.name) && |file.name| <= MAX_NAME_LENGTH
  }

  predicate IsClip(clip: FileClip) {
    && 0 < |clip.id| <= MAX_ID_LENGTH
    && 0 < |clip.files| <= MAX_FILES
    && (forall i :: 0 <= i < |clip.files| ==> IsFile(clip.files[i]))
  }

  // ---------------------------------------------------------------------------
  // The encoding
  // ---------------------------------------------------------------------------

  function Text(text: Octets): Octets {
    Word(|text|) + text
  }

  function FileData(file: File): Octets {
    Text(file.name) + DoubleWord(file.size) + DoubleWord(file.modified)
  }

  function FilesData(files: seq<File>): Octets {
    if files == [] then [] else FileData(files[0]) + FilesData(files[1..])
  }

  function Encode(clip: FileClip): Octets {
    MAGIC + Text(clip.id) + Word(|clip.files|) + FilesData(clip.files)
  }

  // ---------------------------------------------------------------------------
  // Reading
  // ---------------------------------------------------------------------------

  function TakeText(data: Octets, max: nat): Option<(Octets, Octets)> {
    if |data| < 4 then None
    else
      var length := WordAt(data);
      if length > max || |data| - 4 < length then None else Some((data[4..4 + length], data[4 + length..]))
  }

  function TakeFile(data: Octets): Option<(File, Octets)> {
    match TakeText(data, MAX_NAME_LENGTH)
    case None => None
    case Some((name, rest)) =>
      if !IsPlainName(name) || |rest| < 16 then None
      else Some((File(name, DoubleWordAt(rest), DoubleWordAt(rest[8..])), rest[16..]))
  }

  function TakeFiles(data: Octets, count: nat): Option<(seq<File>, Octets)> {
    if count == 0 then Some(([], data))
    else
      match TakeFile(data)
      case None => None
      case Some((file, rest)) =>
        match TakeFiles(rest, count - 1)
        case None => None
        case Some((files, rest')) => Some(([file] + files, rest'))
  }

  function Decode(data: Octets): Option<FileClip> {
    if !(MAGIC <= data) then None
    else
      match TakeText(data[4..], MAX_ID_LENGTH)
      case None => None
      case Some((id, rest)) =>
        if id == [] || |rest| < 4 || WordAt(rest) == 0 || WordAt(rest) > MAX_FILES then None
        else
          match TakeFiles(rest[4..], WordAt(rest))
          case None => None
          case Some((files, rest')) => if rest' == [] then Some(FileClip(id, files)) else None
  }

  // ---------------------------------------------------------------------------
  // Reading undoes writing, and writing undoes reading
  // ---------------------------------------------------------------------------

  lemma TextTaken(data: Octets, max: nat, text: Octets, rest: Octets)
    requires max < WORD
    ensures TakeText(data, max) == Some((text, rest)) <==> |text| <= max && data == Text(text) + rest
  {
    hide Word, WordAt;
    if |text| <= max && data == Text(text) + rest {
      assert data == Word(|text|) + (text + rest);
      WordAtOfWord(|text|, text + rest);
      assert data[4..4 + |text|] == text && data[4 + |text|..] == rest;
    }
    if TakeText(data, max) == Some((text, rest)) {
      WordOfWordAt(data);
      assert data[4..] == text + rest;
    }
  }

  lemma FileTaken(data: Octets, file: File, rest: Octets)
    ensures TakeFile(data) == Some((file, rest)) <==> IsFile(file) && data == FileData(file) + rest
  {
    hide IsPlainName, TakeText, Text, DoubleWord, DoubleWordAt;
    var after := DoubleWord(file.size) + DoubleWord(file.modified) + rest;
    if IsFile(file) && data == FileData(file) + rest {
      assert data == Text(file.name) + after;
      TextTaken(data, MAX_NAME_LENGTH, file.name, after);
      NumbersTaken(after, file.size, file.modified, rest);
    }
    if TakeFile(data) == Some((file, rest)) {
      var after' := TakeText(data, MAX_NAME_LENGTH).value.1;
      TextTaken(data, MAX_NAME_LENGTH, file.name, after');
      NumbersTaken(after', file.size, file.modified, rest);
      assert data == FileData(file) + rest;
    }
  }

  lemma NumbersTaken(data: Octets, size: Uint64, modified: Uint64, rest: Octets)
    ensures |data| >= 16 && DoubleWordAt(data) == size && DoubleWordAt(data[8..]) == modified && data[16..] == rest
            <==> data == DoubleWord(size) + DoubleWord(modified) + rest
  {
    hide Word, WordAt, DoubleWordAt;
    if data == DoubleWord(size) + DoubleWord(modified) + rest {
      assert data == DoubleWord(size) + (DoubleWord(modified) + rest);
      DoubleWordAtOfDoubleWord(size, DoubleWord(modified) + rest);
      assert data[8..] == DoubleWord(modified) + rest && data[16..] == rest;
      DoubleWordAtOfDoubleWord(modified, rest);
    }
    if |data| >= 16 && DoubleWordAt(data) == size && DoubleWordAt(data[8..]) == modified && data[16..] == rest {
      DoubleWordOfDoubleWordAt(data);
      DoubleWordOfDoubleWordAt(data[8..]);
      assert data[8..][8..] == data[16..];
    }
  }

  lemma {:induction false} FilesTaken(data: Octets, count: nat, files: seq<File>, rest: Octets)
    ensures TakeFiles(data, count) == Some((files, rest))
            <==> |files| == count && (forall i :: 0 <= i < |files| ==> IsFile(files[i]))
                 && data == FilesData(files) + rest
    decreases count
  {
    hide TakeFile, FileData, IsFile;
    if count == 0 {
      if files == [] {
        assert FilesData(files) + rest == rest;
      }
    } else if files != [] {
      var more := files[1..];
      assert files == [files[0]] + more;
      assert forall i :: 0 < i < |files| ==> files[i] == more[i - 1];
      var middle := FilesData(more) + rest;
      FileTaken(data, files[0], middle);
      FilesTaken(middle, count - 1, more, rest);
      assert FileData(files[0]) + middle == FilesData(files) + rest;
      if TakeFiles(data, count) == Some((files, rest)) {
        var rest' := TakeFile(data).value.1;
        FileTaken(data, files[0], rest');
        var files' := TakeFiles(rest', count - 1).value.0;
        FilesTaken(rest', count - 1, files', rest);
        assert files == [files[0]] + files' && more == files';
        assert data == FileData(files[0]) + middle;
      }
    }
  }

  /** Octets are accepted if and only if they are the encoding of a valid clip, and then that clip is read. */
  lemma DecodesExactly(data: Octets, clip: FileClip)
    ensures Decode(data) == Some(clip) <==> IsClip(clip) && data == Encode(clip)
  {
    hide TakeText, TakeFiles, FilesData, Text, Word, WordAt, IsFile;
    if IsClip(clip) && data == Encode(clip) {
      var files := FilesData(clip.files);
      var counted := Word(|clip.files|) + files;
      assert data == MAGIC + (Text(clip.id) + counted);
      assert data[4..] == Text(clip.id) + counted;
      TextTaken(data[4..], MAX_ID_LENGTH, clip.id, counted);
      WordAtOfWord(|clip.files|, files);
      assert counted[4..] == files + [];
      FilesTaken(counted[4..], |clip.files|, clip.files, []);
    }
    if Decode(data) == Some(clip) {
      var rest := TakeText(data[4..], MAX_ID_LENGTH).value.1;
      TextTaken(data[4..], MAX_ID_LENGTH, clip.id, rest);
      WordOfWordAt(rest);
      FilesTaken(rest[4..], WordAt(rest), clip.files, []);
      assert data == MAGIC + data[4..];
      assert data == Encode(clip);
    }
  }

  /** A valid clip survives being written and read. */
  lemma DecodeOfEncode(clip: FileClip)
    requires IsClip(clip)
    ensures Decode(Encode(clip)) == Some(clip)
  {
    DecodesExactly(Encode(clip), clip);
  }

  /** What a clip is limited to, in numbers; no name has a separator of paths or is a relative one. */
  lemma ClipsAreLimited(clip: FileClip)
    ensures IsClip(clip)
            <==> 1 <= |clip.id| <= 64 && 1 <= |clip.files| <= 4096
                 && forall i :: 0 <= i < |clip.files| ==>
                      var name := clip.files[i].name;
                      && 1 <= |name| <= 1024 && name != [0x2E] && name != [0x2E, 0x2E]
                      && forall c :: c in name ==> 0x20 <= c && c !in {0x2F, 0x3A, 0x5C, 0x7F}
  {
    forall name: Octets
      ensures (forall i :: 0 <= i < |name| ==> IsPlain(name[i]))
              <==> forall c :: c in name ==> 0x20 <= c && c !in {0x2F, 0x3A, 0x5C, 0x7F}
    {
      assert forall i :: 0 <= i < |name| ==> name[i] in name;
    }
  }

  /** Octet by octet: the letters LDF1, the id, the number of files, and a name, a size and a time. */
  lemma OneFileIsWritten(id: Octet, name: Octet, size: Octet, modified: Octet)
    ensures Encode(FileClip([id], [File([name], size, modified)]))
            == [0x4C, 0x44, 0x46, 0x31] + [0, 0, 0, 1, id] + [0, 0, 0, 1] + [0, 0, 0, 1, name]
               + [0, 0, 0, 0, 0, 0, 0, size] + [0, 0, 0, 0, 0, 0, 0, modified]
  {
    hide Word, DoubleWord, FilesData;
    var file := File([name], size, modified);
    SmallWord(1);
    SmallDoubleWord(size);
    SmallDoubleWord(modified);
    OneFile(file);
  }

  lemma OneFile(file: File)
    ensures FilesData([file]) == FileData(file)
  {
    assert FilesData([file]) == FileData(file) + FilesData([]);
  }

  // ---------------------------------------------------------------------------
  // The operations
  // ---------------------------------------------------------------------------

  method Marshall(clip: FileClip) returns (data: Octets)
    ensures data == Encode(clip)
  {
    hide Word, DoubleWord;
    data := MAGIC;
    data := data + Text(clip.id);
    data := data + Word(|clip.files|);
    ghost var head := data;
    for i := 0 to |clip.files|
      invariant data + FilesData(clip.files[i..]) == head + FilesData(clip.files)
    {
      var file := clip.files[i];
      assert clip.files[i..][0] == file && clip.files[i..][1..] == clip.files[i + 1..];
      assert data + (FileData(file) + FilesData(clip.files[i + 1..]))
             == data + FileData(file) + FilesData(clip.files[i + 1..]);
      ghost var before := data;
      data := data + Text(file.name);
      data := data + DoubleWord(file.size);
      data := data + DoubleWord(file.modified);
      assert data == before + FileData(file);
    }
  }

  method CheckName(name: Octets) returns (plain: bool)
    ensures plain == IsPlainName(name)
  {
    if name == [] || name == [DOT] || name == [DOT, DOT] {
      return false;
    }
    for i := 0 to |name|
      invariant forall k :: 0 <= k < i ==> IsPlain(name[k])
    {
      if !IsPlain(name[i]) {
        return false;
      }
    }
    return true;
  }

  /** Reads the encoding from a position that only moves forward. */
  class Reader {
    const data: Octets
    var pos: nat

    ghost predicate Valid()
      reads this
    {
      pos <= |data|
    }

    ghost function Rest(): Octets
      reads this
      requires Valid()
    {
      data[pos..]
    }

    constructor (data: Octets, start: nat)
      requires start <= |data|
      ensures Valid() && this.data == data && pos == start
    {
      this.data := data;
      pos := start;
    }

    method ReadUint32() returns (ok: bool, value: Uint32)
      requires Valid()
      modifies this`pos
      ensures Valid() && old(pos) <= pos
      ensures ok == (|old(Rest())| >= 4)
      ensures ok ==> value == WordAt(old(Rest())) && Rest() == old(Rest())[4..]
      ensures !ok ==> pos == old(pos)
    {
      value := 0;
      if |data| - pos < 4 {
        return false, value;
      }
      ghost var rest := Rest();
      var sum: int := 0;
      for i := 0 to 4
        invariant pos == old(pos) + i
        invariant i == 0 ==> sum == 0
        invariant i == 1 ==> sum == rest[0]
        invariant i == 2 ==> sum == rest[0] * 256 + rest[1] as int
        invariant i == 3 ==> sum == (rest[0] * 256 + rest[1] as int) * 256 + rest[2] as int
        invariant i == 4 ==> sum == WordAt(rest)
      {
        sum := sum * 256 + data[pos];
        pos := pos + 1;
      }
      return true, sum;
    }

    method ReadUint64() returns (ok: bool, value: Uint64)
      requires Valid()
      modifies this`pos
      ensures Valid() && old(pos) <= pos
      ensures ok == (|old(Rest())| >= 8)
      ensures ok ==> value == DoubleWordAt(old(Rest())) && Rest() == old(Rest())[8..]
    {
      hide WordAt;
      value := 0;
      var high, low: Uint32 := 0, 0;
      ok, high := ReadUint32();
      if !ok {
        return;
      }
      ok, low := ReadUint32();
      if ok {
        value := high * WORD + low;
      }
    }

    method ReadString(max: nat) returns (ok: bool, text: Octets)
      requires Valid()
      modifies this`pos
      ensures Valid() && old(pos) <= pos
      ensures if ok then TakeText(old(Rest()), max) == Some((text, Rest())) else TakeText(old(Rest()), max) == None
    {
      hide WordAt;
      text := [];
      var length: Uint32 := 0;
      ghost var rest := Rest();
      ok, length := ReadUint32();
      if !ok || length > max || |data| - pos < length {
        return false, text;
      }
      text := data[pos..pos + length];
      assert text == rest[4..4 + length] && data[pos + length..] == rest[4 + length..];
      pos := pos + length;
    }

    method AtEnd() returns (atEnd: bool)
      requires Valid()
      ensures atEnd == (Rest() == [])
    {
      atEnd := pos == |data|;
    }
  }

  /** Reads one file after its place in the list has been made. */
  method ReadFile(reader: Reader) returns (ok: bool, file: File)
    requires reader.Valid()
    modifies reader`pos
    ensures reader.Valid()
    ensures TakeFile(old(reader.Rest())) == if ok then Some((file, reader.Rest())) else None
  {
    hide TakeText, IsPlainName, DoubleWordAt;
    file := File([], 0, 0);
    var name: Octets := [];
    var size, modified: Uint64 := 0, 0;
    ok, name := reader.ReadString(MAX_NAME_LENGTH);
    if !ok {
      return;
    }
    file := File(name, 0, 0);
    ok := CheckName(name);
    if !ok {
      return;
    }
    ok, size := reader.ReadUint64();
    if !ok {
      return;
    }
    file := File(name, size, 0);
    ok, modified := reader.ReadUint64();
    if ok {
      file := File(name, size, modified);
    }
  }

  method ReadFiles(reader: Reader, count: nat) returns (ok: bool, files: seq<File>)
    requires reader.Valid()
    modifies reader`pos
    ensures reader.Valid()
    ensures TakeFiles(old(reader.Rest()), count) == if ok then Some((files, reader.Rest())) else None
  {
    hide TakeFile;
    ghost var start := reader.Rest();
    files := [];
    NothingBefore(TakeFiles(start, count));
    while |files| < count
      invariant reader.Valid() && |files| <= count
      invariant TakeFiles(start, count) == WithBefore(files, TakeFiles(reader.Rest(), count - |files|))
    {
      var file: File := File([], 0, 0);
      ghost var rest := reader.Rest();
      ok, file := ReadFile(reader);
      if !ok {
        return;
      }
      MoreBefore(files, file, TakeFiles(reader.Rest(), count - |files| - 1));
      files := files + [file];
    }
    assert files + [] == files;
    ok := true;
  }

  method Unmarshall(data: Octets) returns (ok: bool, clip: FileClip)
    ensures Decode(data) == if ok then Some(clip) else None
  {
    hide TakeText, TakeFiles, WordAt;
    clip := FileClip([], []);
    if !(MAGIC <= data) {
      return false, clip;
    }
    var reader := new Reader(data, |MAGIC|);
    var id: Octets := [];
    var count: Uint32 := 0;
    var files: seq<File> := [];
    ok, id := reader.ReadString(MAX_ID_LENGTH);
    if !ok {
      return;
    }
    clip := FileClip(id, []);
    if id == [] {
      return false, clip;
    }
    ok, count := reader.ReadUint32();
    if !ok || count == 0 || count > MAX_FILES {
      return false, clip;
    }
    ok, files := ReadFiles(reader, count);
    if !ok {
      return;
    }
    clip := FileClip(id, files);
    ok := reader.AtEnd();
  }

  ghost function WithBefore(files: seq<File>, taken: Option<(seq<File>, Octets)>): Option<(seq<File>, Octets)> {
    match taken
    case None => None
    case Some((more, rest)) => Some((files + more, rest))
  }

  lemma NothingBefore(taken: Option<(seq<File>, Octets)>)
    ensures WithBefore([], taken) == taken
  {
    if taken.Some? {
      assert [] + taken.value.0 == taken.value.0;
    }
  }

  lemma MoreBefore(files: seq<File>, file: File, taken: Option<(seq<File>, Octets)>)
    ensures WithBefore(files, WithBefore([file], taken)) == WithBefore(files + [file], taken)
  {
    if taken.Some? {
      assert files + ([file] + taken.value.0) == files + [file] + taken.value.0;
    }
  }
}
