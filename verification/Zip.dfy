/** The ZIP writer (admin-web/src/zip.js:12-35): one stored member per file, then the directory. */
module Zip {
  import opened Outcomes
  import opened Crc
  import opened ZipFields

  /** One property of the object given to the writer: its key in UTF-8 and its contents. */
  datatype File = File(name: Bytes, data: Bytes)
  datatype Member = Member(name: Bytes, data: Bytes, crc: nat)

  function Seal(f: File): Member {
    Member(f.name, f.data, Checksum(f.data))
  }

  function SealAll(files: seq<File>): (members: seq<Member>)
    ensures |members| == |files|
  {
    if files == [] then [] else SealAll(files[..|files| - 1]) + [Seal(files[|files| - 1])]
  }

  // ----- the archive

  function Local(m: Member): (r: Bytes)
    ensures |r| == 30 + |m.name| + |m.data|
  {
    LocalHeader(m.crc, |m.data|, |m.name|) + m.name + m.data
  }

  function Entry(m: Member, offset: nat): (r: Bytes)
    ensures |r| == 46 + |m.name|
  {
    CentralHeader(m.crc, |m.data|, |m.name|, offset) + m.name
  }

  /** `Buffer.concat` */
  function Concat(parts: seq<Bytes>): Bytes {
    if parts == [] then [] else Concat(parts[..|parts| - 1]) + parts[|parts| - 1]
  }

  function Locals(members: seq<Member>): (r: seq<Bytes>)
    ensures |r| == |members|
  {
    if members == [] then [] else Locals(members[..|members| - 1]) + [Local(members[|members| - 1])]
  }

  /** Where the local header of the next member goes. */
  function Offset(members: seq<Member>): nat {
    if members == [] then 0
    else
      var last := members[|members| - 1];
      Offset(members[..|members| - 1]) + 30 + |last.name| + |last.data|
  }

  function DirectorySize(members: seq<Member>): nat {
    if members == [] then 0 else DirectorySize(members[..|members| - 1]) + 46 + |members[|members| - 1].name|
  }

  function Entries(members: seq<Member>): (r: seq<Bytes>)
    ensures |r| == |members|
  {
    if members == [] then []
    else
      var init := members[..|members| - 1];
      Entries(init) + [Entry(members[|members| - 1], Offset(init))]
  }

  function Archive(members: seq<Member>): Bytes {
    Concat(Locals(members)) + Concat(Entries(members)) + EndRecord(|members|, DirectorySize(members), Offset(members))
  }

  /** Every length and offset fits the field that it is written to. */
  predicate Fits(members: seq<Member>) {
    && |members| < SHORTS && Offset(members) < WORDS && DirectorySize(members) < WORDS
    && forall m | m in members :: m.crc < WORDS && |m.name| < SHORTS && |m.data| < WORDS
  }

  lemma ConcatPush(parts: seq<Bytes>, part: Bytes)
    ensures Concat(parts + [part]) == Concat(parts) + part
  {
    assert (parts + [part])[..|parts|] == parts;
  }

  lemma PushParts(members: seq<Member>, i: nat)
    requires i < |members|
    ensures Locals(members[..i + 1]) == Locals(members[..i]) + [Local(members[i])]
    ensures Entries(members[..i + 1]) == Entries(members[..i]) + [Entry(members[i], Offset(members[..i]))]
  {
    assert members[..i + 1][..i] == members[..i];
  }

  lemma PushMember(members: seq<Member>, i: nat)
    requires i < |members|
    ensures Offset(members[..i + 1]) == Offset(members[..i]) + 30 + |members[i].name| + |members[i].data|
    ensures DirectorySize(members[..i + 1]) == DirectorySize(members[..i]) + 46 + |members[i].name|
  {
    assert members[..i + 1][..i] == members[..i];
  }

  /** The two sizes are those of the two lists of buffers. */
  lemma {:induction false} Sizes(members: seq<Member>)
    ensures |Concat(Locals(members))| == Offset(members) && |Concat(Entries(members))| == DirectorySize(members)
  {
    if members != [] {
      var init, last := members[..|members| - 1], members[|members| - 1];
      Sizes(init);
      ConcatPush(Locals(init), Local(last));
      ConcatPush(Entries(init), Entry(last, Offset(init)));
    }
  }

  lemma {:induction false} PrefixIsSmaller(members: seq<Member>, i: nat)
    requires i <= |members|
    ensures Offset(members[..i]) <= Offset(members)
    ensures DirectorySize(members[..i]) <= DirectorySize(members)
    decreases |members| - i
  {
    if i < |members| {
      PushMember(members, i);
      PrefixIsSmaller(members, i + 1);
    } else {
      assert members[..i] == members;
    }
  }

  // ----- the writer

  /** `Buffer.writeUInt16LE`, which raises for a value that does not fit. */
  method WriteUInt16(buffer: array<byte>, value: nat, at: nat) returns (ok: bool)
    requires at + 2 <= buffer.Length
    modifies buffer
    ensures ok == (value < SHORTS)
    ensures buffer[..] == if ok then Put2(old(buffer[..]), at, value) else old(buffer[..])
  {
    ok := value < 0x1_0000;
    if ok {
      buffer[at] := (value % 256) as byte;
      buffer[at + 1] := (value / 256) as byte;
    }
  }

  lemma LowDigits(value: nat)
    ensures (value / 256) % 256 == (value % 0x1_0000) / 256 && value % 256 == (value % 0x1_0000) % 256
  {
  }

  method WriteUInt32(buffer: array<byte>, value: nat, at: nat) returns (ok: bool)
    requires at + 4 <= buffer.Length
    modifies buffer
    ensures ok == (value < WORDS)
    ensures buffer[..] == if ok then Put4(old(buffer[..]), at, value) else old(buffer[..])
  {
    ok := value < 0x1_0000_0000;
    if ok {
      var high := value / 0x1_0000;
      LowDigits(value);
      buffer[at] := (value % 256) as byte;
      buffer[at + 1] := (value / 256 % 256) as byte;
      buffer[at + 2] := (high % 256) as byte;
      buffer[at + 3] := (high / 256) as byte;
    }
  }

  method WriteLocal(crc: nat, size: nat, nameSize: nat) returns (r: Option<Bytes>)
    requires crc < WORDS
    ensures r == if size < WORDS && nameSize < SHORTS then Some(LocalHeader(crc, size, nameSize)) else None
  {
    var header := new byte[30](_ => 0);
    assert header[..] == Contents(Blank, 30);
    var ok := WriteUInt32(header, LOCAL, 0);
    ok := WriteUInt16(header, 20, 4);
    ghost var w := Short(Long(Blank, 0, LOCAL), 4, 20);
    assert header[..] == Contents(w, 30);
    ok := WriteUInt32(header, crc, 14);
    ok := WriteUInt32(header, size, 18);
    if !ok { return None; }
    assert header[..] == Contents(Long(Long(w, 14, crc), 18, size), 30);
    ok := WriteUInt32(header, size, 22);
    ok := WriteUInt16(header, nameSize, 26);
    if !ok { return None; }
    w := Long(Long(w, 14, crc), 18, size);
    assert header[..] == Contents(Short(Long(w, 22, size), 26, nameSize), 30);
    r := Some(header[..]);
  }

  method WriteEntry(crc: nat, size: nat, nameSize: nat, offset: nat) returns (r: Option<Bytes>)
    requires crc < WORDS && size < WORDS && nameSize < SHORTS
    ensures r == if offset < WORDS then Some(CentralHeader(crc, size, nameSize, offset)) else None
  {
    var entry := new byte[46](_ => 0);
    assert entry[..] == Contents(Blank, 46);
    var ok := WriteUInt32(entry, CENTRAL, 0);
    ok := WriteUInt16(entry, 20, 4);
    ghost var w := Short(Long(Blank, 0, CENTRAL), 4, 20);
    assert entry[..] == Contents(w, 46);
    ok := WriteUInt16(entry, 20, 6);
    ok := WriteUInt32(entry, crc, 16);
    w := Long(Short(w, 6, 20), 16, crc);
    assert entry[..] == Contents(w, 46);
    ok := WriteUInt32(entry, size, 20);
    ok := WriteUInt32(entry, size, 24);
    assert entry[..] == Contents(Long(Long(w, 20, size), 24, size), 46);
    ok := WriteUInt16(entry, nameSize, 28);
    ok := WriteUInt32(entry, offset, 42);
    if !ok { return None; }
    w := Long(Long(w, 20, size), 24, size);
    assert entry[..] == Contents(Long(Short(w, 28, nameSize), 42, offset), 46);
    r := Some(entry[..]);
  }

  method WriteEnd(count: nat, size: nat, offset: nat) returns (r: Option<Bytes>)
    ensures r == if count < SHORTS && size < WORDS && offset < WORDS then Some(EndRecord(count, size, offset)) else None
  {
    var end := new byte[22](_ => 0);
    assert end[..] == Contents(Blank, 22);
    var ok := WriteUInt32(end, END, 0);
    ok := WriteUInt16(end, count, 8);
    if !ok { return None; }
    ghost var w := Short(Long(Blank, 0, END), 8, count);
    assert end[..] == Contents(w, 22);
    ok := WriteUInt16(end, count, 10);
    ok := WriteUInt32(end, size, 12);
    if !ok { return None; }
    assert end[..] == Contents(Long(Short(w, 10, count), 12, size), 22);
    ok := WriteUInt32(end, offset, 16);
    if !ok { return None; }
    r := Some(end[..]);
  }

  /** What one file adds to the two lists of buffers. */
  method WriteFile(table: seq<nat>, f: File, offset: nat) returns (r: Option<(Bytes, Bytes)>)
    requires IsTable(table)
    ensures r == if |f.name| < SHORTS && |f.data| < WORDS && offset < WORDS
                 then Some((Local(Seal(f)), Entry(Seal(f), offset))) else None
  {
    var crc := Crc32(table, f.data);
    ChecksumIsAWord(f.data);
    var header := WriteLocal(crc, |f.data|, |f.name|);
    if header.None? { return None; }
    var entry := WriteEntry(crc, |f.data|, |f.name|, offset);
    if entry.None? { return None; }
    r := Some((header.value + f.name + f.data, entry.value + f.name));
  }

  predicate FileFits(f: File) {
    |f.name| < SHORTS && |f.data| < WORDS
  }

  /** Every length and offset of the archive fits the field that it is written to. */
  predicate FilesFit(files: seq<File>) {
    var members := SealAll(files);
    && |files| < SHORTS && Offset(members) < WORDS && DirectorySize(members) < WORDS
    && forall f | f in files :: FileFits(f)
  }

  lemma {:induction false} SealPrefix(files: seq<File>, i: nat)
    requires i <= |files|
    ensures SealAll(files)[..i] == SealAll(files[..i])
    ensures i < |files| ==> SealAll(files)[i] == Seal(files[i])
    decreases |files|
  {
    if i < |files| {
      var init := files[..|files| - 1];
      SealPrefix(init, i);
      assert init[..i] == files[..i] && SealAll(files)[..i] == SealAll(init)[..i];
    } else {
      assert files[..i] == files;
    }
  }

  /** The variables of the loop. */
  datatype Buffers = Buffers(local: seq<Bytes>, central: seq<Bytes>, offset: nat)

  ghost function Written(members: seq<Member>): Buffers {
    if members == [] then Buffers([], [], 0)
    else OneMore(Written(members[..|members| - 1]), members[|members| - 1])
  }

  ghost function OneMore(before: Buffers, m: Member): Buffers {
    Buffers(before.local + [Local(m)], before.central + [Entry(m, before.offset)], before.offset + |Local(m)|)
  }

  lemma {:induction false} WrittenIs(members: seq<Member>)
    ensures Written(members) == Buffers(Locals(members), Entries(members), Offset(members))
  {
    if members != [] {
      WrittenIs(members[..|members| - 1]);
    }
  }

  lemma WrittenOneMore(members: seq<Member>, i: nat, m: Member)
    requires i < |members| && members[i] == m
    ensures var before := Written(members[..i]);
            Written(members[..i + 1]) == OneMore(before, m) && before.offset <= Offset(members)
  {
    assert members[..i + 1][..i] == members[..i];
    WrittenIs(members[..i]);
    PrefixIsSmaller(members, i);
  }

  /** `Buffer.concat([...local, directory, end])` */
  method Finish(buffers: Buffers, ghost members: seq<Member>) returns (r: Option<Bytes>)
    requires buffers == Written(members)
    ensures r == if |members| < SHORTS && Offset(members) < WORDS && DirectorySize(members) < WORDS
                 then Some(Archive(members)) else None
  {
    WrittenIs(members);
    Sizes(members);
    var directory := Concat(buffers.central);
    var end := WriteEnd(|buffers.local|, |directory|, buffers.offset);
    r := if end.Some? then Some(Concat(buffers.local) + directory + end.value) else None;
  }

  ghost predicate SealedAs(files: seq<File>, members: seq<Member>) {
    |members| == |files| && forall i {:trigger members[i]} | 0 <= i < |files| :: members[i] == Seal(files[i])
  }

  /** One round of the loop. */
  method AddFile(table: seq<nat>, f: File, buffers: Buffers) returns (r: Option<Buffers>)
    requires IsTable(table)
    ensures r == if FileFits(f) && buffers.offset < WORDS then Some(OneMore(buffers, Seal(f))) else None
  {
    var written := WriteFile(table, f, buffers.offset);
    if written.None? { return None; }
    var (header, entry) := written.value;
    r := Some(Buffers(buffers.local + [header], buffers.central + [entry], buffers.offset + |header|));
  }

  /** The loop over the files. */
  method AddAll(table: seq<nat>, files: seq<File>, ghost members: seq<Member>) returns (r: Option<Buffers>)
    requires IsTable(table) && SealedAs(files, members)
    ensures r.Some? ==> r.value == Written(members) && forall f | f in files :: FileFits(f)
    ensures r.None? ==> Offset(members) >= WORDS || exists f | f in files :: !FileFits(f)
  {
    var buffers := Buffers([], [], 0);
    for i := 0 to |files|
      invariant buffers == Written(members[..i])
      invariant forall f | f in files[..i] :: FileFits(f)
    {
      assert files[i] in files;
      WrittenOneMore(members, i, members[i]);
      var added := AddFile(table, files[i], buffers);
      if added.None? { return None; }
      buffers := added.value;
    }
    assert files[..|files|] == files && members[..|files|] == members;
    r := Some(buffers);
  }

  method WriteAll(files: seq<File>, ghost members: seq<Member>) returns (r: Option<Bytes>)
    requires SealedAs(files, members)
    ensures r == if && |members| < SHORTS && Offset(members) < WORDS && DirectorySize(members) < WORDS
                    && forall f | f in files :: FileFits(f)
                 then Some(Archive(members)) else None
  {
    var table := BuildTable();
    var buffers := AddAll(table, files, members);
    if buffers.None? { return None; }
    r := Finish(buffers.value, members);
  }

  lemma SealedAll(files: seq<File>, members: seq<Member>)
    requires members == SealAll(files)
    ensures SealedAs(files, members)
  {
    forall i {:trigger members[i]} | 0 <= i < |files| ensures members[i] == Seal(files[i]) {
      SealPrefix(files, i);
    }
  }

  /** Either the archive of the files or, exactly when some field would overflow, a RangeError. */
  method ZipFiles(files: seq<File>) returns (r: Option<Bytes>)
    ensures r == if FilesFit(files) then Some(Archive(SealAll(files))) else None
  {
    SealedAll(files, SealAll(files));
    r := WriteAll(files, SealAll(files));
  }
}
