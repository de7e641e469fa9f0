/** A reader of ZIP archives after the PKWARE APPNOTE, and the round trip through it. */
module ZipReader {
  import opened Outcomes
  import opened Crc
  import opened ZipFields
  import opened Zip

  // ----- a reader

  datatype Record = Record(name: Bytes, crc: nat, size: nat, offset: nat, next: nat)

  /** The end record is searched from the back; its comment must reach the end of the file. */
  function FindEnd(b: Bytes, from: int): (r: Option<nat>)
    requires from + 22 <= |b|
    ensures r.Some? ==> r.value + 22 <= |b|
    decreases from
  {
    if from < 0 then None
    else if Signed(b, from, 5, 6) && from + 22 + Get2(b, from + 20) == |b| then Some(from)
    else FindEnd(b, from - 1)
  }

  /** One central header: stored, not encrypted, on this disk. */
  function ReadRecord(b: Bytes, at: nat): (r: Option<Record>) {
    if at + 46 > |b| || !Signed(b, at, 1, 2) then None
    else
      var nameSize, next := Get2(b, at + 28), at + 46 + Get2(b, at + 28) + Get2(b, at + 30) + Get2(b, at + 32);
      if next > |b| || Get2(b, at + 8) != 0 || Get2(b, at + 10) != 0 || Get4(b, at + 20) != Get4(b, at + 24) then None
      else Some(Record(b[at + 46..at + 46 + nameSize], Get4(b, at + 16), Get4(b, at + 24), Get4(b, at + 42), next))
  }

  function Take(b: Bytes, at: nat, size: nat): (r: Option<Bytes>) {
    if at + size <= |b| then Some(b[at..at + size]) else None
  }

  /** The member that a central header points at, if its local header agrees. */
  function ReadMember(b: Bytes, e: Record): (r: Option<Member>) {
    if !LocalHas(b, e.offset, e.crc, e.size) then None
    else
      var nameSize, extra := Get2(b, e.offset + 26), Get2(b, e.offset + 28);
      var name, data := Take(b, e.offset + 30, nameSize), Take(b, e.offset + 30 + nameSize + extra, e.size);
      if name != Some(e.name) || data.None? then None else Some(Member(e.name, data.value, e.crc))
  }

  /** The member behind the central header at `at`, and where the next header starts. */
  function ReadOne(b: Bytes, at: nat): (r: Option<(Member, nat)>) {
    var e := ReadRecord(b, at);
    if e.None? then None
    else
      var m := ReadMember(b, e.value);
      if m.None? then None else Some((m.value, e.value.next))
  }

  /** `count` items read one behind the other from `at` on; the last one must end exactly at `end`. */
  function Collect<T>(read: nat -> Option<(T, nat)>, at: nat, count: nat, end: nat): (r: Option<seq<T>>)
    decreases count
  {
    if count == 0 then (if at == end then Some([]) else None)
    else
      var one := read(at);
      if one.None? then None
      else
        var rest := Collect(read, one.value.1, count - 1, end);
        if rest.None? then None else Some([one.value.0] + rest.value)
  }

  function Reader(b: Bytes): nat -> Option<(Member, nat)> {
    (at: nat) => ReadOne(b, at)
  }

  /** The members of the archive whose end record is at `p`. */
  function ReadAll(b: Bytes, p: nat): (r: Option<seq<Member>>)
    requires p + 22 <= |b|
  {
    var count, size, start := Get2(b, p + 10), Get4(b, p + 12), Get4(b, p + 16);
    if Get2(b, p + 4) != 0 || Get2(b, p + 6) != 0 || Get2(b, p + 8) != count || start + size != p then None
    else Collect(Reader(b), start, count, p)
  }

  function ReadMembers(b: Bytes): (r: Option<seq<Member>>) {
    if |b| < 22 then None
    else
      var end := FindEnd(b, |b| - 22);
      if end.None? then None else ReadAll(b, end.value)
  }

  /** The contents, if every checksum holds. */
  function Unseal(members: seq<Member>): (r: Option<seq<File>>) {
    if members == [] then Some([])
    else
      var m, init := members[|members| - 1], Unseal(members[..|members| - 1]);
      if init.None? || Checksum(m.data) != m.crc then None else Some(init.value + [File(m.name, m.data)])
  }

  function Read(b: Bytes): (r: Option<seq<File>>) {
    var members := ReadMembers(b);
    if members.None? then None else Unseal(members.value)
  }

  // ----- round trip

  predicate At(b: Bytes, p: nat, x: Bytes) {
    p + |x| <= |b| && forall k | 0 <= k < |x| :: b[p + k] == x[k]
  }

  lemma AtParts(b: Bytes, p: nat, x: Bytes, y: Bytes)
    requires At(b, p, x + y)
    ensures At(b, p, x) && At(b, p + |x|, y)
  {
    assert forall k | 0 <= k < |x| :: (x + y)[k] == x[k];
    forall k | 0 <= k < |y| ensures b[p + |x| + k] == y[k] {
      assert (x + y)[|x| + k] == y[k];
    }
  }

  lemma AtOfSlice(b: Bytes, p: nat, x: Bytes)
    requires At(b, p, x)
    ensures b[p..p + |x|] == x && Take(b, p, |x|) == Some(x)
  {
  }

  lemma AtLarger(a: Bytes, b: Bytes, c: Bytes, p: nat, x: Bytes)
    requires At(b, p, x)
    ensures At(a + b + c, |a| + p, x)
  {
    forall k | 0 <= k < |x| ensures (a + b + c)[|a| + p + k] == x[k] {
      assert (a + b + c)[|a| + (p + k)] == b[p + k];
    }
  }

  lemma AtSelf(x: Bytes)
    ensures At(x, 0, x)
  {
  }

  lemma MoveLocal(b: Bytes, p: nat, h: Bytes, crc: nat, size: nat, nameSize: nat)
    requires At(b, p, h) && |h| == 30 && LocalAt(h, 0, crc, size, nameSize)
    ensures LocalAt(b, p, crc, size, nameSize)
  {
  }

  lemma MoveCentral(b: Bytes, p: nat, h: Bytes, crc: nat, size: nat, nameSize: nat, offset: nat)
    requires At(b, p, h) && |h| == 46 && CentralAt(h, 0, crc, size, nameSize, offset)
    ensures CentralAt(b, p, crc, size, nameSize, offset)
  {
  }

  lemma MoveEnd(b: Bytes, p: nat, h: Bytes, count: nat, size: nat, offset: nat)
    requires At(b, p, h) && |h| == 22 && EndAt(h, 0, count, size, offset)
    ensures EndAt(b, p, count, size, offset)
  {
  }

  lemma LocalIsAt(b: Bytes, p: nat, m: Member)
    requires At(b, p, Local(m)) && m.crc < WORDS && |m.name| < SHORTS && |m.data| < WORDS
    ensures LocalAt(b, p, m.crc, |m.data|, |m.name|)
    ensures At(b, p + 30, m.name) && At(b, p + 30 + |m.name|, m.data)
  {
    var crc := m.crc;
    var h := LocalHeader(crc, |m.data|, |m.name|);
    LocalFields(crc, |m.data|, |m.name|);
    AtParts(b, p, h + m.name, m.data);
    AtParts(b, p, h, m.name);
    MoveLocal(b, p, h, crc, |m.data|, |m.name|);
  }

  lemma EntryIsAt(b: Bytes, p: nat, m: Member, offset: nat)
    requires At(b, p, Entry(m, offset)) && m.crc < WORDS && |m.name| < SHORTS && |m.data| < WORDS && offset < WORDS
    ensures CentralAt(b, p, m.crc, |m.data|, |m.name|, offset)
    ensures At(b, p + 46, m.name)
  {
    var crc := m.crc;
    var h := CentralHeader(crc, |m.data|, |m.name|, offset);
    CentralFields(crc, |m.data|, |m.name|, offset);
    AtParts(b, p, h, m.name);
    MoveCentral(b, p, h, crc, |m.data|, |m.name|, offset);
  }

  lemma ReadsBackRecord(b: Bytes, at: nat, name: Bytes, crc: nat, size: nat, offset: nat, next: nat)
    requires CentralAt(b, at, crc, size, |name|, offset) && At(b, at + 46, name) && next == at + 46 + |name|
    ensures ReadRecord(b, at) == Some(Record(name, crc, size, offset, next))
  {
    AtOfSlice(b, at + 46, name);
  }

  lemma MemberFromParts(b: Bytes, at: nat, name: Bytes, data: Bytes, crc: nat, next: nat)
    requires LocalAt(b, at, crc, |data|, |name|)
    requires Take(b, at + 30, |name|) == Some(name) && Take(b, at + 30 + |name|, |data|) == Some(data)
    ensures ReadMember(b, Record(name, crc, |data|, at, next)) == Some(Member(name, data, crc))
  {
    var e := Record(name, crc, |data|, at, next);
    assert LocalHas(b, e.offset, e.crc, e.size);
    var nameSize, extra := Get2(b, e.offset + 26), Get2(b, e.offset + 28);
    assert nameSize == |name| && extra == 0;
    assert Take(b, e.offset + 30 + nameSize + extra, e.size) == Some(data);
  }

  lemma ReadsBackMember(b: Bytes, at: nat, name: Bytes, data: Bytes, crc: nat, next: nat)
    requires LocalAt(b, at, crc, |data|, |name|)
    requires At(b, at + 30, name) && At(b, at + 30 + |name|, data)
    ensures ReadMember(b, Record(name, crc, |data|, at, next)) == Some(Member(name, data, crc))
  {
    AtOfSlice(b, at + 30, name);
    AtOfSlice(b, at + 30 + |name|, data);
    MemberFromParts(b, at, name, data, crc, next);
  }

  /** The whole member `m`, header, name and contents, starts at `p`. */
  predicate IsMember(b: Bytes, p: nat, m: Member) {
    && LocalAt(b, p, m.crc, |m.data|, |m.name|)
    && At(b, p + 30, m.name) && At(b, p + 30 + |m.name|, m.data)
  }

  lemma OneFromParts(b: Bytes, at: nat, e: Record, m: Member)
    requires ReadRecord(b, at) == Some(e) && ReadMember(b, e) == Some(m)
    ensures Reader(b)(at) == Some((m, e.next))
  {
  }

  lemma ReadsBackOne(b: Bytes, m: Member, offset: nat, entry: nat, next: nat)
    requires At(b, offset, Local(m)) && At(b, entry, Entry(m, offset))
    requires m.crc < WORDS && |m.name| < SHORTS && |m.data| < WORDS && offset < WORDS && next == entry + 46 + |m.name|
    ensures Reader(b)(entry) == Some((m, next))
    ensures entry + 46 <= |b| && Get4(b, entry + 42) == offset && IsMember(b, offset, m)
  {
    var e := Record(m.name, m.crc, |m.data|, offset, next);
    EntryIsAt(b, entry, m, offset);
    LocalIsAt(b, offset, m);
    ReadsBackRecord(b, entry, m.name, e.crc, e.size, offset, next);
    ReadsBackMember(b, offset, m.name, m.data, e.crc, next);
    assert Member(m.name, m.data, m.crc) == m;
    OneFromParts(b, entry, e, m);
  }

  /** Items at known positions are collected. */
  lemma {:induction false} Collected<T>(read: nat -> Option<(T, nat)>, items: seq<T>, at: seq<nat>, i: nat, count: nat)
    requires |at| == |items| + 1 && i + count == |items|
    requires forall k {:trigger items[k]} | 0 <= k < |items| :: read(at[k]) == Some((items[k], at[k + 1]))
    ensures Collect(read, at[i], count, at[|items|]) == Some(items[i..])
    decreases count
  {
    if count > 0 {
      Collected(read, items, at, i + 1, count - 1);
      assert read(at[i]) == Some((items[i], at[i + 1]));
      assert [items[i]] + items[i + 1..] == items[i..];
    }
  }

  lemma EndIsFound(b: Bytes, end: nat, count: nat, size: nat, offset: nat)
    requires EndAt(b, end, count, size, offset) && |b| == end + 22
    ensures FindEnd(b, end) == Some(end)
  {
  }

  lemma AllAreRead(b: Bytes, members: seq<Member>, end: nat, count: nat, size: nat, offset: nat)
    requires EndAt(b, end, count, size, offset) && offset + size == end
    requires Collect(Reader(b), offset, count, end) == Some(members)
    ensures ReadAll(b, end) == Some(members)
  {
  }

  lemma FromPieces(b: Bytes, members: seq<Member>, end: nat, from: int)
    requires |b| == end + 22 && from == |b| - 22 && FindEnd(b, from) == Some(end) && ReadAll(b, end) == Some(members)
    ensures ReadMembers(b) == Some(members)
  {
    var found := FindEnd(b, |b| - 22);
    assert found == Some(end);
  }

  lemma ReadsFromEnd(b: Bytes, members: seq<Member>, end: nat, count: nat, size: nat, offset: nat)
    requires EndAt(b, end, count, size, offset) && |b| == end + 22 && offset + size == end
    requires Collect(Reader(b), offset, count, end) == Some(members)
    ensures ReadMembers(b) == Some(members)
  {
    EndIsFound(b, end, count, size, offset);
    AllAreRead(b, members, end, count, size, offset);
    FromPieces(b, members, end, end);
  }

  lemma {:induction false} PartIsAt(parts: seq<Bytes>, i: nat)
    requires i < |parts|
    ensures At(Concat(parts), |Concat(parts[..i])|, parts[i])
    decreases |parts|
  {
    var init, last := parts[..|parts| - 1], parts[|parts| - 1];
    if i < |init| {
      assert init[..i] == parts[..i];
      PartIsAt(init, i);
      AtLarger([], Concat(init), last, |Concat(parts[..i])|, parts[i]);
      assert [] + Concat(init) + last == Concat(parts);
    } else {
      AtSelf(last);
      AtLarger(Concat(init), last, [], 0, last);
      assert Concat(init) + last + [] == Concat(parts);
    }
  }

  lemma PartsAreAt(b: Bytes, locals: seq<Bytes>, entries: seq<Bytes>, end: Bytes, i: nat, offset: nat, entry: nat)
    requires b == Concat(locals) + Concat(entries) + end && i < |locals| == |entries|
    requires offset == |Concat(locals[..i])| && entry == |Concat(locals)| + |Concat(entries[..i])|
    ensures At(b, offset, locals[i]) && At(b, entry, entries[i])
  {
    var l, d := Concat(locals), Concat(entries);
    PartIsAt(locals, i);
    PartIsAt(entries, i);
    AtLarger([], l, d + end, offset, locals[i]);
    assert [] + l + (d + end) == b;
    AtLarger(l, d, end, |Concat(entries[..i])|, entries[i]);
  }

  lemma WithoutLast(s: seq<Bytes>, init: seq<Bytes>, last: Bytes)
    requires |init| < |s| && s[..|init| + 1] == init + [last]
    ensures s[..|init|] == init && s[|init|] == last
  {
    assert s[..|init|] == s[..|init| + 1][..|init|];
    assert s[|init|] == s[..|init| + 1][|init|];
  }

  lemma {:induction false} LocalsOfPrefix(members: seq<Member>, i: nat)
    requires i <= |members|
    ensures Locals(members)[..i] == Locals(members[..i])
    decreases |members| - i
  {
    if i < |members| {
      LocalsOfPrefix(members, i + 1);
      PushParts(members, i);
      WithoutLast(Locals(members), Locals(members[..i]), Local(members[i]));
    } else {
      assert members[..i] == members;
    }
  }

  lemma {:induction false} EntriesOfPrefix(members: seq<Member>, i: nat)
    requires i <= |members|
    ensures Entries(members)[..i] == Entries(members[..i])
    decreases |members| - i
  {
    if i < |members| {
      EntriesOfPrefix(members, i + 1);
      PushParts(members, i);
      WithoutLast(Entries(members), Entries(members[..i]), Entry(members[i], Offset(members[..i])));
    } else {
      assert members[..i] == members;
    }
  }

  lemma LocalOfMember(members: seq<Member>, i: nat)
    requires i < |members|
    ensures Locals(members)[i] == Local(members[i])
  {
    LocalsOfPrefix(members, i + 1);
    PushParts(members, i);
    WithoutLast(Locals(members), Locals(members[..i]), Local(members[i]));
  }

  lemma EntryOfMember(members: seq<Member>, i: nat)
    requires i < |members|
    ensures Entries(members)[i] == Entry(members[i], Offset(members[..i]))
  {
    EntriesOfPrefix(members, i + 1);
    PushParts(members, i);
    WithoutLast(Entries(members), Entries(members[..i]), Entry(members[i], Offset(members[..i])));
  }

  lemma ArchiveHolds(b: Bytes, members: seq<Member>, i: nat, offset: nat, entry: nat)
    requires b == Archive(members) && i < |members|
    requires offset == Offset(members[..i]) && entry == Offset(members) + DirectorySize(members[..i])
    ensures At(b, offset, Local(members[i])) && At(b, entry, Entry(members[i], offset))
  {
    var locals, entries := Locals(members), Entries(members);
    Sizes(members);
    Sizes(members[..i]);
    LocalsOfPrefix(members, i);
    EntriesOfPrefix(members, i);
    LocalOfMember(members, i);
    EntryOfMember(members, i);
    assert |Concat(locals[..i])| == offset && |Concat(locals)| + |Concat(entries[..i])| == entry;
    PartsAreAt(b, locals, entries, EndRecord(|members|, DirectorySize(members), Offset(members)), i, offset, entry);
  }

  /** The i-th entry of the directory leads to the i-th file. */
  lemma MemberIsFound(b: Bytes, members: seq<Member>, i: nat, offset: nat, entry: nat, next: nat)
    requires b == Archive(members) && Fits(members) && i < |members|
    requires offset == Offset(members[..i])
    requires entry == Offset(members) + DirectorySize(members[..i]) && next == entry + 46 + |members[i].name|
    ensures Reader(b)(entry) == Some((members[i], next))
    ensures entry + 46 <= |b| && Get4(b, entry + 42) == offset && IsMember(b, offset, members[i])
  {
    assert members[i] in members;
    PrefixIsSmaller(members, i);
    ArchiveHolds(b, members, i, offset, entry);
    ReadsBackOne(b, members[i], offset, entry, next);
  }

  lemma EndIsExact(b: Bytes, front: Bytes, count: nat, size: nat, offset: nat)
    requires b == front + EndRecord(count, size, offset)
    requires count < SHORTS && size < WORDS && offset < WORDS
    ensures EndAt(b, |front|, count, size, offset)
  {
    var h := EndRecord(count, size, offset);
    EndFields(count, size, offset);
    AtSelf(h);
    AtLarger(front, h, [], 0, h);
    assert front + h + [] == b;
    MoveEnd(b, |front|, h, count, size, offset);
  }

  lemma ArchiveEnds(b: Bytes, members: seq<Member>, end: nat)
    requires b == Archive(members) && Fits(members) && end == Offset(members) + DirectorySize(members)
    ensures |b| == end + 22 && EndAt(b, end, |members|, DirectorySize(members), Offset(members))
  {
    Sizes(members);
    var front := Concat(Locals(members)) + Concat(Entries(members));
    assert |front| == end;
    EndIsExact(b, front, |members|, DirectorySize(members), Offset(members));
  }

  /** Where each central header starts, and where the directory ends. */
  function Positions(members: seq<Member>): (at: seq<nat>)
    ensures |at| == |members| + 1
    ensures forall i {:trigger at[i]} | 0 <= i <= |members| :: at[i] == Offset(members) + DirectorySize(members[..i])
  {
    seq(|members| + 1, i requires 0 <= i <= |members| => Offset(members) + DirectorySize(members[..i]))
  }

  lemma ArchiveChain(b: Bytes, members: seq<Member>)
    requires b == Archive(members) && Fits(members)
    ensures forall i {:trigger members[i]} | 0 <= i < |members| ::
              Reader(b)(Positions(members)[i]) == Some((members[i], Positions(members)[i + 1]))
  {
    forall i | 0 <= i < |members|
      ensures Reader(b)(Positions(members)[i]) == Some((members[i], Positions(members)[i + 1]))
    {
      var at, next, offset := Positions(members)[i], Positions(members)[i + 1], Offset(members[..i]);
      PushMember(members, i);
      MemberIsFound(b, members, i, offset, at, next);
    }
  }

  lemma ArchiveCollected(b: Bytes, members: seq<Member>, start: nat, end: nat)
    requires b == Archive(members) && Fits(members)
    requires start == Offset(members) && end == Offset(members) + DirectorySize(members)
    ensures Collect(Reader(b), start, |members|, end) == Some(members)
  {
    ArchiveChain(b, members);
    var at := Positions(members);
    assert members[..|members|] == members && DirectorySize(members[..0]) == 0;
    assert at[0] == start && at[|members|] == end;
    Collected(Reader(b), members, at, 0, |members|);
    assert members[0..] == members;
  }

  lemma MembersReadBack(members: seq<Member>, b: Bytes)
    requires Fits(members) && b == Archive(members)
    ensures ReadMembers(b) == Some(members)
  {
    var end, start := Offset(members) + DirectorySize(members), Offset(members);
    ArchiveCollected(b, members, start, end);
    ArchiveEnds(b, members, end);
    ReadsFromEnd(b, members, end, |members|, DirectorySize(members), start);
  }

  lemma {:induction false} UnsealSealed(files: seq<File>)
    ensures Unseal(SealAll(files)) == Some(files)
  {
    if files != [] {
      var init, last := files[..|files| - 1], files[|files| - 1];
      UnsealSealed(init);
      assert SealAll(files)[..|files| - 1] == SealAll(init) && SealAll(files)[|files| - 1] == Seal(last);
      assert files == init + [last];
    }
  }

  lemma FittingFiles(files: seq<File>)
    requires FilesFit(files)
    ensures Fits(SealAll(files))
  {
    var members := SealAll(files);
    forall m | m in members ensures m.crc < WORDS && |m.name| < SHORTS && |m.data| < WORDS {
      var i :| 0 <= i < |members| && members[i] == m;
      SealPrefix(files, i);
      ChecksumIsAWord(files[i].data);
      assert files[i] in files;
    }
  }

  /** A reader recovers exactly the files that were written, in their order. */
  lemma RoundTrip(files: seq<File>, b: Bytes)
    requires FilesFit(files) && b == Archive(SealAll(files))
    ensures Read(b) == Some(files)
  {
    FittingFiles(files);
    MembersReadBack(SealAll(files), b);
    UnsealSealed(files);
  }

  /** Every offset, count and size in the archive is exact. */
  lemma OffsetsAreExact(b: Bytes, members: seq<Member>, i: nat, end: nat, entry: nat)
    requires b == Archive(members) && Fits(members) && i < |members|
    requires end == Offset(members) + DirectorySize(members) && entry == Offset(members) + DirectorySize(members[..i])
    ensures |b| == end + 22 && EndAt(b, end, |members|, DirectorySize(members), Offset(members))
    ensures entry + 46 <= |b| && IsMember(b, Get4(b, entry + 42), members[i])
  {
    ArchiveEnds(b, members, end);
    var offset := Offset(members[..i]);
    MemberIsFound(b, members, i, offset, entry, entry + 46 + |members[i].name|);
    assert Get4(b, entry + 42) == offset;
  }
}
