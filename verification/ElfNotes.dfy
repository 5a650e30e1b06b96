/** The notes of an ELF file's PT_NOTE segments, and the build id among them. */
module ElfNotes {
  import Text
  import opened Bits
  import opened ElfFile
  import opened ElfStrip

  type Result<+T> = Text.Result<T>

  type Option<+T> = Text.Option<T>

  datatype Note = Note(name: Bytes, kind: nat, desc: Bytes)

  function RoundUp4(n: nat): (r: nat)
    ensures n <= r < n + 4
  {
    (n + 3) / 4 * 4
  }

  const NHDR_SIZE := 12

  function NhdrWidths(): seq<nat> {
    seq(3, _ => 4)
  }

  /** The three header fields: the lengths of name and descriptor, and the type. */
  function Nhdr(f: Format, file: Bytes, pos: nat): (fields: seq<nat>)
    requires pos + NHDR_SIZE <= |file|
    ensures |fields| == 3
  {
    Unpack(NhdrWidths(), file[pos..pos + NHDR_SIZE], f.order)
  }

  /** Where the note at pos ends. */
  function NoteEnd(f: Format, file: Bytes, pos: nat): (end: nat)
    requires pos + NHDR_SIZE <= |file|
    ensures end >= pos + NHDR_SIZE
  {
    var h := Nhdr(f, file, pos);
    pos + NHDR_SIZE + RoundUp4(h[0]) + RoundUp4(h[1])
  }

  function NoteWith(file: Bytes, name: nat, namesz: nat, descsz: nat, kind: nat): Note {
    var desc := name + RoundUp4(namesz);
    Note(Text.Slice(file, name, name + namesz), kind, Text.Slice(file, desc, desc + descsz))
  }

  function NoteAt(f: Format, file: Bytes, pos: nat): Note
    requires pos + NHDR_SIZE <= |file|
  {
    var h := Nhdr(f, file, pos);
    NoteWith(file, pos + NHDR_SIZE, h[0], h[1], h[2])
  }

  /** The notes from pos to end, in order. */
  function NotesFrom(f: Format, file: Bytes, pos: nat, end: nat): Result<seq<Note>>
    decreases end - pos
  {
    if pos >= end then Text.Ok([])
    else if pos + NHDR_SIZE > |file| then Text.Err("unpack_from requires a buffer of more bytes")
    else Text.Onto([NoteAt(f, file, pos)], NotesFrom(f, file, NoteEnd(f, file, pos), end))
  }

  function SegmentNotes(f: Format, file: Bytes, p: Phdr): Result<seq<Note>> {
    if p.kind == PT_NOTE then NotesFrom(f, file, p.offset, p.offset + p.filesz) else Text.Ok([])
  }

  /** The notes of all the PT_NOTE segments, in order. */
  function AllNotes(f: Format, file: Bytes, phdrs: seq<Phdr>): Result<seq<Note>> {
    if phdrs == [] then Text.Ok([])
    else
      var first := SegmentNotes(f, file, phdrs[0]);
      if first.Err? then first else Text.Onto(first.value, AllNotes(f, file, phdrs[1..]))
  }

  method GenSegmentNotes(f: Format, file: Bytes, p: Phdr) returns (r: Result<seq<Note>>)
    requires p.kind == PT_NOTE
    ensures r == SegmentNotes(f, file, p)
  {
    var notes: seq<Note> := [];
    var pos: nat := p.offset;
    var end := p.offset + p.filesz;
    Text.OntoMore([], [], NotesFrom(f, file, pos, end));
    while pos < end
      invariant NotesFrom(f, file, p.offset, end) == Text.Onto(notes, NotesFrom(f, file, pos, end))
      decreases end - pos
    {
      if pos + NHDR_SIZE > |file| { return Text.Err("unpack_from requires a buffer of more bytes"); }
      Text.OntoMore(notes, [NoteAt(f, file, pos)], NotesFrom(f, file, NoteEnd(f, file, pos), end));
      notes := notes + [NoteAt(f, file, pos)];
      pos := NoteEnd(f, file, pos);
    }
    Text.OntoMore(notes, [], Text.Ok([]));
    r := Text.Ok(notes);
  }

  method GenNotes(f: Format, file: Bytes, phdrs: seq<Phdr>) returns (r: Result<seq<Note>>)
    ensures r == AllNotes(f, file, phdrs)
  {
    var notes: seq<Note> := [];
    assert phdrs[0..] == phdrs;
    Text.OntoMore([], [], AllNotes(f, file, phdrs));
    for i := 0 to |phdrs|
      invariant AllNotes(f, file, phdrs) == Text.Onto(notes, AllNotes(f, file, phdrs[i..]))
    {
      assert phdrs[i..][1..] == phdrs[i + 1..];
      var these: Result<seq<Note>> := Text.Ok([]);
      if phdrs[i].kind == PT_NOTE { these := GenSegmentNotes(f, file, phdrs[i]); }
      if these.Err? { return these; }
      Text.OntoMore(notes, these.value, AllNotes(f, file, phdrs[i + 1..]));
      notes := notes + these.value;
    }
    Text.OntoMore(notes, [], Text.Ok([]));
    r := Text.Ok(notes);
  }

  // ---- the round trip

  predicate NoteFits(n: Note) {
    |n.name| < Pow256(4) && |n.desc| < Pow256(4) && n.kind < Pow256(4)
  }

  function NhdrBytes(f: Format, n: Note): (bs: Bytes)
    ensures |bs| == NHDR_SIZE
  {
    Pack(NhdrWidths(), [|n.name|, |n.desc|, n.kind], f.order)
  }

  /** bs holds note n: its header, then name and descriptor, each followed by any padding to four bytes. */
  predicate LaidOut(f: Format, bs: Bytes, n: Note) {
    && |bs| == NHDR_SIZE + RoundUp4(|n.name|) + RoundUp4(|n.desc|)
    && Holds(bs, 0, NhdrBytes(f, n))
    && Holds(bs, NHDR_SIZE, n.name)
    && Holds(bs, NHDR_SIZE + RoundUp4(|n.name|), n.desc)
  }

  /** Every note can be laid out, with every padding of the right length. */
  lemma {:induction false} AnyPaddingWorks(f: Format, n: Note, namePad: Bytes, descPad: Bytes)
    requires |n.name| + |namePad| == RoundUp4(|n.name|)
    requires |n.desc| + |descPad| == RoundUp4(|n.desc|)
    ensures LaidOut(f, NhdrBytes(f, n) + (n.name + namePad) + (n.desc + descPad), n)
  {
  }

  /** A note and the bytes that hold it. */
  datatype Placed = Placed(note: Note, bytes: Bytes)

  function Image(items: seq<Placed>): Bytes {
    if items == [] then [] else items[0].bytes + Image(items[1..])
  }

  function NotesOf(items: seq<Placed>): seq<Note> {
    if items == [] then [] else [items[0].note] + NotesOf(items[1..])
  }

  ghost predicate AllFit(f: Format, items: seq<Placed>) {
    forall p :: p in items ==> NoteFits(p.note) && LaidOut(f, p.bytes, p.note)
  }

  lemma {:induction false} HeaderIsRead(f: Format, file: Bytes, pos: nat, n: Note)
    requires NoteFits(n) && Holds(file, pos, NhdrBytes(f, n))
    ensures Nhdr(f, file, pos) == [|n.name|, |n.desc|, n.kind]
  {
    HoldsSlice(file, pos, NhdrBytes(f, n));
    UnpackUndoesPack(NhdrWidths(), [|n.name|, |n.desc|, n.kind], f.order);
  }

  lemma {:induction false} LaidOutIsRead(f: Format, file: Bytes, pos: nat, bs: Bytes, n: Note)
    requires NoteFits(n) && LaidOut(f, bs, n) && Holds(file, pos, bs)
    ensures NoteAt(f, file, pos) == n && NoteEnd(f, file, pos) == pos + |bs|
  {
    HoldsWithin(file, pos, bs, 0, NhdrBytes(f, n));
    HeaderIsRead(f, file, pos, n);
    BodyIsRead(file, pos, bs, NHDR_SIZE, n);
  }

  lemma {:induction false} BodyIsRead(file: Bytes, pos: nat, bs: Bytes, at: nat, n: Note)
    requires Holds(file, pos, bs) && Holds(bs, at, n.name) && Holds(bs, at + RoundUp4(|n.name|), n.desc)
    ensures NoteWith(file, pos + at, |n.name|, |n.desc|, n.kind) == n
  {
  }

  lemma {:induction false} OneMoreNote(
      f: Format, file: Bytes, pos: nat, next: nat, end: nat, p: Placed, notes: seq<Note>)
    requires NoteFits(p.note) && LaidOut(f, p.bytes, p.note) && Holds(file, pos, p.bytes)
    requires next == pos + |p.bytes| <= end && NotesFrom(f, file, next, end) == Text.Ok(notes)
    ensures NotesFrom(f, file, pos, end) == Text.Ok([p.note] + notes)
  {
    assert NoteAt(f, file, pos) == p.note && NoteEnd(f, file, pos) == next by {
      LaidOutIsRead(f, file, pos, p.bytes, p.note);
    }
  }

  /** Any list of notes, laid out anywhere in a file, is read back. */
  lemma {:induction false} NotesAreRead(f: Format, file: Bytes, pos: nat, end: nat, items: seq<Placed>)
    requires AllFit(f, items) && Holds(file, pos, Image(items)) && end == pos + |Image(items)|
    ensures NotesFrom(f, file, pos, end) == Text.Ok(NotesOf(items))
    decreases |items|
  {
    if items != [] {
      var first, rest := items[0], items[1..];
      var next := pos + |first.bytes|;
      assert NotesFrom(f, file, next, end) == Text.Ok(NotesOf(rest)) by {
        HoldsParts(file, pos, first.bytes, Image(rest));
        NotesAreRead(f, file, next, end, rest);
      }
      HoldsParts(file, pos, first.bytes, Image(rest));
      OneMoreNote(f, file, pos, next, end, first, NotesOf(rest));
    }
  }

  // ---- the build id

  const GNU: Bytes := [71, 78, 85, 0]
  const NT_GNU_BUILD_ID := 3

  function HexDigit(d: nat): char
    requires d < 16
  {
    if d < 10 then ('0' as int + d) as char else ('a' as int + d - 10) as char
  }

  function Hex(bs: Bytes): (s: string)
    ensures |s| == 2 * |bs|
  {
    if bs == [] then [] else [HexDigit(bs[0] / 16), HexDigit(bs[0] % 16)] + Hex(bs[1..])
  }

  lemma HexHead(a: Bytes)
    requires a != []
    ensures Hex(a)[0] == HexDigit(a[0] / 16) && Hex(a)[1] == HexDigit(a[0] % 16)
  {
  }

  lemma SameByte(x: Byte, y: Byte)
    requires HexDigit(x / 16) == HexDigit(y / 16) && HexDigit(x % 16) == HexDigit(y % 16)
    ensures x == y
  {
  }

  /** Build ids are the same text only when they are the same bytes. */
  lemma {:induction false} HexTellsApart(a: Bytes, b: Bytes)
    requires Hex(a) == Hex(b)
    ensures a == b
  {
    if a != [] {
      HexHead(a);
      HexHead(b);
      SameByte(a[0], b[0]);
      assert Hex(a)[2..] == Hex(a[1..]) && Hex(b)[2..] == Hex(b[1..]);
      HexTellsApart(a[1..], b[1..]);
    }
  }

  predicate IsBuildId(n: Note) {
    n.name == GNU && n.kind == NT_GNU_BUILD_ID
  }

  /** The last non-empty build id note gives the build id. */
  ghost predicate IsBuildIdOf(id: Option<string>, notes: seq<Note>) {
    if id.None? then forall k :: 0 <= k < |notes| ==> !IsBuildId(notes[k]) || notes[k].desc == []
    else exists k :: 0 <= k < |notes| && IsBuildId(notes[k]) && notes[k].desc != [] &&
                     id == Text.Some(Hex(notes[k].desc)) &&
                     forall j :: k < j < |notes| ==> !IsBuildId(notes[j]) || notes[j].desc == []
  }

  method GetBuildId(f: Format, file: Bytes, phdrs: seq<Phdr>) returns (r: Result<Option<string>>)
    ensures r.Ok? <==> AllNotes(f, file, phdrs).Ok?
    ensures r.Ok? ==> IsBuildIdOf(r.value, AllNotes(f, file, phdrs).value)
  {
    var all := GenNotes(f, file, phdrs);
    if all.Err? { return Text.Err(all.message); }
    var notes := all.value;
    var id: Option<string> := Text.None;
    for i := 0 to |notes|
      invariant IsBuildIdOf(id, notes[..i])
    {
      var n := notes[i];
      BuildIdStep(id, notes, i);
      if IsBuildId(n) && Hex(n.desc) != "" { id := Text.Some(Hex(n.desc)); }
    }
    assert notes[..|notes|] == notes;
    r := Text.Ok(id);
  }

  lemma {:induction false} BuildIdStep(id: Option<string>, notes: seq<Note>, i: nat)
    requires i < |notes| && IsBuildIdOf(id, notes[..i])
    ensures var n := notes[i];
            IsBuildIdOf(if IsBuildId(n) && n.desc != [] then Text.Some(Hex(n.desc)) else id, notes[..i + 1])
  {
    var n, before, after := notes[i], notes[..i], notes[..i + 1];
    if IsBuildId(n) && n.desc != [] {
      assert after[i] == n;
    } else if id.Some? {
      var k :| 0 <= k < |before| && IsBuildId(before[k]) && before[k].desc != [] &&
               id == Text.Some(Hex(before[k].desc)) &&
               forall j :: k < j < |before| ==> !IsBuildId(before[j]) || before[j].desc == [];
      assert after[k] == before[k];
      forall j | k < j < |after| ensures !IsBuildId(after[j]) || after[j].desc == [] {
        if j < i { assert after[j] == before[j]; }
      }
    }
  }

  // ---- notes and stripping

  /** Every PT_NOTE segment is a list of notes laid out from `start` on and before `end`. */
  ghost predicate NotesLieIn(f: Format, file: Bytes, phdrs: seq<Phdr>, start: nat, end: nat) {
    forall p :: p in phdrs && p.kind == PT_NOTE ==> SegmentIsNotes(f, file, p, start, end)
  }

  ghost predicate SegmentIsNotes(f: Format, file: Bytes, p: Phdr, start: nat, end: nat) {
    && start <= p.offset && p.offset + p.filesz <= end && end <= |file|
    && exists items :: HoldsNotes(f, file, p, items)
  }

  ghost predicate HoldsNotes(f: Format, file: Bytes, p: Phdr, items: seq<Placed>) {
    AllFit(f, items) && |Image(items)| == p.filesz && Holds(file, p.offset, Image(items))
  }

  lemma {:induction false} SegmentIsRead(f: Format, file: Bytes, p: Phdr, items: seq<Placed>)
    requires p.kind == PT_NOTE && HoldsNotes(f, file, p, items)
    ensures SegmentNotes(f, file, p) == Text.Ok(NotesOf(items))
  {
    NotesAreRead(f, file, p.offset, p.offset + p.filesz, items);
  }

  lemma {:induction false} SegmentReadsSame(f: Format, a: Bytes, b: Bytes, p: Phdr, start: nat, end: nat)
    requires p.kind == PT_NOTE && SegmentIsNotes(f, a, p, start, end)
    requires end <= |b| && a[start..end] == b[start..end]
    ensures SegmentNotes(f, a, p) == SegmentNotes(f, b, p) && SegmentNotes(f, a, p).Ok?
  {
    var items :| HoldsNotes(f, a, p, items);
    HoldsSame(a, b, start, end, p.offset, Image(items));
    SegmentIsRead(f, a, p, items);
    SegmentIsRead(f, b, p, items);
  }

  lemma {:induction false} HoldsSame(a: Bytes, b: Bytes, start: nat, end: nat, at: nat, bs: Bytes)
    requires start <= at && at + |bs| <= end <= |a| && end <= |b| && a[start..end] == b[start..end]
    requires Holds(a, at, bs)
    ensures Holds(b, at, bs)
  {
    SameParts(a, b, start, end, at, at + |bs|);
    HoldsSlice(a, at, bs);
    HoldsSlice(b, at, bs);
  }

  lemma {:induction false} NotesReadSame(f: Format, a: Bytes, b: Bytes, phdrs: seq<Phdr>, start: nat, end: nat)
    requires start <= end <= |a| && end <= |b| && a[start..end] == b[start..end]
    requires NotesLieIn(f, a, phdrs, start, end)
    ensures AllNotes(f, a, phdrs) == AllNotes(f, b, phdrs) && AllNotes(f, a, phdrs).Ok?
    decreases |phdrs|
  {
    if phdrs != [] {
      if phdrs[0].kind == PT_NOTE { SegmentReadsSame(f, a, b, phdrs[0], start, end); }
      NotesReadSame(f, a, b, phdrs[1..], start, end);
    }
  }

  /** A stripped file has the notes, and so the build id, of the original. */
  lemma {:induction false} StripKeepsNotes(f: Format, file: Bytes)
    requires WellFormed(f, file) && NotesLieIn(f, file, Phdrs(f, file), EhdrSize(f), |Stripped(f, file)|)
    ensures Readable(f, Stripped(f, file))
    ensures AllNotes(f, file, Phdrs(f, file)).Ok?
    ensures AllNotes(f, Stripped(f, file), Phdrs(f, Stripped(f, file))) == AllNotes(f, file, Phdrs(f, file))
  {
    var s := Stripped(f, file);
    StripKeepsHeaders(f, file);
    assert s[EhdrSize(f)..|s|] == s[EhdrSize(f)..];
    NotesReadSame(f, file, s, Phdrs(f, file), EhdrSize(f), |s|);
  }
}
