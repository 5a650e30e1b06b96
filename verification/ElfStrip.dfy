/** Stripping: cutting an ELF file after its last loaded byte and zeroing its section fields. */
module ElfStrip {
  import opened Text
  import opened Bits
  import opened ElfFile

  /** The end of the last loaded byte in the file: the maximum over the PT_LOAD headers, if any. */
  function LoadEnd(phdrs: seq<Phdr>): (r: Option<nat>)
    ensures r.Some? ==> forall p :: p in phdrs && p.kind == PT_LOAD ==> p.offset + p.filesz <= r.value
    ensures r.Some? ==> exists p :: p in phdrs && p.kind == PT_LOAD && p.offset + p.filesz == r.value
    ensures r.None? ==> forall p :: p in phdrs ==> p.kind != PT_LOAD
  {
    if phdrs == [] then None
    else
      var last := phdrs[|phdrs| - 1];
      var before := LoadEnd(phdrs[..|phdrs| - 1]);
      if last.kind != PT_LOAD then before
      else if before.Some? && before.value >= last.offset + last.filesz then before
      else Some(last.offset + last.filesz)
  }

  /** The file header's fields with e_shoff, e_shnum and e_shstrndx zeroed. */
  function NoSections(fields: seq<nat>): (r: seq<nat>)
    requires |fields| == 14
    ensures |r| == 14
  {
    fields[E_SHOFF := 0][E_SHNUM := 0][E_SHSTRNDX := 0]
  }

  function StrippedHeader(f: Format, file: Bytes): (h: Bytes)
    requires EhdrSize(f) <= |file|
    ensures |h| == EhdrSize(f)
  {
    Pack(EhdrWidths(f), NoSections(Ehdr(f, file)), f.order)
  }

  /** What `strip` writes: errors where headers cannot be read, nothing is loaded, or the program headers
      would be cut off. */
  function Strip(f: Format, file: Bytes): Result<Bytes> {
    if !Readable(f, file) then Err("unreadable headers")
    else
      var e, end := Ehdr(f, file), LoadEnd(Phdrs(f, file));
      if end.None? then Err("no loaded segment")
      else if e[E_PHOFF] + e[E_PHNUM] * e[E_PHENTSIZE] > end.value then Err("program headers not loaded")
      else Ok(StrippedHeader(f, file) + Slice(file, EhdrSize(f), end.value))
  }

  /** `strip` succeeds, and the program headers it reads follow the file header and lie in the loaded part. */
  predicate WellFormed(f: Format, file: Bytes) {
    && Strip(f, file).Ok?
    && EhdrSize(f) <= Ehdr(f, file)[E_PHOFF]
    && TableEnd(f, Ehdr(f, file)) <= LoadEnd(Phdrs(f, file)).value
  }

  // ---- the header

  /** A byte of the header that belongs to none of the three zeroed fields. */
  predicate KeptHeaderByte(f: Format, p: nat) {
    var w := EhdrWidths(f);
    forall i :: i in {E_SHOFF, E_SHNUM, E_SHSTRNDX} ==> p < FieldAt(w, i) || FieldAt(w, i) + w[i] <= p
  }

  lemma {:induction false} HeaderKept(f: Format, file: Bytes, p: nat)
    requires EhdrSize(f) <= |file| && p < EhdrSize(f) && KeptHeaderByte(f, p)
    ensures StrippedHeader(f, file)[p] == file[p]
  {
    var w, v := EhdrWidths(f), Ehdr(f, file);
    PackUndoesUnpack(w, file[..EhdrSize(f)], f.order);
    PackUpdate(w, v, f.order, E_SHOFF, 0, p);
    PackUpdate(w, v[E_SHOFF := 0], f.order, E_SHNUM, 0, p);
    PackUpdate(w, v[E_SHOFF := 0][E_SHNUM := 0], f.order, E_SHSTRNDX, 0, p);
  }

  lemma {:induction false} HeaderReadsBack(f: Format, file: Bytes, rest: Bytes)
    requires EhdrSize(f) <= |file|
    ensures Ehdr(f, StrippedHeader(f, file) + rest) == NoSections(Ehdr(f, file))
  {
    var w, v := EhdrWidths(f), Ehdr(f, file);
    PackUndoesUnpack(w, file[..EhdrSize(f)], f.order);
    UnpackUndoesPack(w, NoSections(v), f.order);
    assert (StrippedHeader(f, file) + rest)[..EhdrSize(f)] == StrippedHeader(f, file);
  }

  // ---- the program headers

  lemma {:induction false} SamePhdrs(f: Format, a: Bytes, b: Bytes, base: nat, n: nat)
    requires base + TableSize(f, n) <= |a| && base + TableSize(f, n) <= |b|
    requires a[base..base + TableSize(f, n)] == b[base..base + TableSize(f, n)]
    ensures PhdrsFrom(f, a, base, n) == PhdrsFrom(f, b, base, n)
    decreases n
  {
    if n > 0 {
      var pos, end := base + TableSize(f, n - 1), base + TableSize(f, n);
      SameParts(a, b, base, end, base, pos);
      SameParts(a, b, base, end, pos, end);
      SamePhdrs(f, a, b, base, n - 1);
    }
  }

  lemma {:induction false} SameParts(a: Bytes, b: Bytes, lo: nat, hi: nat, x: nat, y: nat)
    requires lo <= x <= y <= hi <= |a| && hi <= |b|
    requires a[lo..hi] == b[lo..hi]
    ensures a[x..y] == b[x..y]
  {
    forall i | x <= i < y ensures a[i] == b[i] {
      assert a[i] == a[lo..hi][i - lo] && b[i] == b[lo..hi][i - lo];
    }
  }

  // ---- the result

  /** The stripped file: as long as the loaded part, or as the file where that is cut short. */
  function Stripped(f: Format, file: Bytes): (s: Bytes)
    requires WellFormed(f, file)
    ensures var end := LoadEnd(Phdrs(f, file)).value; |s| == if end < |file| then end else |file|
    ensures s[..EhdrSize(f)] == StrippedHeader(f, file)
    ensures s[EhdrSize(f)..] == file[EhdrSize(f)..|s|]
  {
    Strip(f, file).value
  }

  lemma {:induction false} StripKeepsEhdr(f: Format, file: Bytes)
    requires WellFormed(f, file)
    ensures var s := Stripped(f, file); EhdrSize(f) <= |s| && Ehdr(f, s) == NoSections(Ehdr(f, file))
  {
    var s, size := Stripped(f, file), EhdrSize(f);
    assert s == s[..size] + s[size..];
    HeaderReadsBack(f, file, s[size..]);
  }

  lemma {:induction false} StripKeepsTable(f: Format, file: Bytes)
    requires WellFormed(f, file)
    ensures var s, e := Stripped(f, file), Ehdr(f, file);
            && TableEnd(f, e) <= |s| && TableEnd(f, e) <= |file|
            && PhdrsFrom(f, s, e[E_PHOFF], e[E_PHNUM]) == PhdrsFrom(f, file, e[E_PHOFF], e[E_PHNUM])
  {
    var s, e := Stripped(f, file), Ehdr(f, file);
    assert s[EhdrSize(f)..|s|] == file[EhdrSize(f)..|s|];
    SameParts(s, file, EhdrSize(f), |s|, e[E_PHOFF], TableEnd(f, e));
    SamePhdrs(f, s, file, e[E_PHOFF], e[E_PHNUM]);
  }

  /** The stripped file has no sections, and every program header of the original. */
  lemma {:induction false} StripKeepsHeaders(f: Format, file: Bytes)
    requires WellFormed(f, file)
    ensures var s := Stripped(f, file);
            && EhdrSize(f) <= |s| && Ehdr(f, s) == NoSections(Ehdr(f, file))
            && Readable(f, s) && Phdrs(f, s) == Phdrs(f, file)
  {
    StripKeepsEhdr(f, file);
    StripKeepsTable(f, file);
    NoSectionsKeeps(f, Ehdr(f, file));
  }

  /** Every loaded byte is kept, apart from the three section fields when the header itself is loaded. */
  lemma {:induction false} StripKeepsBytes(f: Format, file: Bytes, p: Phdr, i: nat)
    requires WellFormed(f, file) && p in Phdrs(f, file) && p.kind == PT_LOAD
    requires p.offset <= i < p.offset + p.filesz && i < |file|
    requires i < EhdrSize(f) ==> KeptHeaderByte(f, i)
    ensures i < |Stripped(f, file)| && Stripped(f, file)[i] == file[i]
  {
    if i < EhdrSize(f) { HeaderKept(f, file, i); }
    ByteOfHalves(Stripped(f, file), EhdrSize(f), i);
  }

  lemma ByteOfHalves(s: Bytes, n: nat, i: nat)
    requires n <= |s| && i < |s|
    ensures s[i] == if i < n then s[..n][i] else s[n..][i - n]
  {
  }

  lemma {:induction false} NoSectionsKeeps(f: Format, fields: seq<nat>)
    requires |fields| == 14
    ensures var g := NoSections(fields);
            && g[E_PHOFF] == fields[E_PHOFF] && g[E_PHNUM] == fields[E_PHNUM]
            && g[E_PHENTSIZE] == fields[E_PHENTSIZE] && TableEnd(f, g) == TableEnd(f, fields)
  {
  }

  lemma {:induction false} StrippedIsWellFormed(f: Format, file: Bytes)
    requires WellFormed(f, file)
    ensures WellFormed(f, Stripped(f, file))
  {
    StripKeepsHeaders(f, file);
    NoSectionsKeeps(f, Ehdr(f, file));
  }

  lemma {:induction false} SameHeader(f: Format, file: Bytes, s: Bytes)
    requires EhdrSize(f) <= |file| && EhdrSize(f) <= |s| && Ehdr(f, s) == NoSections(Ehdr(f, file))
    ensures StrippedHeader(f, s) == StrippedHeader(f, file)
  {
    NoSectionsTwice(Ehdr(f, file));
  }

  lemma {:induction false} SameLength(f: Format, a: Bytes, b: Bytes)
    requires WellFormed(f, a) && WellFormed(f, b) && Phdrs(f, a) == Phdrs(f, b) && b == Stripped(f, a)
    ensures |Stripped(f, b)| == |b|
  {
  }

  /** Stripping again changes nothing. */
  lemma {:induction false} StripIsIdempotent(f: Format, file: Bytes)
    requires WellFormed(f, file)
    ensures Strip(f, Stripped(f, file)) == Strip(f, file)
  {
    var s := Stripped(f, file);
    StrippedIsWellFormed(f, file);
    assert |Stripped(f, s)| == |s| by {
      StripKeepsHeaders(f, file);
      SameLength(f, file, s);
    }
    assert StrippedHeader(f, s) == StrippedHeader(f, file) by {
      StripKeepsEhdr(f, file);
      SameHeader(f, file, s);
    }
    SameHalves(s, Stripped(f, s), EhdrSize(f));
  }

  lemma SameHalves(s: Bytes, t: Bytes, n: nat)
    requires n <= |s| == |t| && s[..n] == t[..n] && t[n..] == s[n..|t|]
    ensures s == t
  {
  }

  lemma NoSectionsTwice(fields: seq<nat>)
    requires |fields| == 14
    ensures NoSections(NoSections(fields)) == NoSections(fields)
  {
  }

  /** The usual layout: file header, program headers, then anything. */
  function UsualLayout(f: Format, fields: seq<nat>, phdrs: seq<Phdr>, rest: Bytes): Bytes
    requires |fields| == 14
  {
    Pack(EhdrWidths(f), fields, f.order) + (TableBytes(f, phdrs) + rest)
  }

  lemma {:induction false} UsualLayoutIsRead(f: Format, fields: seq<nat>, phdrs: seq<Phdr>, rest: Bytes)
    requires InRange(EhdrWidths(f), fields) && |fields| == 14 && forall p :: p in phdrs ==> PhdrFits(f, p)
    requires fields[E_PHOFF] == EhdrSize(f) && fields[E_PHNUM] == |phdrs|
    ensures var file := UsualLayout(f, fields, phdrs, rest);
            Readable(f, file) && Ehdr(f, file) == fields && Phdrs(f, file) == phdrs
  {
    var head, table := Pack(EhdrWidths(f), fields, f.order), TableBytes(f, phdrs);
    var file := head + (table + rest);
    EhdrIsRead(f, fields, table + rest);
    HoldsParts(file, 0, head, table + rest);
    HoldsParts(file, |head|, table, rest);
    PhdrTableIsRead(f, file, EhdrSize(f), phdrs);
  }

  /** It is well formed when a loaded segment reaches past the headers. */
  lemma {:induction false} UsualLayoutIsWellFormed(f: Format, fields: seq<nat>, phdrs: seq<Phdr>, rest: Bytes)
    requires InRange(EhdrWidths(f), fields) && |fields| == 14 && forall p :: p in phdrs ==> PhdrFits(f, p)
    requires fields[E_PHOFF] == EhdrSize(f) && fields[E_PHNUM] == |phdrs| && fields[E_PHENTSIZE] == PhdrSize(f)
    requires LoadEnd(phdrs).Some? && EhdrSize(f) + TableSize(f, |phdrs|) <= LoadEnd(phdrs).value
    ensures WellFormed(f, UsualLayout(f, fields, phdrs, rest))
  {
    UsualLayoutIsRead(f, fields, phdrs, rest);
    TableSizeIs(f, |phdrs|);
  }

  // ---- writing the file

  /** Compares a file with what is about to be written, chunk by chunk. */
  method OldFileMatches(existing: Bytes, chunks: seq<Bytes>) returns (same: bool)
    ensures same <==> existing == Concat(chunks)
  {
    var size := 0;
    for i := 0 to |chunks|
      invariant size + |Concat(chunks[i..])| == |Concat(chunks)|
    {
      size := size + |chunks[i]|;
      assert chunks[i..][1..] == chunks[i + 1..];
    }
    if |existing| != size { return false; }
    var pos: nat := 0;
    for i := 0 to |chunks|
      invariant pos + |Concat(chunks[i..])| == |existing|
      invariant existing == Concat(chunks) <==> existing[pos..] == Concat(chunks[i..])
    {
      var chunk := chunks[i];
      var rest := existing[pos..];
      assert chunks[i..][1..] == chunks[i + 1..];
      assert rest[|chunk|..] == existing[pos + |chunk|..];
      assert rest == rest[..|chunk|] + rest[|chunk|..];
      if rest[..|chunk|] != chunk { return false; }
      pos := pos + |chunk|;
    }
    return true;
  }

  /** The stripped file on disk. */
  class StrippedFile {
    var contents: Option<Bytes>

    constructor (c: Option<Bytes>)
      ensures contents == c
    {
      contents := c;
    }

    /** Writes the file unless it is already there with the same contents; says whether it changed. */
    method Write(f: Format, file: Bytes) returns (changed: Result<bool>)
      modifies this
      ensures Strip(f, file).Err? ==> changed.Err? && contents == old(contents)
      ensures Strip(f, file).Ok? ==> contents == Some(Strip(f, file).value)
      ensures Strip(f, file).Ok? ==> changed == Ok(contents != old(contents))
    {
      var stripped := Strip(f, file);
      if stripped.Err? { return Err(stripped.message); }
      var end := LoadEnd(Phdrs(f, file)).value;
      var written := Update(StrippedHeader(f, file), Slice(file, EhdrSize(f), end));
      changed := Ok(written);
    }

    method Update(header: Bytes, body: Bytes) returns (changed: bool)
      modifies this
      ensures contents == Some(header + body)
      ensures changed == (contents != old(contents))
    {
      var chunks := [header, body];
      assert chunks[1..] == [body] && Concat([body]) == body;
      assert Concat(chunks) == header + body;
      if contents.Some? {
        var same := OldFileMatches(contents.value, chunks);
        if same { return false; }
        contents := None;
      }
      contents := Some(header + body);
      changed := true;
    }
  }
}
