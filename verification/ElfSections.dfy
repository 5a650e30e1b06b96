/** Section headers and names, and the test for a stripped file. */
module ElfSections {
  import Text
  import opened Bits
  import opened ElfFile
  import opened ElfStrip

  type Result<+T> = Text.Result<T>

  /** The fields of a section header that are used. */
  datatype Shdr = Shdr(name: nat, kind: nat, flags: nat, offset: nat, size: nat)

  const SHT_SYMTAB := 2
  const SHF_ALLOC := 2
  const DEBUG_PREFIX: Bytes := [46, 100, 101, 98, 117, 103, 95]  // ".debug_"

  function ShdrWidths(f: Format): seq<nat> {
    [4, 4, Word(f), Word(f), Word(f), Word(f), 4, 4, Word(f), Word(f)]
  }

  function ShdrSize(f: Format): nat {
    Size(ShdrWidths(f))
  }

  function ShdrAt(f: Format, file: Bytes, pos: nat): Shdr
    requires pos + ShdrSize(f) <= |file|
  {
    var v := Unpack(ShdrWidths(f), file[pos..pos + ShdrSize(f)], f.order);
    Shdr(v[0], v[1], v[2], v[4], v[5])
  }

  /** `gen_shdrs` from the k-th on; reading past the end of the file raises. */
  function ShdrsFrom(f: Format, file: Bytes, pos: nat, n: nat): (r: Result<seq<Shdr>>)
    ensures r.Ok? ==> |r.value| == n
    decreases n
  {
    if n == 0 then Text.Ok([])
    else if pos + ShdrSize(f) > |file| then Text.Err("unpack_from requires a buffer of more bytes")
    else
      var rest := ShdrsFrom(f, file, pos + ShdrSize(f), n - 1);
      if rest.Err? then rest else Text.Ok([ShdrAt(f, file, pos)] + rest.value)
  }

  /** The string up to the next zero byte, which must be there. */
  function CString(file: Bytes, start: nat): Result<Bytes> {
    if start > |file| then Text.Err("Unterminated string")
    else
      var end := Text.FindChar(file, 0, start, |file|);
      if end < 0 then Text.Err("Unterminated string") else Text.Ok(file[start..end])
  }

  function SectionName(file: Bytes, strtab: Shdr, s: Shdr): Result<Bytes> {
    if s.name >= strtab.size then Text.Err("invalid sh_name") else CString(file, strtab.offset + s.name)
  }

  /** A section that stripping should have removed: not loaded, and a symbol table or debugging information. */
  predicate LeftOver(s: Shdr, name: Bytes) {
    And(s.flags, SHF_ALLOC) == 0 && (s.kind == SHT_SYMTAB || DEBUG_PREFIX <= name)
  }

  /** The section is read and is no left-over. */
  predicate Harmless(file: Bytes, strtab: Shdr, s: Shdr) {
    var name := SectionName(file, strtab, s);
    name.Ok? && !LeftOver(s, name.value)
  }

  /** What the test promises: every section but the first is harmless. */
  ghost predicate ReportsStripped(f: Format, file: Bytes) {
    && EhdrSize(f) <= |file|
    && var e := Ehdr(f, file);
       var shdrs := ShdrsFrom(f, file, e[E_SHOFF], e[E_SHNUM]);
       && shdrs.Ok?
       && (shdrs.value != [] ==>
             && e[E_SHSTRNDX] < |shdrs.value|
             && forall i :: 0 < i < |shdrs.value| ==> Harmless(file, shdrs.value[e[E_SHSTRNDX]], shdrs.value[i]))
  }

  /** The loop over the sections: true if all are harmless, false at the first left-over, or an error. */
  method AllHarmless(file: Bytes, shdrs: seq<Shdr>, strtab: Shdr) returns (r: Result<bool>)
    ensures r == Text.Ok(true) <==> forall i :: 0 < i < |shdrs| ==> Harmless(file, strtab, shdrs[i])
    ensures r == Text.Ok(false) ==>
              exists i :: 0 < i < |shdrs| && SectionName(file, strtab, shdrs[i]).Ok? &&
                          LeftOver(shdrs[i], SectionName(file, strtab, shdrs[i]).value)
    ensures r.Err? ==> exists i :: 0 < i < |shdrs| && SectionName(file, strtab, shdrs[i]).Err?
  {
    var i := 1;
    while i < |shdrs|
      invariant 1 <= i && forall k :: 0 < k < i && k < |shdrs| ==> Harmless(file, strtab, shdrs[k])
    {
      var name := SectionName(file, strtab, shdrs[i]);
      if name.Err? { return Text.Err(name.message); }
      if LeftOver(shdrs[i], name.value) { return Text.Ok(false); }
      i := i + 1;
    }
    r := Text.Ok(true);
  }

  method GetStripped(f: Format, file: Bytes) returns (r: Result<bool>)
    requires EhdrSize(f) <= |file|
    ensures r == Text.Ok(true) <==> ReportsStripped(f, file)
  {
    var e := Ehdr(f, file);
    var shdrs := ShdrsFrom(f, file, e[E_SHOFF], e[E_SHNUM]);
    if shdrs.Err? { return Text.Err(shdrs.message); }
    if shdrs.value == [] { return Text.Ok(true); }
    if e[E_SHSTRNDX] >= |shdrs.value| { return Text.Err("list index out of range"); }
    r := AllHarmless(file, shdrs.value, shdrs.value[e[E_SHSTRNDX]]);
  }

  /** A stripped file reports itself stripped. */
  lemma {:induction false} StrippedReportsStripped(f: Format, file: Bytes)
    requires WellFormed(f, file)
    ensures ReportsStripped(f, Stripped(f, file))
  {
    StripKeepsHeaders(f, file);
  }
}
