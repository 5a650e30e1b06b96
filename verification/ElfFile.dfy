/** ELF headers as packed fields (System V gABI, chapter 4), in both classes and byte orders. */
module ElfFile {
  import opened Bits

  datatype Order = Little | Big

  datatype Format = Format(is64: bool, order: Order)

  // ---- integers

  function Pow256(w: nat): (r: nat)
    ensures r > 0
  {
    if w == 0 then 1 else 256 * Pow256(w - 1)
  }

  function EncodeInt(n: nat, w: nat, o: Order): (bs: Bytes)
    ensures |bs| == w
    decreases w
  {
    if w == 0 then []
    else if o == Little then [n % 256] + EncodeInt(n / 256, w - 1, o)
    else EncodeInt(n / 256, w - 1, o) + [n % 256]
  }

  function DecodeInt(bs: Bytes, o: Order): (n: nat)
    decreases |bs|
  {
    if bs == [] then 0
    else if o == Little then bs[0] + 256 * DecodeInt(bs[1..], o)
    else DecodeInt(bs[..|bs| - 1], o) * 256 + bs[|bs| - 1]
  }

  lemma {:induction false} DecodeUndoesEncode(n: nat, w: nat, o: Order)
    requires n < Pow256(w)
    ensures DecodeInt(EncodeInt(n, w, o), o) == n
    decreases w
  {
    if w > 0 {
      DecodeUndoesEncode(n / 256, w - 1, o);
      var bs := EncodeInt(n, w, o);
      if o == Little {
        assert bs[1..] == EncodeInt(n / 256, w - 1, o);
      } else {
        assert bs[..w - 1] == EncodeInt(n / 256, w - 1, o);
      }
    }
  }

  lemma DivMod256(m: nat, b: Byte)
    ensures (256 * m + b) % 256 == b && (256 * m + b) / 256 == m
  {
  }

  lemma {:induction false} EncodeUndoesDecode(bs: Bytes, o: Order)
    ensures DecodeInt(bs, o) < Pow256(|bs|)
    ensures EncodeInt(DecodeInt(bs, o), |bs|, o) == bs
    decreases |bs|
  {
    if bs != [] {
      var n := |bs| - 1;
      if o == Little {
        EncodeUndoesDecode(bs[1..], o);
        DivMod256(DecodeInt(bs[1..], o), bs[0]);
        assert bs == [bs[0]] + bs[1..];
      } else {
        EncodeUndoesDecode(bs[..n], o);
        DivMod256(DecodeInt(bs[..n], o), bs[n]);
        assert bs == bs[..n] + [bs[n]];
      }
    }
  }

  // ---- structures

  function Size(widths: seq<nat>): nat {
    if widths == [] then 0 else widths[0] + Size(widths[1..])
  }

  /** `struct.pack` without padding. */
  function Pack(widths: seq<nat>, fields: seq<nat>, o: Order): (bs: Bytes)
    requires |fields| == |widths|
    ensures |bs| == Size(widths)
  {
    if widths == [] then [] else EncodeInt(fields[0], widths[0], o) + Pack(widths[1..], fields[1..], o)
  }

  function Unpack(widths: seq<nat>, bs: Bytes, o: Order): (fields: seq<nat>)
    requires |bs| == Size(widths)
    ensures |fields| == |widths|
  {
    if widths == [] then [] else [DecodeInt(bs[..widths[0]], o)] + Unpack(widths[1..], bs[widths[0]..], o)
  }

  predicate InRange(widths: seq<nat>, fields: seq<nat>) {
    |fields| == |widths| && forall i :: 0 <= i < |fields| ==> fields[i] < Pow256(widths[i])
  }

  lemma {:induction false} UnpackUndoesPack(widths: seq<nat>, fields: seq<nat>, o: Order)
    requires InRange(widths, fields)
    ensures Unpack(widths, Pack(widths, fields, o), o) == fields
  {
    if widths != [] {
      var bs := Pack(widths, fields, o);
      assert bs[..widths[0]] == EncodeInt(fields[0], widths[0], o);
      assert bs[widths[0]..] == Pack(widths[1..], fields[1..], o);
      DecodeUndoesEncode(fields[0], widths[0], o);
      UnpackUndoesPack(widths[1..], fields[1..], o);
    }
  }

  lemma {:induction false} PackUndoesUnpack(widths: seq<nat>, bs: Bytes, o: Order)
    requires |bs| == Size(widths)
    ensures InRange(widths, Unpack(widths, bs, o))
    ensures Pack(widths, Unpack(widths, bs, o), o) == bs
  {
    if widths != [] {
      var w := widths[0];
      EncodeUndoesDecode(bs[..w], o);
      PackUndoesUnpack(widths[1..], bs[w..], o);
      assert bs == bs[..w] + bs[w..];
      assert Unpack(widths, bs, o)[1..] == Unpack(widths[1..], bs[w..], o);
    }
  }

  /** Where field i starts. */
  function FieldAt(widths: seq<nat>, i: nat): nat
    requires i <= |widths|
  {
    if i == 0 then 0 else widths[0] + FieldAt(widths[1..], i - 1)
  }

  /** Changing one field changes only its own bytes. */
  lemma {:induction false} PackUpdate(widths: seq<nat>, fields: seq<nat>, o: Order, i: nat, v: nat, p: nat)
    requires |fields| == |widths| && i < |widths| && p < Size(widths)
    requires p < FieldAt(widths, i) || FieldAt(widths, i) + widths[i] <= p
    ensures Pack(widths, fields[i := v], o)[p] == Pack(widths, fields, o)[p]
    decreases i
  {
    var w := widths[0];
    if i == 0 {
      assert fields[0 := v][1..] == fields[1..];
    } else {
      assert fields[i := v][1..] == fields[1..][i - 1 := v];
      if p >= w { PackUpdate(widths[1..], fields[1..], o, i - 1, v, p - w); }
    }
  }

  // ---- the headers

  /** The width of an address, an offset or a size. */
  function Word(f: Format): nat {
    if f.is64 then 8 else 4
  }

  function EhdrWidths(f: Format): seq<nat> {
    [16, 2, 2, 4, Word(f), Word(f), Word(f), 4, 2, 2, 2, 2, 2, 2]
  }

  const E_PHOFF := 5
  const E_SHOFF := 6
  const E_PHENTSIZE := 9
  const E_PHNUM := 10
  const E_SHNUM := 12
  const E_SHSTRNDX := 13

  function PhdrWidths(f: Format): seq<nat> {
    [4, 4, Word(f), Word(f), Word(f), Word(f), Word(f), Word(f)]
  }

  function EhdrSize(f: Format): nat {
    Size(EhdrWidths(f))
  }

  function PhdrSize(f: Format): nat {
    Size(PhdrWidths(f))
  }

  lemma {:induction false} SizeAppend(a: seq<nat>, b: seq<nat>)
    ensures Size(a + b) == Size(a) + Size(b)
  {
    if a == [] {
      assert a + b == b;
    } else {
      assert (a + b)[1..] == a[1..] + b;
      SizeAppend(a[1..], b);
    }
  }

  /** The sizes the standard gives the two headers. */
  lemma {:induction false} FileHeaderSize(f: Format)
    ensures EhdrSize(f) == if f.is64 then 64 else 52
  {
    var w := Word(f);
    assert EhdrWidths(f) == [16, 2, 2, 4] + ([w, w, w] + [4, 2, 2, 2, 2, 2, 2]);
    SizeAppend([16, 2, 2, 4], [w, w, w] + [4, 2, 2, 2, 2, 2, 2]);
    SizeAppend([w, w, w], [4, 2, 2, 2, 2, 2, 2]);
    ThreeWords(w);
  }

  lemma {:induction false} ProgramHeaderSize(f: Format)
    ensures PhdrSize(f) == if f.is64 then 56 else 32
  {
    var w := Word(f);
    ThreeWords(w);
    assert PhdrWidths(f) == [4, 4] + ([w, w, w] + [w, w, w]);
    SizeAppend([4, 4], [w, w, w] + [w, w, w]);
    SizeAppend([w, w, w], [w, w, w]);
  }

  lemma {:induction false} ThreeWords(w: nat)
    ensures Size([w, w, w]) == 3 * w
  {
    assert [w, w, w][1..] == [w, w] && [w, w][1..] == [w] && [w][1..] == [];
    assert Size([w]) == w && Size([w, w]) == w + Size([w]);
  }

  const PT_LOAD := 1
  const PT_NOTE := 4
  const PF_X := 1
  const PF_W := 2
  const PF_R := 4

  /** A program header. */
  datatype Phdr = Phdr(
    kind: nat, flags: nat, offset: nat, vaddr: nat, paddr: nat, filesz: nat, memsz: nat, align: nat)

  function Ehdr(f: Format, file: Bytes): (fields: seq<nat>)
    requires EhdrSize(f) <= |file|
    ensures |fields| == |EhdrWidths(f)| == 14
  {
    Unpack(EhdrWidths(f), file[..EhdrSize(f)], f.order)
  }

  /** The flags come second in the 64-bit layout and seventh in the 32-bit one. */
  function PhdrAt(f: Format, file: Bytes, pos: nat): Phdr
    requires pos + PhdrSize(f) <= |file|
  {
    var v := Unpack(PhdrWidths(f), file[pos..pos + PhdrSize(f)], f.order);
    if f.is64 then Phdr(v[0], v[1], v[2], v[3], v[4], v[5], v[6], v[7])
    else Phdr(v[0], v[6], v[1], v[2], v[3], v[4], v[5], v[7])
  }

  /** The bytes of n program headers. */
  function TableSize(f: Format, n: nat): nat {
    if n == 0 then 0 else TableSize(f, n - 1) + PhdrSize(f)
  }

  lemma {:induction false} TableSizeIs(f: Format, n: nat)
    ensures TableSize(f, n) == n * PhdrSize(f)
  {
    if n > 0 {
      TableSizeIs(f, n - 1);
      assert n * PhdrSize(f) == (n - 1) * PhdrSize(f) + PhdrSize(f);
    }
  }

  function TableEnd(f: Format, fields: seq<nat>): nat
    requires |fields| == 14
  {
    fields[E_PHOFF] + TableSize(f, fields[E_PHNUM])
  }

  /** The headers of the file can be read. */
  predicate Readable(f: Format, file: Bytes) {
    EhdrSize(f) <= |file| && TableEnd(f, Ehdr(f, file)) <= |file|
  }

  function PhdrsFrom(f: Format, file: Bytes, base: nat, n: nat): (phdrs: seq<Phdr>)
    requires base + TableSize(f, n) <= |file|
    ensures |phdrs| == n
    decreases n
  {
    if n == 0 then []
    else PhdrsFrom(f, file, base, n - 1) + [PhdrAt(f, file, base + TableSize(f, n - 1))]
  }

  /** `gen_phdrs` */
  function Phdrs(f: Format, file: Bytes): seq<Phdr>
    requires Readable(f, file)
  {
    PhdrsFrom(f, file, Ehdr(f, file)[E_PHOFF], Ehdr(f, file)[E_PHNUM])
  }

  // ---- writing program headers

  function PhdrFields(f: Format, p: Phdr): seq<nat> {
    if f.is64 then [p.kind, p.flags, p.offset, p.vaddr, p.paddr, p.filesz, p.memsz, p.align]
    else [p.kind, p.offset, p.vaddr, p.paddr, p.filesz, p.memsz, p.flags, p.align]
  }

  function PhdrBytes(f: Format, p: Phdr): (bs: Bytes)
    ensures |bs| == PhdrSize(f)
  {
    Pack(PhdrWidths(f), PhdrFields(f, p), f.order)
  }

  predicate PhdrFits(f: Format, p: Phdr) {
    InRange(PhdrWidths(f), PhdrFields(f, p))
  }

  function TableBytes(f: Format, phdrs: seq<Phdr>): (bs: Bytes)
    ensures |bs| == TableSize(f, |phdrs|)
  {
    if phdrs == [] then [] else TableBytes(f, phdrs[..|phdrs| - 1]) + PhdrBytes(f, phdrs[|phdrs| - 1])
  }

  lemma {:induction false} PhdrIsRead(f: Format, file: Bytes, pos: nat, p: Phdr)
    requires PhdrFits(f, p) && Holds(file, pos, PhdrBytes(f, p))
    ensures PhdrAt(f, file, pos) == p
  {
    HoldsSlice(file, pos, PhdrBytes(f, p));
    UnpackUndoesPack(PhdrWidths(f), PhdrFields(f, p), f.order);
  }

  lemma {:induction false} PhdrsFromAt(f: Format, file: Bytes, base: nat, n: nat, k: nat)
    requires base + TableSize(f, n) <= |file| && k < n
    ensures base + TableSize(f, k) + PhdrSize(f) <= |file|
    ensures PhdrsFrom(f, file, base, n)[k] == PhdrAt(f, file, base + TableSize(f, k))
    decreases n
  {
    if k < n - 1 { PhdrsFromAt(f, file, base, n - 1, k); }
  }

  lemma {:induction false} TableParts(f: Format, file: Bytes, base: nat, before: seq<Phdr>, last: Phdr)
    requires Holds(file, base, TableBytes(f, before + [last]))
    ensures Holds(file, base, TableBytes(f, before))
    ensures Holds(file, base + TableSize(f, |before|), PhdrBytes(f, last))
  {
    assert (before + [last])[..|before|] == before;
    HoldsParts(file, base, TableBytes(f, before), PhdrBytes(f, last));
  }

  lemma {:induction false} TableHolds(f: Format, file: Bytes, base: nat, phdrs: seq<Phdr>, k: nat)
    requires k < |phdrs| && Holds(file, base, TableBytes(f, phdrs))
    ensures Holds(file, base + TableSize(f, k), PhdrBytes(f, phdrs[k]))
    decreases |phdrs|
  {
    var n := |phdrs| - 1;
    var before := phdrs[..n];
    assert phdrs == before + [phdrs[n]];
    TableParts(f, file, base, before, phdrs[n]);
    if k < n {
      TableHolds(f, file, base, before, k);
    }
  }

  lemma {:induction false} PhdrIsReadAt(f: Format, file: Bytes, base: nat, phdrs: seq<Phdr>, k: nat)
    requires k < |phdrs| && PhdrFits(f, phdrs[k]) && Holds(file, base, TableBytes(f, phdrs))
    ensures PhdrsFrom(f, file, base, |phdrs|)[k] == phdrs[k]
  {
    assert PhdrAt(f, file, base + TableSize(f, k)) == phdrs[k] by {
      TableHolds(f, file, base, phdrs, k);
      PhdrIsRead(f, file, base + TableSize(f, k), phdrs[k]);
    }
    PhdrsFromAt(f, file, base, |phdrs|, k);
  }

  /** Any table of program headers, written anywhere in a file, is read back. */
  lemma {:induction false} PhdrTableIsRead(f: Format, file: Bytes, base: nat, phdrs: seq<Phdr>)
    requires (forall p :: p in phdrs ==> PhdrFits(f, p)) && Holds(file, base, TableBytes(f, phdrs))
    ensures PhdrsFrom(f, file, base, |phdrs|) == phdrs
  {
    forall k | 0 <= k < |phdrs| ensures PhdrsFrom(f, file, base, |phdrs|)[k] == phdrs[k] {
      assert phdrs[k] in phdrs;
      PhdrIsReadAt(f, file, base, phdrs, k);
    }
  }

  lemma {:induction false} EhdrIsRead(f: Format, fields: seq<nat>, rest: Bytes)
    requires InRange(EhdrWidths(f), fields)
    ensures Ehdr(f, Pack(EhdrWidths(f), fields, f.order) + rest) == fields
  {
    var h := Pack(EhdrWidths(f), fields, f.order);
    UnpackUndoesPack(EhdrWidths(f), fields, f.order);
    assert (h + rest)[..EhdrSize(f)] == h;
  }
}
