/** The directory and file tables of a DWARF .debug_line unit (sections 6.2.4 and 7.6 of DWARF 4).
    Names stay bytes here: only the length of a decoded name matters, and it is modelled. */
module DwarfLines {
  import opened Text
  import opened Bits

  // ---- unsigned LEB128

  /** All bytes but the last have the high bit set; any number of zero groups may pad it. */
  predicate IsUleb(bs: Bytes) {
    && bs != []
    && bs[|bs| - 1] < 128
    && forall i :: 0 <= i < |bs| - 1 ==> bs[i] >= 128
  }

  /** The base-128 number that the low seven bits of the bytes spell, least significant first. */
  function UlebValue(bs: Bytes): nat {
    if bs == [] then 0 else bs[0] % 128 + 128 * UlebValue(bs[1..])
  }

  datatype Read = Read(value: nat, next: nat)

  /** The number at a position of the file: value and position after it. It ends at the limit at the latest. */
  function ReadUleb(file: Bytes, start: nat, limit: nat): (r: Read)
    requires limit <= |file|
    ensures start <= r.next && (start < limit ==> start < r.next <= limit)
    decreases limit - start
  {
    if start >= limit then Read(0, start)
    else if file[start] < 128 then Read(file[start], start + 1)
    else
      var rest := ReadUleb(file, start + 1, limit);
      Read(file[start] % 128 + 128 * rest.value, rest.next)
  }

  lemma LowSeven(b: Byte)
    ensures And(b, 0x7F) == b % 128
    ensures And(b, 0x80) == 0 <==> b < 128
  {
    Pow2Of7();
    AndLowBits(b, 7);
    AndOneBit(b, 7);
  }

  lemma Pow2Of7()
    ensures Pow2(7) == 128
  {
  }

  /** The number still to be completed: what is decoded, and what follows above it. */
  function Above(value: nat, bits: nat, rest: nat): nat {
    value + ShiftLeft(rest, bits)
  }

  lemma {:induction false} ShiftBySeven(x: nat, n: nat)
    ensures ShiftLeft(128 * x, n) == ShiftLeft(x, n + 7)
    decreases n
  {
    if n > 0 {
      ShiftBySeven(x, n - 1);
    } else {
      assert ShiftLeft(x, 1) == 2 * ShiftLeft(x, 0);
      assert ShiftLeft(x, 2) == 2 * ShiftLeft(x, 1);
      assert ShiftLeft(x, 4) == 4 * ShiftLeft(x, 2);
      assert ShiftLeft(x, 6) == 4 * ShiftLeft(x, 4);
    }
  }

  lemma {:induction false} DigitFits(digit: nat, n: nat)
    requires digit < 128
    ensures ShiftLeft(digit, n) + Pow2(n) <= Pow2(n + 7)
    decreases n
  {
    if n > 0 { DigitFits(digit, n - 1); } else { Pow2Of7(); }
  }

  /** One round of the shift-and-or loop is one digit of the base-128 sum. */
  lemma {:induction false} OneDigit(value: nat, digit: nat, bits: nat, rest: nat)
    requires value < Pow2(bits) && digit < 128
    ensures var v := Or(value, ShiftLeft(digit, bits));
            && v < Pow2(bits + 7)
            && Above(value, bits, digit) == v
            && Above(value, bits, digit + 128 * rest) == Above(v, bits + 7, rest)
  {
    OrAbove(value, digit, bits);
    DigitFits(digit, bits);
    ShiftLeftSum(digit, 128 * rest, bits);
    ShiftBySeven(rest, bits);
  }

  /** Decoding so far: the number is what is decoded with what follows above it. */
  ghost predicate Decoding(file: Bytes, limit: nat, whole: Read, start: nat, value: nat, bits: nat)
    requires limit <= |file|
  {
    && value < Pow2(bits)
    && whole.next == ReadUleb(file, start, limit).next
    && whole.value == Above(value, bits, ReadUleb(file, start, limit).value)
  }

  lemma {:induction false} DecodingStep(file: Bytes, limit: nat, whole: Read, start: nat, value: nat, bits: nat)
    requires start < limit <= |file| && Decoding(file, limit, whole, start, value, bits)
    ensures var byte := file[start];
            var v := Or(value, ShiftLeft(And(byte, 0x7F), bits));
            if And(byte, 0x80) == 0 then whole == Read(v, start + 1)
            else Decoding(file, limit, whole, start + 1, v, bits + 7)
  {
    var byte := file[start];
    LowSeven(byte);
    OneDigit(value, byte % 128, bits, ReadUleb(file, start + 1, limit).value);
  }

  lemma {:induction false} DecodingEnds(file: Bytes, limit: nat, whole: Read, start: nat, value: nat, bits: nat)
    requires limit <= |file| && limit <= start && Decoding(file, limit, whole, start, value, bits)
    ensures whole == Read(value, start)
  {
    ShiftLeftSum(0, 0, bits);
  }

  /** Where reading must stop: at the limit, or at the end of the file. */
  function Cut(file: Bytes, limit: nat): nat {
    if limit <= |file| then limit else |file|
  }

  /** A last digit comes before the end of the file. */
  predicate HasLastDigit(file: Bytes, start: nat)
    decreases |file| - start
  {
    start < |file| && (file[start] < 128 || HasLastDigit(file, start + 1))
  }

  /** Reading the number does not run off the end of the file, which raises. */
  predicate NumberReads(file: Bytes, start: nat, limit: nat) {
    limit <= |file| || start >= limit || HasLastDigit(file, start)
  }

  /** The decoding loop: the number, or a failure exactly when it runs off the end of the file. */
  method DecodeUleb(file: Bytes, from: nat, limit: nat) returns (ok: bool, value: nat, start: nat)
    ensures ok <==> NumberReads(file, from, limit)
    ensures ok ==> Read(value, start) == ReadUleb(file, from, Cut(file, limit))
  {
    start := from;
    value := 0;
    var bits := 0;
    var cut := Cut(file, limit);
    ghost var whole := ReadUleb(file, from, cut);
    while start < limit
      invariant Decoding(file, cut, whole, start, value, bits)
      invariant NumberReads(file, start, limit) <==> NumberReads(file, from, limit)
      invariant start > from ==> start <= cut
      decreases limit - start
    {
      if start >= |file| { return false, 0, start; }
      var byte := file[start];
      LowSeven(byte);
      DecodingStep(file, cut, whole, start, value, bits);
      start := start + 1;
      value := Or(value, ShiftLeft(And(byte, 0x7F), bits));
      if And(byte, 0x80) == 0 {
        return true, value, start;
      }
      bits := bits + 7;
    }
    DecodingEnds(file, cut, whole, start, value, bits);
    ok := true;
  }

  /** Reading a number off a file that spells it gives its value and moves past it. */
  lemma {:induction false} ReadSpelled(file: Bytes, start: nat, limit: nat, bs: Bytes)
    requires IsUleb(bs) && start + |bs| <= limit <= |file|
    requires file[start..start + |bs|] == bs
    ensures ReadUleb(file, start, limit) == Read(UlebValue(bs), start + |bs|)
    decreases |bs|
  {
    assert file[start] == bs[0];
    if |bs| > 1 {
      assert file[start + 1..start + |bs|] == bs[1..];
      ReadSpelled(file, start + 1, limit, bs[1..]);
    } else {
      assert UlebValue(bs[1..]) == 0;
    }
  }

  // ---- the file table

  const STDIN: Bytes := [60, 115, 116, 100, 105, 110, 62]
  const COMMAND_LINE: Bytes := [60, 99, 111, 109, 109, 97, 110, 100, 45, 108, 105, 110, 101, 62]

  datatype Named = Named(name: Bytes, dir: nat)

  predicate IsFake(name: Bytes) {
    name == STDIN || name == COMMAND_LINE
  }

  datatype FileStep = Stop | Unreadable | More(name: Bytes, dir: nat, next: nat)

  /** The position after n numbers. */
  function SkipNumbers(file: Bytes, start: nat, limit: nat, n: nat): (r: nat)
    requires limit <= |file|
    ensures start <= r && (start <= limit ==> r <= limit)
    decreases n, |file|
  {
    if n == 0 then start else SkipNumbers(file, ReadUleb(file, start, limit).next, limit, n - 1)
  }

  predicate NumbersRead(file: Bytes, start: nat, limit: nat, n: nat)
    decreases n, |file|
  {
    n == 0 ||
    (NumberReads(file, start, limit) && NumbersRead(file, ReadUleb(file, start, Cut(file, limit)).next, limit, n - 1))
  }

  lemma {:induction false} NumbersReadWithin(file: Bytes, start: nat, limit: nat, n: nat)
    requires limit <= |file|
    ensures NumbersRead(file, start, limit, n)
    decreases n
  {
    if n > 0 { NumbersReadWithin(file, ReadUleb(file, start, limit).next, limit, n - 1); }
  }

  /** What stands at a position of the file table; a name without its zero byte, and numbers that run off the end of the
      file, cannot be read. */
  function StepAt(file: Bytes, start: nat, limit: nat): (r: FileStep)
    ensures r.More? ==> start < r.next <= limit
  {
    var cut := Cut(file, limit);
    if start >= limit then Stop
    else if start >= cut then Unreadable
    else
      var end := FindChar(file, 0, start, cut);
      if end < 0 then Unreadable
      else if end == start then Stop
      else if !NumbersRead(file, end + 1, limit, 3) then Unreadable
      else More(file[start..end], ReadUleb(file, end + 1, cut).value, SkipNumbers(file, end + 1, cut, 3))
  }

  /** What `gen_file_paths` yields from a position on. */
  function FilePaths(file: Bytes, start: nat, limit: nat): Result<seq<Named>>
    decreases limit - start
  {
    match StepAt(file, start, limit)
    case Stop => Ok([])
    case Unreadable => Err("unterminated")
    case More(name, dir, next) => Ahead(name, dir, FilePaths(file, next, limit))
  }

  /** One more name in front, unless it is one of the compiler's. */
  function Ahead(name: Bytes, dir: nat, rest: Result<seq<Named>>): Result<seq<Named>> {
    if rest.Ok? then Ok((if IsFake(name) then [] else [Named(name, dir)]) + rest.value) else rest
  }

  lemma OntoAhead(found: seq<Named>, name: Bytes, dir: nat, rest: Result<seq<Named>>)
    ensures Onto(found, Ahead(name, dir, rest)) ==
            Onto(if IsFake(name) then found else found + [Named(name, dir)], rest)
    ensures Onto([], rest) == rest
    ensures Onto(found, Ok([])) == Ok(found)
  {
    if rest.Ok? {
      assert found + ([Named(name, dir)] + rest.value) == found + [Named(name, dir)] + rest.value;
      assert found + ([] + rest.value) == found + rest.value;
      assert [] + rest.value == rest.value;
    }
    assert found + [] == found;
  }

  /** The loop over an entry's numbers, of which only the first is used. */
  method DecodeNumbers(file: Bytes, from: nat, limit: nat, count: nat) returns (ok: bool, first: nat, next: nat)
    requires count > 0
    ensures ok <==> NumbersRead(file, from, limit, count)
    ensures ok ==> first == ReadUleb(file, from, Cut(file, limit)).value
    ensures ok ==> next == SkipNumbers(file, from, Cut(file, limit), count)
  {
    first, next := 0, from;
    var cut := Cut(file, limit);
    for i := 0 to count
      invariant NumbersRead(file, from, limit, count) <==> NumbersRead(file, next, limit, count - i)
      invariant SkipNumbers(file, from, cut, count) == SkipNumbers(file, next, cut, count - i)
      invariant if i == 0 then next == from else first == ReadUleb(file, from, cut).value
    {
      var value;
      ghost var before := next;
      ok, value, next := DecodeUleb(file, next, limit);
      if !ok { return; }
      if i == 0 {
        first := value;
      }
    }
    ok := true;
  }

  /** The loop body of `gen_file_paths`. */
  method NextFile(file: Bytes, start: nat, limit: nat) returns (r: FileStep)
    requires start < limit
    ensures r == StepAt(file, start, limit)
  {
    var cut := Cut(file, limit);
    if start >= cut {
      return Unreadable;
    }
    var end := FindChar(file, 0, start, cut);
    if end < 0 {
      return Unreadable;
    }
    if start == end {
      return Stop;
    }
    var ok, includeIdx, next := DecodeNumbers(file, end + 1, limit, 3);
    if !ok {
      return Unreadable;
    }
    return More(file[start..end], includeIdx, next);
  }

  /** The loop of `gen_file_paths`. */
  method GenFilePaths(file: Bytes, from: nat, limit: nat) returns (r: Result<seq<Named>>)
    ensures r == FilePaths(file, from, limit)
  {
    var start := from;
    var found: seq<Named> := [];
    OntoAhead([], [], 0, FilePaths(file, from, limit));
    while start < limit
      invariant FilePaths(file, from, limit) == Onto(found, FilePaths(file, start, limit))
      decreases limit - start
    {
      var step := NextFile(file, start, limit);
      if step.Unreadable? {
        return Err("unterminated");
      }
      if step.Stop? {
        break;
      }
      OntoAhead(found, step.name, step.dir, FilePaths(file, step.next, limit));
      if !IsFake(step.name) {
        found := found + [Named(step.name, step.dir)];
      }
      start := step.next;
    }
    OntoAhead(found, [], 0, Ok([]));
    return Ok(found);
  }

  /** A table entry: its name, and its numbers as they are spelled: directory, time and size. */
  datatype Entry = Entry(name: Bytes, numbers: seq<Bytes>)

  predicate IsName(name: Bytes) {
    name != [] && 0 !in name
  }

  predicate WellFormed(e: Entry) {
    IsName(e.name) && |e.numbers| == 3 && forall n :: n in e.numbers ==> IsUleb(n)
  }

  function EncodeEntry(e: Entry): Bytes {
    e.name + [0] + Concat(e.numbers)
  }

  function EncodeEntries(entries: seq<Entry>): Bytes {
    if entries == [] then [] else EncodeEntry(entries[0]) + EncodeEntries(entries[1..])
  }

  /** The names in order with their directory indices, minus the compiler's two fake ones. */
  function Listed(entries: seq<Entry>): seq<Named> {
    if entries == [] then []
    else
      (if IsFake(entries[0].name) then [] else [Named(entries[0].name, Directory(entries[0]))]) +
      Listed(entries[1..])
  }

  function Directory(e: Entry): nat {
    if e.numbers == [] then 0 else UlebValue(e.numbers[0])
  }

  lemma {:induction false} TerminatorIsFound(file: Bytes, at: nat, name: Bytes, limit: nat)
    requires Holds(file, at, name) && Holds(file, at + |name|, [0]) && 0 !in name
    requires at + |name| < limit <= |file|
    ensures FindChar(file, 0, at, limit) == at + |name|
  {
    var end := at + |name|;
    HoldsByte(file, end, 0);
    forall k | at <= k < end ensures file[k] != 0 { assert file[k] == name[k - at] && name[k - at] in name; }
  }

  lemma {:induction false} NameAndRest(file: Bytes, at: nat, name: Bytes, rest: Bytes)
    requires Holds(file, at, name + [0] + rest)
    ensures Holds(file, at, name) && Holds(file, at + |name|, [0]) && Holds(file, at + |name| + 1, rest)
  {
    HoldsParts(file, at, name + [0], rest);
    HoldsParts(file, at, name, [0]);
  }

  lemma {:induction false} NumbersAreSkipped(file: Bytes, at: nat, limit: nat, ns: seq<Bytes>)
    requires forall n :: n in ns ==> IsUleb(n)
    requires Holds(file, at, Concat(ns)) && at + |Concat(ns)| <= limit <= |file|
    ensures SkipNumbers(file, at, limit, |ns|) == at + |Concat(ns)|
    ensures ns != [] ==> ReadUleb(file, at, limit).value == UlebValue(ns[0])
    decreases |ns|
  {
    if ns != [] {
      var n := ns[0];
      assert n in ns;
      HoldsParts(file, at, n, Concat(ns[1..]));
      ReadSpelled(file, at, limit, n);
      NumbersAreSkipped(file, at + |n|, limit, ns[1..]);
    }
  }

  lemma {:induction false} NameIsRead(file: Bytes, at: nat, limit: nat, name: Bytes)
    requires IsName(name) && Holds(file, at, name) && Holds(file, at + |name|, [0])
    requires at + |name| < limit <= |file|
    ensures var p := at + |name| + 1;
            StepAt(file, at, limit) == More(name, ReadUleb(file, p, limit).value, SkipNumbers(file, p, limit, 3))
  {
    TerminatorIsFound(file, at, name, limit);
    HoldsSlice(file, at, name);
    NumbersReadWithin(file, at + |name| + 1, limit, 3);
  }

  lemma {:induction false} EntryIsRead(file: Bytes, at: nat, limit: nat, e: Entry)
    requires WellFormed(e) && Holds(file, at, EncodeEntry(e)) && at + |EncodeEntry(e)| <= limit <= |file|
    ensures StepAt(file, at, limit) == More(e.name, Directory(e), at + |EncodeEntry(e)|)
  {
    var p := at + |e.name| + 1;
    assert at + |EncodeEntry(e)| == p + |Concat(e.numbers)|;
    NameAndRest(file, at, e.name, Concat(e.numbers));
    NumbersAreSkipped(file, p, limit, e.numbers);
    assert ReadUleb(file, p, limit).value == Directory(e);
    assert SkipNumbers(file, p, limit, 3) == at + |EncodeEntry(e)|;
    NameIsRead(file, at, limit, e.name);
  }

  /** The table ends at the limit, or at an empty name before it. */
  predicate EndsAt(file: Bytes, end: nat, limit: nat) {
    limit <= |file| && (end == limit || (end < limit && file[end] == 0))
  }

  lemma {:induction false} TableStops(file: Bytes, end: nat, limit: nat)
    requires EndsAt(file, end, limit)
    ensures FilePaths(file, end, limit) == Ok([])
  {
    if end < limit { assert FindChar(file, 0, end, limit) == end; }
  }

  /** Reading any encoded table returns its names and directory indices in order. The terminator may be
      missing if the limit cuts the table off right after its last entry. */
  lemma {:induction false} TableIsRead(file: Bytes, at: nat, limit: nat, entries: seq<Entry>)
    requires forall e :: e in entries ==> WellFormed(e)
    requires Holds(file, at, EncodeEntries(entries)) && EndsAt(file, at + |EncodeEntries(entries)|, limit)
    ensures FilePaths(file, at, limit) == Ok(Listed(entries))
    decreases |entries|
  {
    if entries == [] {
      TableStops(file, at, limit);
    } else {
      var e, rest := entries[0], entries[1..];
      var next := at + |EncodeEntry(e)|;
      assert e in entries;
      HoldsParts(file, at, EncodeEntry(e), EncodeEntries(rest));
      EntryIsRead(file, at, limit, e);
      TableIsRead(file, next, limit, rest);
      StepIsAhead(file, at, limit, e.name, Directory(e), next, Listed(rest));
    }
  }

  lemma {:induction false} StepIsAhead(
    file: Bytes, at: nat, limit: nat, name: Bytes, dir: nat, next: nat, rest: seq<Named>)
    requires limit <= |file| && StepAt(file, at, limit) == More(name, dir, next)
    requires FilePaths(file, next, limit) == Ok(rest)
    ensures FilePaths(file, at, limit) == Ok((if IsFake(name) then [] else [Named(name, dir)]) + rest)
  {
  }

  // ---- the directory table

  /** `len(s.decode())` of well-formed UTF-8: continuation bytes do not count. */
  function DecodedLen(s: Bytes): (n: nat)
    ensures n <= |s|
  {
    if s == [] then 0 else (if 0x80 <= s[0] < 0xC0 then 0 else 1) + DecodedLen(s[1..])
  }

  lemma {:induction false} DecodedLenIsFull(s: Bytes)
    ensures DecodedLen(s) == |s| <==> forall b :: b in s ==> !(0x80 <= b < 0xC0)
  {
    if s != [] {
      DecodedLenIsFull(s[1..]);
      assert s[0] in s && forall b :: b in s <==> b == s[0] || b in s[1..];
    }
  }

  /** `gen_strings`: the strings from a position up to an empty one. */
  function Strings(file: Bytes, start: nat): Result<seq<Bytes>>
    decreases |file| - start
  {
    if start > |file| then Err("unterminated string")
    else
      var end := FindChar(file, 0, start, |file|);
      if end < 0 then Err("unterminated string")
      else if end == start then Ok([])
      else
        var rest :- Strings(file, end + 1);
        Ok([file[start..end]] + rest)
  }

  function DecodedTotal(dirs: seq<Bytes>): nat {
    if dirs == [] then 0 else DecodedLen(dirs[0]) + 1 + DecodedTotal(dirs[1..])
  }

  /** `read_include_dirs`: the directories, and where it takes the file table to start. */
  function IncludeDirs(file: Bytes, pos: nat): Result<(nat, seq<Bytes>)> {
    var dirs :- Strings(file, pos);
    Ok((pos + DecodedTotal(dirs) + 1, dirs))
  }

  function EncodeDirs(dirs: seq<Bytes>): Bytes {
    if dirs == [] then [] else dirs[0] + [0] + EncodeDirs(dirs[1..])
  }

  predicate NoContinuation(s: Bytes) {
    forall b :: b in s ==> !(0x80 <= b < 0xC0)
  }

  lemma {:induction false} DirsAreRead(file: Bytes, at: nat, dirs: seq<Bytes>)
    requires forall d :: d in dirs ==> IsName(d)
    requires Holds(file, at, EncodeDirs(dirs) + [0])
    ensures Strings(file, at) == Ok(dirs)
    decreases |dirs|
  {
    if dirs == [] {
      assert EncodeDirs(dirs) + [0] == [0];
      HoldsByte(file, at, 0);
      assert FindChar(file, 0, at, |file|) == at;
    } else {
      var d, rest := dirs[0], dirs[1..];
      assert d in dirs;
      assert EncodeDirs(dirs) + [0] == d + [0] + (EncodeDirs(rest) + [0]);
      NameAndRest(file, at, d, EncodeDirs(rest) + [0]);
      DirsAreRead(file, at + |d| + 1, rest);
      OneMoreString(file, at, d, rest);
      assert dirs == [d] + rest;
    }
  }

  lemma {:induction false} OneMoreString(file: Bytes, at: nat, name: Bytes, rest: seq<Bytes>)
    requires IsName(name) && Holds(file, at, name) && Holds(file, at + |name|, [0])
    requires Strings(file, at + |name| + 1) == Ok(rest)
    ensures Strings(file, at) == Ok([name] + rest)
  {
    TerminatorIsFound(file, at, name, |file|);
    HoldsSlice(file, at, name);
  }

  lemma {:induction false} DecodedTotalIsFull(dirs: seq<Bytes>)
    ensures DecodedTotal(dirs) <= |EncodeDirs(dirs)|
    ensures DecodedTotal(dirs) == |EncodeDirs(dirs)| <==> forall d :: d in dirs ==> NoContinuation(d)
  {
    if dirs != [] {
      DecodedTotalIsFull(dirs[1..]);
      DecodedLenIsFull(dirs[0]);
      assert dirs[0] in dirs && forall d :: d in dirs <==> d == dirs[0] || d in dirs[1..];
    }
  }

  /** The directories come back, but the file table is found after them exactly when no directory name has
      a multi-byte character: the position is advanced by characters, not bytes. */
  lemma {:induction false} FileTableIsFoundIff(file: Bytes, at: nat, dirs: seq<Bytes>)
    requires forall d :: d in dirs ==> IsName(d)
    requires Holds(file, at, EncodeDirs(dirs) + [0])
    ensures IncludeDirs(file, at).Ok? && IncludeDirs(file, at).value.1 == dirs
    ensures IncludeDirs(file, at).value.0 == at + |EncodeDirs(dirs)| + 1 <==>
            forall d :: d in dirs ==> NoContinuation(d)
  {
    DirsAreRead(file, at, dirs);
    DecodedTotalIsFull(dirs);
  }

  /** Both tables of a unit, one after the other. */
  lemma {:induction false} UnitIsRead(file: Bytes, at: nat, limit: nat, dirs: seq<Bytes>, entries: seq<Entry>)
    requires forall d :: d in dirs ==> IsName(d) && NoContinuation(d)
    requires forall e :: e in entries ==> WellFormed(e)
    requires Holds(file, at, EncodeDirs(dirs) + [0] + EncodeEntries(entries) + [0])
    requires at + |EncodeDirs(dirs)| + 1 + |EncodeEntries(entries)| < limit <= |file|
    ensures IncludeDirs(file, at).Ok?
    ensures var (pos, found) := IncludeDirs(file, at).value;
            found == dirs && pos <= limit && FilePaths(file, pos, limit) == Ok(Listed(entries))
  {
    var header, table := EncodeDirs(dirs) + [0], EncodeEntries(entries);
    HoldsParts(file, at, header + table, [0]);
    HoldsParts(file, at, header, table);
    FileTableIsFoundIff(file, at, dirs);
    var pos := IncludeDirs(file, at).value.0;
    assert pos == at + |header|;
    var end := pos + |table|;
    HoldsByte(file, end, 0);
    TableIsRead(file, pos, limit, entries);
  }
}
