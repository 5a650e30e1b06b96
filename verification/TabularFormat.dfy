/** The table of GN labels and Ninja output paths: what the tabular text is, and
    what a row boundary and a column are in terms of byte offsets. */
module TabularFormat {
  import opened Text

  /** One entry of ninja_outputs.json. A dictionary is the sequence of its entries in
      file order, with distinct labels. */
  datatype Row = Row(gnLabel: string, paths: seq<string>)

  predicate Ascii(s: string) {
    forall c :: c in s ==> c < '\U{80}'
  }

  /** What a column of the table may hold: ASCII without tab or newline. */
  predicate Column(s: string) {
    Ascii(s) && '\t' !in s && '\n' !in s
  }

  predicate CleanRow(r: Row) {
    Column(r.gnLabel) && forall p :: p in r.paths ==> Column(p)
  }

  ghost predicate CleanRows(rows: seq<Row>) {
    forall r :: r in rows ==> CleanRow(r)
  }

  ghost predicate DistinctLabels(rows: seq<Row>) {
    forall i, j :: 0 <= i < j < |rows| ==> rows[i].gnLabel != rows[j].gnLabel
  }

  ghost predicate Sorted(rows: seq<Row>) {
    forall i, j :: 0 <= i < j < |rows| ==> Less(rows[i].gnLabel, rows[j].gnLabel)
  }

  // ---- sorted(input_json.items()): labels are distinct, so the paths never decide

  function Insert(r: Row, rows: seq<Row>): seq<Row> {
    if rows == [] then [r]
    else if Less(rows[0].gnLabel, r.gnLabel) then [rows[0]] + Insert(r, rows[1..])
    else [r] + rows
  }

  function SortByLabel(items: seq<Row>): seq<Row> {
    if items == [] then [] else Insert(items[0], SortByLabel(items[1..]))
  }

  lemma {:induction false} InsertAdds(r: Row, rows: seq<Row>)
    ensures multiset(Insert(r, rows)) == multiset(rows) + multiset{r}
    ensures forall s :: s in Insert(r, rows) <==> s == r || s in rows
  {
    if rows != [] && Less(rows[0].gnLabel, r.gnLabel) {
      InsertAdds(r, rows[1..]);
      assert rows == [rows[0]] + rows[1..];
    }
  }

  lemma {:induction false} InsertKeepsOrder(r: Row, rows: seq<Row>)
    requires Sorted(rows)
    requires forall s :: s in rows ==> s.gnLabel != r.gnLabel
    ensures Sorted(Insert(r, rows))
  {
    if rows == [] {
    } else if Less(rows[0].gnLabel, r.gnLabel) {
      InsertKeepsOrder(r, rows[1..]);
      InsertAdds(r, rows[1..]);
      SortedCons(rows[0], Insert(r, rows[1..]));
    } else {
      forall s | s in rows
        ensures Less(r.gnLabel, s.gnLabel)
      {
        LessTotal(rows[0].gnLabel, r.gnLabel);
        if s != rows[0] { LessTransitive(r.gnLabel, rows[0].gnLabel, s.gnLabel); }
      }
      SortedCons(r, rows);
    }
  }

  lemma {:induction false} SortedCons(r: Row, rows: seq<Row>)
    requires Sorted(rows)
    requires forall s :: s in rows ==> Less(r.gnLabel, s.gnLabel)
    ensures Sorted([r] + rows)
  {
  }

  lemma {:induction false} SortByLabelPermutes(items: seq<Row>)
    ensures multiset(SortByLabel(items)) == multiset(items)
    ensures forall r :: r in SortByLabel(items) <==> r in items
  {
    if items != [] {
      SortByLabelPermutes(items[1..]);
      InsertAdds(items[0], SortByLabel(items[1..]));
      assert items == [items[0]] + items[1..];
    }
  }

  /** Sorting the entries permutes them into strictly increasing label order. */
  lemma {:induction false} SortByLabelSorts(items: seq<Row>)
    requires DistinctLabels(items)
    ensures Sorted(SortByLabel(items))
    ensures multiset(SortByLabel(items)) == multiset(items)
    ensures forall r :: r in SortByLabel(items) <==> r in items
  {
    SortByLabelPermutes(items);
    if items != [] {
      var rest := SortByLabel(items[1..]);
      SortByLabelSorts(items[1..]);
      forall s | s in rest
        ensures s.gnLabel != items[0].gnLabel
      {
        assert s in items[1..];
      }
      InsertKeepsOrder(items[0], rest);
    }
  }

  // ---- the text

  function RowText(r: Row): string {
    r.gnLabel + "\t" + Join(r.paths, '\t')
  }

  // ---- row boundaries

  /** The byte offset at which line i starts (line |lines| starts at the end). */
  function Offset(lines: seq<string>, i: nat): nat
    requires i <= |lines|
  {
    if i == 0 then 0 else Offset(lines, i - 1) + |lines[i - 1]| + 1
  }

  /** t is the given lines one after the other, each ended by a newline and holding no other. */
  ghost predicate Table(t: string, lines: seq<string>) {
    && Offset(lines, |lines|) == |t|
    && (forall i :: 0 <= i < |lines| ==> '\n' !in lines[i])
    && forall i :: 0 <= i < |lines| ==> LineAt(t, lines, i)
  }

  ghost predicate LineAt(t: string, lines: seq<string>, i: nat)
    requires i < |lines|
  {
    && Offset(lines, i) + |lines[i]| < |t|
    && t[Offset(lines, i)..Offset(lines, i) + |lines[i]|] == lines[i]
    && t[Offset(lines, i) + |lines[i]|] == '\n'
  }

  lemma {:induction false} OffsetOfPrefix(lines: seq<string>, more: seq<string>, i: nat)
    requires i <= |lines|
    ensures Offset(lines + more, i) == Offset(lines, i)
  {
    if i > 0 { OffsetOfPrefix(lines, more, i - 1); }
  }

  lemma {:induction false} TableAppend(t: string, lines: seq<string>, line: string)
    requires Table(t, lines) && '\n' !in line
    ensures Table(t + line + "\n", lines + [line])
  {
    var t2, lines2 := t + line + "\n", lines + [line];
    forall i | 0 <= i <= |lines|
      ensures Offset(lines2, i) == Offset(lines, i)
    {
      OffsetOfPrefix(lines, [line], i);
    }
    forall i | 0 <= i < |lines2|
      ensures LineAt(t2, lines2, i)
    {
      if i < |lines| { assert LineAt(t, lines, i); }
    }
  }

  lemma {:induction false} JoinIsTable(lines: seq<string>)
    requires lines != []
    requires forall i :: 0 <= i < |lines| ==> '\n' !in lines[i]
    ensures Table(Join(lines, '\n') + "\n", lines)
  {
    var n := |lines| - 1;
    var init, last := lines[..n], lines[n];
    assert lines == init + [last];
    if n > 0 {
      JoinIsTable(init);
      TableAppend(Join(init, '\n') + "\n", init, last);
      assert Join(lines, '\n') + "\n" == Join(init, '\n') + "\n" + last + "\n";
    } else {
      TableAppend("", [], last);
      assert "" + last + "\n" == Join(lines, '\n') + "\n";
    }
  }

  lemma {:induction false} OffsetIncreases(lines: seq<string>, i: nat, j: nat)
    requires i <= j <= |lines|
    ensures Offset(lines, i) + (j - i) <= Offset(lines, j)
    decreases j - i
  {
    if i < j { OffsetIncreases(lines, i, j - 1); }
  }

  /** Every position belongs to one line, and the only newline of a line is its last byte. */
  lemma {:induction false} LineOf(t: string, lines: seq<string>, n: nat, p: nat) returns (k: nat)
    requires Table(t, lines)
    requires n <= |lines| && p < Offset(lines, n)
    ensures k < n
    ensures Offset(lines, k) <= p < Offset(lines, k + 1) <= |t|
    ensures t[p] == '\n' <==> p == Offset(lines, k + 1) - 1
  {
    if p >= Offset(lines, n - 1) {
      k := n - 1;
      assert LineAt(t, lines, k);
      var lo := Offset(lines, k);
      if p < lo + |lines[k]| {
        assert t[p] == t[lo..lo + |lines[k]|][p - lo];
      }
    } else {
      k := LineOf(t, lines, n - 1, p);
    }
  }

  /** The texts of some rows. */
  function Lines(rows: seq<Row>): (lines: seq<string>)
    ensures |lines| == |rows|
    ensures forall i :: 0 <= i < |rows| ==> lines[i] == RowText(rows[i])
  {
    seq(|rows|, i requires 0 <= i < |rows| => RowText(rows[i]))
  }

  /** What load_from_json leaves in `_content` for a list of sorted entries. */
  function Content(rows: seq<Row>): string {
    Join(Lines(rows), '\n') + "\n"
  }

  lemma {:induction false} JoinLacks(parts: seq<string>, c: char)
    requires c != '\t'
    requires forall p :: p in parts ==> c !in p
    ensures c !in Join(parts, '\t')
  {
    if |parts| > 1 { JoinLacks(parts[..|parts| - 1], c); }
  }

  /** The lines of the table: without any entry it is one empty line. */
  function TableLines(rows: seq<Row>): seq<string> {
    if rows == [] then [""] else Lines(rows)
  }

  lemma {:induction false} ContentIsTable(rows: seq<Row>)
    requires CleanRows(rows)
    ensures Table(Content(rows), TableLines(rows))
  {
    assert Join([""], '\n') == "";
    if rows == [] {
      assert LineAt("\n", [""], 0);
      return;
    }
    forall i | 0 <= i < |rows|
      ensures '\n' !in Lines(rows)[i]
    {
      assert rows[i] in rows;
      JoinLacks(rows[i].paths, '\n');
    }
    JoinIsTable(Lines(rows));
  }

  // ---- columns

  /** The columns a reader finds in a row: an entry without paths still gets one, empty. */
  function Columns(r: Row): seq<string> {
    [r.gnLabel] + if r.paths == [] then [""] else r.paths
  }

  lemma {:induction false} JoinCons(first: string, rest: seq<string>, sep: char)
    requires rest != []
    ensures Join([first] + rest, sep) == first + [sep] + Join(rest, sep)
  {
    var all := [first] + rest;
    if |rest| > 1 {
      assert all[..|all| - 1] == [first] + rest[..|rest| - 1];
      JoinCons(first, rest[..|rest| - 1], sep);
    } else {
      assert all[..1] == [first];
    }
  }

  lemma {:induction false} RowTextColumns(r: Row)
    requires CleanRow(r)
    ensures RowText(r) == Join(Columns(r), '\t')
    ensures Split(RowText(r), '\t') == Columns(r)
  {
    var rest := if r.paths == [] then [""] else r.paths;
    JoinCons(r.gnLabel, rest, '\t');
    SplitJoin(Columns(r), '\t');
  }

  /** `value` stands at `q` between a tab and a tab or newline. */
  predicate Hit(t: string, value: string, q: int) {
    && 1 <= q
    && OccursAt(t, value, q)
    && t[q - 1] == '\t'
    && q + |value| < |t|
    && t[q + |value|] in "\t\n"
  }

  lemma {:induction false} HitIsColumn(cols: seq<string>, value: string, q: int)
    requires |cols| >= 1
    requires forall c :: c in cols ==> Column(c)
    requires Column(value)
    requires Hit(Join(cols, '\t') + "\n", value, q)
    ensures value in cols[1..]
  {
    var n := |cols| - 1;
    var last := cols[n];
    var t := Join(cols, '\t') + "\n";
    assert last in cols;
    if n == 0 { assert false; }
    var front := Join(cols[..n], '\t');
    assert t == front + "\t" + last + "\n";
    assert t[|front|] == '\t';
    assert forall k :: |front| < k < |t| - 1 ==> t[k] == last[k - |front| - 1];
    assert forall k :: q <= k < q + |value| ==> t[k] == t[q..q + |value|][k - q];
    if q - 1 < |front| {
      assert q + |value| <= |front|;
      var t0 := front + "\n";
      assert t0[q..q + |value|] == t[q..q + |value|];
      HitIsColumn(cols[..n], value, q);
      assert cols[..n][1..] <= cols[1..];
    } else {
      assert q - 1 == |front|;
      assert value == last;
      assert last == cols[1..][n - 1];
    }
  }

  lemma {:induction false} ColumnIsHit(cols: seq<string>, value: string) returns (q: int)
    requires |cols| >= 1
    requires value in cols[1..]
    ensures Hit(Join(cols, '\t') + "\n", value, q)
  {
    var n := |cols| - 1;
    var front := Join(cols[..n], '\t');
    var t := Join(cols, '\t') + "\n";
    assert t == front + "\t" + cols[n] + "\n";
    if value == cols[n] {
      q := |front| + 1;
      assert t[q..q + |value|] == value;
    } else {
      assert cols[1..] == cols[..n][1..] + [cols[n]];
      q := ColumnIsHit(cols[..n], value);
      var t0 := front + "\n";
      assert t[q..q + |value|] == t0[q..q + |value|];
    }
  }

  /** Looking through a window does not change what is a hit inside it. */
  lemma {:induction false} HitInWindow(t: string, lo: nat, hi: nat, value: string, q: int)
    requires lo < q && q + |value| < hi <= |t|
    ensures Hit(t, value, q) <==> Hit(t[lo..hi], value, q - lo)
  {
    SliceOfSlice(t, lo, hi, q - lo, q - lo + |value|);
  }

  /** A hit in the table is a hit in the line it falls in. */
  lemma {:induction false} HitInLine(t: string, lines: seq<string>, value: string, q: int) returns (k: nat)
    requires Table(t, lines)
    requires Column(value) && value != ""
    requires Hit(t, value, q)
    ensures k < |lines| && Offset(lines, k) < q < Offset(lines, k + 1)
    ensures Hit(lines[k] + "\n", value, q - Offset(lines, k))
  {
    k := LineOf(t, lines, |lines|, q);
    var lo, hi := Offset(lines, k), Offset(lines, k + 1);
    assert LineAt(t, lines, k);
    if k > 0 { assert LineAt(t, lines, k - 1); }
    assert forall x :: q <= x < q + |value| ==> t[x] == t[q..q + |value|][x - q];
    assert q + |value| < hi;
    HitInWindow(t, lo, hi, value, q);
    assert t[lo..hi] == lines[k] + "\n";
  }

  lemma {:induction false} LineHit(t: string, lines: seq<string>, value: string, k: nat, q: int)
    requires Table(t, lines)
    requires k < |lines| && Hit(lines[k] + "\n", value, q)
    ensures Hit(t, value, Offset(lines, k) + q)
    ensures Offset(lines, k) < Offset(lines, k) + q < Offset(lines, k + 1)
  {
    assert LineAt(t, lines, k);
    var lo, hi := Offset(lines, k), Offset(lines, k + 1);
    assert t[lo..hi] == lines[k] + "\n";
    HitInWindow(t, lo, hi, value, lo + q);
  }

  /** `value` stands in the line as a whole column after the first. */
  ghost predicate HasColumn(line: string, value: string) {
    exists q :: Hit(line + "\n", value, q)
  }

  /** The lines with `value` as a column after the first, in order. */
  ghost function HitLines(lines: seq<string>, value: string): seq<string> {
    if lines == [] then []
    else
      var n := |lines| - 1;
      HitLines(lines[..n], value) + if HasColumn(lines[n], value) then [lines[n]] else []
  }

  /** A row has a path as a column exactly when the entry lists it. */
  lemma {:induction false} PathIsColumn(r: Row, value: string)
    requires CleanRow(r) && Column(value) && value != ""
    ensures HasColumn(RowText(r), value) <==> value in r.paths
  {
    RowTextColumns(r);
    var columns := Columns(r);
    assert columns[1..] == if r.paths == [] then [""] else r.paths;
    if value in r.paths {
      var q := ColumnIsHit(columns, value);
    }
    forall q | Hit(RowText(r) + "\n", value, q)
      ensures value in r.paths
    {
      HitIsColumn(columns, value, q);
    }
  }

  /** The entries holding `value` as a path, in table order. */
  function Matching(rows: seq<Row>, value: string): (r: seq<Row>)
    ensures forall x :: x in r <==> x in rows && value in x.paths
  {
    if rows == [] then []
    else
      var n := |rows| - 1;
      Matching(rows[..n], value) + if value in rows[n].paths then [rows[n]] else []
  }

  lemma {:induction false} HitLinesMatch(rows: seq<Row>, value: string)
    requires CleanRows(rows) && Column(value) && value != ""
    ensures HitLines(Lines(rows), value) == Lines(Matching(rows, value))
  {
    if rows != [] {
      var n := |rows| - 1;
      var init, last := rows[..n], rows[n];
      HitLinesMatch(init, value);
      assert Lines(rows)[..n] == Lines(init);
      assert last in rows;
      PathIsColumn(last, value);
    }
  }

  lemma {:induction false} TableHitsMatch(rows: seq<Row>, value: string)
    requires CleanRows(rows) && Column(value) && value != ""
    ensures HitLines(TableLines(rows), value) == Lines(Matching(rows, value))
  {
    if rows == [] {
      assert !HasColumn("", value);
      assert HitLines([""], value) == [];
    } else {
      HitLinesMatch(rows, value);
    }
  }
}
