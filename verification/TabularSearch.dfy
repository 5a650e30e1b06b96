/** Bisecting and searching the table of Ninja outputs as raw bytes: why it finds whole rows, and the right ones. */
module TabularSearch {
  import opened Text
  import opened TabularFormat
  import opened NinjaDictionary

  // ---- lemmas for the bisection

  /** Wherever the middle falls, the probe lands on a whole row between the bounds. */
  lemma {:induction false} ProbeStart(t: string, lines: seq<string>, i: nat, j: nat, mid: nat) returns (k: nat)
    requires Table(t, lines)
    requires i < j <= |lines|
    requires Offset(lines, i) <= mid < Offset(lines, j) <= |t|
    ensures i <= k < j
    ensures var newline := RFindChar(t, '\n', Offset(lines, i), mid);
            Offset(lines, k) == if newline < 0 then Offset(lines, i) else newline + 1
    ensures Offset(lines, k) <= mid
  {
    var newline := RFindChar(t, '\n', Offset(lines, i), mid);
    if newline < 0 {
      k := i;
    } else {
      OffsetIncreases(lines, j, |lines|);
      var above := LineOf(t, lines, |lines|, newline);
      k := above + 1;
      if k < i { OffsetIncreases(lines, k, i); }
      if j <= k { OffsetIncreases(lines, j, k); }
    }
  }

  lemma {:induction false} ProbeEnd(t: string, lines: seq<string>, k: nat, j: nat)
    requires Table(t, lines)
    requires k < j <= |lines|
    ensures Offset(lines, k) < Offset(lines, k + 1) <= Offset(lines, j) <= |t|
    ensures FindChar(t, '\n', Offset(lines, k), Offset(lines, j)) == Offset(lines, k + 1) - 1
  {
    OffsetIncreases(lines, k + 1, j);
    OffsetIncreases(lines, j, |lines|);
    assert LineAt(t, lines, k);
    var lo := Offset(lines, k);
    assert forall x :: lo <= x < lo + |lines[k]| ==> t[x] == t[lo..lo + |lines[k]|][x - lo];
  }

  ghost predicate KeyedLine(lines: seq<string>, k: nat, key: string)
    requires k < |lines|
  {
    || ('\t' !in key && StartsWith(lines[k], key + "\t"))
    || (lines == [""] && key == "")
  }

  /** The first tab of a row ends its label; an empty table's missing tab reads as an empty label. */
  lemma {:induction false} KeyOfLine(t: string, lines: seq<string>, k: nat, key: string)
    requires Table(t, lines) && k < |lines| && KeyedLine(lines, k, key)
    ensures var lo, end := Offset(lines, k), Offset(lines, k + 1) - 1;
            && lo <= end < |t|
            && Slice(t, lo, end) == lines[k]
            && Slice(t, lo, FindChar(t, '\t', lo, end)) == key
  {
    assert LineAt(t, lines, k);
    if lines == [""] { return; }
    var lo, end := Offset(lines, k), Offset(lines, k + 1) - 1;
    assert forall x :: lo <= x < end ==> t[x] == t[lo..end][x - lo];
    assert forall x :: 0 <= x <= |key| ==> lines[k][x] == (key + "\t")[x];
    assert forall x :: lo <= x < lo + |key| ==> t[x] == key[x - lo];
    assert t[lo + |key|] == '\t';
    assert t[lo..lo + |key|] == key;
  }

  /** Each line starts with its key and a tab (or is the one line of an empty table);
      the keys strictly increase. */
  ghost predicate Keyed(lines: seq<string>, keys: seq<string>) {
    && |keys| == |lines|
    && (forall i :: 0 <= i < |keys| ==> KeyedLine(lines, i, keys[i]))
    && forall i, j :: 0 <= i < j < |keys| ==> Less(keys[i], keys[j])
  }

  /** What a probed key says about where the wanted one can be. */
  lemma {:induction false} KeysApart(keys: seq<string>, k: nat, key: string)
    requires forall i, j :: 0 <= i < j < |keys| ==> Less(keys[i], keys[j])
    requires k < |keys|
    ensures forall r :: 0 <= r < |keys| && keys[r] == key ==>
                          if keys[k] == key then r == k else if Less(keys[k], key) then k < r else r < k
  {
    forall r | 0 <= r < |keys| && keys[r] == key
      ensures if keys[k] == key then r == k else if Less(keys[k], key) then k < r else r < k
    {
      LessTotal(keys[r], keys[k]);
    }
  }

  function TableKeys(rows: seq<Row>): seq<string> {
    if rows == [] then [""] else Labels(rows)
  }

  lemma {:induction false} RowsAreKeyed(rows: seq<Row>)
    requires CleanRows(rows) && Sorted(rows)
    ensures Keyed(TableLines(rows), TableKeys(rows))
  {
    forall i | 0 <= i < |rows|
      ensures '\t' !in rows[i].gnLabel && StartsWith(RowText(rows[i]), rows[i].gnLabel + "\t")
    {
      assert rows[i] in rows;
    }
  }

  function Labels(rows: seq<Row>): (r: seq<string>)
    ensures |r| == |rows| && forall i :: 0 <= i < |rows| ==> r[i] == rows[i].gnLabel
  {
    seq(|rows|, i requires 0 <= i < |rows| => rows[i].gnLabel)
  }

  lemma {:induction false} OffsetsApart(lines: seq<string>, i: nat, j: nat)
    requires i <= j <= |lines|
    ensures Offset(lines, i) < Offset(lines, j) <==> i < j
  {
    OffsetIncreases(lines, i, j);
  }

  // ---- lemmas for the reverse lookup

  /** Lines between `lo` and `hi` without a hit contribute nothing. */
  lemma {:induction false} NoHitNoMatch(t: string, lines: seq<string>, value: string, lo: nat, hi: nat)
    requires Table(t, lines)
    requires lo <= hi <= |lines|
    requires forall q :: Offset(lines, lo) <= q < Offset(lines, hi) ==> !Hit(t, value, q)
    ensures HitLines(lines[..hi], value) == HitLines(lines[..lo], value)
  {
    if lo < hi {
      OffsetIncreases(lines, lo, hi - 1);
      NoHitNoMatch(t, lines, value, lo, hi - 1);
      assert lines[..hi][..hi - 1] == lines[..hi - 1];
      if HasColumn(lines[hi - 1], value) {
        var q :| Hit(lines[hi - 1] + "\n", value, q);
        LineHit(t, lines, value, hi - 1, q);
      }
    }
  }

  /** The state of the search at byte `pos`: the first m rows are answered, and no row after
      them has a hit before `pos`. Right after an answered row, `pos` is that row's newline. */
  ghost predicate Scanned(t: string, lines: seq<string>, value: string, pos: nat, m: nat, result: seq<string>) {
    && pos <= |t| && m <= |lines|
    && result == HitLines(lines[..m], value)
    && Offset(lines, m) <= pos + 1
    && (pos < Offset(lines, m) && pos < |t| ==> t[pos] == '\n')
    && forall q :: Offset(lines, m) <= q < pos ==> !Hit(t, value, q)
  }

  lemma {:induction false} ScanMiss(
      t: string, lines: seq<string>, value: string, at: nat, m: nat, result: seq<string>, pos: int)
    requires Scanned(t, lines, value, at, m, result) && '\t' !in value && value != ""
    requires pos == Find(t, value, at) >= 0 && !Hit(t, value, pos) && pos + |value| < |t|
    ensures Scanned(t, lines, value, pos + |value|, m, result)
  {
    FindIsFirst(t, value, at);
    forall q | pos <= q < pos + |value|
      ensures !Hit(t, value, q)
    {
      SkipIsSafe(t, value, pos, q);
    }
  }

  lemma {:induction false} ScanHit(
      t: string, lines: seq<string>, value: string, at: nat, m: nat, result: seq<string>, pos: int)
    returns (k: nat)
    requires Table(t, lines) && Column(value) && value != ""
    requires Scanned(t, lines, value, at, m, result)
    requires pos == Find(t, value, at) >= 0 && Hit(t, value, pos) && t[pos] != '\n'
    ensures m <= k < |lines| && Offset(lines, k) < pos < Offset(lines, k + 1) <= |t|
    ensures Scanned(t, lines, value, Offset(lines, k + 1) - 1, k + 1, result + [lines[k]])
  {
    FindIsFirst(t, value, at);
    k := HitInLine(t, lines, value, pos);
    if k < m { OffsetIncreases(lines, k + 1, m); }
    NoHitNoMatch(t, lines, value, m, k);
    assert lines[..k + 1][..k] == lines[..k];
    assert LineAt(t, lines, k);
  }

  lemma {:induction false} ScanDone(t: string, lines: seq<string>, value: string, at: nat, m: nat, result: seq<string>)
    requires Table(t, lines) && Scanned(t, lines, value, at, m, result)
    requires at == |t| || Find(t, value, at) == -1
    ensures result == HitLines(lines, value)
  {
    FindIsFirst(t, value, at);
    OffsetIncreases(lines, m, |lines|);
    NoHitNoMatch(t, lines, value, m, |lines|);
    assert lines[..|lines|] == lines;
  }

  /** A false hit hides no true one: a hit that began inside it would put a tab inside the value. */
  lemma {:induction false} SkipIsSafe(t: string, value: string, pos: int, q: int)
    requires OccursAt(t, value, pos) && !Hit(t, value, pos)
    requires '\t' !in value
    requires pos <= q < pos + |value|
    ensures !Hit(t, value, q)
  {
  }

  /** The newlines around a position inside row k are the ends of rows k-1 and k. */
  lemma {:induction false} RowBounds(t: string, lines: seq<string>, k: nat, pos: nat)
    requires Table(t, lines) && k < |lines|
    requires Offset(lines, k) <= pos < Offset(lines, k + 1)
    ensures pos < |t|
    ensures Offset(lines, k) == RFindChar(t, '\n', 0, pos) + 1
    ensures Offset(lines, k + 1) - 1 == FindChar(t, '\n', pos, |t|)
    ensures Slice(t, Offset(lines, k), Offset(lines, k + 1) - 1) == lines[k]
  {
    assert LineAt(t, lines, k);
    var lo := Offset(lines, k);
    if k > 0 { assert LineAt(t, lines, k - 1); }
    assert forall x :: lo <= x < lo + |lines[k]| ==> t[x] == t[lo..lo + |lines[k]|][x - lo];
  }

  /** No occurrence of a newline-free value reaches the table's last byte. */
  lemma {:induction false} OccurrenceStopsShort(t: string, value: string, pos: int)
    requires OccursAt(t, value, pos) && value != "" && '\n' !in value
    requires t != "" && t[|t| - 1] == '\n'
    ensures pos + |value| < |t|
    ensures t[pos] != '\n'
  {
  }

  lemma {:induction false} MatchingSorted(rows: seq<Row>, value: string)
    requires Sorted(rows)
    ensures Sorted(Matching(rows, value))
  {
    if rows != [] {
      var init := rows[..|rows| - 1];
      MatchingSorted(init, value);
      assert forall r :: r in Matching(init, value) ==> r in init;
    }
  }

  lemma {:induction false} TableEnds(t: string, lines: seq<string>)
    requires Table(t, lines) && lines != []
    ensures t != "" && t[|t| - 1] == '\n'
  {
    assert LineAt(t, lines, |lines| - 1);
  }

  /** The first matching row is the owner with the least label. */
  lemma {:induction false} FirstMatchIsLeast(items: seq<Row>, path: string)
    requires DistinctLabels(items) && CleanRows(items)
    ensures var matching := Matching(SortByLabel(items), path);
            && (matching == [] <==> !Owned(items, path))
            && (matching != [] ==> matching[0] in items && IsLeastOwner(items, path, matching[0].gnLabel))
  {
    var rows := SortByLabel(items);
    SortByLabelSorts(items);
    var matching := Matching(rows, path);
    MatchingSorted(rows, path);
    if matching != [] {
      assert matching[0] in matching;
      forall r | r in items && path in r.paths
        ensures r.gnLabel == matching[0].gnLabel || Less(matching[0].gnLabel, r.gnLabel)
      {
        assert r in matching;
      }
    } else {
      assert forall r :: r in items && path in r.paths ==> r in matching;
    }
  }
}
