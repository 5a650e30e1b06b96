/** The database of Ninja outputs as tabular text that is bisected and searched as raw bytes, compared with the
    plain dictionary. The file system is left to the callers: a database file is its bytes. */
module NinjaOutputs {
  import opened Text
  import opened TabularFormat
  import opened NinjaDictionary
  import opened TabularSearch

  const INDEX_MAGIC := "\U{8}IDX"

  /** The file that content is saved to. */
  function FileOf(content: string): string {
    INDEX_MAGIC + content
  }

  lemma FilesTellApart(a: string, b: string)
    requires FileOf(a) == FileOf(b)
    ensures a == b
  {
    assert FileOf(a)[|INDEX_MAGIC|..] == a && FileOf(b)[|INDEX_MAGIC|..] == b;
  }

  class NinjaOutputsTabular {
    var content: string

    constructor ()
      ensures content == ""
    {
      content := "";
    }

    /** The content holds exactly these entries, one row each, in increasing label order: what the lookups rely on. */
    ghost predicate HoldsEntries(items: seq<Row>)
      reads this
    {
      var rows := SortByLabel(items);
      && multiset(rows) == multiset(items) && Sorted(rows)
      && Table(content, TableLines(rows)) && Keyed(TableLines(rows), TableKeys(rows))
    }

    method LoadFromJson(items: seq<Row>)
      modifies this
      ensures content == Content(SortByLabel(items))
      ensures DistinctLabels(items) && CleanRows(items) ==> HoldsEntries(items)
    {
      content := Content(SortByLabel(items));
      if DistinctLabels(items) && CleanRows(items) {
        SortByLabelSorts(items);
        ContentIsTable(SortByLabel(items));
        RowsAreKeyed(SortByLabel(items));
      }
    }

    /** Accepts exactly the files that some content is saved to, and then has that content. */
    method LoadFromFile(file: string) returns (ok: bool)
      modifies this
      ensures ok <==> exists c :: file == FileOf(c)
      ensures ok ==> file == FileOf(content)
      ensures !ok ==> content == old(content)
    {
      ok := StartsWith(file, INDEX_MAGIC);
      if ok {
        content := file[|INDEX_MAGIC|..];
        assert file == FileOf(content);
      }
    }

    method SaveToFile() returns (file: string)
      ensures file == FileOf(content)
    {
      file := INDEX_MAGIC + content;
    }

    /** Where the bisection stands: lo and hi are the starts of rows i and j. */
    ghost predicate Between(lines: seq<string>, lo: int, hi: int, i: nat, j: nat)
      reads this
    {
      i <= j <= |lines| && lo == Offset(lines, i) && hi == Offset(lines, j) <= |content|
    }

    /** The body of the bisection loop up to the comparison: the bounds and key of the row around the middle. */
    method Probe(lo: nat, hi: nat, ghost lines: seq<string>, ghost keys: seq<string>, ghost i: nat, ghost j: nat)
      returns (curLineStart: nat, curLineEnd: int, lineKey: string, ghost k: nat)
      requires Table(content, lines) && Keyed(lines, keys)
      requires Between(lines, lo, hi, i, j) && lo < hi
      ensures i <= k < j && lo <= curLineStart <= curLineEnd < hi
      ensures curLineStart == Offset(lines, k) && curLineEnd == Offset(lines, k + 1) - 1
      ensures Slice(content, curLineStart, curLineEnd) == lines[k] && lineKey == keys[k]
    {
      var mid := (lo + hi) / 2;
      OffsetsApart(lines, i, j);
      k := ProbeStart(content, lines, i, j, mid);
      ProbeEnd(content, lines, k, j);
      KeyOfLine(content, lines, k, keys[k]);
      var newline := RFindChar(content, '\n', lo, mid);
      curLineStart := if newline < 0 then lo else newline + 1;
      newline := FindChar(content, '\n', curLineStart, hi);
      curLineEnd := if newline < 0 then hi else newline;
      var firstTab := FindChar(content, '\t', curLineStart, curLineEnd);
      lineKey := Slice(content, curLineStart, firstTab);
    }

    /** Bisection over the raw bytes: the row with this key, or "" when there is none. */
    method FindRowStartingWith(key: string, ghost lines: seq<string>, ghost keys: seq<string>)
      returns (line: string)
      requires Table(content, lines) && Keyed(lines, keys)
      ensures forall i :: 0 <= i < |lines| && keys[i] == key ==> line == lines[i]
      ensures (forall i :: 0 <= i < |lines| ==> keys[i] != key) ==> line == ""
    {
      var lo, hi := 0, |content|;
      ghost var i: nat, j: nat := 0, |lines|;
      while lo < hi
        invariant Between(lines, lo, hi, i, j)
        invariant forall r :: 0 <= r < |lines| && keys[r] == key ==> i <= r < j
        decreases hi - lo
      {
        var curLineStart, curLineEnd, lineKey;
        ghost var k;
        curLineStart, curLineEnd, lineKey, k := Probe(lo, hi, lines, keys, i, j);
        KeysApart(keys, k, key);
        if lineKey == key {
          return Slice(content, curLineStart, curLineEnd);
        } else if Less(lineKey, key) {
          lo := curLineEnd + 1;
          i := k + 1;
        } else {
          hi := curLineStart;
          j := k;
        }
      }
      OffsetsApart(lines, i, j);
      line := "";
    }

    method GnLabelToPaths(gnLabel: string, ghost items: seq<Row>) returns (paths: seq<string>)
      requires DistinctLabels(items) && CleanRows(items)
      requires content == Content(SortByLabel(items))
      ensures (forall r :: r in items && r.gnLabel == gnLabel ==> r.paths != []) ==>
                paths == PathsOf(items, gnLabel)
      ensures (exists r :: r in items && r.gnLabel == gnLabel && r.paths == []) ==>
                PathsOf(items, gnLabel) == [] && paths == [""]
    {
      ghost var rows := SortByLabel(items);
      SortByLabelSorts(items);
      ContentIsTable(rows);
      RowsAreKeyed(rows);
      paths := [];
      var line := FindRowStartingWith(gnLabel, TableLines(rows), TableKeys(rows));
      if i :| 0 <= i < |rows| && rows[i].gnLabel == gnLabel {
        assert rows[i] in rows && rows[i] in items;
        RowTextColumns(rows[i]);
        PathsOfEntry(items, rows[i]);
      } else {
        PathsOfUnknown(items, gnLabel);
      }
      if line != "" {
        var columns := Split(line, '\t');
        paths := columns[1..];
      }
    }

    /** The bounds of the row around a position. */
    method RowAround(pos: nat, ghost lines: seq<string>, ghost k: nat) returns (lineStart: nat, lineEnd: int)
      requires Table(content, lines) && k < |lines|
      requires Offset(lines, k) < pos < Offset(lines, k + 1)
      ensures lineStart == Offset(lines, k) && lineEnd == Offset(lines, k + 1) - 1
      ensures pos <= lineEnd < |content| && Slice(content, lineStart, lineEnd) == lines[k]
    {
      RowBounds(content, lines, k, pos);
      var newline := RFindChar(content, '\n', 0, pos);
      lineStart := if newline < 0 then 0 else newline + 1;
      newline := FindChar(content, '\n', pos, |content|);
      lineEnd := if newline < 0 then |content| else newline;
    }

    /** Substring search over the raw bytes: the rows with the value as a whole path column. */
    method FindRowsContainingValue(value: string, ghost lines: seq<string>) returns (result: seq<string>)
      requires Table(content, lines) && lines != []
      requires Column(value) && value != ""
      ensures result == HitLines(lines, value)
    {
      TableEnds(content, lines);
      result := [];
      var valueLen := |value|;
      var contentLen := |content|;
      var contentPos := 0;
      ghost var m: nat := 0;
      while contentPos < contentLen
        invariant 0 <= contentPos
        invariant Scanned(content, lines, value, contentPos, m, result)
        decreases contentLen - contentPos
      {
        var pos := Find(content, value, contentPos);
        if pos < 0 {
          break;
        }
        OccurrenceStopsShort(content, value, pos);
        var mismatch := pos == 0 || content[pos - 1] != '\t' || content[pos + valueLen] !in "\t\n";
        assert mismatch <==> !Hit(content, value, pos);
        if mismatch {
          ScanMiss(content, lines, value, contentPos, m, result, pos);
          contentPos := pos + valueLen;
          continue;
        }
        ghost var k := ScanHit(content, lines, value, contentPos, m, result, pos);
        var lineStart, lineEnd := RowAround(pos, lines, k);
        result := result + [Slice(content, lineStart, lineEnd)];
        contentPos := lineEnd;
        m := k + 1;
      }
      ScanDone(content, lines, value, contentPos, m, result);
    }

    method PathToGnLabel(path: string, ghost items: seq<Row>) returns (gnLabel: string)
      requires DistinctLabels(items) && CleanRows(items)
      requires content == Content(SortByLabel(items))
      requires Column(path) && path != ""
      ensures Owned(items, path) ==> IsLeastOwner(items, path, gnLabel)
      ensures !Owned(items, path) ==> gnLabel == ""
    {
      ghost var rows := SortByLabel(items);
      SortByLabelSorts(items);
      ContentIsTable(rows);
      TableHitsMatch(rows, path);
      FirstMatchIsLeast(items, path);
      var lines := FindRowsContainingValue(path, TableLines(rows));
      if lines != [] {
        RowTextColumns(Matching(rows, path)[0]);
        var columns := Split(lines[0], '\t');
        return columns[0];
      }
      gnLabel := "";
    }
  }

  /** A saved database is accepted when it is loaded, and has the content it was saved with. */
  method SaveAndLoad(db: NinjaOutputsTabular) returns (ok: bool, copy: NinjaOutputsTabular)
    ensures ok && copy.content == db.content
  {
    var file := db.SaveToFile();
    copy := new NinjaOutputsTabular();
    ok := copy.LoadFromFile(file);
    FilesTellApart(copy.content, db.content);
  }

  // ---- the two databases side by side

  /** Bisecting the table answers like the dictionary, for known and unknown labels alike, except
      that a label listed without any path reads back as having one empty path. */
  method LookupsAgree(items: seq<Row>, gnLabel: string) returns (viaTable: seq<string>, viaDict: seq<string>)
    requires DistinctLabels(items) && CleanRows(items)
    ensures viaDict == PathsOf(items, gnLabel)
    ensures viaTable == viaDict <==> !exists r :: r in items && r.gnLabel == gnLabel && r.paths == []
  {
    var table := new NinjaOutputsTabular();
    table.LoadFromJson(items);
    viaTable := table.GnLabelToPaths(gnLabel, items);
    var dict := new NinjaOutputsJSON();
    dict.LoadFromJson(items);
    viaDict := dict.GnLabelToPaths(gnLabel);
  }

  /** Searching the table names the owner with the least label, the dictionary the one listed last;
      they agree exactly when these are the same, so always when a path has one owner. */
  method OwnersAgree(items: seq<Row>, path: string) returns (viaTable: string, viaDict: string)
    requires DistinctLabels(items) && CleanRows(items)
    requires Column(path) && path != ""
    ensures Owned(items, path) ==> IsLeastOwner(items, path, viaTable)
    ensures viaDict == LastOwner(items, path)
    ensures viaTable == viaDict <==> (Owned(items, path) ==> IsLeastOwner(items, path, viaDict))
    ensures (forall r, s :: r in items && s in items && path in r.paths && path in s.paths ==> r == s) ==>
              viaTable == viaDict
  {
    var table := new NinjaOutputsTabular();
    table.LoadFromJson(items);
    viaTable := table.PathToGnLabel(path, items);
    var dict := new NinjaOutputsJSON();
    dict.LoadFromJson(items);
    viaDict := dict.PathToGnLabel(path);
    LastOwnerOwns(items, path);
    if Owned(items, path) { LessTotal(viaTable, viaDict); }
  }

  /** Two owners listed in ascending label order: the table names the first, the dictionary the second. */
  lemma {:induction false} OwnersCanDiffer()
    ensures var items := [Row("//a", ["out"]), Row("//b", ["out"])];
            && DistinctLabels(items) && CleanRows(items)
            && LastOwner(items, "out") == "//b" && !IsLeastOwner(items, "out", "//b")
  {
    var items := [Row("//a", ["out"]), Row("//b", ["out"])];
    assert items[0] in items;
    LessTotal("//a", "//b");
    assert "//a"[2] == 'a' && "//b"[2] == 'b';
  }
}
