/** The plain dictionary of Ninja outputs, and what its two lookups mean. A JSON file is the list of its entries. */
module NinjaDictionary {
  import opened Text
  import opened TabularFormat

  // ---- what the answers mean, independently of either representation

  /** `dict.get(gnLabel, [])` on the entries. */
  function PathsOf(items: seq<Row>, gnLabel: string): seq<string> {
    if items == [] then []
    else if items[0].gnLabel == gnLabel then items[0].paths
    else PathsOf(items[1..], gnLabel)
  }

  lemma {:induction false} PathsOfEntry(items: seq<Row>, r: Row)
    requires DistinctLabels(items) && r in items
    ensures PathsOf(items, r.gnLabel) == r.paths
  {
    if items[0] != r {
      assert r in items[1..];
      PathsOfEntry(items[1..], r);
    }
  }

  lemma {:induction false} PathsOfUnknown(items: seq<Row>, gnLabel: string)
    requires forall r :: r in items ==> r.gnLabel != gnLabel
    ensures PathsOf(items, gnLabel) == []
  {
    if items != [] { PathsOfUnknown(items[1..], gnLabel); }
  }

  /** The label of the last entry that lists the path: what the dictionary class keeps. */
  function LastOwner(items: seq<Row>, path: string): string {
    if items == [] then ""
    else
      var last := items[|items| - 1];
      if path in last.paths then last.gnLabel else LastOwner(items[..|items| - 1], path)
  }

  /** `gnLabel` owns the path and no owner has a smaller label. */
  ghost predicate IsLeastOwner(items: seq<Row>, path: string, gnLabel: string) {
    && (exists r :: r in items && path in r.paths && r.gnLabel == gnLabel)
    && forall r :: r in items && path in r.paths ==> r.gnLabel == gnLabel || Less(gnLabel, r.gnLabel)
  }

  ghost predicate Owned(items: seq<Row>, path: string) {
    exists r :: r in items && path in r.paths
  }

  lemma {:induction false} LastOwnerOwns(items: seq<Row>, path: string)
    ensures Owned(items, path) ==>
              exists r :: r in items && path in r.paths && r.gnLabel == LastOwner(items, path)
    ensures !Owned(items, path) ==> LastOwner(items, path) == ""
  {
    if items != [] {
      var n := |items| - 1;
      LastOwnerOwns(items[..n], path);
      assert forall r :: r in items <==> r in items[..n] || r == items[n];
      if path !in items[n].paths && Owned(items[..n], path) {
        var r :| r in items[..n] && path in r.paths && r.gnLabel == LastOwner(items[..n], path);
        assert r in items;
      }
    }
  }

  // ---- the dictionary class

  ghost predicate IsPathMap(m: map<string, string>, items: seq<Row>) {
    && (forall p :: p in m <==> Owned(items, p))
    && forall p :: p in m ==> m[p] == LastOwner(items, p)
  }

  /** m2 is m with every one of the paths sent to gnLabel. */
  ghost predicate IsOverlay(m2: map<string, string>, m: map<string, string>, paths: seq<string>, gnLabel: string) {
    && (forall p :: p in m2 <==> p in m || p in paths)
    && forall p :: p in m2 ==> m2[p] == if p in paths then gnLabel else m[p]
  }

  class NinjaOutputsJSON {
    var labelToPaths: seq<Row>
    var pathToLabel: map<string, string>

    constructor ()
      ensures labelToPaths == [] && pathToLabel == map[]
    {
      labelToPaths := [];
      pathToLabel := map[];
    }

    method LoadFromJson(items: seq<Row>)
      modifies this
      ensures labelToPaths == items && IsPathMap(pathToLabel, items)
    {
      labelToPaths := items;
      ComputePathMap();
    }

    /** The inner loop of the path map's construction: one entry's paths. */
    method AddPaths(r: Row)
      modifies this`pathToLabel
      ensures IsOverlay(pathToLabel, old(pathToLabel), r.paths, r.gnLabel)
    {
      for j := 0 to |r.paths|
        invariant IsOverlay(pathToLabel, old(pathToLabel), r.paths[..j], r.gnLabel)
      {
        pathToLabel := pathToLabel[r.paths[j] := r.gnLabel];
        assert r.paths[..j + 1] == r.paths[..j] + [r.paths[j]];
      }
      assert r.paths[..|r.paths|] == r.paths;
    }

    method ComputePathMap()
      modifies this`pathToLabel
      ensures IsPathMap(pathToLabel, labelToPaths)
    {
      pathToLabel := map[];
      for i := 0 to |labelToPaths|
        invariant IsPathMap(pathToLabel, labelToPaths[..i])
      {
        var r := labelToPaths[i];
        ghost var before := pathToLabel;
        AddPaths(r);
        assert labelToPaths[..i + 1] == labelToPaths[..i] + [r];
      }
      assert labelToPaths[..|labelToPaths|] == labelToPaths;
    }

    /** The paths of the one entry with this label, or none. */
    method GnLabelToPaths(gnLabel: string) returns (paths: seq<string>)
      ensures paths == PathsOf(labelToPaths, gnLabel)
      ensures DistinctLabels(labelToPaths) ==>
                forall r :: r in labelToPaths && r.gnLabel == gnLabel ==> paths == r.paths
      ensures (forall r :: r in labelToPaths ==> r.gnLabel != gnLabel) ==> paths == []
    {
      if forall r :: r in labelToPaths ==> r.gnLabel != gnLabel { PathsOfUnknown(labelToPaths, gnLabel); }
      forall r | DistinctLabels(labelToPaths) && r in labelToPaths ensures PathsOf(labelToPaths, r.gnLabel) == r.paths {
        PathsOfEntry(labelToPaths, r);
      }
      paths := PathsOf(labelToPaths, gnLabel);
    }

    /** Of the entries that list the path, the label of the last, or "". */
    method PathToGnLabel(path: string) returns (gnLabel: string)
      requires IsPathMap(pathToLabel, labelToPaths)
      ensures gnLabel == LastOwner(labelToPaths, path)
      ensures Owned(labelToPaths, path) ==>
                exists r :: r in labelToPaths && path in r.paths && r.gnLabel == gnLabel
      ensures !Owned(labelToPaths, path) ==> gnLabel == ""
    {
      LastOwnerOwns(labelToPaths, path);
      gnLabel := if path in pathToLabel then pathToLabel[path] else "";
    }
  }
}
