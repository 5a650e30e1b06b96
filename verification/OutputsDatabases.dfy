/** The lazily regenerated database of a build directory: when the saved table is
    reused, when it is rebuilt, and why a reused one is never stale. */
module OutputsDatabases {
  import opened Text
  import opened TabularFormat
  import opened NinjaDictionary
  import opened NinjaOutputs

  datatype Stamped<+T> = Stamped(data: T, mtime: int)

  /** The two files of the build directory: the JSON entries and the saved table. */
  datatype Files = Files(json: Option<Stamped<seq<Row>>>, tab: Option<Stamped<string>>)

  /** The table a fresh conversion of the JSON file would hold. */
  function Fresh(items: seq<Row>): string {
    Content(SortByLabel(items))
  }

  /** `load` reuses the saved table: it exists and is not older than the JSON file. */
  predicate Reuses(f: Files) {
    f.json.Some? && f.tab.Some? && f.tab.value.mtime >= f.json.value.mtime
  }

  /** The files after a `load` whose own write, if any, happens at time `now`. */
  function AfterLoad(f: Files, now: int): Files {
    if f.json.None? then f.(tab := None)
    else if Reuses(f) then f
    else f.(tab := Some(Stamped(FileOf(Fresh(f.json.value.data)), now)))
  }

  class BuildDir {
    var files: Files

    constructor (files: Files)
      ensures this.files == files
    {
      this.files := files;
    }
  }

  class OutputsDatabase {
    var database: NinjaOutputsTabular?

    constructor ()
      ensures database == null
    {
      database := null;
    }

    method Load(dir: BuildDir, now: int) returns (ok: bool)
      modifies this, dir
      ensures ok == old(dir.files.json.Some?)
      ensures dir.files == AfterLoad(old(dir.files), now)
      ensures !ok ==> database == old(database)
      ensures ok ==> database != null && fresh(database)
      ensures ok && Trusted(old(dir.files)) ==>
                database.content == Fresh(old(dir.files).json.value.data)
    {
      var f := dir.files;
      if f.json.None? {
        dir.files := f.(tab := None);
        return false;
      }
      var table := new NinjaOutputsTabular();
      database := table;
      if f.tab.None? || f.tab.value.mtime < f.json.value.mtime {
        table.LoadFromJson(f.json.value.data);
        var saved := table.SaveToFile();
        dir.files := f.(tab := Some(Stamped(saved, now)));
      } else {
        var _ := table.LoadFromFile(f.tab.value.data);
        if Trusted(f) { FilesTellApart(table.content, Fresh(f.json.value.data)); }
      }
      return true;
    }
  }

  /** A table that would be reused is the conversion of the JSON file it would be reused for. */
  ghost predicate Trusted(f: Files) {
    Reuses(f) ==> f.tab.value.data == FileOf(Fresh(f.json.value.data))
  }

  // ---- runs

  datatype Event =
    | WriteJson(items: seq<Row>, at: int)
    | DeleteJson
    | Load(at: int)

  function Step(f: Files, e: Event): Files {
    match e
    case WriteJson(items, at) => f.(json := Some(Stamped(items, at)))
    case DeleteJson => f.(json := None)
    case Load(at) => AfterLoad(f, at)
  }

  function Run(f: Files, events: seq<Event>): Files {
    if events == [] then f
    else Step(Run(f, events[..|events| - 1]), events[|events| - 1])
  }

  ghost predicate NoLaterThan(f: Files, clock: int) {
    && (f.json.Some? ==> f.json.value.mtime <= clock)
    && (f.tab.Some? ==> f.tab.value.mtime <= clock)
  }

  /** The time of the last write among the events, given the time before them. */
  function Clock(events: seq<Event>, start: int): int {
    if events == [] then start
    else
      var e := events[|events| - 1];
      if e.DeleteJson? then Clock(events[..|events| - 1], start) else e.at
  }

  /** Every write gets a strictly later timestamp than all before it. */
  predicate StampsIncrease(events: seq<Event>, start: int) {
    events != [] ==>
      var init, e := events[..|events| - 1], events[|events| - 1];
      StampsIncrease(init, start) && (e.DeleteJson? || Clock(init, start) < e.at)
  }

  /** In every run the saved table stays trustworthy ... */
  lemma {:induction false} RunKeepsTrust(f: Files, events: seq<Event>, start: int)
    requires Trusted(f) && NoLaterThan(f, start)
    requires StampsIncrease(events, start)
    ensures Trusted(Run(f, events)) && NoLaterThan(Run(f, events), Clock(events, start))
  {
    if events != [] {
      RunKeepsTrust(f, events[..|events| - 1], start);
    }
  }

  /** ... so a successful load at the end of any run answers every query, by label and by path, like the current
      JSON. */
  method LoadAndQuery(start: Files, events: seq<Event>, clock: int, now: int, gnLabel: string, path: string)
    returns (ok: bool, paths: seq<string>, owner: string)
    requires Trusted(start) && NoLaterThan(start, clock) && StampsIncrease(events, clock)
    requires var f := Run(start, events);
             f.json.Some? ==> DistinctLabels(f.json.value.data) && CleanRows(f.json.value.data)
    requires Column(path) && path != ""
    ensures ok == Run(start, events).json.Some?
    ensures ok ==>
              var items := Run(start, events).json.value.data;
              && ((forall r :: r in items && r.gnLabel == gnLabel ==> r.paths != []) ==>
                    paths == PathsOf(items, gnLabel))
              && (Owned(items, path) ==> IsLeastOwner(items, path, owner))
              && (!Owned(items, path) ==> owner == "")
  {
    var f := Run(start, events);
    RunKeepsTrust(start, events, clock);
    var dir := new BuildDir(f);
    var db := new OutputsDatabase();
    ok := db.Load(dir, now);
    paths, owner := [], "";
    if ok {
      paths := db.database.GnLabelToPaths(gnLabel, f.json.value.data);
      owner := db.database.PathToGnLabel(path, f.json.value.data);
    }
  }

  /** A rewrite of the JSON file is seen exactly when its timestamp is later than the table's
      (or it changes nothing): with an equal timestamp the old table is reused. */
  lemma RewriteIsSeen(f: Files, items: seq<Row>, at: int, now: int)
    requires Trusted(f) && Reuses(f)
    ensures var g := Step(Step(f, WriteJson(items, at)), Load(now));
            g.tab.value.data == FileOf(Fresh(items)) <==>
            at > f.tab.value.mtime || Fresh(items) == Fresh(f.json.value.data)
  {
    var a, b := Fresh(items), Fresh(f.json.value.data);
    if FileOf(a) == FileOf(b) { FilesTellApart(a, b); }
  }
}
