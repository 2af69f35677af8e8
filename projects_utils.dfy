/** Project helpers: path joining, the solar-systems folder, the validation of
    new-project options and the scan that lists the projects on disk. */
module ProjectsUtils {
  import opened Wrappers
  import opened Text

  /** A directory entry as `os.ReadDir` reports it. */
  datatype DirEntry = DirEntry(name: string, isDir: bool)

  /** The parts that are not empty, in order. */
  function NonEmpty(parts: seq<string>): (r: seq<string>)
    ensures |r| <= |parts|
    ensures forall k :: 0 <= k < |r| ==> r[k] != ""
  {
    if parts == [] then []
    else (if parts[0] == "" then [] else [parts[0]]) + NonEmpty(parts[1..])
  }

  /** `filepath.Join` of clean parts: the non-empty ones, separated by `/`. */
  function PathJoin(parts: seq<string>): string {
    Join(NonEmpty(parts), "/")
  }

  /** Joining a part in front of clean non-empty parts. */
  lemma PathJoinCons(first: string, rest: seq<string>)
    requires rest != [] && NonEmpty(rest) == rest
    ensures first != "" ==> PathJoin([first] + rest) == first + "/" + PathJoin(rest)
    ensures first == "" ==> PathJoin([first] + rest) == PathJoin(rest)
  {
    var parts := [first] + rest;
    assert parts != [] && parts[0] == first && parts[1..] == rest;
    assert NonEmpty(parts) == (if first == "" then [] else [first]) + NonEmpty(rest);
    if first == "" {
      assert NonEmpty(parts) == NonEmpty(rest);
    }
  }

  /** `getSolarDir`: the `genesis/solar-systems` folder under the projects
      folder. */
  function SolarDir(projectsDir: string): string {
    PathJoin([projectsDir, "genesis", "solar-systems"])
  }

  lemma SolarDirPath(projectsDir: string)
    ensures projectsDir != "" ==> SolarDir(projectsDir) == projectsDir + "/genesis/solar-systems"
    ensures projectsDir == "" ==> SolarDir(projectsDir) == "genesis/solar-systems"
  {
    var tail := ["genesis", "solar-systems"];
    SolarTail();
    PathJoinCons(projectsDir, tail);
    assert [projectsDir, "genesis", "solar-systems"] == [projectsDir] + tail;
    var joined := "genesis/solar-systems";
    assert "/" + joined == "/genesis/solar-systems";
    assert projectsDir + "/" + joined == projectsDir + ("/" + joined);
  }

  lemma SolarTail()
    ensures NonEmpty(["genesis", "solar-systems"]) == ["genesis", "solar-systems"]
    ensures PathJoin(["genesis", "solar-systems"]) == "genesis/solar-systems"
  {
    var tail := ["genesis", "solar-systems"];
    assert tail[1..] == ["solar-systems"];
    assert ["solar-systems"][1..] == [];
  }

  datatype NewProjectOptions = NewProjectOptions(dir: string, name: string, database: string, description: string)

  const EmptyDir := "❌ Project directory cannot be empty"
  const EmptyName := "❌ Project name cannot be empty"
  const EmptyDatabase := "❌ Database name cannot be empty"

  /** `validateProjectOptions`: the directory, then the name, then the
      database must be given; the description may be empty. */
  function ValidateProjectOptions(o: NewProjectOptions): (err: Option<string>)
    ensures err.None? <==> o.dir != "" && o.name != "" && o.database != ""
    ensures o.dir == "" ==> err == Some(EmptyDir)
    ensures o.dir != "" && o.name == "" ==> err == Some(EmptyName)
    ensures o.dir != "" && o.name != "" && o.database == "" ==> err == Some(EmptyDatabase)
  {
    if |o.dir| == 0 then Some(EmptyDir)
    else if |o.name| == 0 then Some(EmptyName)
    else if |o.database| == 0 then Some(EmptyDatabase)
    else None
  }

  /** The contents of a `project.json`. */
  datatype ProjectData = ProjectData(name: string, database: string, description: string)

  /** A listed project: its directory name and its `project.json`. */
  datatype ProjectInfo = ProjectInfo(dir: string, project: ProjectData)

  /** The projects a scan lists: the directories, in listing order, whose
      `project.json` read and parsed (`parsed` maps each such directory name
      to its contents). */
  function Included(entries: seq<DirEntry>, parsed: map<string, ProjectData>): seq<ProjectInfo> {
    if entries == [] then []
    else
      var e := entries[|entries| - 1];
      Included(entries[..|entries| - 1], parsed)
        + (if e.isDir && e.name in parsed then [ProjectInfo(e.name, parsed[e.name])] else [])
  }

  /** A project is listed exactly when its directory is listed and its
      `project.json` parsed, under the directory's own name. */
  lemma {:induction false} IncludedExactly(entries: seq<DirEntry>, parsed: map<string, ProjectData>)
    ensures |Included(entries, parsed)| <= |entries|
    ensures forall p :: p in Included(entries, parsed) <==>
      DirEntry(p.dir, true) in entries && p.dir in parsed && p.project == parsed[p.dir]
  {
    if entries != [] {
      var init := entries[..|entries| - 1];
      IncludedExactly(init, parsed);
      assert entries == init + [entries[|entries| - 1]];
    }
  }

  /** Scanning a listing with more entries keeps the projects found so far,
      in the same order, ahead of the new ones. */
  lemma {:induction false} IncludedConcat(a: seq<DirEntry>, b: seq<DirEntry>, parsed: map<string, ProjectData>)
    ensures Included(a + b, parsed) == Included(a, parsed) + Included(b, parsed)
    decreases |b|
  {
    if b == [] {
      assert a + b == a;
    } else {
      var init := b[..|b| - 1];
      IncludedConcat(a, init, parsed);
      assert (a + b)[..|a + b| - 1] == a + init;
    }
  }

  /** `getProjectMetadata`, given the directory listing or why it could not
      be read. */
  method GetProjectMetadata(listing: Result<seq<DirEntry>>, parsed: map<string, ProjectData>)
    returns (r: Result<seq<ProjectInfo>>)
    ensures listing.Err? ==> r == Err(listing.msg)
    ensures listing.Ok? ==> r == Ok(Included(listing.value, parsed))
  {
    if listing.Err? {
      return Err(listing.msg);
    }
    var entries := listing.value;
    var projects: seq<ProjectInfo> := [];
    for i := 0 to |entries|
      invariant projects == Included(entries[..i], parsed)
    {
      var entry := entries[i];
      if entry.isDir {
        if entry.name in parsed {
          projects := projects + [ProjectInfo(entry.name, parsed[entry.name])];
        }
      }
      assert entries[..i + 1][..i] == entries[..i];
    }
    assert entries[..|entries|] == entries;
    r := Ok(projects);
  }
}
