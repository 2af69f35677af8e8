/** The planets (client apps) of a project: the accepted planet types, the
    project's `planets` folder and what is done to it, the active-planet
    listing and the dev-server shutdown. */
module Clients {
  import opened Wrappers
  import opened Text
  import opened ProjectsUtils
  import opened ClientsUtils

  /** The planet types, in the order the listing reports them. */
  const PlanetTypes: seq<string> := ["web", "mobile", "desktop"]

  /** The template each planet type is cloned from. */
  const PlanetRepos: map<string, string> := map[
    "web" := "https://github.com/brightsidedeveloper/bsd-planet-web.git",
    "mobile" := "https://github.com/brightsidedeveloper/bsd-planet-mobile.git",
    "desktop" := "https://github.com/brightsidedeveloper/bsd-planet-desktop.git"
  ]

  /** The planet-type check every planet operation makes first. */
  predicate ValidPlanet(planetType: string) {
    planetType in PlanetRepos
  }

  /** Exactly the three listed planet types are accepted. */
  lemma ValidPlanetTypes(planetType: string)
    ensures ValidPlanet(planetType) <==> planetType in PlanetTypes
  {
  }

  function InvalidPlanet(planetType: string): string {
    "❌ Invalid planet type: " + planetType + ". Must be 'web', 'mobile', or 'desktop'"
  }

  function NoSuchPlanet(planetType: string, dir: string): string {
    "❌ Planet '" + planetType + "' does not exist in project '" + dir + "'"
  }

  function PlanetExists(planetType: string, dir: string): string {
    "❌ Planet '" + planetType + "' already exists in project '" + dir + "'"
  }

  function StoppedMessage(planetType: string, dir: string): string {
    "✅ Dev server stopped for '" + planetType + "' in project '" + dir + "'"
  }

  const CloneFailed := "❌ Failed to clone planet template: "
  const OpenFailed := "❌ Failed to open VS Code: "
  const PsFailed := "❌ Failed to fetch process list: "

  /** `ClientApp`: a planet type and whether its folder is there. */
  datatype ClientApp = ClientApp(planetType: string, present: bool)

  /** Some entry of the listing is a directory called `name`. */
  predicate HasDir(entries: seq<DirEntry>, name: string) {
    exists k :: 0 <= k < |entries| && entries[k].isDir && entries[k].name == name
  }

  /** Some entry of the listing, of any kind, is called `name`. */
  predicate HasEntry(entries: seq<DirEntry>, name: string) {
    exists k :: 0 <= k < |entries| && entries[k].name == name
  }

  lemma HasDirSnoc(entries: seq<DirEntry>, e: DirEntry)
    ensures forall name :: HasDir(entries + [e], name) <==> HasDir(entries, name) || (e.isDir && e.name == name)
  {
    forall name | HasDir(entries, name) ensures HasDir(entries + [e], name) {
      var k :| 0 <= k < |entries| && entries[k].isDir && entries[k].name == name;
      assert (entries + [e])[k] == entries[k];
    }
    forall name | e.isDir && e.name == name ensures HasDir(entries + [e], name) {
      assert (entries + [e])[|entries|] == e;
    }
  }

  /** The entries not called `name`, in order. */
  function Without(entries: seq<DirEntry>, name: string): (r: seq<DirEntry>)
    ensures forall e :: e in r <==> e in entries && e.name != name
  {
    if entries == [] then []
    else (if entries[0].name == name then [] else [entries[0]]) + Without(entries[1..], name)
  }

  /** A project's `planets` folder: `None` while it does not exist, otherwise
      its entries. */
  class PlanetsFolder {
    const dir: string
    var listing: Option<seq<DirEntry>>

    constructor (projectDir: string, initial: Option<seq<DirEntry>>)
      ensures dir == projectDir && listing == initial
    {
      dir := projectDir;
      listing := initial;
    }

    /** `os.Stat` of the planet's folder succeeds. */
    predicate Present(planetType: string)
      reads this
    {
      listing.Some? && HasEntry(listing.value, planetType)
    }

    /** The guard of the operations on an existing planet: a valid type, then
        a folder that exists. */
    function PlanetCheck(planetType: string): (err: Option<string>)
      reads this
      ensures err.None? <==> ValidPlanet(planetType) && Present(planetType)
      ensures !ValidPlanet(planetType) ==> err == Some(InvalidPlanet(planetType))
    {
      if !ValidPlanet(planetType) then Some(InvalidPlanet(planetType))
      else if !Present(planetType) then Some(NoSuchPlanet(planetType, dir))
      else None
    }

    /** `GetActivePlanets`: the three planet types in order, each marked
        present exactly when a directory of that name is in the folder; a
        missing folder marks none. */
    method GetActivePlanets() returns (planets: seq<ClientApp>)
      ensures |planets| == 3
      ensures forall k :: 0 <= k < 3 ==> planets[k].planetType == PlanetTypes[k]
      ensures forall k :: 0 <= k < 3 ==>
        (planets[k].present <==> listing.Some? && HasDir(listing.value, PlanetTypes[k]))
    {
      planets := [ClientApp("web", false), ClientApp("mobile", false), ClientApp("desktop", false)];
      if listing.None? {
        return;
      }
      var entries := listing.value;
      var i := 0;
      while i < |entries|
        invariant 0 <= i <= |entries| && |planets| == 3
        invariant forall k :: 0 <= k < 3 ==> planets[k].planetType == PlanetTypes[k]
        invariant forall k :: 0 <= k < 3 ==> (planets[k].present <==> HasDir(entries[..i], PlanetTypes[k]))
      {
        var entry := entries[i];
        HasDirSnoc(entries[..i], entry);
        assert entries[..i + 1] == entries[..i] + [entry];
        if entry.isDir {
          var j := 0;
          while j < 3
            invariant 0 <= j <= 3 && |planets| == 3
            invariant forall k :: 0 <= k < 3 ==> planets[k].planetType == PlanetTypes[k]
            invariant forall k :: 0 <= k < j ==> (planets[k].present <==> HasDir(entries[..i + 1], PlanetTypes[k]))
            invariant forall k :: j <= k < 3 ==> (planets[k].present <==> HasDir(entries[..i], PlanetTypes[k]))
          {
            if planets[j].planetType == entry.name {
              planets := planets[j := planets[j].(present := true)];
            }
            j := j + 1;
          }
        }
        i := i + 1;
      }
      assert entries[..i] == entries;
    }

    /** `AddPlanetToProject`, given how the clone ended: an invalid type is
        refused before the folder is touched; the folder is created when
        missing; an existing planet is refused; a successful clone adds the
        planet's directory. */
    method AddPlanetToProject(planetType: string, cloneError: Option<string>) returns (err: Option<string>)
      modifies this
      ensures !ValidPlanet(planetType) ==> err == Some(InvalidPlanet(planetType)) && listing == old(listing)
      ensures ValidPlanet(planetType) && old(Present(planetType)) ==>
        err == Some(PlanetExists(planetType, dir)) && listing == old(listing)
      ensures ValidPlanet(planetType) && !old(Present(planetType)) && cloneError.Some? ==>
        err == Some(CloneFailed + cloneError.value)
        && listing == Some(if old(listing).Some? then old(listing).value else [])
      ensures ValidPlanet(planetType) && !old(Present(planetType)) && cloneError.None? ==>
        err.None? && listing == Some((if old(listing).Some? then old(listing).value else []) + [DirEntry(planetType, true)])
      ensures err.None? ==> Present(planetType)
    {
      if !ValidPlanet(planetType) {
        return Some(InvalidPlanet(planetType));
      }
      if listing.None? {
        listing := Some([]);
      }
      if HasEntry(listing.value, planetType) {
        return Some(PlanetExists(planetType, dir));
      }
      if cloneError.Some? {
        return Some(CloneFailed + cloneError.value);
      }
      var entries := listing.value;
      listing := Some(entries + [DirEntry(planetType, true)]);
      assert (entries + [DirEntry(planetType, true)])[|entries|].name == planetType;
      err := None;
    }

    /** `DeletePlanet`: the guard, then the planet's folder is removed. */
    method DeletePlanet(planetType: string) returns (err: Option<string>)
      modifies this
      ensures err == old(PlanetCheck(planetType))
      ensures err.Some? ==> listing == old(listing)
      ensures err.None? ==> listing == Some(Without(old(listing).value, planetType)) && !Present(planetType)
    {
      err := PlanetCheck(planetType);
      if err.Some? {
        return;
      }
      var rest := Without(listing.value, planetType);
      listing := Some(rest);
      forall k | 0 <= k < |rest| ensures rest[k].name != planetType {
        assert rest[k] in rest;
      }
    }

    /** `OpenPlanetInVSCode`, given whether the editor process started. */
    method OpenPlanetInVSCode(planetType: string, startError: Option<string>) returns (err: Option<string>)
      ensures PlanetCheck(planetType).Some? ==> err == PlanetCheck(planetType)
      ensures PlanetCheck(planetType).None? ==> err == if startError.Some? then Some(OpenFailed + startError.value) else None
    {
      err := PlanetCheck(planetType);
      if err.Some? {
        return;
      }
      if startError.Some? {
        return Some(OpenFailed + startError.value);
      }
    }

    /** `RunBash`, given what the command printed: the guard's message, or
        the output. */
    method RunBash(planetType: string, output: string) returns (text: string)
      ensures PlanetCheck(planetType).Some? ==> text == PlanetCheck(planetType).value
      ensures PlanetCheck(planetType).None? ==> text == output
    {
      var err := PlanetCheck(planetType);
      if err.Some? {
        return err.value;
      }
      text := output;
    }

    /** `StartDevServer`, given the log the server printed in its first
        seconds: the guard, then the log, and the URL the browser is sent to. */
    method StartDevServer(planetType: string, logs: string) returns (r: Result<string>, url: string)
      ensures PlanetCheck(planetType).Some? ==> r == Err(PlanetCheck(planetType).value) && url == ""
      ensures PlanetCheck(planetType).None? ==> r == Ok(logs) && url == ExtractLocalURL(logs)
      ensures url != "" ==> IsLocalURL(url) && Contains(logs, url)
    {
      var err := PlanetCheck(planetType);
      if err.Some? {
        return Err(err.value), "";
      }
      url := ExtractLocalURL(logs);
      r := Ok(logs);
    }
  }

  /** The folder of a project's planet. */
  function PlanetPath(projectsDir: string, dir: string, planetType: string): string {
    PathJoin([SolarDir(projectsDir), dir, "planets", planetType])
  }

  /** The PID `StopDevServer` takes from one `ps` line: the second field of a
      line that mentions the path and has more than one field. */
  function PidOf(line: string, planetPath: string): (r: seq<string>)
    ensures |r| <= 1
  {
    if Contains(line, planetPath) && |Fields(line, GoSpace)| > 1 then [Fields(line, GoSpace)[1]] else []
  }

  /** The PIDs taken from the lines, in order. */
  function Pids(lines: seq<string>, planetPath: string): seq<string> {
    if lines == [] then []
    else Pids(lines[..|lines| - 1], planetPath) + PidOf(lines[|lines| - 1], planetPath)
  }

  /** Every PID is a whitespace-free word taken as the second field of a line
      that mentions the path; every such line gives one. */
  lemma PidsExactly(lines: seq<string>, planetPath: string)
    ensures forall p :: p in Pids(lines, planetPath) ==> IsWord(p, GoSpace)
    ensures forall p :: p in Pids(lines, planetPath) ==>
      exists line :: line in lines && Contains(line, planetPath) && |Fields(line, GoSpace)| > 1 && Fields(line, GoSpace)[1] == p
    ensures forall line :: line in lines && Contains(line, planetPath) && |Fields(line, GoSpace)| > 1 ==>
      Fields(line, GoSpace)[1] in Pids(lines, planetPath)
  {
    PidsFromLines(lines, planetPath);
    LinesGivePids(lines, planetPath);
  }

  lemma {:induction false} PidsFromLines(lines: seq<string>, planetPath: string)
    ensures forall p :: p in Pids(lines, planetPath) ==> IsWord(p, GoSpace)
    ensures forall p :: p in Pids(lines, planetPath) ==>
      exists line :: line in lines && Contains(line, planetPath) && |Fields(line, GoSpace)| > 1 && Fields(line, GoSpace)[1] == p
  {
    if lines != [] {
      var n := |lines| - 1;
      var init, last := lines[..n], lines[n];
      PidsFromLines(init, planetPath);
      var ps := Pids(lines, planetPath);
      assert ps == Pids(init, planetPath) + PidOf(last, planetPath);
      forall p | p in ps
        ensures IsWord(p, GoSpace)
        ensures exists line :: line in lines && Contains(line, planetPath) && |Fields(line, GoSpace)| > 1 && Fields(line, GoSpace)[1] == p
      {
        if p in Pids(init, planetPath) {
          var line :| line in init && Contains(line, planetPath) && |Fields(line, GoSpace)| > 1 && Fields(line, GoSpace)[1] == p;
          assert line in lines;
        } else {
          assert p == Fields(last, GoSpace)[1];
          assert last in lines;
        }
      }
    }
  }

  lemma LinesGivePids(lines: seq<string>, planetPath: string)
    ensures forall line :: line in lines && Contains(line, planetPath) && |Fields(line, GoSpace)| > 1 ==>
      Fields(line, GoSpace)[1] in Pids(lines, planetPath)
  {
    forall line | line in lines && Contains(line, planetPath) && |Fields(line, GoSpace)| > 1
      ensures Fields(line, GoSpace)[1] in Pids(lines, planetPath)
    {
      var i :| 0 <= i < |lines| && lines[i] == line;
      LineGivesPid(lines, planetPath, i);
    }
  }

  lemma {:induction false} LineGivesPid(lines: seq<string>, planetPath: string, i: int)
    requires 0 <= i < |lines| && PidOf(lines[i], planetPath) != []
    ensures PidOf(lines[i], planetPath)[0] in Pids(lines, planetPath)
    decreases |lines|
  {
    var n := |lines| - 1;
    var init := Pids(lines[..n], planetPath);
    var last := PidOf(lines[n], planetPath);
    assert Pids(lines, planetPath) == init + last;
    if i < n {
      assert lines[..n][i] == lines[i];
      LineGivesPid(lines[..n], planetPath, i);
      assert PidOf(lines[i], planetPath)[0] in init;
    } else {
      assert last[0] in init + last;
    }
  }

  /** `StopDevServer`, given what `ps aux` printed or why it failed: every
      PID found is killed; the result is empty when none was, otherwise the
      success message. */
  method StopDevServer(projectsDir: string, dir: string, planetType: string, ps: Result<string>)
    returns (r: Result<string>, killed: seq<string>)
    ensures ps.Err? ==> r == Err(PsFailed + ps.msg) && killed == []
    ensures ps.Ok? ==> killed == Pids(Split(ps.value, '\n'), PlanetPath(projectsDir, dir, planetType))
    ensures ps.Ok? ==> r == Ok(if killed == [] then "" else StoppedMessage(planetType, dir))
  {
    var planetPath := PlanetPath(projectsDir, dir, planetType);
    killed := [];
    if ps.Err? {
      return Err(PsFailed + ps.msg), [];
    }
    var lines := Split(ps.value, '\n');
    var processKilled := false;
    for i := 0 to |lines|
      invariant killed == Pids(lines[..i], planetPath)
      invariant processKilled <==> killed != []
    {
      var line := lines[i];
      if Contains(line, planetPath) {
        var fields := Fields(line, GoSpace);
        if |fields| > 1 {
          killed := killed + [fields[1]];
          processKilled := true;
        }
      }
      assert lines[..i + 1][..i] == lines[..i];
    }
    assert lines[..|lines|] == lines;
    if !processKilled {
      return Ok(""), killed;
    }
    r := Ok(StoppedMessage(planetType, dir));
  }

  /** A shutdown that kills something only happens while a dev server counts
      as running for the same listing. */
  lemma KilledMeansRunning(out: string, planetPath: string)
    requires Pids(Split(out, '\n'), planetPath) != []
    ensures IsDevServerRunning(Ok(out), planetPath)
  {
    var lines := Split(out, '\n');
    PidsExactly(lines, planetPath);
    var p := Pids(lines, planetPath)[0];
    assert p in Pids(lines, planetPath);
  }

  /** `DevServerStatus`: which planets have a dev server running. */
  datatype DevServerStatus = DevServerStatus(web: bool, mobile: bool, desktop: bool)

  function StatusOf(s: DevServerStatus, planetType: string): bool {
    if planetType == "web" then s.web
    else if planetType == "mobile" then s.mobile
    else if planetType == "desktop" then s.desktop
    else false
  }

  /** `GetDevServersStatus`, given one `ps aux` listing (or why it failed)
      for all three checks. */
  function GetDevServersStatus(ps: Result<string>, projectsDir: string, dir: string): DevServerStatus {
    DevServerStatus(
      IsDevServerRunning(ps, PlanetPath(projectsDir, dir, "web")),
      IsDevServerRunning(ps, PlanetPath(projectsDir, dir, "mobile")),
      IsDevServerRunning(ps, PlanetPath(projectsDir, dir, "desktop")))
  }

  /** A planet counts as running exactly when the listing could be read and
      mentions the planet's folder; a failed listing reports nothing running. */
  lemma StatusMeansMentioned(ps: Result<string>, projectsDir: string, dir: string, planetType: string)
    requires planetType in PlanetTypes && '\n' !in PlanetPath(projectsDir, dir, planetType)
    ensures StatusOf(GetDevServersStatus(ps, projectsDir, dir), planetType) <==>
      ps.Ok? && Contains(ps.value, PlanetPath(projectsDir, dir, planetType))
  {
    RunningIffMentioned(ps, PlanetPath(projectsDir, dir, planetType));
  }

  /** Whenever `StopDevServer` kills a process of a planet, the status read
      from the same listing reports that planet running. */
  lemma StopFindsRunning(out: string, projectsDir: string, dir: string, planetType: string)
    requires planetType in PlanetTypes
    requires Pids(Split(out, '\n'), PlanetPath(projectsDir, dir, planetType)) != []
    ensures StatusOf(GetDevServersStatus(Ok(out), projectsDir, dir), planetType)
  {
    KilledMeansRunning(out, PlanetPath(projectsDir, dir, planetType));
  }
}
