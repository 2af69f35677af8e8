/** The `PORT=` handling of a project's `.env` file: reading the port back
    (`GetPort`) and rewriting it (`UpdatePort`). Both scan the file line by
    line and trim each line before looking at it. */
module ServerEnv {
  import opened Wrappers
  import opened Text

  /** The `.env` file as the backend finds it. `Unreadable` is a file whose
      scan stops with an error after yielding the lines `scanned`: a line
      longer than the scanner's 64 KiB token limit, or a failed read. */
  datatype EnvFile = Missing | Unopenable | Present(content: string) | Unreadable(scanned: seq<string>)

  const DefaultPort: string := "8080"
  const PortKey: string := "PORT="

  /** `strings.TrimSpace`. */
  function TrimSpace(s: string): string {
    Trim(s, GoSpace)
  }

  /** The scanned lines of a file, each trimmed. */
  function Trimmed(lines: seq<string>): (r: seq<string>)
    ensures |r| == |lines|
    ensures forall k :: 0 <= k < |lines| ==> r[k] == TrimSpace(lines[k])
  {
    seq(|lines|, k requires 0 <= k < |lines| => TrimSpace(lines[k]))
  }

  /** A trimmed line sets `key` (`PORT=`, `DSN=`) when it starts with it. */
  predicate IsKeyLine(t: string, key: string) {
    StartsWith(t, key)
  }

  predicate AnyKeyLine(ts: seq<string>, key: string) {
    exists k :: 0 <= k < |ts| && IsKeyLine(ts[k], key)
  }

  predicate IsPortLine(t: string) {
    IsKeyLine(t, PortKey)
  }

  predicate AnyPortLine(ts: seq<string>) {
    AnyKeyLine(ts, PortKey)
  }

  /** The value of the first line setting `key`, trimmed, if there is one. */
  function FirstValue(ts: seq<string>, key: string): (r: Option<string>)
    ensures r.None? <==> !AnyKeyLine(ts, key)
  {
    if ts == [] then None
    else if IsKeyLine(ts[0], key) then Some(TrimSpace(TrimPrefix(ts[0], key)))
    else
      var r := FirstValue(ts[1..], key);
      assert AnyKeyLine(ts, key) ==> AnyKeyLine(ts[1..], key) by {
        if AnyKeyLine(ts, key) {
          var k :| 0 <= k < |ts| && IsKeyLine(ts[k], key);
          assert ts[1..][k - 1] == ts[k];
        }
      }
      assert AnyKeyLine(ts[1..], key) ==> AnyKeyLine(ts, key) by {
        if AnyKeyLine(ts[1..], key) {
          var k :| 0 <= k < |ts[1..]| && IsKeyLine(ts[1..][k], key);
          assert ts[k + 1] == ts[1..][k];
        }
      }
      r
  }

  /** The lines the scanner yields before it stops: every line of a
      readable file, the lines before the error of an unreadable one, and
      none when the file cannot be opened. */
  function RawLines(env: EnvFile): seq<string> {
    match env
    case Present(content) => ScanLines(content)
    case Unreadable(scanned) => scanned
    case _ => []
  }

  /** Those lines, trimmed. */
  function ScannedLines(env: EnvFile): seq<string> {
    Trimmed(RawLines(env))
  }

  /** The port `GetPort` reports for the file: that of the first port line
      the scanner reaches, or `8080`. */
  function PortOf(env: EnvFile): string {
    match FirstValue(ScannedLines(env), PortKey) case Some(p) => p case None => DefaultPort
  }

  /** The port read is that of the earliest port line: every line before
      it is skipped, whatever follows it is ignored. */
  lemma {:induction false} FirstValueIsEarliest(ts: seq<string>, key: string, k: nat)
    requires k < |ts| && IsKeyLine(ts[k], key)
    requires forall j :: 0 <= j < k ==> !IsKeyLine(ts[j], key)
    ensures FirstValue(ts, key) == Some(TrimSpace(TrimPrefix(ts[k], key)))
    decreases k
  {
    if k > 0 {
      assert ts[1..][k - 1] == ts[k];
      FirstValueIsEarliest(ts[1..], key, k - 1);
    }
  }

  /** `GetPort`: scans the lines and returns at the first port line; a
      missing or unopenable file, or no port line before the scan ends,
      gives `8080`. A scan error is not reported. */
  method GetPort(env: EnvFile) returns (port: string)
    ensures port == PortOf(env)
  {
    if env.Missing? || env.Unopenable? {
      return DefaultPort;
    }
    var found := ScanFor(RawLines(env), PortKey);
    port := if found.Some? then found.value else DefaultPort;
  }

  /** The scan loop `GetPort` and `GetDSN` share: trims each line and stops
      at the first one starting with `key`, giving its trimmed value. */
  method ScanFor(lines: seq<string>, key: string) returns (found: Option<string>)
    ensures found == FirstValue(Trimmed(lines), key)
  {
    ghost var ts := Trimmed(lines);
    var i := 0;
    while i < |lines|
      invariant i <= |lines|
      invariant FirstValue(ts, key) == FirstValue(ts[i..], key)
    {
      assert ts[i..][1..] == ts[i + 1..];
      var line := TrimSpace(lines[i]);
      if StartsWith(line, key) {
        return Some(TrimSpace(TrimPrefix(line, key)));
      }
      i := i + 1;
    }
    return None;
  }

  /** One trimmed line as `UpdatePort` writes it back. */
  function RewriteLine(t: string, newPort: string): string {
    if IsPortLine(t) then PortKey + newPort else t
  }

  /** Each trimmed line rewritten. */
  function Rewritten(ts: seq<string>, newPort: string): (r: seq<string>)
    ensures |r| == |ts|
    ensures forall k :: 0 <= k < |ts| ==> r[k] == RewriteLine(ts[k], newPort)
  {
    seq(|ts|, k requires 0 <= k < |ts| => RewriteLine(ts[k], newPort))
  }

  /** Every port line replaced, every other line kept (trimmed), and a port
      line appended when there was none. */
  function UpdatedLines(ts: seq<string>, newPort: string): (r: seq<string>)
    ensures |r| >= 1 && |r| >= |ts|
    ensures forall k :: 0 <= k < |ts| ==> r[k] == RewriteLine(ts[k], newPort)
    ensures AnyPortLine(ts) ==> |r| == |ts|
    ensures !AnyPortLine(ts) ==> |r| == |ts| + 1 && r[|ts|] == PortKey + newPort
  {
    if AnyPortLine(ts) then Rewritten(ts, newPort) else Rewritten(ts, newPort) + [PortKey + newPort]
  }

  const OpenError: string := "❌ Failed to open .env file"
  const ReadError: string := "❌ Failed to read .env file"
  const WriteError: string := "❌ Failed to write .env file"

  /** What `UpdatePort` is to write: a missing file becomes the one port
      line; a readable file, the updated lines joined by newlines plus a
      final newline. A file that cannot be opened or read to its end is an
      error before anything is written. */
  function UpdatedContent(env: EnvFile, newPort: string): (r: Result<string>)
    ensures r.Err? <==> env.Unopenable? || env.Unreadable?
    ensures env.Unopenable? ==> r == Err(OpenError)
    ensures env.Unreadable? ==> r == Err(ReadError)
  {
    match env
    case Missing => Ok(PortKey + newPort + "\n")
    case Unopenable => Err(OpenError)
    case Present(content) => Ok(Join(UpdatedLines(Trimmed(ScanLines(content)), newPort), "\n") + "\n")
    case Unreadable(_) => Err(ReadError)
  }

  /** The outcome of `UpdatePort` when writing fails with `writeErr` (or
      succeeds, for `None`): the content written, or the error. A failed
      write of a new file returns the write's own error; a failed rewrite
      is reported as such. */
  function UpdateOutcome(env: EnvFile, newPort: string, writeErr: Option<string>): (r: Result<string>)
    ensures r.Ok? <==> UpdatedContent(env, newPort).Ok? && writeErr.None?
    ensures r.Ok? ==> r == UpdatedContent(env, newPort)
    ensures UpdatedContent(env, newPort).Err? ==> r == UpdatedContent(env, newPort)
    ensures env.Present? && writeErr.Some? ==> r == Err(WriteError)
  {
    match UpdatedContent(env, newPort)
    case Err(e) => Err(e)
    case Ok(content) =>
      match writeErr
      case None => Ok(content)
      case Some(e) => if env.Missing? then Err(e) else Err(WriteError)
  }

  /** `UpdatePort`: a missing file gets the one port line, an unopenable
      one is an error, and otherwise the rewritten lines are joined, unless
      the scan failed; the write's failure is `writeErr`. */
  method UpdatePort(env: EnvFile, newPort: string, writeErr: Option<string>) returns (written: Result<string>)
    ensures written == UpdateOutcome(env, newPort, writeErr)
  {
    match env {
      case Missing =>
        if writeErr.Some? {
          return Err(writeErr.value);
        }
        return Ok(PortKey + newPort + "\n");
      case Unopenable =>
        return Err(OpenError);
      case Present(content) =>
        var updatedLines := RewriteLines(ScanLines(content), newPort);
        if writeErr.Some? {
          return Err(WriteError);
        }
        return Ok(Join(updatedLines, "\n") + "\n");
      case Unreadable(scanned) =>
        var updatedLines := RewriteLines(scanned, newPort);
        return Err(ReadError);
    }
  }

  /** A port line after the point where the scan fails is never seen:
      reading reports the default port and updating fails. */
  lemma PortAfterReadErrorMissed(before: seq<string>, newPort: string)
    requires forall k :: 0 <= k < |before| ==> !IsPortLine(TrimSpace(before[k]))
    ensures PortOf(Unreadable(before)) == DefaultPort
    ensures UpdatedContent(Unreadable(before), newPort) == Err(ReadError)
  {
    assert !AnyPortLine(ScannedLines(Unreadable(before)));
  }

  /** The scan loop of `UpdatePort`: it collects the rewritten lines and
      notes whether a port line was seen. */
  method RewriteLines(lines: seq<string>, newPort: string) returns (updatedLines: seq<string>)
    ensures updatedLines == UpdatedLines(Trimmed(lines), newPort)
  {
    ghost var ts := Trimmed(lines);
    updatedLines := [];
    var portUpdated := false;
    var i := 0;
    while i < |lines|
      invariant i <= |lines|
      invariant updatedLines == Rewritten(ts[..i], newPort)
      invariant portUpdated == AnyPortLine(ts[..i])
    {
      RewriteSnoc(ts, i, newPort);
      var line := TrimSpace(lines[i]);
      if StartsWith(line, PortKey) {
        updatedLines := updatedLines + [PortKey + newPort];
        portUpdated := true;
      } else {
        updatedLines := updatedLines + [line];
      }
      i := i + 1;
    }
    assert ts[..i] == ts;
    if !portUpdated {
      updatedLines := updatedLines + [PortKey + newPort];
    }
  }

  lemma RewriteSnoc(ts: seq<string>, i: nat, newPort: string)
    requires i < |ts|
    ensures Rewritten(ts[..i + 1], newPort) == Rewritten(ts[..i], newPort) + [RewriteLine(ts[i], newPort)]
    ensures AnyPortLine(ts[..i + 1]) == (AnyPortLine(ts[..i]) || IsPortLine(ts[i]))
  {
    assert ts[..i + 1][..i] == ts[..i];
    AnyPortLineSnoc(ts, i);
  }

  lemma AnyPortLineSnoc(ts: seq<string>, i: nat)
    requires i < |ts|
    ensures AnyPortLine(ts[..i + 1]) == (AnyPortLine(ts[..i]) || IsPortLine(ts[i]))
  {
    var pre := ts[..i];
    var ext := ts[..i + 1];
    assert ext == pre + [ts[i]];
    if AnyPortLine(ext) && !IsPortLine(ts[i]) {
      var k :| 0 <= k < i + 1 && IsKeyLine(ext[k], PortKey);
      assert k < i;
      assert pre[k] == ext[k];
    }
    if AnyPortLine(pre) {
      var k :| 0 <= k < i && IsKeyLine(pre[k], PortKey);
      assert ext[k] == pre[k];
    }
    if IsPortLine(ts[i]) {
      assert ext[i] == ts[i];
    }
  }

  /** A port fit to write back: no newline inside and no surrounding space. */
  predicate CleanPort(p: string) {
    '\n' !in p && (p != [] ==> p[0] !in GoSpace && p[|p| - 1] !in GoSpace)
  }

  /** A line that is its own trim and reads back unchanged through the scanner. */
  predicate Settled(t: string) {
    PlainLine(t) && TrimSpace(t) == t
  }

  /** `PORT=<p>` is settled when `p` is clean. */
  lemma PortLineSettled(p: string)
    requires CleanPort(p)
    ensures Settled(PortKey + p)
  {
    var s := PortKey + p;
    if p != [] {
      assert s[|s| - 1] == p[|p| - 1];
    }
    TrimOfTrimmed(s, GoSpace);
  }

  /** A trimmed scanned line is settled. */
  lemma TrimmedLineSettled(line: string)
    requires '\n' !in line
    ensures Settled(TrimSpace(line))
  {
    TrimIdempotent(line, GoSpace);
  }

  /** The lines the file holds before the update (none when it is missing),
      trimmed. */
  function EnvLines(env: EnvFile): seq<string> {
    if env.Present? then Trimmed(ScanLines(env.content)) else []
  }

  /** The written content is the updated lines, each newline-terminated. */
  lemma WrittenIsLines(env: EnvFile, newPort: string)
    requires UpdatedContent(env, newPort).Ok?
    ensures UpdatedContent(env, newPort).value == Lines(UpdatedLines(EnvLines(env), newPort))
  {
    var updated := UpdatedLines(EnvLines(env), newPort);
    if env.Present? {
      JoinNewlineIsLines(updated);
    } else {
      assert updated == [PortKey + newPort];
      assert Lines(updated) == PortKey + newPort + "\n";
    }
  }

  /** Every line of a file before the update is settled. */
  lemma EnvLinesSettled(env: EnvFile)
    ensures forall j :: 0 <= j < |EnvLines(env)| ==> Settled(EnvLines(env)[j])
  {
    if env.Present? {
      var lines := ScanLines(env.content);
      forall j | 0 <= j < |lines|
        ensures Settled(EnvLines(env)[j])
      {
        TrimmedLineSettled(lines[j]);
      }
    }
  }

  /** The updated lines are settled, and every port line among them carries
      the new port. */
  lemma UpdatedLinesShape(ts: seq<string>, newPort: string)
    requires forall k :: 0 <= k < |ts| ==> Settled(ts[k])
    requires CleanPort(newPort)
    ensures var updated := UpdatedLines(ts, newPort);
            forall j :: 0 <= j < |updated| ==> Settled(updated[j]) && (IsPortLine(updated[j]) ==> updated[j] == PortKey + newPort)
    ensures AnyPortLine(UpdatedLines(ts, newPort))
  {
    var updated := UpdatedLines(ts, newPort);
    PortLineSettled(newPort);
    forall j | 0 <= j < |updated|
      ensures Settled(updated[j]) && (IsPortLine(updated[j]) ==> updated[j] == PortKey + newPort)
    {
      if j < |ts| && !IsPortLine(ts[j]) {
        assert updated[j] == ts[j];
      } else {
        assert updated[j] == PortKey + newPort;
      }
    }
    if AnyPortLine(ts) {
      var k :| 0 <= k < |ts| && IsKeyLine(ts[k], PortKey);
      assert IsPortLine(updated[k]);
    } else {
      assert IsPortLine(updated[|ts|]);
    }
  }

  /** After an update, the port read back is the one written. */
  lemma GetPortAfterUpdate(env: EnvFile, newPort: string)
    requires CleanPort(newPort)
    requires UpdatedContent(env, newPort).Ok?
    ensures PortOf(Present(UpdatedContent(env, newPort).value)) == newPort
  {
    var updated := UpdatedLines(EnvLines(env), newPort);
    WrittenIsLines(env, newPort);
    EnvLinesSettled(env);
    UpdatedLinesShape(EnvLines(env), newPort);
    ReadBackSettled(updated);
    var k := FirstPortLine(updated);
    PortReadBack(updated, newPort, k);
  }

  lemma ScannedPresent(content: string)
    ensures ScannedLines(Present(content)) == Trimmed(ScanLines(content))
  {
  }

  /** Lines that scan back as themselves, whose first port line carries
      `newPort`, read back as `newPort` once written out. */
  lemma PortReadBack(updated: seq<string>, newPort: string, k: nat)
    requires CleanPort(newPort)
    requires Trimmed(ScanLines(Lines(updated))) == updated
    requires k < |updated| && updated[k] == PortKey + newPort
    requires forall j :: 0 <= j < k ==> !IsPortLine(updated[j])
    ensures PortOf(Present(Lines(updated))) == newPort
  {
    ScannedPresent(Lines(updated));
    FirstValueIsEarliest(updated, PortKey, k);
    assert TrimPrefix(PortKey + newPort, PortKey) == newPort;
    TrimOfTrimmed(newPort, GoSpace);
  }

  /** Settled lines written out read back, trimmed, as themselves. */
  lemma ReadBackSettled(ls: seq<string>)
    requires forall j :: 0 <= j < |ls| ==> Settled(ls[j])
    ensures Trimmed(ScanLines(Lines(ls))) == ls
  {
    ScanLinesOfLines(ls);
  }

  /** The index of the earliest port line. */
  function FirstPortLine(ts: seq<string>): (k: nat)
    requires AnyPortLine(ts)
    ensures k < |ts| && IsPortLine(ts[k]) && forall j :: 0 <= j < k ==> !IsPortLine(ts[j])
  {
    if IsPortLine(ts[0]) then 0
    else
      assert AnyPortLine(ts[1..]) by {
        var k :| 0 <= k < |ts| && IsKeyLine(ts[k], PortKey);
        assert ts[1..][k - 1] == ts[k];
      }
      1 + FirstPortLine(ts[1..])
  }

  /** Rewriting lines that hold a port line, every one of which already
      carries the new port, changes nothing. */
  lemma RewriteStable(updated: seq<string>, newPort: string)
    requires forall j :: 0 <= j < |updated| && IsPortLine(updated[j]) ==> updated[j] == PortKey + newPort
    requires AnyPortLine(updated)
    ensures UpdatedLines(updated, newPort) == updated
  {
  }

  /** Updating twice with the same port writes the same file as once. */
  lemma UpdatePortIdempotent(env: EnvFile, newPort: string)
    requires CleanPort(newPort)
    requires UpdatedContent(env, newPort).Ok?
    ensures UpdatedContent(Present(UpdatedContent(env, newPort).value), newPort) == UpdatedContent(env, newPort)
  {
    var updated := UpdatedLines(EnvLines(env), newPort);
    WrittenIsLines(env, newPort);
    EnvLinesSettled(env);
    UpdatedLinesShape(EnvLines(env), newPort);
    ReadBackSettled(updated);
    RewriteStable(updated, newPort);
    JoinNewlineIsLines(updated);
  }
}
