/** The dev-server helpers: whether some process runs in a planet folder, and
    the local URL a dev server announces in its log. */
module ClientsUtils {
  import opened Wrappers
  import opened Text

  /** `isDevServerRunning`, given what `ps aux` printed or why it failed:
      some line of the listing mentions the planet path. */
  predicate IsDevServerRunning(ps: Result<string>, planetPath: string) {
    ps.Ok? && exists line :: line in Split(ps.value, '\n') && Contains(line, planetPath)
  }

  /** Every line of a split occurs in the split string. */
  lemma SplitLineContained(s: string, line: string)
    requires line in Split(s, '\n')
    ensures Contains(s, line)
  {
    var parts := Split(s, '\n');
    var k :| 0 <= k < |parts| && parts[k] == line;
    JoinContains(parts, "\n", k);
    JoinSplit(s, '\n');
  }

  /** An occurrence of a text without newlines lies within one line. */
  lemma {:induction false} OccurrenceInLine(s: string, sub: string)
    requires '\n' !in sub && Contains(s, sub)
    ensures exists line :: line in Split(s, '\n') && Contains(line, sub)
    decreases |s|
  {
    if '\n' in s {
      var i := IndexOf(s, '\n');
      var p :| 0 <= p <= |s| && OccursAt(s, sub, p);
      assert Split(s, '\n') == [s[..i]] + Split(s[i + 1..], '\n');
      if p + |sub| <= i {
        assert s[..i][p..p + |sub|] == s[p..p + |sub|];
        assert OccursAt(s[..i], sub, p);
        assert s[..i] in Split(s, '\n');
      } else {
        assert s[i + 1..][p - i - 1..p - i - 1 + |sub|] == s[p..p + |sub|];
        assert OccursAt(s[i + 1..], sub, p - i - 1);
        OccurrenceInLine(s[i + 1..], sub);
        var line :| line in Split(s[i + 1..], '\n') && Contains(line, sub);
        assert line in Split(s, '\n');
      }
    } else {
      assert Split(s, '\n') == [s];
    }
  }

  /** For a path without newlines, a dev server counts as running exactly
      when the listing mentions the path; a failed `ps` never does. */
  lemma RunningIffMentioned(ps: Result<string>, planetPath: string)
    requires '\n' !in planetPath
    ensures ps.Err? ==> !IsDevServerRunning(ps, planetPath)
    ensures ps.Ok? ==> (IsDevServerRunning(ps, planetPath) <==> Contains(ps.value, planetPath))
  {
    if ps.Ok? {
      if IsDevServerRunning(ps, planetPath) {
        var line :| line in Split(ps.value, '\n') && Contains(line, planetPath);
        SplitLineContained(ps.value, line);
        ContainsTrans(ps.value, line, planetPath);
      }
      if Contains(ps.value, planetPath) {
        OccurrenceInLine(ps.value, planetPath);
      }
    }
  }

  /** The characters of the regular-expression class `\s`. */
  const ReSpace: set<char> := {'\t', '\n', '\U{0C}', '\r', ' '}
  const LocalTag := "Local:"
  const LocalHost := "http://localhost:"

  predicate IsDigit(c: char) {
    '0' <= c <= '9'
  }

  /** The length of the leading run of decimal digits. */
  function DigitRun(s: string): (n: nat)
    ensures n <= |s|
    ensures forall j :: 0 <= j < n ==> IsDigit(s[j])
    ensures n < |s| ==> !IsDigit(s[n])
  {
    if s != [] && IsDigit(s[0]) then 1 + DigitRun(s[1..]) else 0
  }

  /** `http://localhost:`, one or more digits, and possibly a slash. */
  predicate IsLocalURL(u: string) {
    |u| > |LocalHost| && u[..|LocalHost|] == LocalHost
    && var port := if u[|u| - 1] == '/' then u[|LocalHost|..|u| - 1] else u[|LocalHost|..];
    port != [] && forall j :: 0 <= j < |port| ==> IsDigit(port[j])
  }

  /** The capture of `Local:\s+(http://localhost:\d+/?)` when a match starts
      at position `i`: the spaces, the digits and the slash are taken
      greedily. */
  function MatchAt(logs: string, i: nat): (r: Option<string>)
    requires i <= |logs|
    ensures r.Some? ==> IsLocalURL(r.value) && Contains(logs, r.value)
  {
    if !StartsWith(logs[i..], LocalTag) then None
    else
      var j := i + |LocalTag| + LeadingCount(logs[i + |LocalTag|..], ReSpace);
      if j == i + |LocalTag| || !StartsWith(logs[j..], LocalHost) then None
      else
        var d := DigitRun(logs[j + |LocalHost|..]);
        if d == 0 then None
        else
          var e := j + |LocalHost| + d;
          var end := if e < |logs| && logs[e] == '/' then e + 1 else e;
          CaptureIsLocalURL(logs, j, d, end, logs[j + |LocalHost|..]);
          Some(logs[j..end])
  }

  /** A capture of the host, a non-empty digit run and possibly a slash is a
      local URL occurring in the log. */
  lemma CaptureIsLocalURL(logs: string, j: nat, d: nat, end: nat, digits: string)
    requires j + |LocalHost| + d <= end <= j + |LocalHost| + d + 1 && end <= |logs|
    requires StartsWith(logs[j..], LocalHost) && d > 0
    requires digits == logs[j + |LocalHost|..] && d <= |digits|
    requires forall k :: 0 <= k < d ==> IsDigit(digits[k])
    requires end == j + |LocalHost| + d + 1 ==> logs[end - 1] == '/'
    ensures IsLocalURL(logs[j..end]) && Contains(logs, logs[j..end])
  {
    var u := logs[j..end];
    assert u[..|LocalHost|] == logs[j..][..|LocalHost|];
    var port := if u[|u| - 1] == '/' then u[|LocalHost|..|u| - 1] else u[|LocalHost|..];
    forall k | 0 <= k < |port| ensures IsDigit(port[k]) {
      assert port[k] == digits[k];
    }
    assert OccursAt(logs, u, j);
  }

  /** The leftmost match at or after position `i`. */
  function FirstMatch(logs: string, i: nat): (r: Option<string>)
    requires i <= |logs|
    ensures r.Some? ==> IsLocalURL(r.value) && Contains(logs, r.value)
    decreases |logs| - i
  {
    if MatchAt(logs, i).Some? then MatchAt(logs, i)
    else if i == |logs| then None
    else FirstMatch(logs, i + 1)
  }

  /** `extractLocalURL`: the capture of the leftmost match, or `""`. */
  function ExtractLocalURL(logs: string): (url: string)
    ensures url != "" ==> IsLocalURL(url) && Contains(logs, url)
  {
    match FirstMatch(logs, 0)
    case Some(u) => u
    case None => ""
  }

  /** The search from `i` finds the first position from `i` on where a match
      starts, and finds nothing only when there is none. */
  lemma {:induction false} FirstMatchIsLeftmost(logs: string, i: nat)
    requires i <= |logs|
    ensures FirstMatch(logs, i).None? <==> forall j :: i <= j <= |logs| ==> MatchAt(logs, j).None?
    ensures FirstMatch(logs, i).Some? ==>
      exists j :: i <= j <= |logs| && FirstMatch(logs, i) == MatchAt(logs, j)
        && forall k :: i <= k < j ==> MatchAt(logs, k).None?
    decreases |logs| - i
  {
    if MatchAt(logs, i).Some? {
      assert FirstMatch(logs, i) == MatchAt(logs, i);
    } else if i == |logs| {
      assert FirstMatch(logs, i) == None;
    } else {
      assert FirstMatch(logs, i) == FirstMatch(logs, i + 1);
      FirstMatchIsLeftmost(logs, i + 1);
      NoMatchFromStep(logs, i);
      if FirstMatch(logs, i).Some? {
        var j :| i + 1 <= j <= |logs| && FirstMatch(logs, i + 1) == MatchAt(logs, j)
          && forall k :: i + 1 <= k < j ==> MatchAt(logs, k).None?;
        NoMatchBeforeStep(logs, i, j);
      }
    }
  }

  /** No match from `i` on is no match at `i` and none after it. */
  lemma NoMatchFromStep(logs: string, i: nat)
    requires i < |logs|
    ensures (forall j :: i <= j <= |logs| ==> MatchAt(logs, j).None?)
            <==> MatchAt(logs, i).None? && forall j :: i + 1 <= j <= |logs| ==> MatchAt(logs, j).None?
  {
    if MatchAt(logs, i).None? && forall j :: i + 1 <= j <= |logs| ==> MatchAt(logs, j).None? {
      forall j | i <= j <= |logs| ensures MatchAt(logs, j).None? {
        if j > i {
          assert i + 1 <= j <= |logs|;
        }
      }
    }
  }

  lemma NoMatchBeforeStep(logs: string, i: nat, j: nat)
    requires i < j <= |logs| && MatchAt(logs, i).None?
    requires forall k :: i + 1 <= k < j ==> MatchAt(logs, k).None?
    ensures forall k :: i <= k < j ==> MatchAt(logs, k).None?
  {
    forall k | i <= k < j ensures MatchAt(logs, k).None? {
      if k > i {
        assert i + 1 <= k < j;
      }
    }
  }

  /** The result is empty exactly when no match exists anywhere in the log;
      otherwise it is the capture of the leftmost match. */
  lemma ExtractLocalURLIsLeftmost(logs: string)
    ensures ExtractLocalURL(logs) == "" <==> forall j :: 0 <= j <= |logs| ==> MatchAt(logs, j).None?
    ensures ExtractLocalURL(logs) != "" ==>
      exists j :: 0 <= j <= |logs| && MatchAt(logs, j) == Some(ExtractLocalURL(logs))
        && forall k :: 0 <= k < j ==> MatchAt(logs, k).None?
  {
    FirstMatchIsLeftmost(logs, 0);
  }
}
