/** The project's git operations over an abstract repository: each branch's
    history (its commit log, newest first, as a linear chain), the branches in
    listing order, and the current branch. Stashes are ordinary commits whose
    message starts with `Stash:`; they are numbered in log order. */
module Git {
  import opened Wrappers
  import opened Text
  import opened GoMaps

  /** A full commit hash: forty hexadecimal digits. */
  type Hash = h: string | |h| == 40 witness seq(40, _ => '0')

  /** An author time in the layout `2006-01-02 15:04:05`. */
  type Stamp = t: string | |t| == 19 witness seq(19, _ => '0')

  datatype Commit = Commit(hash: Hash, message: string, when: Stamp)

  /** `GitStashItem`. */
  datatype StashItem = StashItem(index: int, hash: Hash, message: string)

  /** The text of `fmt.Errorf("%v", err)` when `err` is a nil error: `%v`
      prints a nil operand as `<nil>`. */
  const NilErrorText := "<nil>"
  /** The text go-git's iterators treat as "stop iterating". */
  const StopText := "stop"
  const OnlyBranchError := " Cannot delete the only branch in the repository"
  /** The error of a checkout or lookup of a branch that does not exist. */
  const RefNotFound := "reference not found"
  /** The error of storing a reference with an empty branch name. */
  const BadRefName := "invalid reference name"

  /** A commit is a stash when its message is longer than six characters and
      starts with `Stash:`. */
  predicate IsStash(message: string) {
    |message| > 6 && message[..6] == "Stash:"
  }

  /** The message `StashChanges` commits with; the user's text is recoverable
      from it. */
  function StashMessage(message: string): (r: string)
    ensures IsStash(r)
    ensures r[7..] == message
  {
    "Stash: " + message
  }

  function InvalidIndex(stashIndex: int): string {
    " Invalid stash index: " + SignedDecimal(stashIndex)
  }

  function MergeMessage(source: string, target: string): string {
    "Merge branch '" + source + "' into '" + target + "'"
  }

  /** The stash commits of a log, in log order. */
  function StashCommits(log: seq<Commit>): (r: seq<Commit>)
    ensures |r| <= |log|
  {
    if log == [] then []
    else (if IsStash(log[0].message) then [log[0]] else []) + StashCommits(log[1..])
  }

  /** Exactly the stash commits of the log are kept. */
  lemma {:induction false} StashCommitsMembers(log: seq<Commit>)
    ensures forall c :: c in StashCommits(log) <==> c in log && IsStash(c.message)
  {
    if log != [] {
      StashCommitsMembers(log[1..]);
      assert log == [log[0]] + log[1..];
    }
  }

  lemma {:induction false} StashCommitsConcat(a: seq<Commit>, b: seq<Commit>)
    ensures StashCommits(a + b) == StashCommits(a) + StashCommits(b)
  {
    if a != [] {
      var c, t := a[0], a[1..];
      var h := if IsStash(c.message) then [c] else [];
      assert a == [c] + t && a + b == [c] + (t + b);
      StashCommitsCons(c, t + b);
      StashCommitsCons(c, t);
      StashCommitsConcat(t, b);
      SeqAssoc(h, StashCommits(t), StashCommits(b));
    } else {
      assert a + b == b;
    }
  }

  /** The stash items numbered 0, 1, 2, … in order. */
  function Numbered(cs: seq<Commit>): seq<StashItem> {
    seq(|cs|, k requires 0 <= k < |cs| => StashItem(k, cs[k].hash, cs[k].message))
  }

  /** What `GetAllStashes` lists for a log. */
  function Stashes(log: seq<Commit>): seq<StashItem> {
    Numbered(StashCommits(log))
  }

  /** Every listed stash carries its position as its index and a stash
      message, and comes from a commit of the log; every stash commit of the
      log is listed. */
  lemma StashesOfLog(log: seq<Commit>)
    ensures |Stashes(log)| <= |log|
    ensures forall k :: 0 <= k < |Stashes(log)| ==>
      Stashes(log)[k].index == k && IsStash(Stashes(log)[k].message)
      && Commit(Stashes(log)[k].hash, Stashes(log)[k].message, StashCommits(log)[k].when) in log
    ensures forall c :: c in log && IsStash(c.message) ==>
      exists k :: 0 <= k < |Stashes(log)| && Stashes(log)[k] == StashItem(k, c.hash, c.message)
  {
    var cs := StashCommits(log);
    StashCommitsMembers(log);
    forall k | 0 <= k < |cs|
      ensures Stashes(log)[k] == StashItem(k, cs[k].hash, cs[k].message)
      ensures IsStash(cs[k].message) && Commit(cs[k].hash, cs[k].message, cs[k].when) in log
    {
      assert cs[k] in cs;
      assert Commit(cs[k].hash, cs[k].message, cs[k].when) == cs[k];
    }
    forall c | c in log && IsStash(c.message)
      ensures exists k :: 0 <= k < |Stashes(log)| && Stashes(log)[k] == StashItem(k, c.hash, c.message)
    {
      var k :| 0 <= k < |cs| && cs[k] == c;
      assert Stashes(log)[k] == StashItem(k, c.hash, c.message);
    }
  }

  /** One more commit at the old end of a log adds a stash, numbered last,
      exactly when it is a stash commit. */
  lemma StashesSnoc(log: seq<Commit>, c: Commit)
    ensures Stashes(log + [c]) ==
      Stashes(log) + (if IsStash(c.message) then [StashItem(|Stashes(log)|, c.hash, c.message)] else [])
  {
    StashCommitsConcat(log, [c]);
    assert StashCommits([c]) == (if IsStash(c.message) then [c] else []) by {
      assert [c][1..] == [];
    }
  }

  /** A new commit on top of the log: a stash becomes stash 0 and every older
      stash moves up by one; any other commit leaves the list as it was. */
  lemma StashesPrepend(c: Commit, log: seq<Commit>)
    ensures IsStash(c.message) ==>
      |Stashes([c] + log)| == |Stashes(log)| + 1
      && Stashes([c] + log)[0] == StashItem(0, c.hash, c.message)
      && forall k :: 0 <= k < |Stashes(log)| ==> Stashes([c] + log)[k + 1] == Stashes(log)[k].(index := k + 1)
    ensures !IsStash(c.message) ==> Stashes([c] + log) == Stashes(log)
  {
    assert ([c] + log)[1..] == log;
  }

  /** The position in the log of the commit of the stash numbered `k`. */
  function StashAt(log: seq<Commit>, k: nat): (p: nat)
    requires k < |StashCommits(log)|
    ensures p < |log|
    decreases |log|
  {
    if IsStash(log[0].message) && k == 0 then 0
    else 1 + StashAt(log[1..], if IsStash(log[0].message) then k - 1 else k)
  }

  lemma SeqAssoc<T>(x: seq<T>, y: seq<T>, z: seq<T>)
    ensures x + (y + z) == (x + y) + z
  {
  }

  lemma SliceCons<T>(s: seq<T>, p: nat)
    requires 1 <= p <= |s|
    ensures s[..p] == [s[0]] + s[1..][..p - 1]
    ensures s[p..] == s[1..][p - 1..]
  {
  }

  lemma StashCommitsCons(c: Commit, rest: seq<Commit>)
    ensures StashCommits([c] + rest) == (if IsStash(c.message) then [c] else []) + StashCommits(rest)
  {
    assert ([c] + rest)[1..] == rest;
  }

  /** The stash numbered `k` sits at `StashAt(log, k)`, and the log before it
      holds the `k` stashes numbered below it. */
  lemma {:induction false} StashAtBefore(log: seq<Commit>, k: nat)
    requires k < |StashCommits(log)|
    ensures log[StashAt(log, k)] == StashCommits(log)[k] && IsStash(log[StashAt(log, k)].message)
    ensures StashCommits(log[..StashAt(log, k)]) == StashCommits(log)[..k]
    decreases |log|
  {
    var rest := log[1..];
    var h := if IsStash(log[0].message) then [log[0]] else [];
    assert StashCommits(log) == h + StashCommits(rest);
    if IsStash(log[0].message) && k == 0 {
      assert log[..0] == [];
    } else {
      var k' := if IsStash(log[0].message) then k - 1 else k;
      StashAtBefore(rest, k');
      var p' := StashAt(rest, k');
      SliceCons(log, p' + 1);
      StashCommitsCons(log[0], rest[..p']);
    }
  }

  /** The stash commits around one stash commit of the log. */
  lemma StashCommitsAround(log: seq<Commit>, p: nat)
    requires p < |log| && IsStash(log[p].message)
    ensures StashCommits(log) == StashCommits(log[..p]) + [log[p]] + StashCommits(log[p + 1..])
  {
    assert log == log[..p] + log[p..];
    StashCommitsConcat(log[..p], log[p..]);
    assert log[p..] == [log[p]] + log[p + 1..];
    StashCommitsCons(log[p], log[p + 1..]);
  }

  lemma DropPrefix<T>(s: seq<T>, a: seq<T>, x: T, c: seq<T>)
    requires s == a + [x] + c
    ensures s[..|a|] == a && s[|a|] == x && s[|a| + 1..] == c
  {
  }

  /** The log after the stash numbered `k` holds the stashes numbered above it. */
  lemma StashAtSplits(log: seq<Commit>, k: nat)
    requires k < |StashCommits(log)|
    ensures log[StashAt(log, k)] == StashCommits(log)[k] && IsStash(log[StashAt(log, k)].message)
    ensures StashCommits(log[..StashAt(log, k)]) == StashCommits(log)[..k]
    ensures StashCommits(log[StashAt(log, k) + 1..]) == StashCommits(log)[k + 1..]
  {
    var p := StashAt(log, k);
    StashAtBefore(log, k);
    StashCommitsAround(log, p);
    DropPrefix(StashCommits(log), StashCommits(log[..p]), log[p], StashCommits(log[p + 1..]));
  }

  /** The log from the stash numbered `k` on lists that stash as 0 and the
      older ones after it, renumbered from 0. */
  lemma StashesFrom(log: seq<Commit>, k: nat)
    requires k < |StashCommits(log)|
    ensures |Stashes(log[StashAt(log, k)..])| == |Stashes(log)| - k
    ensures forall j :: 0 <= j < |Stashes(log[StashAt(log, k)..])| ==>
      Stashes(log[StashAt(log, k)..])[j] == Stashes(log)[k + j].(index := j)
  {
    StashCommitsFrom(log, k);
    NumberedFrom(StashCommits(log), k);
  }

  /** The log from the stash numbered `k` on holds the stashes numbered `k` and above. */
  lemma StashCommitsFrom(log: seq<Commit>, k: nat)
    requires k < |StashCommits(log)|
    ensures StashCommits(log[StashAt(log, k)..]) == StashCommits(log)[k..]
  {
    StashAtSplits(log, k);
    StashCommitsFromStash(log, StashCommits(log), StashAt(log, k), k);
  }

  lemma StashCommitsFromStash(log: seq<Commit>, cs: seq<Commit>, p: nat, k: nat)
    requires p < |log| && k < |cs| && log[p] == cs[k] && IsStash(log[p].message)
    requires StashCommits(log[p + 1..]) == cs[k + 1..]
    ensures StashCommits(log[p..]) == cs[k..]
  {
    var tail, rest := log[p..], log[p + 1..];
    assert tail == [log[p]] + rest;
    StashCommitsCons(log[p], rest);
    assert cs[k..] == [cs[k]] + cs[k + 1..];
  }

  /** Numbering from the `k`-th commit on renumbers from 0. */
  lemma NumberedFrom(cs: seq<Commit>, k: nat)
    requires k <= |cs|
    ensures |Numbered(cs[k..])| == |Numbered(cs)| - k
    ensures forall j :: 0 <= j < |cs| - k ==> Numbered(cs[k..])[j] == Numbered(cs)[k + j].(index := j)
  {
  }

  /** The log without the commit of the stash numbered `k`. */
  function WithoutStash(log: seq<Commit>, k: nat): (r: seq<Commit>)
    requires k < |StashCommits(log)|
    ensures |r| == |log| - 1
  {
    log[..StashAt(log, k)] + log[StashAt(log, k) + 1..]
  }

  /** The log without the commit of the stash numbered `k` lists the stashes
      below `k` as before and the ones above it one lower. */
  lemma StashesWithout(log: seq<Commit>, k: nat)
    requires k < |StashCommits(log)|
    ensures |Stashes(WithoutStash(log, k))| == |Stashes(log)| - 1
    ensures forall j :: 0 <= j < k ==>
      Stashes(WithoutStash(log, k))[j] == Stashes(log)[j]
    ensures forall j :: k <= j < |Stashes(WithoutStash(log, k))| ==>
      Stashes(WithoutStash(log, k))[j] == Stashes(log)[j + 1].(index := j)
  {
    var p := StashAt(log, k);
    var cs := StashCommits(log);
    assert StashCommits(WithoutStash(log, k)) == cs[..k] + cs[k + 1..] by {
      StashAtSplits(log, k);
      StashCommitsConcat(log[..p], log[p + 1..]);
    }
    NumberedWithout(cs, StashCommits(WithoutStash(log, k)), k);
  }

  lemma NumberedWithout(cs: seq<Commit>, rest: seq<Commit>, k: nat)
    requires k < |cs| && rest == cs[..k] + cs[k + 1..]
    ensures |Numbered(rest)| == |Numbered(cs)| - 1
    ensures forall j :: 0 <= j < k ==> Numbered(rest)[j] == Numbered(cs)[j]
    ensures forall j :: k <= j < |rest| ==> Numbered(rest)[j] == Numbered(cs)[j + 1].(index := j)
  {
  }


  /** One line of `GetCommitHistory`. */
  function CommitLine(c: Commit): string {
    "🔹 " + c.hash[..7] + " - " + c.message + " (" + c.when + ")"
  }

  /** A line determines the abbreviated hash, the message and the time. */
  lemma CommitLineInjective(a: Commit, b: Commit)
    requires CommitLine(a) == CommitLine(b)
    ensures a.hash[..7] == b.hash[..7] && a.message == b.message && a.when == b.when
  {
    var la, lb := CommitLine(a), CommitLine(b);
    assert |la| == 34 + |a.message| && |lb| == 34 + |b.message|;
    assert |a.message| == |b.message|;
    var n := |a.message|;
    assert la[2..9] == a.hash[..7] && lb[2..9] == b.hash[..7];
    assert la[12..12 + n] == a.message && lb[12..12 + n] == b.message;
    assert la[14 + n..33 + n] == a.when && lb[14 + n..33 + n] == b.when;
  }

  function CommitLines(log: seq<Commit>): seq<string> {
    seq(|log|, k requires 0 <= k < |log| => CommitLine(log[k]))
  }

  /** What `GetCommitHistory` returns, as written: a positive limit that the
      log reaches makes the callback return a non-nil error whose text is not
      `stop`, so the whole call fails. */
  function CommitHistory(log: seq<Commit>, limit: int): Result<seq<string>> {
    if limit > 0 && |log| >= limit then Err(NilErrorText) else Ok(CommitLines(log))
  }

  /** The call succeeds exactly when there is no positive limit or the log is
      shorter than it, and then lists every commit. */
  lemma CommitHistoryOutcome(log: seq<Commit>, limit: int)
    ensures CommitHistory(log, limit).Ok? <==> limit <= 0 || |log| < limit
    ensures CommitHistory(log, limit).Ok? ==>
      |CommitHistory(log, limit).value| == |log|
      && forall k :: 0 <= k < |log| ==> CommitHistory(log, limit).value[k] == CommitLine(log[k])
    ensures CommitHistory(log, limit).Err? ==> CommitHistory(log, limit).msg != StopText
  {
  }

  /** A one-commit log with limit 1 fails instead of listing the commit. */
  lemma LimitReachedFails(c: Commit)
    ensures CommitHistory([c], 1) == Err(NilErrorText)
  {
  }

  /** `GetCommitHistory` as evidently intended: at most `limit` lines when the
      limit is positive, the newest first. */
  function CommitHistoryFixed(log: seq<Commit>, limit: int): (r: Result<seq<string>>)
    ensures r.Ok?
    ensures |r.value| == if 0 < limit < |log| then limit else |log|
    ensures forall k :: 0 <= k < |r.value| ==> r.value[k] == CommitLine(log[k])
  {
    Ok(CommitLines(if 0 < limit < |log| then log[..limit] else log))
  }

  /** Where the written version succeeds, the two agree. */
  lemma CommitHistoryAgrees(log: seq<Commit>, limit: int)
    requires CommitHistory(log, limit).Ok?
    ensures CommitHistoryFixed(log, limit) == CommitHistory(log, limit)
  {
  }

  /** The first listed branch other than `current`. */
  function FirstOther(branches: seq<string>, current: string): (r: Option<string>)
    ensures r.None? <==> forall b :: b in branches ==> b == current
    ensures r.Some? ==> r.value in branches && r.value != current
  {
    if branches == [] then None
    else if branches[0] != current then
      assert branches[0] in branches;
      Some(branches[0])
    else
      assert forall b :: b in branches <==> b == branches[0] || b in branches[1..];
      FirstOther(branches[1..], current)
  }

  lemma {:induction false} FirstOtherIsFirst(branches: seq<string>, current: string, k: nat)
    requires k < |branches| && branches[k] != current
    requires forall j :: 0 <= j < k ==> branches[j] == current
    ensures FirstOther(branches, current) == Some(branches[k])
  {
    if k > 0 {
      FirstOtherIsFirst(branches[1..], current, k - 1);
    }
  }

  /** With two or more distinct branches there is always one to switch to. */
  lemma DistinctHasOther(branches: seq<string>, current: string)
    requires Distinct(branches) && |branches| > 1
    ensures FirstOther(branches, current).Some?
  {
    assert branches[0] != branches[1];
  }

  /** The branch `DeleteCurrentBranch` switches to: the first listed branch
      other than `current`, or the empty name when there is none. */
  method ChooseAlternative(branches: seq<string>, current: string) returns (alt: string)
    ensures FirstOther(branches, current).Some? ==> alt == FirstOther(branches, current).value
    ensures FirstOther(branches, current).None? ==> alt == ""
  {
    alt := "";
    var found := false;
    var i := 0;
    while i < |branches| && !found
      invariant 0 <= i <= |branches|
      invariant !found ==> alt == "" && forall j :: 0 <= j < i ==> branches[j] == current
      invariant found ==> (0 < i && alt == branches[i - 1] && alt != current
        && forall j :: 0 <= j < i - 1 ==> branches[j] == current)
    {
      if branches[i] != current {
        alt := branches[i];
        found := true;
      }
      i := i + 1;
    }
    if found {
      FirstOtherIsFirst(branches, current, i - 1);
    }
  }

  /** The branch list without `name`. */
  function Without(branches: seq<string>, name: string): (r: seq<string>)
    ensures |r| <= |branches|
    ensures forall b :: b in r <==> b in branches && b != name
  {
    if branches == [] then []
    else (if branches[0] == name then [] else [branches[0]]) + Without(branches[1..], name)
  }

  /** Removing a listed branch from a list without repeats removes one entry
      and keeps the list without repeats. */
  lemma {:induction false} WithoutDistinct(branches: seq<string>, name: string)
    requires Distinct(branches) && name in branches
    ensures |Without(branches, name)| == |branches| - 1
    ensures Distinct(Without(branches, name))
  {
    var rest := branches[1..];
    assert Distinct(rest) by {
      forall i, j | 0 <= i < j < |rest| ensures rest[i] != rest[j] {
        assert rest[i] == branches[i + 1] && rest[j] == branches[j + 1];
      }
    }
    if branches[0] == name {
      assert name !in rest by {
        forall j | 0 <= j < |rest| ensures rest[j] != name {
          assert rest[j] == branches[j + 1];
        }
      }
      WithoutNotListed(rest, name);
    } else {
      assert name in rest;
      WithoutDistinct(rest, name);
      var w := Without(rest, name);
      assert branches[0] !in w by {
        assert branches[0] !in rest by {
          forall j | 0 <= j < |rest| ensures rest[j] != branches[0] {
            assert rest[j] == branches[j + 1];
          }
        }
      }
      assert Without(branches, name) == [branches[0]] + w;
    }
  }

  lemma {:induction false} WithoutNotListed(branches: seq<string>, name: string)
    requires Distinct(branches) && name !in branches
    ensures Without(branches, name) == branches
  {
    if branches != [] {
      var rest := branches[1..];
      assert Distinct(rest) by {
        forall i, j | 0 <= i < j < |rest| ensures rest[i] != rest[j] {
          assert rest[i] == branches[i + 1] && rest[j] == branches[j + 1];
        }
      }
      WithoutNotListed(rest, name);
      assert branches == [branches[0]] + rest;
    }
  }

  /** The history a merge gives the target branch as written: the merge
      commit's only parent is the source's tip. */
  function MergedHistory(target: seq<Commit>, source: seq<Commit>, m: Commit): (r: seq<Commit>)
    ensures |r| == |source| + 1 && r[0] == m
    ensures forall c :: c in r <==> c == m || c in source
  {
    [m] + source
  }

  /** A commit only the target had is no longer in the target's history. */
  lemma MergeDropsTargetCommits(target: seq<Commit>, source: seq<Commit>, m: Commit, c: Commit)
    requires c in target && c !in source && c != m
    ensures c !in MergedHistory(target, source, m)
  {
  }

  /** The commits of `source` not already in `target`, in order. */
  function Unseen(source: seq<Commit>, target: seq<Commit>): (r: seq<Commit>)
    ensures |r| <= |source|
    ensures forall c :: c in r <==> c in source && c !in target
  {
    if source == [] then []
    else (if source[0] in target then [] else [source[0]]) + Unseen(source[1..], target)
  }

  /** The history of a merge commit whose parents are the target's tip and
      then the source's tip, in go-git's default log order (depth first,
      first parent first, each commit once). */
  function MergedHistoryFixed(target: seq<Commit>, source: seq<Commit>, m: Commit): (r: seq<Commit>)
    ensures |r| == 1 + |target| + |Unseen(source, target)|
    ensures r[0] == m && r[1..|target| + 1] == target
    ensures forall c :: c in r <==> c == m || c in target || c in source
  {
    [m] + target + Unseen(source, target)
  }

  /** The repository of one project. */
  class Repository {
    var histories: map<string, seq<Commit>>
    var branches: seq<string>
    var head: string

    /** The listed branches are the branches with a history, the current
        branch is one of them, and no branch has the empty name. */
    ghost predicate Valid()
      reads this
    {
      (forall b :: b in branches <==> b in histories) && head in histories && "" !in histories
    }

    /** The log `repo.Log` walks: the current branch's history. */
    function History(): seq<Commit>
      reads this
      requires Valid()
    {
      histories[head]
    }

    constructor (histories0: map<string, seq<Commit>>, branches0: seq<string>, head0: string)
      requires forall b :: b in branches0 <==> b in histories0
      requires head0 in histories0 && "" !in histories0
      ensures histories == histories0 && branches == branches0 && head == head0
      ensures Valid()
    {
      histories, branches, head := histories0, branches0, head0;
    }

    /** `GitCommit`: a new commit on the current branch. */
    method GitCommit(message: string, hash: Hash, when: Stamp)
      requires Valid()
      modifies this
      ensures Valid() && head == old(head) && branches == old(branches)
      ensures histories == old(histories)[head := [Commit(hash, message, when)] + old(History())]
    {
      histories := histories[head := [Commit(hash, message, when)] + histories[head]];
    }

    /** `StashChanges`: a commit with the stash message. It becomes stash 0. */
    method StashChanges(message: string, hash: Hash, when: Stamp)
      requires Valid()
      modifies this
      ensures Valid() && head == old(head) && branches == old(branches)
      ensures History() == [Commit(hash, StashMessage(message), when)] + old(History())
      ensures Stashes(History())[0] == StashItem(0, hash, StashMessage(message))
      ensures |Stashes(History())| == |Stashes(old(History()))| + 1
    {
      GitCommit(StashMessage(message), hash, when);
      StashesPrepend(Commit(hash, StashMessage(message), when), old(History()));
    }

    /** `GetAllStashes`: the stash commits of the current log, numbered in
        log order. */
    method GetAllStashes() returns (stashes: seq<StashItem>)
      requires Valid()
      ensures stashes == Stashes(History())
    {
      var log := histories[head];
      stashes := [];
      var index := 0;
      var i := 0;
      while i < |log|
        invariant 0 <= i <= |log|
        invariant stashes == Stashes(log[..i]) && index == |stashes|
      {
        var c := log[i];
        if |c.message| > 6 && c.message[..6] == "Stash:" {
          stashes := stashes + [StashItem(index, c.hash, c.message)];
          index := index + 1;
        }
        StashesSnoc(log[..i], c);
        assert log[..i + 1] == log[..i] + [c];
        i := i + 1;
      }
      assert log[..i] == log;
    }

    /** `ApplyStash`: an index outside the list is refused; otherwise a hard
        reset moves the current branch to the stash commit, which becomes
        stash 0, while the stashes newer than it leave the list. */
    method ApplyStash(stashIndex: int) returns (r: Result<StashItem>)
      requires Valid()
      modifies this
      ensures Valid() && head == old(head) && branches == old(branches)
      ensures r.Err? <==> stashIndex < 0 || stashIndex >= |Stashes(old(History()))|
      ensures r.Err? ==> r.msg == InvalidIndex(stashIndex) && histories == old(histories)
      ensures r.Ok? ==> (r.value == Stashes(old(History()))[stashIndex]
        && History() == old(History())[StashAt(old(History()), stashIndex)..]
        && |Stashes(History())| == |Stashes(old(History()))| - stashIndex
        && forall k :: 0 <= k < |Stashes(History())| ==>
          Stashes(History())[k] == Stashes(old(History()))[stashIndex + k].(index := k))
    {
      var stashes := GetAllStashes();
      if stashIndex < 0 || stashIndex >= |stashes| {
        return Err(InvalidIndex(stashIndex));
      }
      var log := histories[head];
      var p := StashAt(log, stashIndex);
      StashesFrom(log, stashIndex);
      histories := histories[head := log[p..]];
      r := Ok(stashes[stashIndex]);
    }

    /** `DeleteStash` as written: an index outside the list is refused;
        otherwise it removes the reference `refs/stash/<hash>`, which no
        operation creates, and the stash commit stays in the log. */
    method DeleteStash(stashIndex: int) returns (r: Result<string>)
      requires Valid()
      ensures r.Err? <==> stashIndex < 0 || stashIndex >= |Stashes(History())|
      ensures r.Err? ==> r.msg == InvalidIndex(stashIndex)
      ensures r.Ok? ==> r.value == "refs/stash/" + Stashes(History())[stashIndex].hash
    {
      var stashes := GetAllStashes();
      if stashIndex < 0 || stashIndex >= |stashes| {
        return Err(InvalidIndex(stashIndex));
      }
      r := Ok("refs/stash/" + stashes[stashIndex].hash);
    }

    /** `DeleteStash` as evidently intended: the stash commit leaves the
        history, the older stashes move down by one and the others keep
        their numbers. */
    method DeleteStashFixed(stashIndex: int) returns (r: Result<StashItem>)
      requires Valid()
      modifies this
      ensures Valid() && head == old(head) && branches == old(branches)
      ensures r.Err? <==> stashIndex < 0 || stashIndex >= |Stashes(old(History()))|
      ensures r.Err? ==> r.msg == InvalidIndex(stashIndex) && histories == old(histories)
      ensures r.Ok? ==> (r.value == Stashes(old(History()))[stashIndex]
        && |Stashes(History())| == |Stashes(old(History()))| - 1
        && (forall k :: 0 <= k < stashIndex ==> Stashes(History())[k] == Stashes(old(History()))[k])
        && (forall k :: stashIndex <= k < |Stashes(History())| ==>
          Stashes(History())[k] == Stashes(old(History()))[k + 1].(index := k)))
    {
      var stashes := GetAllStashes();
      if stashIndex < 0 || stashIndex >= |stashes| {
        return Err(InvalidIndex(stashIndex));
      }
      var log := histories[head];
      StashesWithout(log, stashIndex);
      histories := histories[head := WithoutStash(log, stashIndex)];
      r := Ok(stashes[stashIndex]);
    }

    /** `SwitchBranch`: checking out a branch that does not exist fails. */
    method SwitchBranch(name: string) returns (err: Option<string>)
      requires Valid()
      modifies this
      ensures Valid() && histories == old(histories) && branches == old(branches)
      ensures name in old(histories) ==> err.None? && head == name
      ensures name !in old(histories) ==> err == Some(RefNotFound) && head == old(head)
    {
      if name !in histories {
        return Some(RefNotFound);
      }
      head := name;
      err := None;
    }

    /** `CreateBranch`: an existing name aborts the listing callback with a
        non-nil error; otherwise a branch at the current commit is created and
        checked out. go-git lists loose references in name order and packed
        ones after them, so the new branch may appear anywhere in the listing;
        the other branches keep their order. */
    method CreateBranch(name: string) returns (err: Option<string>)
      requires Valid()
      modifies this
      ensures Valid()
      ensures name in old(branches) ==> err == Some(NilErrorText) && unchanged(this)
      ensures name == "" ==> err.Some? && unchanged(this)
      ensures name != "" && name !in old(branches) ==>
        err.None? && head == name
        && (exists i :: 0 <= i <= |old(branches)| && branches == old(branches)[..i] + [name] + old(branches)[i..])
        && histories == old(histories)[name := old(History())]
    {
      var listed := false;
      var i := 0;
      while i < |branches| && !listed
        invariant 0 <= i <= |branches|
        invariant listed <==> name in branches[..i]
      {
        listed := branches[i] == name;
        assert branches[..i + 1] == branches[..i] + [branches[i]];
        i := i + 1;
      }
      if listed {
        return Some(NilErrorText);
      }
      assert branches[..i] == branches;
      if name == "" {
        return Some(BadRefName);
      }
      histories := histories[name := histories[head]];
      var at :| 0 <= at <= |branches|;
      branches := branches[..at] + [name] + branches[at..];
      head := name;
      err := None;
    }

    /** `DeleteCurrentBranch`: refused when at most one branch is listed;
        otherwise switches to the first other listed branch and deletes the
        one it left. */
    method DeleteCurrentBranch() returns (err: Option<string>)
      requires Valid()
      modifies this
      ensures Valid()
      ensures |old(branches)| <= 1 ==> err == Some(OnlyBranchError) && unchanged(this)
      ensures |old(branches)| > 1 && FirstOther(old(branches), old(head)).None? ==>
        err == Some(RefNotFound)
        && histories == old(histories) && branches == old(branches) && head == old(head)
      ensures |old(branches)| > 1 && FirstOther(old(branches), old(head)).Some? ==>
        err.None? && head == FirstOther(old(branches), old(head)).value
        && branches == Without(old(branches), old(head))
        && histories == old(histories) - {old(head)}
      ensures Distinct(old(branches)) && |old(branches)| > 1 ==>
        err.None? && Distinct(branches) && |branches| == |old(branches)| - 1
    {
      var current := head;
      if |branches| <= 1 {
        return Some(OnlyBranchError);
      }
      if Distinct(branches) {
        DistinctHasOther(branches, current);
        WithoutDistinct(branches, current);
      }
      var alt := ChooseAlternative(branches, current);
      err := SwitchBranch(alt);
      if err.Some? {
        return;
      }
      branches := Without(branches, current);
      histories := histories - {current};
    }

    /** `MergeBranch` as written: checks out the target, then commits on it
        with the source's tip as the only parent, so the target's history
        becomes the source's under the merge commit. */
    method MergeBranch(target: string, source: string, hash: Hash, when: Stamp) returns (err: Option<string>)
      requires Valid()
      modifies this
      ensures Valid() && branches == old(branches)
      ensures target !in old(histories) ==> (err == Some(RefNotFound)
        && histories == old(histories) && branches == old(branches) && head == old(head))
      ensures target in old(histories) && source !in old(histories) ==>
        err == Some(RefNotFound) && head == target && histories == old(histories)
      ensures target in old(histories) && source in old(histories) ==>
        err.None? && head == target
        && histories == old(histories)[target := MergedHistory(old(histories)[target], old(histories)[source],
          Commit(hash, MergeMessage(source, target), when))]
    {
      err := SwitchBranch(target);
      if err.Some? {
        return;
      }
      if source !in histories {
        return Some(RefNotFound);
      }
      var m := Commit(hash, MergeMessage(source, target), when);
      histories := histories[target := MergedHistory(histories[target], histories[source], m)];
    }

    /** `MergeBranch` as evidently intended: the merge commit has both tips
        as parents, so both histories stay reachable from the target. */
    method MergeBranchFixed(target: string, source: string, hash: Hash, when: Stamp) returns (err: Option<string>)
      requires Valid()
      modifies this
      ensures Valid() && branches == old(branches)
      ensures target !in old(histories) ==> (err == Some(RefNotFound)
        && histories == old(histories) && branches == old(branches) && head == old(head))
      ensures target in old(histories) && source !in old(histories) ==>
        err == Some(RefNotFound) && head == target && histories == old(histories)
      ensures target in old(histories) && source in old(histories) ==>
        err.None? && head == target
        && (forall c :: c in old(histories)[target] ==> c in History())
        && (forall c :: c in old(histories)[source] ==> c in History())
    {
      err := SwitchBranch(target);
      if err.Some? {
        return;
      }
      if source !in histories {
        return Some(RefNotFound);
      }
      var m := Commit(hash, MergeMessage(source, target), when);
      histories := histories[target := MergedHistoryFixed(histories[target], histories[source], m)];
    }

    /** `GetCommitHistory`: one line per commit of the current log; the
        callback's error at the limit is returned unless its text is `stop`. */
    method GetCommitHistory(limit: int) returns (r: Result<seq<string>>)
      requires Valid()
      ensures r == CommitHistory(History(), limit)
    {
      var log := histories[head];
      var commits: seq<string> := [];
      var count := 0;
      var stopped: Option<string> := None;
      var i := 0;
      while i < |log| && stopped.None?
        invariant 0 <= i <= |log| && count == i
        invariant commits == CommitLines(log[..i])
        invariant stopped.None? ==> limit <= 0 || i < limit
        invariant stopped.Some? ==> stopped == Some(NilErrorText) && limit > 0 && i == limit
      {
        var c := log[i];
        commits := commits + [CommitLine(c)];
        count := count + 1;
        if limit > 0 && count >= limit {
          stopped := Some(NilErrorText);
        }
        assert CommitLines(log[..i + 1]) == CommitLines(log[..i]) + [CommitLine(c)];
        i := i + 1;
      }
      if stopped.Some? && stopped.value != StopText {
        return Err(stopped.value);
      }
      assert log[..i] == log;
      r := Ok(commits);
    }
  }

  /** Deleting a stash as written leaves the list `GetAllStashes` returns
      unchanged. */
  method DeleteStashKeepsList(repo: Repository, stashIndex: int) returns (before: seq<StashItem>, after: seq<StashItem>)
    requires repo.Valid()
    ensures 0 <= stashIndex < |before| ==> after == before && after[stashIndex].index == stashIndex
  {
    before := repo.GetAllStashes();
    var _ := repo.DeleteStash(stashIndex);
    after := repo.GetAllStashes();
  }
}
