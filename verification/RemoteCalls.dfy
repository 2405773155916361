/**
 Calls that replace one remote file, one after the other, as after a failure and a retry: what each call keeps of
 the content it finds, exactly when, and what a sequence of them keeps.
 */
module RemoteCalls {
  import opened Wrappers
  import opened RemoteFile

  /** One call, with how its session opens, what a failing upload leaves, and which operations fail. */
  datatype Call = Call(content: Content, opens: Option<Failure>, partial: Option<Content>, fault: Faults) {
    function After(files: Files, path: Path): Files {
      AfterPut(files, 0, fault, content, path, opens, partial)
    }
  }

  function AfterCalls(files: Files, path: Path, calls: seq<Call>): Files
    decreases |calls|
  {
    if calls == [] then files else AfterCalls(calls[0].After(files, path), path, calls[1..])
  }

  // ---------------------------------------------------------------- one call

  /** Nothing is lost, and what is at the path was there before or is new. */
  predicate Kept(before: Files, now: Files, path: Path, content: Content) {
    && NothingLost(before, now, path, content)
    && (path in now ==> now[path] == content || (path in before && now[path] == before[path]))
  }

  /** The rename into place succeeds, or leaves the files as they were, or puts the backup back. */
  lemma MoveInShape(files: Files, count: nat, fault: Faults, path: Path, backup: bool)
    ensures var moved := AfterMoveIn(files, count, fault, path, backup);
            && (moved.failure.None? ==>
                  && TmpPath(path) in files && path in moved.files && moved.files[path] == files[TmpPath(path)]
                  && path !in files)
            && (moved.failure.Some? && moved.files != files ==>
                  && backup && BackupPath(path) in files
                  && path in moved.files && moved.files[path] == files[BackupPath(path)])
  {
    PathsDiffer(path);
  }

  lemma FallbackKeeps(files: Files, count: nat, fault: Faults, path: Path)
    requires TmpPath(path) in files
    ensures Kept(files, AfterFallback(files, count, fault, path).files, path, files[TmpPath(path)])
  {
    PathsDiffer(path);
    var removed := AfterRemove(files, count, fault, BackupPath(path));
    var away := AfterRename(removed.files, removed.count, fault, path, BackupPath(path), false);
    MoveInShape(away.files, away.count, fault, path, away.failure.None?);
  }

  lemma UploadAndRenameKeeps(files: Files, count: nat, fault: Faults, content: Content, path: Path,
                             partial: Option<Content>)
    ensures Kept(files, AfterUploadAndRename(files, count, fault, content, path, partial).files, path, content)
  {
    PathsDiffer(path);
    var uploaded := AfterUpload(files, count, fault, TmpPath(path), content, partial);
    var renamed := AfterRename(uploaded.files, uploaded.count, fault, TmpPath(path), path, true);
    if uploaded.failure.None? && renamed.failure == Some(Io) {
      FallbackKeeps(renamed.files, renamed.count, fault, path);
    }
  }

  /** Whatever fails, a call keeps the content it finds at the path, there or at the backup, or has replaced it. */
  lemma CallKeeps(files: Files, path: Path, call: Call)
    ensures Kept(files, call.After(files, path), path, call.content)
  {
    PathsDiffer(path);
    if call.opens.None? {
      UploadAndRenameKeeps(files, 0, call.fault, call.content, path, call.partial);
    }
  }

  /** The replacing rename, the rename into place and the way back are refused. */
  function Refusals(n: nat): Option<Failure> {
    if n == 1 || n == 4 || n == 5 then Some(Io) else None
  }

  /** Then the backup that was there before the call is gone, and nothing is at the path. */
  lemma RefusedCall(files: Files, path: Path, content: Content)
    ensures var now := Call(content, None, None, Refusals).After(files, path);
            && path !in now
            && (path in files ==> BackupPath(path) in now && now[BackupPath(path)] == files[path])
            && (path !in files ==> BackupPath(path) !in now)
  {
    PathsDiffer(path);
    var uploaded := AfterUpload(files, 0, Refusals, TmpPath(path), content, None);
    var removed := AfterRemove(uploaded.files, 2, Refusals, BackupPath(path));
    var away := AfterRename(removed.files, 3, Refusals, path, BackupPath(path), false);
    assert AfterRename(uploaded.files, 1, Refusals, TmpPath(path), path, true) == Step(uploaded.files, 2, Some(Io));
    assert AfterMoveIn(away.files, 4, Refusals, path, away.failure.None?).files == away.files;
    assert AfterFallback(uploaded.files, 2, Refusals, path).files == away.files;
  }

  /** The old content, at the path or its backup, or the new content at the path. */
  predicate OneSurvives(now: Files, path: Path, was: Content, content: Content) {
    (path in now && now[path] == content) || Survives(now, path, was)
  }

  /**
   The exact condition: of content that is at the path or its backup, a call keeps what it finds whatever fails, or
   has put the new content in place, if and only if it finds the old content at the path itself.
   */
  lemma CallKeepsExactlyWhen(files: Files, path: Path, was: Content, content: Content)
    requires Survives(files, path, was) && was != content
    ensures (forall opens, partial, fault ::
               OneSurvives(Call(content, opens, partial, fault).After(files, path), path, was, content))
            <==> path in files && files[path] == was
  {
    if path in files && files[path] == was {
      forall opens, partial, fault
        ensures OneSurvives(Call(content, opens, partial, fault).After(files, path), path, was, content)
      {
        CallKeeps(files, path, Call(content, opens, partial, fault));
      }
    } else {
      RefusedCall(files, path, content);
      assert !OneSurvives(Call(content, None, None, Refusals).After(files, path), path, was, content);
    }
  }

  // ---------------------------------------------------------------- calls in a row

  /** Every call finds a file at the path; a retry can look before it starts. */
  predicate PathNeverMissing(files: Files, path: Path, calls: seq<Call>)
    decreases |calls|
  {
    calls == [] || (path in files && PathNeverMissing(calls[0].After(files, path), path, calls[1..]))
  }

  /** The content is the first one's or one of the calls'. */
  predicate IsKnown(c: Content, first: Content, calls: seq<Call>) {
    c == first || exists i :: 0 <= i < |calls| && calls[i].content == c
  }

  lemma KnownBefore(c: Content, second: Content, first: Content, calls: seq<Call>)
    requires calls != [] && IsKnown(c, second, calls[1..]) && (second == first || second == calls[0].content)
    ensures IsKnown(c, first, calls)
  {
    if c != second {
      var i :| 0 <= i < |calls[1..]| && calls[1..][i].content == c;
      assert calls[i + 1].content == c;
    }
  }

  /**
   Calls that each find a file at the path never lose it, whatever fails: in the end the path or its backup holds
   what was there at first or what one of them brought.
   */
  lemma {:induction false} CallsKeepOneContent(files: Files, path: Path, calls: seq<Call>) returns (c: Content)
    requires path in files && PathNeverMissing(files, path, calls)
    ensures IsKnown(c, files[path], calls) && Survives(AfterCalls(files, path, calls), path, c)
    decreases |calls|
  {
    if calls == [] {
      c := files[path];
    } else {
      var now, rest := calls[0].After(files, path), calls[1..];
      CallKeeps(files, path, calls[0]);
      if path in now {
        c := CallsKeepOneContent(now, path, rest);
        KnownBefore(c, now[path], files[path], calls);
      } else {
        assert rest == [] && AfterCalls(now, path, rest) == now;
        c := files[path];
      }
    }
  }

  /**
   A retry that does not look: the first call leaves the old content at the backup only, the second removes it and
   is refused again, so that neither content is at the path or its backup.
   */
  lemma RetryLosesBoth(path: Path, was: Content, content: Content)
    ensures var call := Call(content, None, None, Refusals);
            var once := AfterCalls(map[path := was], path, [call]);
            var twice := AfterCalls(map[path := was], path, [call, call]);
            && path !in once && Survives(once, path, was)
            && path !in twice && BackupPath(path) !in twice
  {
    var call, files := Call(content, None, None, Refusals), map[path := was];
    var once := call.After(files, path);
    RefusedCall(files, path, content);
    RefusedCall(once, path, content);
    assert [call][1..] == [] && [call, call][1..] == [call];
    assert AfterCalls(files, path, [call]) == once;
    assert AfterCalls(files, path, [call, call]) == AfterCalls(once, path, [call]) == call.After(once, path);
  }
}
