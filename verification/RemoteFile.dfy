/**
 Replacing a remote file over SFTP: upload to a temporary path, rename over the target, and where the server
 cannot do that, move the old file to a backup, rename, and move it back on failure. Any remote operation may
 fail; a failed operation has no effect, except that a failed upload may leave any partial temporary file.
 A plain rename refuses an existing target (section 6.5 of draft-ietf-secsh-filexfer-02).
 */
module RemoteFile {
  import opened Wrappers

  type Path = string
  type Content = seq<int>
  type Files = map<Path, Content>

  /**
   How an operation can fail: an I/O or SFTP error, an SSH error, an end of file, or anything else. The handlers
   of the fallback catch only the first kind.
   */
  datatype Failure = Io | Ssh | Eof | Unexpected

  datatype Outcome = Returned(ok: bool) | Raised

  function TmpPath(path: Path): Path {
    path + ".tmp"
  }

  function BackupPath(path: Path): Path {
    path + ".bak"
  }

  lemma PathsDiffer(path: Path)
    ensures path != TmpPath(path) && path != BackupPath(path) && TmpPath(path) != BackupPath(path)
  {
    assert TmpPath(path)[|path| + 1] == 't' && BackupPath(path)[|path| + 1] == 'b';
    assert |TmpPath(path)| == |path| + 4;
  }

  /** The content is at one of two paths. */
  predicate Survives(files: Files, path: Path, content: Content) {
    (path in files && files[path] == content) || (BackupPath(path) in files && files[BackupPath(path)] == content)
  }

  /** The new content has arrived, or the old one, if there was one, is still at the path or its backup. */
  predicate NothingLost(before: Files, now: Files, path: Path, content: Content) {
    || (path in now && now[path] == content)
    || (path in before ==> Survives(now, path, before[path]))
  }

  /** Only the path, its temporary and its backup may differ. */
  ghost predicate OthersUntouched(before: Files, now: Files, path: Path) {
    forall p :: p != path && p != TmpPath(path) && p != BackupPath(path) ==>
      (p in now <==> p in before) && (p in before ==> now[p] == before[p])
  }

  /** A state in which nothing is lost and nothing else has changed. */
  ghost predicate Good(before: Files, now: Files, path: Path, content: Content) {
    NothingLost(before, now, path, content) && OthersUntouched(before, now, path)
  }

  ghost predicate AllGood(states: seq<Files>, start: nat, before: Files, path: Path, content: Content) {
    start <= |states| && forall k :: start <= k < |states| ==> Good(before, states[k], path, content)
  }

  lemma AllGoodAppend(states: seq<Files>, more: seq<Files>, start: nat, before: Files, path: Path, content: Content,
                      now: Files)
    requires AllGood(states, start, before, path, content) && more == states + [now]
    requires Good(before, now, path, content)
    ensures AllGood(more, start, before, path, content)
  {
  }

  /** Uploaded, the old file untouched. */
  ghost predicate Uploaded(before: Files, now: Files, path: Path, content: Content) {
    && OthersUntouched(before, now, path)
    && TmpPath(path) in now && now[TmpPath(path)] == content
    && (path in now <==> path in before)
    && (path in before ==> now[path] == before[path])
  }

  /** Uploaded, the old file, if there was one, moved to the backup. */
  ghost predicate MovedAway(before: Files, now: Files, path: Path, content: Content) {
    && OthersUntouched(before, now, path)
    && TmpPath(path) in now && now[TmpPath(path)] == content
    && path !in now && path in before
    && BackupPath(path) in now && now[BackupPath(path)] == before[path]
  }

  /** Arrived. */
  ghost predicate Arrived(before: Files, now: Files, path: Path, content: Content) {
    && OthersUntouched(before, now, path)
    && TmpPath(path) !in now
    && path in now && now[path] == content
  }

  // ---------------------------------------------------------------- what the operations do

  /** The failure of the n-th operation, if it fails. */
  type Faults = nat -> Option<Failure>

  /** The files and the number of operations after some operations, and how they failed, if they did. */
  datatype Step = Step(files: Files, count: nat, failure: Option<Failure>)

  function AfterUpload(files: Files, count: nat, fault: Faults, path: Path, content: Content,
                       partial: Option<Content>): Step
  {
    var stored := if fault(count).None? then Some(content) else partial;
    Step(if stored.Some? then files[path := stored.value] else files, count + 1, fault(count))
  }

  function AfterRename(files: Files, count: nat, fault: Faults, from: Path, to: Path, replacing: bool): Step {
    if fault(count).Some? then Step(files, count + 1, fault(count))
    else if from in files && (replacing || to !in files) then
      Step((files - {from})[to := files[from]], count + 1, None)
    else Step(files, count + 1, Some(Io))
  }

  function AfterRemove(files: Files, count: nat, fault: Faults, path: Path): Step {
    if fault(count).Some? then Step(files, count + 1, fault(count))
    else if path in files then Step(files - {path}, count + 1, None)
    else Step(files, count + 1, Some(Io))
  }

  function AfterMoveIn(files: Files, count: nat, fault: Faults, path: Path, backup: bool): Step {
    var moved := AfterRename(files, count, fault, TmpPath(path), path, false);
    if moved.failure == Some(Io) && backup then
      var restored := AfterRename(moved.files, moved.count, fault, BackupPath(path), path, false);
      if restored.failure.None? || restored.failure == Some(Io) then restored.(failure := Some(Io)) else restored
    else moved
  }

  function AfterFallback(files: Files, count: nat, fault: Faults, path: Path): Step {
    var removed := AfterRemove(files, count, fault, BackupPath(path));
    if removed.failure.Some? && removed.failure != Some(Io) then removed
    else
      var away := AfterRename(removed.files, removed.count, fault, path, BackupPath(path), false);
      if away.failure.Some? && away.failure != Some(Io) then away
      else
        var moved := AfterMoveIn(away.files, away.count, fault, path, away.failure.None?);
        if moved.failure.None? && away.failure.None? then
          var cleaned := AfterRemove(moved.files, moved.count, fault, BackupPath(path));
          if cleaned.failure == Some(Io) then cleaned.(failure := None) else cleaned
        else moved
  }

  function AfterUploadAndRename(files: Files, count: nat, fault: Faults, content: Content, path: Path,
                                partial: Option<Content>): Step
  {
    var uploaded := AfterUpload(files, count, fault, TmpPath(path), content, partial);
    if uploaded.failure.Some? then uploaded
    else
      var renamed := AfterRename(uploaded.files, uploaded.count, fault, TmpPath(path), path, true);
      if renamed.failure == Some(Io) then AfterFallback(renamed.files, renamed.count, fault, path) else renamed
  }

  function AfterReplace(files: Files, count: nat, fault: Faults, content: Content, path: Path,
                        partial: Option<Content>): Step
  {
    var replaced := AfterUploadAndRename(files, count, fault, content, path, partial);
    if replaced.failure.Some? then
      AfterRemove(replaced.files, replaced.count, fault, TmpPath(path)).(failure := replaced.failure)
    else replaced
  }

  /** The files after a call. */
  function AfterPut(files: Files, count: nat, fault: Faults, content: Content, path: Path, opens: Option<Failure>,
                    partial: Option<Content>): Files
  {
    if opens.Some? then files else AfterReplace(files, count, fault, content, path, partial).files
  }

  // ---------------------------------------------------------------- the session

  class Sftp {
    var files: Files
    const fault: Faults
    var count: nat                      // operations issued so far
    ghost var history: seq<Files>       // the files after each operation

    constructor (files: Files, fault: Faults)
      ensures this.files == files && this.fault == fault && count == 0 && history == [files]
    {
      this.files, this.fault, this.count, this.history := files, fault, 0, [files];
    }

    /** Takes the next operation's scheduled failure. */
    method Next() returns (failure: Option<Failure>)
      modifies this`count
      ensures count == old(count) + 1 && failure == fault(old(count))
    {
      failure := fault(count);
      count := count + 1;
    }

    /** Stores new content; when it fails it may leave anything at that path, or nothing. */
    method Upload(path: Path, content: Content, partial: Option<Content>) returns (failure: Option<Failure>)
      modifies this
      ensures count == old(count) + 1 && failure == fault(old(count))
      ensures files == if failure.None? then old(files)[path := content]
                       else if partial.Some? then old(files)[path := partial.value]
                       else old(files)
      ensures Step(files, count, failure) == AfterUpload(old(files), old(count), fault, path, content, partial)
      ensures history == old(history) + [files]
    {
      failure := Next();
      if failure.None? {
        files := files[path := content];
      } else if partial.Some? {
        files := files[path := partial.value];
      }
      history := history + [files];
    }

    /** Renames and replaces an existing target. */
    method PosixRename(from: Path, to: Path) returns (failure: Option<Failure>)
      requires from != to
      modifies this
      ensures count == old(count) + 1
      ensures fault(old(count)).Some? ==> failure == fault(old(count))
      ensures fault(old(count)).None? ==> failure == if from in old(files) then None else Some(Io)
      ensures files == if failure.None? then (old(files) - {from})[to := old(files)[from]] else old(files)
      ensures failure.None? ==> from in old(files)
      ensures Step(files, count, failure) == AfterRename(old(files), old(count), fault, from, to, true)
      ensures history == old(history) + [files]
    {
      failure := Next();
      if failure.None? {
        if from in files {
          files := (files - {from})[to := files[from]];
        } else {
          failure := Some(Io);
        }
      }
      history := history + [files];
    }

    /** Renames; an existing target is refused. */
    method Rename(from: Path, to: Path) returns (failure: Option<Failure>)
      requires from != to
      modifies this
      ensures count == old(count) + 1
      ensures fault(old(count)).Some? ==> failure == fault(old(count))
      ensures fault(old(count)).None? ==>
                failure == if from in old(files) && to !in old(files) then None else Some(Io)
      ensures failure.None? ==> from in old(files) && to !in old(files)
      ensures files == if failure.None? then (old(files) - {from})[to := old(files)[from]] else old(files)
      ensures Step(files, count, failure) == AfterRename(old(files), old(count), fault, from, to, false)
      ensures history == old(history) + [files]
    {
      failure := Next();
      if failure.None? {
        if from in files && to !in files {
          files := (files - {from})[to := files[from]];
        } else {
          failure := Some(Io);
        }
      }
      history := history + [files];
    }

    method Remove(path: Path) returns (failure: Option<Failure>)
      modifies this
      ensures count == old(count) + 1
      ensures fault(old(count)).Some? ==> failure == fault(old(count))
      ensures fault(old(count)).None? ==> failure == if path in old(files) then None else Some(Io)
      ensures failure.None? ==> path in old(files)
      ensures files == if failure.None? then old(files) - {path} else old(files)
      ensures Step(files, count, failure) == AfterRemove(old(files), old(count), fault, path)
      ensures history == old(history) + [files]
    {
      failure := Next();
      if failure.None? {
        if path in files {
          files := files - {path};
        } else {
          failure := Some(Io);
        }
      }
      history := history + [files];
    }

    /**
     The fallback after a failed replacing rename. An Io failure of the second rename restores the backup;
     any other failure leaves it where it is.
     */
    method ReplaceWithBackup(path: Path, ghost start: nat, ghost before: Files, content: Content)
      returns (failure: Option<Failure>)
      requires Uploaded(before, files, path, content) && AllGood(history, start, before, path, content)
      modifies this
      ensures AllGood(history, start, before, path, content) && Good(before, files, path, content)
      ensures old(history) <= history && old(count) <= count
      ensures failure.None? ==> Arrived(before, files, path, content)
      ensures (forall n :: old(count) <= n ==> fault(n).None?) ==> failure.None? && BackupPath(path) !in files
      ensures Step(files, count, failure) == AfterFallback(old(files), old(count), fault, path)
    {
      PathsDiffer(path);
      var backup := true;
      failure := ClearBackup(path, start, before, content);
      if failure.Some? && failure != Some(Io) {
        return;
      }
      failure := MoveAway(path, start, before, content);
      if failure == Some(Io) {
        backup := false;
      } else if failure.Some? {
        return;
      }
      failure := MoveIn(path, backup, start, before, content);
      if failure.None? && backup {
        failure := DropBackup(path, start, before, content);
      }
    }

    /** Removes the backup once the new content has arrived; that it is refused is only worth a warning. */
    method DropBackup(path: Path, ghost start: nat, ghost before: Files, content: Content)
      returns (failure: Option<Failure>)
      requires Arrived(before, files, path, content) && AllGood(history, start, before, path, content)
      modifies this
      ensures AllGood(history, start, before, path, content) && Arrived(before, files, path, content)
      ensures old(history) <= history && old(count) < count
      ensures fault(old(count)).None? ==> failure.None? && BackupPath(path) !in files
      ensures var removed := AfterRemove(old(files), old(count), fault, BackupPath(path));
              Step(files, count, failure)
              == if removed.failure == Some(Io) then removed.(failure := None) else removed
    {
      PathsDiffer(path);
      failure := Remove(BackupPath(path));
      AllGoodAppend(old(history), history, start, before, path, content, files);
      if failure == Some(Io) {
        failure := None;
      }
    }

    /** Removes what an earlier call may have left at the backup path. */
    method ClearBackup(path: Path, ghost start: nat, ghost before: Files, content: Content)
      returns (failure: Option<Failure>)
      requires Uploaded(before, files, path, content) && AllGood(history, start, before, path, content)
      modifies this
      ensures AllGood(history, start, before, path, content) && Uploaded(before, files, path, content)
      ensures old(history) <= history && count == old(count) + 1
      ensures fault(old(count)).None? ==> BackupPath(path) !in files && (failure.None? || failure == Some(Io))
      ensures Step(files, count, failure) == AfterRemove(old(files), old(count), fault, BackupPath(path))
    {
      PathsDiffer(path);
      failure := Remove(BackupPath(path));
      AllGoodAppend(old(history), history, start, before, path, content, files);
    }

    /** Moves the old file to the backup path. */
    method MoveAway(path: Path, ghost start: nat, ghost before: Files, content: Content)
      returns (failure: Option<Failure>)
      requires Uploaded(before, files, path, content) && AllGood(history, start, before, path, content)
      modifies this
      ensures AllGood(history, start, before, path, content)
      ensures old(history) <= history && count == old(count) + 1
      ensures failure.None? ==> MovedAway(before, files, path, content)
      ensures failure.Some? ==> files == old(files)
      ensures fault(old(count)).None? ==>
                failure == if path in old(files) && BackupPath(path) !in old(files) then None else Some(Io)
      ensures Step(files, count, failure)
              == AfterRename(old(files), old(count), fault, path, BackupPath(path), false)
    {
      PathsDiffer(path);
      failure := Rename(path, BackupPath(path));
      AllGoodAppend(old(history), history, start, before, path, content, files);
    }

    /** Moves the temporary file in, and the backup back when that is refused. */
    method MoveIn(path: Path, backup: bool, ghost start: nat, ghost before: Files, content: Content)
      returns (failure: Option<Failure>)
      requires backup ==> MovedAway(before, files, path, content)
      requires !backup ==> Uploaded(before, files, path, content)
      requires AllGood(history, start, before, path, content)
      modifies this
      ensures AllGood(history, start, before, path, content) && Good(before, files, path, content)
      ensures old(history) <= history && old(count) < count
      ensures failure.None? ==> Arrived(before, files, path, content)
                                && (BackupPath(path) in files <==> BackupPath(path) in old(files))
      ensures fault(old(count)).None? && path !in old(files) ==> failure.None?
      ensures Step(files, count, failure) == AfterMoveIn(old(files), old(count), fault, path, backup)
    {
      PathsDiffer(path);
      failure := Rename(TmpPath(path), path);
      AllGoodAppend(old(history), history, start, before, path, content, files);
      if failure == Some(Io) && backup {
        ghost var h := history;
        var restore := Rename(BackupPath(path), path);
        AllGoodAppend(h, history, start, before, path, content, files);
        if restore.Some? && restore != Some(Io) {
          failure := restore;
        }
      }
    }

    /** Uploads, then renames over the target, by the fallback if need be. */
    method UploadAndRename(content: Content, path: Path, partial: Option<Content>) returns (failure: Option<Failure>)
      modifies this
      ensures AllGood(history, |old(history)|, old(files), path, content) && Good(old(files), files, path, content)
      ensures old(history) <= history && old(count) <= count
      ensures failure.None? ==> Arrived(old(files), files, path, content)
      ensures (forall n :: old(count) <= n ==> fault(n).None? || (n == old(count) + 1 && fault(n) == Some(Io)))
              ==> failure.None?
      ensures Step(files, count, failure)
              == AfterUploadAndRename(old(files), old(count), fault, content, path, partial)
    {
      PathsDiffer(path);
      ghost var start, before := |history|, files;
      ghost var h := history;
      failure := Upload(TmpPath(path), content, partial);
      assert Good(before, files, path, content);
      AllGoodAppend(h, history, start, before, path, content, files);
      if failure.Some? {
        return;
      }
      assert Uploaded(before, files, path, content);
      h := history;
      failure := PosixRename(TmpPath(path), path);
      assert failure.None? ==> Arrived(before, files, path, content);
      AllGoodAppend(h, history, start, before, path, content, files);
      if failure == Some(Io) {
        failure := ReplaceWithBackup(path, start, before, content);
      }
    }

    /** The same, cleaning up the temporary file when a step fails. */
    method Replace(content: Content, path: Path, partial: Option<Content>) returns (failure: Option<Failure>)
      modifies this
      ensures AllGood(history, |old(history)|, old(files), path, content) && Good(old(files), files, path, content)
      ensures old(history) <= history && old(count) <= count
      ensures failure.None? ==> Arrived(old(files), files, path, content)
      ensures (forall n :: old(count) <= n ==> fault(n).None? || (n == old(count) + 1 && fault(n) == Some(Io)))
              ==> failure.None?
      ensures Step(files, count, failure) == AfterReplace(old(files), old(count), fault, content, path, partial)
    {
      PathsDiffer(path);
      ghost var start, before := |history|, files;
      failure := UploadAndRename(content, path, partial);
      if failure.Some? {
        ghost var h := history;
        var _ := Remove(TmpPath(path));
        AllGoodAppend(h, history, start, before, path, content, files);
      }
    }

    /**
     Replaces a remote file. "opens" is how opening the session fails, if it does, "partial" what a failing upload
     leaves. At every step the new content has arrived or the old one survives; True means it has arrived. A server
     without the replacing rename (operation number one refused) is served by the fallback.
     */
    method PutFile(content: Content, path: Path, opens: Option<Failure>, partial: Option<Content>)
      returns (outcome: Outcome)
      modifies this
      ensures old(history) <= history
      ensures forall k :: |old(history)| <= k < |history| ==>
                NothingLost(old(files), history[k], path, content) && OthersUntouched(old(files), history[k], path)
      ensures NothingLost(old(files), files, path, content) && OthersUntouched(old(files), files, path)
      ensures outcome == Returned(true) ==> path in files && files[path] == content && TmpPath(path) !in files
      ensures opens.None?
              && (forall n :: old(count) <= n ==> fault(n).None? || (n == old(count) + 1 && fault(n) == Some(Io)))
              ==> outcome == Returned(true)
      ensures opens.Some? ==> files == old(files) && outcome != Returned(true)
      ensures files == AfterPut(old(files), old(count), fault, content, path, opens, partial)
    {
      var failure := opens;
      if failure.None? {
        failure := Replace(content, path, partial);
        if failure.None? {
          // setting the mode changes no content; only an end of file or an unexpected error escapes
          failure := Next();
          if failure == Some(Io) || failure == Some(Ssh) {
            failure := None;
          }
        }
      }
      if failure.None? {
        return Returned(true);
      }
      return if failure == Some(Unexpected) then Raised else Returned(false);
    }
  }
}
