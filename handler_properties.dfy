/** What one invocation of the sticker-message handler promises, stated over
    `Handle` for every store, set name and platform behaviour. */
module HandlerProperties {
  import opened Naming
  import opened Messages
  import opened Handler
  import opened LoopProperties

  /** The loop of a run for set `pack`. */
  function Run(store: Store, pack: string, env: Env): LoopState {
    LoopPrefix(pack, env, StartDir(store, pack), |env.stickers|)
  }

  /** The invocation gets past every check and call before the loop. */
  predicate ReachesLoop(store: Store, setName: Option<string>, env: Env) {
    !NoSetName(setName) &&
    !Fails(env, InitialReply) &&
    !(setName.value in store && Fails(env, ReadDir)) &&
    !AlreadyHas(store, setName.value) &&
    !Fails(env, FetchSet) && !Fails(env, MakeDir)
  }

  /** An event that ends the conversation about a set: the error notice, or
      the status message edited to a final text. */
  predicate FinalEvent(e: Event) {
    (e.Sent? || e.Edited?) && IsFinal(e.text)
  }

  /** Whether the step the oracle names lies on the path this invocation
      takes, described by where each step sits in the handler. */
  predicate FaultReached(store: Store, pack: string, env: Env) {
    match env.fault
    case None => false
    case Some(InitialReply) => true
    case Some(ReadDir) => pack in store
    case Some(AlreadyEdit) => AlreadyHas(store, pack)
    case Some(FetchSet) => !AlreadyHas(store, pack)
    case Some(MakeDir) => !AlreadyHas(store, pack)
    case Some(CompletionEdit) => !AlreadyHas(store, pack)
    case Some(_) => !AlreadyHas(store, pack) && FaultIndex(env).Some?
  }

  /** A directory that is not "already downloaded" is absent or empty, so the
      loop starts from an empty directory. */
  lemma StartDirEmpty(store: Store, pack: string)
    requires !AlreadyHas(store, pack)
    ensures StartDir(store, pack) == map[]
  {
    if pack in store {
      var d := store[pack];
      assert d.Keys == {};
    }
  }

  /** A directory with an entry counts as already downloaded. */
  lemma NonEmptyDir(d: Dir, name: string)
    requires name in d
    ensures |d| > 0
  {
    assert name in d.Keys;
  }

  /** The whole invocation once it reaches the download loop. */
  lemma HandleRuns(store: Store, setName: Option<string>, env: Env)
    requires ReachesLoop(store, setName, env)
    ensures var pack := setName.value;
      var st := Run(store, pack, env);
      Handle(store, setName, env) ==
        Outcome(store[pack := st.dir],
                [Sent(Processing), SetFetched(pack), DirEnsured(pack)] + st.trace
                + [Conclusion(pack, env, st.failed)])
  {
    var pack := setName.value;
    var st := Run(store, pack, env);
    FetchAndDownloadRuns(store, pack, env, StartDir(store, pack));
    var c := Conclusion(pack, env, st.failed);
    assert [Sent(Processing)] + ([SetFetched(pack), DirEnsured(pack)] + st.trace + [c]) ==
      [Sent(Processing), SetFetched(pack), DirEnsured(pack)] + st.trace + [c];
  }

  /** The loop throws exactly when the oracle names one of its steps at a
      position where that step is taken. */
  lemma RunFailsIffFaultIndex(store: Store, pack: string, env: Env)
    ensures Run(store, pack, env).failed <==> FaultIndex(env).Some?
  {
    if FaultIndex(env).Some? {
      assert FaultAt(env, FaultIndex(env).value);
    }
  }

  /** No loop event is a final one. */
  lemma RunHasNoFinalEvent(store: Store, pack: string, env: Env)
    ensures forall e :: e in Run(store, pack, env).trace ==> !FinalEvent(e) && !e.Sent?
  {
    LoopTraceShape(pack, env, StartDir(store, pack), |env.stickers|);
  }

  /** Without a set name the handler only asks for a sticker from a set, and
      the request for a set sticker is sent only then. */
  lemma GuardOnly(store: Store, setName: Option<string>, env: Env)
    ensures NoSetName(setName) <==> Handle(store, setName, env).trace == [Sent(AskForSetSticker)]
    ensures NoSetName(setName) ==> Handle(store, setName, env).store == store
    ensures Sent(AskForSetSticker) in Handle(store, setName, env).trace ==> NoSetName(setName)
  {
    if ReachesLoop(store, setName, env) {
      HandleRuns(store, setName, env);
      RunHasNoFinalEvent(store, setName.value, env);
    }
  }

  /** A throw before the loop (the status reply, listing the directory,
      the set fetch or creating the directory) changes no file and reaches
      no position of the set. */
  lemma PreLoopFaultLeavesNoChange(store: Store, setName: Option<string>, env: Env)
    requires !NoSetName(setName)
    requires Fails(env, InitialReply) || Fails(env, ReadDir) || Fails(env, FetchSet) || Fails(env, MakeDir)
    requires FaultReached(store, setName.value, env)
    ensures Handle(store, setName, env).store == store
    ensures forall e :: e in Handle(store, setName, env).trace ==> PositionOf(e) == -1
    ensures var t := Handle(store, setName, env).trace;
      t[|t| - 1] == Sent(Failure) && DirEnsured(setName.value) !in t
  {
  }

  /** The handler posts one status message and edits it from then on: the
      only new messages are the request for a set sticker, the "Processing"
      status message and the error notice, and "Processing" is only ever
      the first event. Progress, "already downloaded" and completion texts
      never go out as new messages. */
  lemma StatusMessageSentOnce(store: Store, setName: Option<string>, env: Env)
    ensures forall e :: e in Handle(store, setName, env).trace && e.Sent? ==>
      e.text == AskForSetSticker || e.text == Processing || e.text == Failure
    ensures var t := Handle(store, setName, env).trace;
      |t| > 0 && Sent(Processing) !in t[1..]
  {
    if ReachesLoop(store, setName, env) {
      var pack := setName.value;
      var st := Run(store, pack, env);
      HandleRuns(store, setName, env);
      RunHasNoFinalEvent(store, pack, env);
      var t := Handle(store, setName, env).trace;
      assert t[1..] == [SetFetched(pack), DirEnsured(pack)] + st.trace + [Conclusion(pack, env, st.failed)];
    }
  }

  /** A set whose directory already holds a file is not fetched again: the
      store is unchanged and the run neither queries nor writes anything. */
  lemma ShortCircuitWhenDownloaded(store: Store, pack: string, env: Env)
    requires AlreadyHas(store, pack) && pack != ""
    ensures Handle(store, Some(pack), env).store == store
    ensures forall e :: e in Handle(store, Some(pack), env).trace ==>
      e.Sent? || (e.Edited? && e.text == AlreadyDownloaded(pack))
    ensures !Fails(env, InitialReply) && !Fails(env, ReadDir) && !Fails(env, AlreadyEdit) ==>
      Handle(store, Some(pack), env).trace == [Sent(Processing), Edited(env.statusId, AlreadyDownloaded(pack))]
  {
  }

  /** An existing but empty directory does not count as downloaded: the set
      is fetched. */
  lemma EmptyDirDoesNotShortCircuit(store: Store, pack: string, env: Env)
    requires pack in store && store[pack] == map[] && pack != ""
    requires !Fails(env, InitialReply) && !Fails(env, ReadDir) && !Fails(env, FetchSet)
    ensures SetFetched(pack) in Handle(store, Some(pack), env).trace
  {
    assert |store[pack]| == 0;
  }

  /** Every edit goes to the status message the handler created. */
  lemma EditsTargetStatusMessage(store: Store, setName: Option<string>, env: Env)
    ensures forall e :: e in Handle(store, setName, env).trace && e.Edited? ==> e.message == env.statusId
  {
    if ReachesLoop(store, setName, env) {
      HandleRuns(store, setName, env);
      LoopTraceShape(setName.value, env, StartDir(store, setName.value), |env.stickers|);
    }
  }

  /** Files are written in position order, at most one per position and only
      for positions of the set; so at most one file per sticker. */
  lemma WritesInIndexOrder(store: Store, setName: Option<string>, env: Env)
    ensures var w := WrittenIndices(Handle(store, setName, env).trace);
      StrictlyIncreasing(w) && (forall x :: x in w ==> x < |env.stickers|) && |w| <= |env.stickers|
  {
    var t := Handle(store, setName, env).trace;
    if ReachesLoop(store, setName, env) {
      var pack := setName.value;
      var st := Run(store, pack, env);
      HandleRuns(store, setName, env);
      var front := [Sent(Processing), SetFetched(pack), DirEnsured(pack)];
      var c := [Conclusion(pack, env, st.failed)];
      WrittenIndicesAppend(front + st.trace, c);
      WrittenIndicesAppend(front, st.trace);
      WrittenIndicesNoWrites(front);
      WrittenIndicesNoWrites(c);
      assert WrittenIndices(t) == WrittenIndices(st.trace);
      LoopWritesInOrder(pack, env, StartDir(store, pack), |env.stickers|);
    } else {
      WrittenIndicesNoWrites(t);
    }
    IncreasingBelowIsShort(WrittenIndices(t), |env.stickers|);
  }

  /** A position for which `getFile` yields no path is skipped: its query is
      the only event of that position, so nothing is downloaded or written
      for it and no progress edit follows it. */
  lemma SkippedPositionLeavesNoTrace(store: Store, setName: Option<string>, env: Env, i: nat)
    requires i < |env.stickers| && !Resolved(env, i)
    ensures forall e :: e in Handle(store, setName, env).trace && PositionOf(e) == i ==> e == FileQueried(i)
  {
    if ReachesLoop(store, setName, env) {
      HandleRuns(store, setName, env);
      LoopTraceShape(setName.value, env, StartDir(store, setName.value), |env.stickers|);
    }
  }

  /** The progress edit for the last position is not guaranteed: when the
      last sticker has no path it is skipped before the cadence check, and no
      edit reporting all n positions goes out. */
  lemma LastSkippedNoFullProgress(store: Store, setName: Option<string>, env: Env)
    requires |env.stickers| > 0 && !Resolved(env, |env.stickers| - 1)
    ensures forall e :: e in Handle(store, setName, env).trace ==>
      !(e.Edited? && e.text.Progress? && e.text.done == |env.stickers|)
  {
    SkippedPositionLeavesNoTrace(store, setName, env, |env.stickers| - 1);
  }

  /** Once a set name is present, exactly one final event is produced and it
      is the last thing the handler does. */
  lemma OneFinalReport(store: Store, setName: Option<string>, env: Env)
    requires !NoSetName(setName)
    ensures var t := Handle(store, setName, env).trace;
      |t| > 0 && FinalEvent(t[|t| - 1]) &&
      forall j :: 0 <= j < |t| - 1 ==> !FinalEvent(t[j])
  {
    if ReachesLoop(store, setName, env) {
      var pack := setName.value;
      var st := Run(store, pack, env);
      HandleRuns(store, setName, env);
      RunHasNoFinalEvent(store, pack, env);
      var t := Handle(store, setName, env).trace;
      var body := [Sent(Processing), SetFetched(pack), DirEnsured(pack)] + st.trace;
      assert t == body + [Conclusion(pack, env, st.failed)];
      forall j | 0 <= j < |t| - 1 ensures !FinalEvent(t[j]) {
        assert t[j] == body[j];
        if j >= 3 {
          assert body[j] == st.trace[j - 3];
        }
      }
    }
  }

  /** Once a set name is present, the error notice is sent exactly when the
      step named by the oracle lies on the invocation's path. */
  lemma FailureIffFaultReached(store: Store, setName: Option<string>, env: Env)
    requires !NoSetName(setName)
    ensures Sent(Failure) in Handle(store, setName, env).trace <==> FaultReached(store, setName.value, env)
  {
    if ReachesLoop(store, setName, env) {
      var pack := setName.value;
      HandleRuns(store, setName, env);
      RunHasNoFinalEvent(store, pack, env);
      RunFailsIffFaultIndex(store, pack, env);
    }
  }

  /** A run in which nothing throws: the set's directory ends up holding
      exactly the file of every position that has a path, with the downloaded
      bytes. */
  lemma SuccessfulDownloadFiles(store: Store, pack: string, env: Env)
    requires env.fault.None? && WellFormed(env)
    requires !AlreadyHas(store, pack) && pack != ""
    ensures var out := Handle(store, Some(pack), env);
      pack in out.store &&
      (forall i :: Resolved(env, i) ==>
        NameAt(pack, env, i) in out.store[pack] && out.store[pack][NameAt(pack, env, i)] == ContentAt(env, i)) &&
      (forall name :: name in out.store[pack] ==> exists i :: Resolved(env, i) && name == NameAt(pack, env, i))
  {
    var dir := Run(store, pack, env).dir;
    HandleRuns(store, Some(pack), env);
    var out := Handle(store, Some(pack), env);
    assert out.store[pack] == dir;
    StartDirEmpty(store, pack);
    SuccessfulLoopFiles(pack, env, StartDir(store, pack));
    assert pack in out.store;
    assert forall i :: Resolved(env, i) ==>
      NameAt(pack, env, i) in out.store[pack] && out.store[pack][NameAt(pack, env, i)] == ContentAt(env, i);
    forall name | name in out.store[pack] ensures exists i :: Resolved(env, i) && name == NameAt(pack, env, i) {
      assert name in dir;
    }
  }

  /** The loop over every position, from an empty directory and with nothing
      throwing, leaves exactly the files of the positions with a path. */
  lemma SuccessfulLoopFiles(pack: string, env: Env, dir0: Dir)
    requires env.fault.None? && WellFormed(env) && dir0 == map[]
    ensures var dir := LoopPrefix(pack, env, dir0, |env.stickers|).dir;
      (forall i :: Resolved(env, i) ==>
        NameAt(pack, env, i) in dir && dir[NameAt(pack, env, i)] == ContentAt(env, i)) &&
      (forall name :: name in dir ==> exists i :: Resolved(env, i) && name == NameAt(pack, env, i))
  {
    var n := |env.stickers|;
    LoopFiles(pack, env, dir0, n);
    assert FaultIndex(env).None?;
    assert forall i :: Resolved(env, i) ==> Visited(env, n, i) && WritesAt(env, i);
  }

  /** A run in which nothing throws: it opens with the status reply, the set
      fetch and the directory, queries every position, and ends with the
      completion edit. */
  lemma SuccessfulDownloadTrace(store: Store, pack: string, env: Env)
    requires env.fault.None?
    requires !AlreadyHas(store, pack) && pack != ""
    ensures var t := Handle(store, Some(pack), env).trace;
      |t| >= 4 &&
      t[..3] == [Sent(Processing), SetFetched(pack), DirEnsured(pack)] &&
      t[|t| - 1] == Edited(env.statusId, Completed(pack)) &&
      forall i :: 0 <= i < |env.stickers| ==> FileQueried(i) in t
  {
    HandleRuns(store, Some(pack), env);
    RunFailsIffFaultIndex(store, pack, env);
    LoopQueries(pack, env, StartDir(store, pack), |env.stickers|);
  }

  /** A run in which nothing throws edits the status message with progress
      `i+1/N` exactly after the positions with a path that are due. */
  lemma SuccessfulDownloadProgress(store: Store, pack: string, env: Env)
    requires env.fault.None?
    requires !AlreadyHas(store, pack) && pack != ""
    ensures forall i: nat ::
      (Edited(env.statusId, Progress(pack, i + 1, |env.stickers|)) in Handle(store, Some(pack), env).trace
       <==> Resolved(env, i) && ProgressDue(i, |env.stickers|))
  {
    var n := |env.stickers|;
    var st := Run(store, pack, env);
    HandleRuns(store, Some(pack), env);
    LoopProgress(pack, env, StartDir(store, pack), n);
    var t := Handle(store, Some(pack), env).trace;
    var front := [Sent(Processing), SetFetched(pack), DirEnsured(pack)];
    var c := Conclusion(pack, env, st.failed);
    assert t == front + st.trace + [c];
    forall i: nat ensures Edited(env.statusId, Progress(pack, i + 1, n)) in t <==> Resolved(env, i) && ProgressDue(i, n) {
      var e := Edited(env.statusId, Progress(pack, i + 1, n));
      assert e in t <==> e in front || e in st.trace || e == c;
      assert Visited(env, n, i) <==> i < n;
    }
  }

  /** A throw in the loop at position k ends the run with the error notice:
      nothing after k is queried and the set is never reported complete. */
  lemma AbortTrace(store: Store, setName: Option<string>, env: Env, k: nat)
    requires ReachesLoop(store, setName, env)
    requires FaultIndex(env) == Some(k)
    ensures var t := Handle(store, setName, env).trace;
      t[|t| - 1] == Sent(Failure) &&
      Edited(env.statusId, Completed(setName.value)) !in t &&
      forall j: nat :: FileQueried(j) in t ==> j <= k
  {
    var pack := setName.value;
    HandleRuns(store, setName, env);
    RunFailsIffFaultIndex(store, pack, env);
    RunHasNoFinalEvent(store, pack, env);
    LoopQueries(pack, env, StartDir(store, pack), |env.stickers|);
  }

  /** A throw in the loop at position k does not undo what the run wrote:
      the directory stays, keeping the files of the earlier positions with a
      path and holding nothing from positions after k. */
  lemma AbortWithoutRollback(store: Store, setName: Option<string>, env: Env, k: nat)
    requires ReachesLoop(store, setName, env) && WellFormed(env)
    requires FaultIndex(env) == Some(k)
    ensures var pack := setName.value;
      var out := Handle(store, setName, env);
      pack in out.store &&
      (forall i: nat :: i < k && Resolved(env, i) ==>
        NameAt(pack, env, i) in out.store[pack] && out.store[pack][NameAt(pack, env, i)] == ContentAt(env, i)) &&
      (forall name :: name in out.store[pack] ==>
        exists i: nat :: i <= k && Resolved(env, i) && name == NameAt(pack, env, i))
  {
    var pack := setName.value;
    var n := |env.stickers|;
    var dir0 := StartDir(store, pack);
    HandleRuns(store, setName, env);
    StartDirEmpty(store, pack);
    LoopFiles(pack, env, dir0, n);
    assert FaultAt(env, k);
    forall i: nat | i < k && Resolved(env, i) ensures Visited(env, n, i) && WritesAt(env, i) {
      assert !FaultAt(env, i);
    }
  }

  /** After a run in which nothing throws and at least one position has a
      path, the next message for the same set finds it downloaded. */
  lemma SecondRequestFindsDownloaded(store: Store, pack: string, env: Env, i: nat, env2: Env)
    requires env.fault.None? && WellFormed(env)
    requires !AlreadyHas(store, pack) && pack != ""
    requires Resolved(env, i)
    ensures var out := Handle(store, Some(pack), env);
      AlreadyHas(out.store, pack) &&
      Handle(out.store, Some(pack), env2).store == out.store &&
      forall e :: e in Handle(out.store, Some(pack), env2).trace ==> !e.SetFetched? && !e.FileWritten?
  {
    var out := Handle(store, Some(pack), env);
    SuccessfulDownloadFiles(store, pack, env);
    NonEmptyDir(out.store[pack], NameAt(pack, env, i));
    ShortCircuitWhenDownloaded(out.store, pack, env2);
  }

  /** A set none of whose positions has a path leaves its directory empty, so
      the next message for it downloads it again. */
  lemma EmptyRunDownloadsAgain(store: Store, pack: string, env: Env)
    requires env.fault.None? && WellFormed(env)
    requires !AlreadyHas(store, pack) && pack != ""
    requires forall i :: 0 <= i < |env.stickers| ==> !Resolved(env, i)
    ensures var out := Handle(store, Some(pack), env);
      pack in out.store && out.store[pack] == map[] && !AlreadyHas(out.store, pack)
  {
    var out := Handle(store, Some(pack), env);
    SuccessfulDownloadFiles(store, pack, env);
    assert out.store[pack].Keys == {};
  }
}
