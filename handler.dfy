/** What one invocation of the sticker-message handler does, as functions of
    its inputs.

    The outside world is replaced by values:
    - the storage tree under the root sticker directory is a `Store`, one
      directory (file name to bytes) per set name;
    - the platform's answers are an `Env`: the id it gives the status
      message, the set's ordered descriptors (for each, whether `getFile`
      yields a path and, if so, its extension and the downloaded bytes), and
      a failure oracle naming the one external step, if any, that throws;
    - what the handler does to the world is a trace of `Event`s: messages
      sent and edited, and the external calls that completed.

    A step named by the oracle throws only when the handler reaches it. A call
    that throws is not recorded in the trace; the error boundary then sends
    the error notice. */
module Handler {
  import opened Naming
  import opened Messages

  datatype Option<T> = None | Some(value: T)

  type Byte = b: int | 0 <= b < 256
  type Bytes = seq<Byte>

  /** A directory: file name to contents. */
  type Dir = map<string, Bytes>

  /** The storage tree under the root sticker directory, by set name. */
  type Store = map<string, Dir>

  /** A resolved remote file: the extension of its path and its bytes. */
  datatype RemoteFile = RemoteFile(ext: string, content: Bytes)

  /** One sticker of the set, as `getFile` resolves it: with a file path or
      without one. */
  datatype Descriptor = Descriptor(file: Option<RemoteFile>)

  /** The external steps that can throw. */
  datatype Step =
    | InitialReply            // sending the "Processing" status message
    | ReadDir                 // listing an existing output directory
    | AlreadyEdit             // the "already downloaded" edit
    | FetchSet                // getStickerSet
    | MakeDir                 // creating the output directory
    | GetFile(i: nat)         // resolving position i
    | Download(i: nat)        // fetching the bytes of position i
    | Write(i: nat)           // writing the file of position i
    | ProgressEdit(i: nat)    // the progress edit after position i
    | CompletionEdit          // the completion edit

  datatype Env = Env(statusId: MessageId, stickers: seq<Descriptor>, fault: Option<Step>)

  datatype Event =
    | Sent(text: Text)                        // a new reply in the chat
    | Edited(message: MessageId, text: Text)  // an edit of an earlier message
    | SetFetched(pack: string)
    | DirEnsured(pack: string)
    | FileQueried(index: nat)
    | BytesFetched(index: nat)
    | FileWritten(index: nat, name: string)

  /** The state of the download loop: the output directory, what the loop has
      done so far, and whether a step has thrown. */
  datatype LoopState = LoopState(dir: Dir, trace: seq<Event>, failed: bool)

  datatype Outcome = Outcome(store: Store, trace: seq<Event>)

  predicate Fails(env: Env, step: Step) {
    env.fault == Some(step)
  }

  /** `getFile` gives position i a file path. */
  predicate Resolved(env: Env, i: nat) {
    i < |env.stickers| && env.stickers[i].file.Some?
  }

  /** Every extension is what `path.extname` can return. */
  predicate WellFormed(env: Env) {
    forall i :: 0 <= i < |env.stickers| && env.stickers[i].file.Some? ==>
      IsExtension(env.stickers[i].file.value.ext)
  }

  function NameAt(pack: string, env: Env, i: nat): string
    requires Resolved(env, i)
  {
    FileName(pack, i, ExtAt(env, i))
  }

  function ExtAt(env: Env, i: nat): string
    requires i < |env.stickers|
  {
    if env.stickers[i].file.Some? then env.stickers[i].file.value.ext else ""
  }

  function ContentAt(env: Env, i: nat): Bytes
    requires Resolved(env, i)
  {
    env.stickers[i].file.value.content
  }

  /** The oracle's step throws while position i is processed. */
  predicate FaultAt(env: Env, i: nat) {
    i < |env.stickers| &&
    (Fails(env, GetFile(i)) ||
     (Resolved(env, i) &&
      (Fails(env, Download(i)) || Fails(env, Write(i)) ||
       (ProgressDue(i, |env.stickers|) && Fails(env, ProgressEdit(i))))))
  }

  /** Processing position i writes its file. */
  predicate WritesAt(env: Env, i: nat) {
    Resolved(env, i) && !Fails(env, GetFile(i)) && !Fails(env, Download(i)) && !Fails(env, Write(i))
  }

  /** Processing position i ends with a progress edit. */
  predicate ReportsAt(env: Env, i: nat) {
    WritesAt(env, i) && ProgressDue(i, |env.stickers|) && !Fails(env, ProgressEdit(i))
  }

  /** The position, if any, at which the download loop throws. */
  function FaultIndex(env: Env): (r: Option<nat>)
    ensures r.Some? ==> FaultAt(env, r.value)
    ensures forall i: nat :: FaultAt(env, i) ==> r == Some(i)
  {
    match env.fault
    case Some(GetFile(i)) => if i < |env.stickers| then Some(i) else None
    case Some(Download(i)) => if Resolved(env, i) then Some(i) else None
    case Some(Write(i)) => if Resolved(env, i) then Some(i) else None
    case Some(ProgressEdit(i)) =>
      if Resolved(env, i) && ProgressDue(i, |env.stickers|) then Some(i) else None
    case _ => None
  }

  /** Position i is among the first k and the loop gets to it. */
  predicate Visited(env: Env, k: nat, i: nat) {
    i < k && (FaultIndex(env).None? || i <= FaultIndex(env).value)
  }

  /** The position an event of the download loop belongs to; -1 for the
      events outside the loop. A progress edit belongs to the position after
      which it is sent. */
  function PositionOf(e: Event): int {
    match e
    case FileQueried(i) => i
    case BytesFetched(i) => i
    case FileWritten(i, _) => i
    case Edited(_, Progress(_, done, _)) => done - 1
    case _ => -1
  }

  /** The events that processing position i can produce. */
  predicate StepEvent(pack: string, env: Env, i: nat, e: Event) {
    PositionOf(e) == i &&
    match e
    case FileQueried(_) => true
    case BytesFetched(_) => Resolved(env, i)
    case FileWritten(_, name) => Resolved(env, i) && name == NameAt(pack, env, i)
    case Edited(m, t) => Resolved(env, i) && m == env.statusId && t == Progress(pack, i + 1, |env.stickers|)
    case _ => false
  }

  /** The loop body for position i, applied to the output directory: what it
      leaves in the directory, what it adds to the trace, and whether it
      throws. An unresolved position is skipped before the progress check. */
  function IndexStep(pack: string, env: Env, dir: Dir, i: nat): (r: LoopState)
    requires i < |env.stickers|
    ensures r.failed <==> FaultAt(env, i)
    ensures r.dir == if WritesAt(env, i) then dir[NameAt(pack, env, i) := ContentAt(env, i)] else dir
  {
    var n := |env.stickers|;
    if Fails(env, GetFile(i)) then LoopState(dir, [], true)
    else
      match env.stickers[i].file
      case None => LoopState(dir, [FileQueried(i)], false)
      case Some(f) =>
        if Fails(env, Download(i)) then LoopState(dir, [FileQueried(i)], true)
        else if Fails(env, Write(i)) then LoopState(dir, [FileQueried(i), BytesFetched(i)], true)
        else
          var name := FileName(pack, i, f.ext);
          var written := [FileQueried(i), BytesFetched(i), FileWritten(i, name)];
          if !ProgressDue(i, n) then LoopState(dir[name := f.content], written, false)
          else if Fails(env, ProgressEdit(i)) then LoopState(dir[name := f.content], written, true)
          else LoopState(dir[name := f.content], written + [Edited(env.statusId, Progress(pack, i + 1, n))], false)
  }

  /** The loop after its first k positions, starting from directory dir0.
      Once a step has thrown, later positions are not processed. */
  function LoopPrefix(pack: string, env: Env, dir0: Dir, k: nat): (st: LoopState)
    requires k <= |env.stickers|
    ensures st.failed <==> exists i :: 0 <= i < k && FaultAt(env, i)
    ensures dir0.Keys <= st.dir.Keys
    decreases k
  {
    if k == 0 then LoopState(dir0, [], false)
    else
      var prev := LoopPrefix(pack, env, dir0, k - 1);
      if prev.failed then prev
      else
        var r := IndexStep(pack, env, prev.dir, k - 1);
        LoopState(r.dir, prev.trace + r.trace, r.failed)
  }

  /** The set name is missing or empty. */
  predicate NoSetName(setName: Option<string>) {
    setName.None? || setName.value == ""
  }

  /** The output directory exists and holds at least one entry. */
  predicate AlreadyHas(store: Store, pack: string) {
    pack in store && |store[pack]| > 0
  }

  /** The output directory the download loop starts from: the set's
      directory if it exists, else a new empty one. */
  function StartDir(store: Store, pack: string): Dir {
    if pack in store then store[pack] else map[]
  }

  /** The handler from the set fetch on, for a set whose output directory
      does not exist or is empty: fetch the set, ensure the directory, run the
      download loop from the directory's current contents, then edit the
      status message to say the set is complete. */
  function FetchAndDownload(store: Store, pack: string, env: Env): (out: Outcome)
    ensures forall t :: t in store && t != pack ==> t in out.store && out.store[t] == store[t]
    ensures forall t :: t in out.store ==> t in store || t == pack
  {
    if Fails(env, FetchSet) then Outcome(store, [Sent(Failure)])
    else if Fails(env, MakeDir) then Outcome(store, [SetFetched(pack), Sent(Failure)])
    else
      var st := LoopPrefix(pack, env, StartDir(store, pack), |env.stickers|);
      var front := [SetFetched(pack), DirEnsured(pack)] + st.trace;
      if st.failed || Fails(env, CompletionEdit) then Outcome(store[pack := st.dir], front + [Sent(Failure)])
      else Outcome(store[pack := st.dir], front + [Edited(env.statusId, Completed(pack))])
  }

  /** The final event of a run that reaches the download loop: the error
      notice when the loop or the completion edit throws, and otherwise the
      status message edited to say the set is complete. */
  function Conclusion(pack: string, env: Env, failed: bool): (r: Event)
    ensures (r.Sent? || r.Edited?) && IsFinal(r.text)
  {
    if failed || Fails(env, CompletionEdit) then Sent(Failure)
    else Edited(env.statusId, Completed(pack))
  }

  /** FetchAndDownload once the set is fetched and the directory ensured. */
  lemma FetchAndDownloadRuns(store: Store, pack: string, env: Env, dir0: Dir)
    requires !Fails(env, FetchSet) && !Fails(env, MakeDir)
    requires dir0 == StartDir(store, pack)
    ensures FetchAndDownload(store, pack, env) ==
      Outcome(store[pack := LoopPrefix(pack, env, dir0, |env.stickers|).dir],
              [SetFetched(pack), DirEnsured(pack)] + LoopPrefix(pack, env, dir0, |env.stickers|).trace
              + [Conclusion(pack, env, LoopPrefix(pack, env, dir0, |env.stickers|).failed)])
  {
  }

  /** One handler invocation for a sticker message whose set name is setName. */
  function Handle(store: Store, setName: Option<string>, env: Env): (out: Outcome)
    ensures forall t :: t in store && (setName.None? || t != setName.value) ==>
      t in out.store && out.store[t] == store[t]
    ensures forall t :: t in out.store ==> t in store || (setName.Some? && t == setName.value)
  {
    if NoSetName(setName) then Outcome(store, [Sent(AskForSetSticker)])
    else
      var pack := setName.value;
      if Fails(env, InitialReply) then Outcome(store, [Sent(Failure)])
      else if pack in store && Fails(env, ReadDir) then Outcome(store, [Sent(Processing), Sent(Failure)])
      else if AlreadyHas(store, pack) then
        if Fails(env, AlreadyEdit) then Outcome(store, [Sent(Processing), Sent(Failure)])
        else Outcome(store, [Sent(Processing), Edited(env.statusId, AlreadyDownloaded(pack))])
      else
        var rest := FetchAndDownload(store, pack, env);
        Outcome(rest.store, [Sent(Processing)] + rest.trace)
  }
}
