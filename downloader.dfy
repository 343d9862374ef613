/** The sticker-message handler as the program runs it: step by step against
    the storage tree and the chat, with early returns, a `continue` for an
    unresolved position, and an error boundary around everything after the
    set-name guard. */
module Downloader {
  import opened Naming
  import opened Messages
  import opened Handler
  import opened LoopProperties

  // The three lemmas below state plain map and sequence identities. They
  // exist only to keep the method proofs cheap: a call hands the verifier
  // the one rewriting step it needs instead of leaving it to search.

  /** A second update of the same key replaces the first. */
  lemma UpdateTwice(m: Store, k: string, a: Dir, b: Dir)
    ensures m[k := a][k := b] == m[k := b]
  {
  }

  /** Regrouping the events the fetch-and-download stage appends. */
  lemma AppendFour(t: seq<Event>, x: Event, y: Event, s: seq<Event>, z: Event)
    ensures t + [x] + [y] + s + [z] == t + ([x, y] + s + [z])
  {
  }

  /** Sequence concatenation is associative. */
  lemma AppendAssoc(t: seq<Event>, u: seq<Event>, v: seq<Event>)
    ensures t + u + v == t + (u + v)
  {
  }

  class StickerBot {
    /** The storage tree under the root sticker directory. */
    var store: Store
    /** Everything the handlers have done to the chat and the services so far. */
    var trace: seq<Event>

    /** The root sticker directory exists (it is created at start-up). */
    constructor (initial: Store)
      ensures store == initial && trace == []
    {
      store := initial;
      trace := [];
    }

    /** Sends a new reply. */
    method Reply(t: Text)
      modifies this
      ensures store == old(store) && trace == old(trace) + [Sent(t)]
    {
      trace := trace + [Sent(t)];
    }

    /** Edits the status message. */
    method EditStatus(id: MessageId, t: Text)
      modifies this
      ensures store == old(store) && trace == old(trace) + [Edited(id, t)]
    {
      trace := trace + [Edited(id, t)];
    }

    /** Records a completed call to the sticker service. */
    method Record(e: Event)
      modifies this
      ensures store == old(store) && trace == old(trace) + [e]
    {
      trace := trace + [e];
    }

    /** Writes the file of position i into the directory of set `pack`,
        overwriting any file of the same name. */
    method WriteFile(pack: string, i: nat, name: string, content: Bytes)
      requires pack in store
      modifies this
      ensures store == old(store)[pack := old(store)[pack][name := content]]
      ensures trace == old(trace) + [FileWritten(i, name)]
    {
      store := store[pack := store[pack][name := content]];
      trace := trace + [FileWritten(i, name)];
    }

    /** One pass of the download loop, for position i of the set: resolve
        the file, skip it when it has no path, otherwise download it, write it
        as `<pack>_<i><ext>` and, when due, edit the status message with the
        progress. Returns whether a step threw. */
    method VisitPosition(pack: string, env: Env, i: nat) returns (failed: bool)
      requires pack in store
      requires i < |env.stickers|
      modifies this
      ensures store == old(store)[pack := IndexStep(pack, env, old(store)[pack], i).dir]
      ensures trace == old(trace) + IndexStep(pack, env, old(store)[pack], i).trace
      ensures failed == IndexStep(pack, env, old(store)[pack], i).failed
    {
      var n := |env.stickers|;
      failed := false;
      if Fails(env, GetFile(i)) {
        failed := true;
        return;
      }
      Record(FileQueried(i));
      var file := env.stickers[i].file;
      if file.None? {
        return;   // no file path: continue with the next position
      }
      var f := file.value;
      if Fails(env, Download(i)) {
        failed := true;
        return;
      }
      Record(BytesFetched(i));
      if Fails(env, Write(i)) {
        failed := true;
        return;
      }
      WriteFile(pack, i, FileName(pack, i, f.ext), f.content);
      if ProgressDue(i, n) {
        if Fails(env, ProgressEdit(i)) {
          failed := true;
          return;
        }
        EditStatus(env.statusId, Progress(pack, i + 1, n));
      }
    }

    /** The download loop over every position of the set, in order; it stops
        at the first step that throws. Returns whether one threw. */
    method DownloadAll(pack: string, env: Env) returns (failed: bool)
      requires pack in store
      modifies this
      ensures store == old(store)[pack := LoopPrefix(pack, env, old(store)[pack], |env.stickers|).dir]
      ensures trace == old(trace) + LoopPrefix(pack, env, old(store)[pack], |env.stickers|).trace
      ensures failed == LoopPrefix(pack, env, old(store)[pack], |env.stickers|).failed
    {
      ghost var dir0 := store[pack];
      var n := |env.stickers|;
      var i := 0;
      failed := false;
      while i < n && !failed
        invariant 0 <= i <= n
        invariant store == old(store)[pack := LoopPrefix(pack, env, dir0, i).dir]
        invariant trace == old(trace) + LoopPrefix(pack, env, dir0, i).trace
        invariant failed == LoopPrefix(pack, env, dir0, i).failed
      {
        LoopPrefixStep(pack, env, dir0, i);
        ghost var prev := LoopPrefix(pack, env, dir0, i);
        UpdateTwice(old(store), pack, prev.dir, IndexStep(pack, env, prev.dir, i).dir);
        failed := VisitPosition(pack, env, i);
        AppendAssoc(old(trace), prev.trace, IndexStep(pack, env, prev.dir, i).trace);
        i := i + 1;
      }
      if failed {
        StaysFailed(pack, env, dir0, i, n);
      }
    }

    /** Fetches the set, ensures its output directory, downloads every
        position and sends the completion edit; a throwing step ends in the
        error reply. */
    method FetchAndDownload(pack: string, env: Env)
      modifies this
      ensures store == Handler.FetchAndDownload(old(store), pack, env).store
      ensures trace == old(trace) + Handler.FetchAndDownload(old(store), pack, env).trace
    {
      if Fails(env, FetchSet) {
        Reply(Failure);
        return;
      }
      Record(SetFetched(pack));
      if Fails(env, MakeDir) {
        Reply(Failure);
        return;
      }
      ghost var dir0 := StartDir(store, pack);
      FetchAndDownloadRuns(old(store), pack, env, dir0);
      ghost var st := LoopPrefix(pack, env, dir0, |env.stickers|);
      if pack !in store {
        store := store[pack := map[]];
        UpdateTwice(old(store), pack, map[], st.dir);
      }
      Record(DirEnsured(pack));
      ghost var mid := trace;
      assert store[pack] == dir0;
      var failed := DownloadAll(pack, env);
      assert trace == mid + st.trace;
      ghost var c := Conclusion(pack, env, failed);
      if failed || Fails(env, CompletionEdit) {
        Reply(Failure);
      } else {
        EditStatus(env.statusId, Completed(pack));
      }
      AppendFour(old(trace), SetFetched(pack), DirEnsured(pack), st.trace, c);
    }

    /** Handles one sticker message whose set name is setName. The platform's
        answers, and the step that throws if any, come from env. */
    method OnSticker(setName: Option<string>, env: Env)
      modifies this
      ensures store == Handle(old(store), setName, env).store
      ensures trace == old(trace) + Handle(old(store), setName, env).trace
    {
      if setName.None? || setName.value == "" {
        Reply(AskForSetSticker);
        return;
      }
      var pack := setName.value;
      // From here on, a throwing step ends in the error reply.
      if Fails(env, InitialReply) {
        Reply(Failure);
        return;
      }
      Reply(Processing);
      var statusId := env.statusId;
      if pack in store {
        if Fails(env, ReadDir) {
          Reply(Failure);
          return;
        }
        if |store[pack]| > 0 {
          if Fails(env, AlreadyEdit) {
            Reply(Failure);
            return;
          }
          EditStatus(statusId, AlreadyDownloaded(pack));
          return;
        }
      }
      FetchAndDownload(pack, env);
    }
  }
}
