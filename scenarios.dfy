/** Concrete runs of the sticker-message handler. */
module Scenarios {
  import opened Naming
  import opened Messages
  import opened Handler

  /** A two-sticker set "cats" whose second sticker has no file path: the
      first is saved as `cats_0.webp` and the second is skipped. Being the
      last position, the second was the only one due for a progress edit, so
      the skip leaves the run with no progress edit at all. */
  lemma TwoStickersOneSkipped()
    ensures var env := Env(7, [Descriptor(Some(RemoteFile(".webp", [1, 2]))), Descriptor(None)], None);
      Handle(map[], Some("cats"), env) ==
        Outcome(map["cats" := map["cats_0.webp" := [1, 2]]],
                [Sent(Processing), SetFetched("cats"), DirEnsured("cats"),
                 FileQueried(0), BytesFetched(0), FileWritten(0, "cats_0.webp"),
                 FileQueried(1),
                 Edited(7, Completed("cats"))])
  {
    var env := Env(7, [Descriptor(Some(RemoteFile(".webp", [1, 2]))), Descriptor(None)], None);
    var name := FileName("cats", 0, ".webp");
    assert name == "cats_0.webp";
    var r0 := IndexStep("cats", env, map[], 0);
    assert r0 == LoopState(map[name := [1, 2]], [FileQueried(0), BytesFetched(0), FileWritten(0, name)], false);
    var r1 := IndexStep("cats", env, r0.dir, 1);
    assert r1 == LoopState(r0.dir, [FileQueried(1)], false);
    var st := LoopPrefix("cats", env, map[], 2);
    assert st == LoopState(r0.dir, r0.trace + r1.trace, false);
  }
}
