/** Properties of the download loop (the `for` loop of the handler), stated
    for its first k positions and proved by induction on k. */
module LoopProperties {
  import opened Naming
  import opened Messages
  import opened Handler

  /** The positions of the file writes in a trace, in trace order. */
  function WrittenIndices(t: seq<Event>): (w: seq<nat>)
    ensures |w| <= |t|
  {
    if t == [] then []
    else WrittenIndices(t[..|t| - 1]) + (if t[|t| - 1].FileWritten? then [t[|t| - 1].index] else [])
  }

  lemma {:induction false} WrittenIndicesAppend(t: seq<Event>, u: seq<Event>)
    ensures WrittenIndices(t + u) == WrittenIndices(t) + WrittenIndices(u)
    decreases |u|
  {
    if u != [] {
      assert (t + u)[..|t + u| - 1] == t + u[..|u| - 1];
      WrittenIndicesAppend(t, u[..|u| - 1]);
    } else {
      assert t + u == t;
    }
  }

  /** Every write position in the trace belongs to a write event of the trace. */
  lemma {:induction false} WrittenIndicesFromWrites(t: seq<Event>, x: nat)
    requires x in WrittenIndices(t)
    ensures exists name :: FileWritten(x, name) in t
    decreases |t|
  {
    var last := t[|t| - 1];
    if last.FileWritten? && x == last.index {
      assert FileWritten(x, last.name) in t;
    } else {
      WrittenIndicesFromWrites(t[..|t| - 1], x);
      var name :| FileWritten(x, name) in t[..|t| - 1];
      assert FileWritten(x, name) in t;
    }
  }

  predicate StrictlyIncreasing(w: seq<nat>) {
    forall a, b :: 0 <= a < b < |w| ==> w[a] < w[b]
  }

  /** A strictly increasing sequence of positions below n has at most n
      elements. */
  lemma {:induction false} IncreasingBelowIsShort(w: seq<nat>, n: nat)
    requires StrictlyIncreasing(w)
    requires forall x :: x in w ==> x < n
    ensures |w| <= n
    decreases |w|
  {
    if w != [] {
      var last := w[|w| - 1];
      var init := w[..|w| - 1];
      assert forall x :: x in init ==> x < last by {
        forall x | x in init ensures x < last {
          var a :| 0 <= a < |init| && init[a] == x;
          assert w[a] == x;
        }
      }
      assert w[|w| - 1] in w;
      IncreasingBelowIsShort(init, last);
    }
  }

  /** What processing one position adds to the trace: only events of that
      position; the `getFile` call unless it throws; the write when the file is
      written; the progress edit when one is due and does not throw. */
  lemma StepTrace(pack: string, env: Env, dir: Dir, i: nat)
    requires i < |env.stickers|
    ensures var t := IndexStep(pack, env, dir, i).trace;
      forall e :: e in t ==> StepEvent(pack, env, i, e)
    ensures var t := IndexStep(pack, env, dir, i).trace;
      FileQueried(i) in t <==> !Fails(env, GetFile(i))
    ensures var t := IndexStep(pack, env, dir, i).trace;
      FileWritten(i, FileName(pack, i, ExtAt(env, i))) in t <==> WritesAt(env, i)
    ensures var t := IndexStep(pack, env, dir, i).trace;
      Edited(env.statusId, Progress(pack, i + 1, |env.stickers|)) in t <==> ReportsAt(env, i)
    ensures var t := IndexStep(pack, env, dir, i).trace;
      ReportsAt(env, i) ==>
        |t| == 4 && t[2] == FileWritten(i, NameAt(pack, env, i)) &&
        t[3] == Edited(env.statusId, Progress(pack, i + 1, |env.stickers|))
  {
  }

  /** What processing position i amounts to, in exactly one of four ways:
      it throws; it is skipped for want of a path; it writes its file and
      reports progress; or it writes its file with no progress edit due. */
  lemma StepKinds(env: Env, i: nat)
    requires i < |env.stickers|
    ensures ReportsAt(env, i) ==> WritesAt(env, i) && !FaultAt(env, i)
    ensures !FaultAt(env, i) ==> (WritesAt(env, i) <==> Resolved(env, i))
    ensures WritesAt(env, i) && FaultAt(env, i) ==>
      ProgressDue(i, |env.stickers|) && Fails(env, ProgressEdit(i))
    ensures !FaultAt(env, i) && WritesAt(env, i) ==>
      (ReportsAt(env, i) <==> ProgressDue(i, |env.stickers|))
    ensures !Resolved(env, i) ==> !WritesAt(env, i) && (FaultAt(env, i) <==> Fails(env, GetFile(i)))
  {
  }

  /** One more position of the loop, from a state that has not thrown. */
  lemma LoopPrefixStep(pack: string, env: Env, dir0: Dir, k: nat)
    requires k < |env.stickers|
    requires !LoopPrefix(pack, env, dir0, k).failed
    ensures var prev := LoopPrefix(pack, env, dir0, k);
      var r := IndexStep(pack, env, prev.dir, k);
      LoopPrefix(pack, env, dir0, k + 1) == LoopState(r.dir, prev.trace + r.trace, r.failed)
  {
  }

  /** Once a step has thrown, the remaining positions are not processed. */
  lemma {:induction false} StaysFailed(pack: string, env: Env, dir0: Dir, k: nat, m: nat)
    requires k <= m <= |env.stickers|
    requires LoopPrefix(pack, env, dir0, k).failed
    ensures LoopPrefix(pack, env, dir0, m) == LoopPrefix(pack, env, dir0, k)
    decreases m
  {
    if m > k {
      StaysFailed(pack, env, dir0, k, m - 1);
    }
  }

  /** An event of the loop's first k positions. */
  predicate LoopEvent(pack: string, env: Env, k: nat, e: Event) {
    0 <= PositionOf(e) < k && StepEvent(pack, env, PositionOf(e), e)
  }

  /** The loop only queries, downloads, writes and edits the status
      message with progress, each for a position it has passed. */
  lemma {:induction false} LoopTraceShape(pack: string, env: Env, dir0: Dir, k: nat)
    requires k <= |env.stickers|
    ensures forall e :: e in LoopPrefix(pack, env, dir0, k).trace ==> LoopEvent(pack, env, k, e)
    decreases k
  {
    if k > 0 {
      var prev := LoopPrefix(pack, env, dir0, k - 1);
      LoopTraceShape(pack, env, dir0, k - 1);
      if !prev.failed {
        StepTrace(pack, env, prev.dir, k - 1);
        var r := IndexStep(pack, env, prev.dir, k - 1);
        var t := LoopPrefix(pack, env, dir0, k).trace;
        assert t == prev.trace + r.trace;
      }
    }
  }

  /** The events of trace t never go back to an earlier position. */
  predicate PositionsOrdered(t: seq<Event>) {
    forall a, b :: 0 <= a < b < |t| ==> PositionOf(t[a]) <= PositionOf(t[b])
  }

  /** Appending the events of position k after events of earlier positions
      keeps the positions in order. */
  lemma OrderedAppend(t: seq<Event>, u: seq<Event>, k: int)
    requires PositionsOrdered(t) && forall e :: e in t ==> PositionOf(e) < k
    requires forall e :: e in u ==> PositionOf(e) == k
    ensures PositionsOrdered(t + u)
  {
    var v := t + u;
    forall a, b | 0 <= a < b < |v| ensures PositionOf(v[a]) <= PositionOf(v[b]) {
      if b < |t| {
        assert v[a] == t[a] && v[b] == t[b];
      } else if a < |t| {
        assert v[a] == t[a] && t[a] in t;
        assert v[b] == u[b - |t|] && u[b - |t|] in u;
      } else {
        assert v[a] == u[a - |t|] && u[a - |t|] in u;
        assert v[b] == u[b - |t|] && u[b - |t|] in u;
      }
    }
  }

  /** One more position keeps the loop's events in position order. */
  lemma LoopPositionsStep(pack: string, env: Env, dir0: Dir, k: nat)
    requires k < |env.stickers|
    requires PositionsOrdered(LoopPrefix(pack, env, dir0, k).trace)
    ensures PositionsOrdered(LoopPrefix(pack, env, dir0, k + 1).trace)
  {
    var prev := LoopPrefix(pack, env, dir0, k);
    if prev.failed {
      assert LoopPrefix(pack, env, dir0, k + 1) == prev;
    } else {
      var r := IndexStep(pack, env, prev.dir, k);
      LoopPrefixStep(pack, env, dir0, k);
      LoopTraceShape(pack, env, dir0, k);
      StepTrace(pack, env, prev.dir, k);
      OrderedAppend(prev.trace, r.trace, k);
    }
  }

  /** The loop handles one position at a time: all events of position i
      (its query, download, write and progress edit) come before any event
      of a later position. */
  lemma {:induction false} LoopPositionsOrdered(pack: string, env: Env, dir0: Dir, k: nat)
    requires k <= |env.stickers|
    ensures PositionsOrdered(LoopPrefix(pack, env, dir0, k).trace)
    decreases k
  {
    if k > 0 {
      LoopPositionsOrdered(pack, env, dir0, k - 1);
      LoopPositionsStep(pack, env, dir0, k - 1);
    }
  }

  lemma {:induction false} WrittenIndicesNoWrites(t: seq<Event>)
    requires forall e :: e in t ==> !e.FileWritten?
    ensures WrittenIndices(t) == []
    decreases |t|
  {
    if t != [] {
      assert forall e :: e in t[..|t| - 1] ==> e in t;
      WrittenIndicesNoWrites(t[..|t| - 1]);
    }
  }

  /** Processing one position writes at most its own file. */
  lemma StepWrites(pack: string, env: Env, dir: Dir, i: nat)
    requires i < |env.stickers|
    ensures WrittenIndices(IndexStep(pack, env, dir, i).trace) == if WritesAt(env, i) then [i] else []
  {
    var t := IndexStep(pack, env, dir, i).trace;
    if WritesAt(env, i) {
      var k := if ProgressDue(i, |env.stickers|) && !Fails(env, ProgressEdit(i)) then 4 else 3;
      assert |t| == k && t[2] == FileWritten(i, NameAt(pack, env, i));
      assert t == t[..2] + [t[2]] + t[3..];
      WrittenIndicesNoWrites(t[..2]);
      WrittenIndicesNoWrites(t[3..]);
      WrittenIndicesAppend(t[..2], [t[2]]);
      WrittenIndicesAppend(t[..2] + [t[2]], t[3..]);
      assert WrittenIndices([t[2]]) == [i] by {
        assert [t[2]][..0] == [];
      }
    } else {
      WrittenIndicesNoWrites(t);
    }
  }

  lemma ExtendIncreasing(w: seq<nat>, tail: seq<nat>, k: nat)
    requires StrictlyIncreasing(w) && forall x :: x in w ==> x < k
    requires tail == [] || tail == [k]
    ensures StrictlyIncreasing(w + tail) && forall x :: x in w + tail ==> x < k + 1
  {
    if tail == [k] {
      var v := w + tail;
      forall a, b | 0 <= a < b < |v| ensures v[a] < v[b] {
        if b < |w| {
          assert v[a] == w[a] && v[b] == w[b];
        } else {
          assert v[a] == w[a] && w[a] in w;
        }
      }
    } else {
      assert w + tail == w;
    }
  }

  /** The writes of trace t are in strictly increasing position order and
      all below k. */
  predicate WritesInOrderBelow(t: seq<Event>, k: nat) {
    StrictlyIncreasing(WrittenIndices(t)) && forall x :: x in WrittenIndices(t) ==> x < k
  }

  /** Appending the events of position k, which write at most position k,
      keeps the writes in order. */
  lemma WritesInOrderExtend(t: seq<Event>, u: seq<Event>, k: nat)
    requires WritesInOrderBelow(t, k)
    requires WrittenIndices(u) == [] || WrittenIndices(u) == [k]
    ensures WritesInOrderBelow(t + u, k + 1)
  {
    WrittenIndicesAppend(t, u);
    ExtendIncreasing(WrittenIndices(t), WrittenIndices(u), k);
  }

  /** A bound on the written positions can be raised. */
  lemma WritesInOrderRaise(t: seq<Event>, k: nat, m: nat)
    requires WritesInOrderBelow(t, k) && k <= m
    ensures WritesInOrderBelow(t, m)
  {
  }

  /** One more position keeps the loop's writes in order. */
  lemma LoopWritesStep(pack: string, env: Env, dir0: Dir, k: nat)
    requires k < |env.stickers|
    requires WritesInOrderBelow(LoopPrefix(pack, env, dir0, k).trace, k)
    ensures WritesInOrderBelow(LoopPrefix(pack, env, dir0, k + 1).trace, k + 1)
  {
    var prev := LoopPrefix(pack, env, dir0, k);
    if prev.failed {
      WritesInOrderRaise(prev.trace, k, k + 1);
      assert LoopPrefix(pack, env, dir0, k + 1) == prev;
    } else {
      var r := IndexStep(pack, env, prev.dir, k);
      LoopPrefixStep(pack, env, dir0, k);
      StepWrites(pack, env, prev.dir, k);
      WritesInOrderExtend(prev.trace, r.trace, k);
    }
  }

  /** The loop writes files in strictly increasing position order, at most
      one per position, and only for positions it has passed. */
  lemma {:induction false} LoopWritesInOrder(pack: string, env: Env, dir0: Dir, k: nat)
    requires k <= |env.stickers|
    ensures WritesInOrderBelow(LoopPrefix(pack, env, dir0, k).trace, k)
    decreases k
  {
    if k > 0 {
      LoopWritesInOrder(pack, env, dir0, k - 1);
      LoopWritesStep(pack, env, dir0, k - 1);
    }
  }

  /** Whether the loop has thrown by position k, and which positions it has
      visited: up to and including the throwing one, none after. */
  lemma VisitedAfterStep(pack: string, env: Env, dir0: Dir, k: nat, i: nat)
    requires 0 < k <= |env.stickers|
    ensures !LoopPrefix(pack, env, dir0, k - 1).failed ==>
      (Visited(env, k, i) <==> Visited(env, k - 1, i) || i == k - 1)
    ensures LoopPrefix(pack, env, dir0, k - 1).failed ==>
      (Visited(env, k, i) <==> Visited(env, k - 1, i))
  {
  }

  /** Directory d holds the file of position i with its downloaded bytes. */
  predicate HoldsFile(pack: string, env: Env, d: Dir, i: nat) {
    Resolved(env, i) && NameAt(pack, env, i) in d && d[NameAt(pack, env, i)] == ContentAt(env, i)
  }

  /** Writing the file of position j keeps the file of another position i. */
  lemma OtherWriteKeepsFile(pack: string, env: Env, d: Dir, i: nat, j: nat)
    requires WellFormed(env)
    requires Resolved(env, j) && i != j && HoldsFile(pack, env, d, i)
    ensures HoldsFile(pack, env, d[NameAt(pack, env, j) := ContentAt(env, j)], i)
  {
    if NameAt(pack, env, i) == NameAt(pack, env, j) {
      FileNameInjective(pack, i, ExtAt(env, i), j, ExtAt(env, j));
    }
  }

  /** Processing position i, when it writes, leaves its file with the
      downloaded bytes. */
  lemma StepLeavesFile(pack: string, env: Env, d: Dir, i: nat)
    requires i < |env.stickers| && WritesAt(env, i)
    ensures HoldsFile(pack, env, IndexStep(pack, env, d, i).dir, i)
  {
  }

  /** Processing another position j keeps the file of position i. */
  lemma StepKeepsFile(pack: string, env: Env, d: Dir, j: nat, i: nat)
    requires WellFormed(env)
    requires j < |env.stickers| && i != j && HoldsFile(pack, env, d, i)
    ensures HoldsFile(pack, env, IndexStep(pack, env, d, j).dir, i)
  {
    if WritesAt(env, j) {
      OtherWriteKeepsFile(pack, env, d, i, j);
    }
  }

  /** Position k - 1, reached and writing, leaves its file after the first
      k positions. */
  lemma LoopStepLeavesFile(pack: string, env: Env, dir0: Dir, k: nat)
    requires 0 < k <= |env.stickers|
    requires !LoopPrefix(pack, env, dir0, k - 1).failed && WritesAt(env, k - 1)
    ensures HoldsFile(pack, env, LoopPrefix(pack, env, dir0, k).dir, k - 1)
  {
    var prev := LoopPrefix(pack, env, dir0, k - 1);
    LoopPrefixStep(pack, env, dir0, k - 1);
    StepLeavesFile(pack, env, prev.dir, k - 1);
  }

  /** A file present after k - 1 positions is still there after k, unless
      position k - 1 is its own. */
  lemma LoopStepKeepsFile(pack: string, env: Env, dir0: Dir, k: nat, i: nat)
    requires WellFormed(env)
    requires 0 < k <= |env.stickers|
    requires LoopPrefix(pack, env, dir0, k - 1).failed || i != k - 1
    requires HoldsFile(pack, env, LoopPrefix(pack, env, dir0, k - 1).dir, i)
    ensures HoldsFile(pack, env, LoopPrefix(pack, env, dir0, k).dir, i)
  {
    var prev := LoopPrefix(pack, env, dir0, k - 1);
    if !prev.failed {
      LoopPrefixStep(pack, env, dir0, k - 1);
      StepKeepsFile(pack, env, prev.dir, k - 1, i);
    }
  }

  /** A visited position whose file was written keeps that file, with the
      downloaded bytes, through the rest of the loop: later writes use other
      names. */
  lemma {:induction false} LoopFileKept(pack: string, env: Env, dir0: Dir, k: nat, i: nat)
    requires WellFormed(env)
    requires k <= |env.stickers|
    requires Visited(env, k, i) && WritesAt(env, i)
    ensures HoldsFile(pack, env, LoopPrefix(pack, env, dir0, k).dir, i)
    decreases k
  {
    VisitedAfterStep(pack, env, dir0, k, i);
    if i == k - 1 && !LoopPrefix(pack, env, dir0, k - 1).failed {
      LoopStepLeavesFile(pack, env, dir0, k);
    } else {
      LoopFileKept(pack, env, dir0, k - 1, i);
      LoopStepKeepsFile(pack, env, dir0, k, i);
    }
  }

  /** Every entry of the directory after the first k positions was there
      before the loop or is the file of a visited position that was written. */
  lemma {:induction false} LoopFileOrigin(pack: string, env: Env, dir0: Dir, k: nat, name: string)
    requires k <= |env.stickers|
    requires name in LoopPrefix(pack, env, dir0, k).dir
    ensures name in dir0 || exists i :: Visited(env, k, i) && WritesAt(env, i) && name == NameAt(pack, env, i)
    decreases k
  {
    if k > 0 {
      var prev := LoopPrefix(pack, env, dir0, k - 1);
      var dir := LoopPrefix(pack, env, dir0, k).dir;
      if !prev.failed && WritesAt(env, k - 1) && name == NameAt(pack, env, k - 1) {
        VisitedAfterStep(pack, env, dir0, k, k - 1);
      } else {
        assert name in prev.dir;
        LoopFileOrigin(pack, env, dir0, k - 1, name);
        if name !in dir0 {
          var i :| Visited(env, k - 1, i) && WritesAt(env, i) && name == NameAt(pack, env, i);
          VisitedAfterStep(pack, env, dir0, k, i);
        }
      }
    }
  }

  /** After the first k positions, the output directory holds the file of
      every visited position that was written, with the downloaded bytes,
      and nothing else that was not there before. */
  lemma LoopFiles(pack: string, env: Env, dir0: Dir, k: nat)
    requires WellFormed(env)
    requires k <= |env.stickers|
    ensures var dir := LoopPrefix(pack, env, dir0, k).dir;
      forall i :: Visited(env, k, i) && WritesAt(env, i) ==>
        NameAt(pack, env, i) in dir && dir[NameAt(pack, env, i)] == ContentAt(env, i)
    ensures var dir := LoopPrefix(pack, env, dir0, k).dir;
      forall name :: name in dir ==>
        name in dir0 || exists i :: Visited(env, k, i) && WritesAt(env, i) && name == NameAt(pack, env, i)
  {
    var dir := LoopPrefix(pack, env, dir0, k).dir;
    forall i | Visited(env, k, i) && WritesAt(env, i)
      ensures NameAt(pack, env, i) in dir && dir[NameAt(pack, env, i)] == ContentAt(env, i)
    {
      LoopFileKept(pack, env, dir0, k, i);
    }
    forall name | name in dir
      ensures name in dir0 || exists i :: Visited(env, k, i) && WritesAt(env, i) && name == NameAt(pack, env, i)
    {
      LoopFileOrigin(pack, env, dir0, k, name);
    }
  }

  /** After the first k positions, `getFile` has been called exactly for the
      visited positions whose call did not throw. */
  lemma {:induction false} LoopQueries(pack: string, env: Env, dir0: Dir, k: nat)
    requires k <= |env.stickers|
    ensures forall i: nat :: FileQueried(i) in LoopPrefix(pack, env, dir0, k).trace <==>
      Visited(env, k, i) && !Fails(env, GetFile(i))
    decreases k
  {
    if k > 0 {
      var prev := LoopPrefix(pack, env, dir0, k - 1);
      LoopQueries(pack, env, dir0, k - 1);
      var t := LoopPrefix(pack, env, dir0, k).trace;
      forall i: nat ensures FileQueried(i) in t <==> Visited(env, k, i) && !Fails(env, GetFile(i)) {
        VisitedAfterStep(pack, env, dir0, k, i);
        if !prev.failed {
          var r := IndexStep(pack, env, prev.dir, k - 1);
          StepTrace(pack, env, prev.dir, k - 1);
          assert t == prev.trace + r.trace;
          if FileQueried(i) in r.trace {
            assert StepEvent(pack, env, k - 1, FileQueried(i));
          }
        }
      }
    }
  }

  /** After the first k positions, the status message has received a
      progress edit `i + 1` of n exactly for the visited positions that wrote
      their file, are due for an update, and whose edit did not throw. */
  lemma {:induction false} LoopProgress(pack: string, env: Env, dir0: Dir, k: nat)
    requires k <= |env.stickers|
    ensures forall i: nat ::
      Edited(env.statusId, Progress(pack, i + 1, |env.stickers|)) in LoopPrefix(pack, env, dir0, k).trace
      <==> Visited(env, k, i) && ReportsAt(env, i)
    decreases k
  {
    if k > 0 {
      var prev := LoopPrefix(pack, env, dir0, k - 1);
      LoopProgress(pack, env, dir0, k - 1);
      var t := LoopPrefix(pack, env, dir0, k).trace;
      forall i: nat ensures Edited(env.statusId, Progress(pack, i + 1, |env.stickers|)) in t
        <==> Visited(env, k, i) && ReportsAt(env, i)
      {
        VisitedAfterStep(pack, env, dir0, k, i);
        if !prev.failed {
          var r := IndexStep(pack, env, prev.dir, k - 1);
          StepTrace(pack, env, prev.dir, k - 1);
          assert t == prev.trace + r.trace;
          var e := Edited(env.statusId, Progress(pack, i + 1, |env.stickers|));
          if e in r.trace {
            assert StepEvent(pack, env, k - 1, e);
          }
        }
      }
    }
  }
}
