/** Converting an adopted native file in place, chunk by chunk (src/store.rs, `prepare_source_work`,
    `SealWork::prepare`, `finish_source_work`; src/conversion.rs, `set_paused`). */
module Conversion {
  import opened Bytes
  import opened Format
  import opened Pages

  const CHUNK_BYTES: nat := 8 * 1024 * 1024

  /** The published progress root: a view of the first bytes of the source. */
  datatype Prefix = Prefix(id: Digest, content: Bytes)

  /** A chunk being worked on: the view it extends and the end it aims at. */
  datatype Work = Reading(parent: Option<Prefix>, after: nat) | Published(view: Prefix)

  /** `published` counts chunk publications since there was no root. The worker lock admits one worker. */
  datatype Sys = Sys(
    source: Bytes,
    ps: nat,
    prefix: Option<Prefix>,
    published: nat,
    paused: bool,
    attached: Option<Bytes>,
    worker: Option<Work>)

  function Size(p: Option<Prefix>): nat {
    if p.Some? then |p.value.content| else 0
  }

  function Content(p: Option<Prefix>): Bytes {
    if p.Some? then p.value.content else []
  }

  function ChunkEnd(before: nat, total: nat): nat {
    Min(before + CHUNK_BYTES, total)
  }

  datatype Action =
    | Capture
    | PublishChunk(id: Digest)
    | FinishWork(pending: bool)
    | Crash
    | Pause
    | Resume
    | Settle
    | Commit

  /** The view a chunk makes: the pages of its parent and the pages read from the source. */
  function Extended(w: Work, source: Bytes): Bytes
    requires w.Reading? && Size(w.parent) <= w.after <= |source|
  {
    Content(w.parent) + source[Size(w.parent)..w.after]
  }

  /** `Capture` is by a handle with nothing open, perhaps one that has not noticed the sealed base yet. Pausing and every publication
      happen under the control lock, so each is one step. */
  function Next(s: Sys, a: Action): Sys {
    match a
    case Capture =>
      if s.worker.Some? || s.paused || Size(s.prefix) > |s.source| then s
      else s.(worker := Some(Reading(s.prefix, ChunkEnd(Size(s.prefix), |s.source|))))
    case PublishChunk(id) =>
      if s.worker.None? || !s.worker.value.Reading? then s
      else if s.paused then s.(worker := None)
      else
        var w := s.worker.value;
        if Size(s.prefix) != Size(w.parent) || !(Size(w.parent) <= w.after <= |s.source|) then s.(worker := None)
        else
          var view := Prefix(id, Extended(w, s.source));
          s.(prefix := Some(view), published := s.published + 1, worker := Some(Published(view)))
    case FinishWork(pending) =>
      if s.worker.None? || !s.worker.value.Published? then s
      else
        var view := s.worker.value.view;
        if |view.content| < |s.source| then s.(worker := None)
        else if s.paused || pending || s.attached.Some? || s.prefix != Some(view) then s.(worker := None)
        else s.(attached := Some(view.content), worker := None)
    case Crash => s.(worker := None)
    case Pause => if s.attached.Some? then s else s.(paused := true)
    case Resume => if s.attached.Some? then s else s.(paused := false)
    case Settle => if s.attached.Some? then s.(prefix := None, published := 0) else s
    case Commit => s
  }

  function Run(s: Sys, actions: seq<Action>): Sys
    decreases |actions|
  {
    if actions == [] then s else Run(Next(s, actions[0]), actions[1..])
  }

  function Unconverted(source: Bytes, ps: nat): Sys {
    Sys(source, ps, None, 0, false, None, None)
  }

  // The invariant

  /** A page-aligned beginning of the source, without gap or overlap. */
  predicate IsPrefix(p: Option<Prefix>, source: Bytes, ps: nat)
    requires ps > 0
  {
    Size(p) <= |source| && Content(p) == source[..Size(p)] && Size(p) % ps == 0
  }

  predicate Inv(s: Sys) {
    && ValidPageSize(s.ps) && |s.source| % s.ps == 0
    && IsPrefix(s.prefix, s.source, s.ps) && Size(s.prefix) == Min(s.published * CHUNK_BYTES, |s.source|)
    && (s.attached.Some? ==> s.attached.value == s.source && !s.paused)
    && (s.worker.Some? && s.worker.value.Reading? ==>
        && IsPrefix(s.worker.value.parent, s.source, s.ps)
        && s.worker.value.after == ChunkEnd(Size(s.worker.value.parent), |s.source|))
    && (s.worker.Some? && s.worker.value.Published? ==> IsPrefix(Some(s.worker.value.view), s.source, s.ps))
  }

  lemma PageDividesChunk(ps: nat)
    requires ValidPageSize(ps)
    ensures CHUNK_BYTES % ps == 0
  {
  }

  lemma ChunkEndAligned(before: nat, total: nat, ps: nat)
    requires ValidPageSize(ps) && before % ps == 0 && total % ps == 0 && before <= total
    ensures before <= ChunkEnd(before, total) <= total && ChunkEnd(before, total) % ps == 0
  {
    PageDividesChunk(ps);
    AlignedSum(ps, before, CHUNK_BYTES);
  }

  /** Progress after one more publication. */
  lemma ChunkCount(k: nat, total: nat)
    ensures ChunkEnd(Min(k * CHUNK_BYTES, total), total) == Min((k + 1) * CHUNK_BYTES, total)
  {
  }

  lemma ExtendedIsPrefix(parent: Option<Prefix>, source: Bytes, ps: nat, after: nat)
    requires ps > 0 && IsPrefix(parent, source, ps) && Size(parent) <= after <= |source|
    ensures Extended(Reading(parent, after), source) == source[..after]
  {
  }

  lemma PublishInv(s: Sys, id: Digest)
    requires Inv(s) && s.worker.Some? && s.worker.value.Reading? && !s.paused && Size(s.prefix) == Size(s.worker.value.parent)
    ensures Inv(Next(s, PublishChunk(id)))
  {
    hide ValidPageSize, ChunkEnd;
    PageSizePositive(s.ps);
    var w := s.worker.value;
    ChunkEndAligned(Size(w.parent), |s.source|, s.ps);
    ExtendedIsPrefix(w.parent, s.source, s.ps, w.after);
    ChunkCount(s.published, |s.source|);
  }

  lemma NextInv(s: Sys, a: Action)
    requires Inv(s)
    ensures Inv(Next(s, a))
  {
    hide ValidPageSize, ChunkEnd;
    PageSizePositive(s.ps);
    if a.PublishChunk? && s.worker.Some? && s.worker.value.Reading? && !s.paused && Size(s.prefix) == Size(s.worker.value.parent) {
      PublishInv(s, a.id);
    }
  }

  /** In every interleaving of workers, commits, pauses and restarts the published prefix is exactly the first
      bytes of the source, and what is finally attached is the source. */
  lemma {:induction false} PrefixOfSource(s: Sys, actions: seq<Action>)
    requires Inv(s)
    ensures Inv(Run(s, actions)) && Run(s, actions).source == s.source
    decreases |actions|
  {
    hide Inv;
    if actions != [] {
      NextInv(s, actions[0]);
      PrefixOfSource(Next(s, actions[0]), actions[1..]);
    }
  }

  lemma UnconvertedInv(source: Bytes, ps: nat)
    requires ValidPageSize(ps) && |source| % ps == 0
    ensures Inv(Unconverted(source, ps))
  {
  }

  /** Between a completed pause and the next resume nothing moves and nothing is attached. */
  lemma {:induction false} PauseHolds(s: Sys, actions: seq<Action>)
    requires Inv(s) && s.paused && Resume !in actions
    ensures var t := Run(s, actions); t.paused && t.prefix == s.prefix && t.attached == s.attached && t.published == s.published
    decreases |actions|
  {
    hide ValidPageSize;
    if actions != [] {
      assert actions[0] != Resume;
      NextInv(s, actions[0]);
      PauseHolds(Next(s, actions[0]), actions[1..]);
    }
  }

  /** A pause takes effect at once: whatever anybody does after it and before a resume, the prefix, the count and what
      is attached stay as they were when it was called. */
  lemma PauseTakesEffect(s: Sys, actions: seq<Action>)
    requires Inv(s) && s.attached.None? && Resume !in actions
    ensures var t := Run(s, [Pause] + actions);
      t.paused && t.prefix == s.prefix && t.published == s.published && t.attached.None? && t.source == s.source
  {
    hide Inv, Run;
    RunConcat(s, [Pause], actions);
    RunOne(s, Pause);
    NextInv(s, Pause);
    PauseHolds(Next(s, Pause), actions);
    PrefixOfSource(Next(s, Pause), actions);
  }

  lemma RunOne(s: Sys, a: Action)
    ensures Run(s, [a]) == Next(s, a)
  {
    hide Next;
    assert [a][1..] == [];
  }

  // How many publications it takes

  function ChunksFor(total: nat): nat {
    (total + CHUNK_BYTES - 1) / CHUNK_BYTES
  }

  /** The prefix is complete exactly from the last needed publication on. */
  lemma CompleteAfter(s: Sys)
    requires Inv(s)
    ensures Size(s.prefix) == |s.source| <==> s.published >= ChunksFor(|s.source|)
  {
    hide ValidPageSize, IsPrefix;
    Enough(s.published, |s.source|);
  }

  lemma Enough(k: nat, total: nat)
    ensures k * CHUNK_BYTES >= total <==> k >= ChunksFor(total)
  {
  }

  /** One undisturbed pass of the conversion loop of `flush_sidecars`. */
  function Round(id: Digest): seq<Action> {
    [Capture, PublishChunk(id), FinishWork(false)]
  }

  function Rounds(ids: seq<Digest>): seq<Action> {
    if ids == [] then [] else Rounds(ids[..|ids| - 1]) + Round(ids[|ids| - 1])
  }

  lemma {:induction false} RunConcat(s: Sys, a: seq<Action>, b: seq<Action>)
    ensures Run(s, a + b) == Run(Run(s, a), b)
    decreases |a|
  {
    hide Next;
    if a == [] {
      assert a + b == b;
    } else {
      assert (a + b)[1..] == a[1..] + b;
      RunConcat(Next(s, a[0]), a[1..], b);
    }
  }

  lemma RunRound(s: Sys, id: Digest)
    ensures Run(s, Round(id)) == Next(Next(Next(s, Capture), PublishChunk(id)), FinishWork(false))
  {
    hide Next;
    var s1 := Next(s, Capture);
    var s2 := Next(s1, PublishChunk(id));
    assert Round(id)[1..] == [PublishChunk(id), FinishWork(false)];
    assert Run(s1, Round(id)[1..]) == Run(s2, Round(id)[1..][1..]);
    assert Round(id)[1..][1..] == [FinishWork(false)];
    assert Run(s2, [FinishWork(false)]) == Run(Next(s2, FinishWork(false)), [FinishWork(false)][1..]);
  }

  /** Between rounds: idle, running, and nothing attached yet. */
  predicate Waiting(s: Sys) {
    Inv(s) && s.worker.None? && !s.paused && s.attached.None?
  }

  /** The rounds still needed; a complete prefix that was never attached takes one more. */
  function Remaining(s: Sys): nat {
    var all := ChunksFor(|s.source|);
    if s.published < all then all - s.published else 1
  }

  /** One round publishes one chunk, and attaches the source exactly when that completes it. */
  lemma RoundAdvances(s: Sys, id: Digest)
    requires Waiting(s)
    ensures var t := Run(s, Round(id));
      && Inv(t) && t.source == s.source && t.worker.None? && !t.paused && t.published == s.published + 1
      && t.attached == (if Remaining(s) == 1 then Some(s.source) else None)
  {
    hide ValidPageSize, ChunksFor;
    RunRound(s, id);
    PageSizePositive(s.ps);
    ChunkEndAligned(Size(s.prefix), |s.source|, s.ps);
    var s1 := Next(s, Capture);
    NextInv(s, Capture);
    var s2 := Next(s1, PublishChunk(id));
    NextInv(s1, PublishChunk(id));
    assert s2.published == s.published + 1 && s2.worker.Some? && s2.worker.value == Published(s2.prefix.value);
    CompleteAfter(s2);
    NextInv(s2, FinishWork(false));
  }

  /** Undisturbed rounds go on from whatever has been published. */
  lemma {:induction false} RoundsAdvance(s: Sys, ids: seq<Digest>)
    requires Waiting(s) && |ids| <= Remaining(s)
    ensures var t := Run(s, Rounds(ids));
      && Inv(t) && t.source == s.source && t.worker.None? && !t.paused && t.published == s.published + |ids|
      && t.attached == (if |ids| < Remaining(s) then None else Some(s.source))
    decreases |ids|
  {
    hide Inv, Next, ChunksFor;
    if ids == [] {
      assert Remaining(s) >= 1;
    } else {
      var before, id := ids[..|ids| - 1], ids[|ids| - 1];
      RoundsAdvance(s, before);
      RunConcat(s, Rounds(before), Round(id));
      RoundAdvances(Run(s, Rounds(before)), id);
    }
  }

  /** Undisturbed, exactly ceil(source bytes / 8 MiB) rounds attach the whole source, and no fewer attach
      anything. */
  lemma ConvertsAll(source: Bytes, ps: nat, ids: seq<Digest>)
    requires ValidPageSize(ps) && |source| % ps == 0 && |source| > 0 && |ids| <= ChunksFor(|source|)
    ensures var s := Run(Unconverted(source, ps), Rounds(ids));
      && s.attached == (if |ids| < ChunksFor(|source|) then None else Some(source))
      && s.published == |ids|
  {
    hide ValidPageSize, Rounds, Run, Inv;
    UnconvertedInv(source, ps);
    Enough(0, |source|);
    RoundsAdvance(Unconverted(source, ps), ids);
  }

  /** Wherever an unfinished conversion stopped, once it is running again and the interrupted worker is gone exactly
      the remaining rounds attach the source. */
  lemma GoesOn(s: Sys, ids: seq<Digest>)
    requires Inv(s) && s.attached.None? && |ids| <= Remaining(s)
    ensures var t := Run(s, [Resume, Crash] + Rounds(ids));
      && t.published == s.published + |ids|
      && t.attached == (if |ids| < Remaining(s) then None else Some(s.source))
  {
    hide Inv, Run, Rounds, ChunksFor;
    RunConcat(s, [Resume, Crash], Rounds(ids));
    RunConcat(s, [Resume], [Crash]);
    assert [Resume] + [Crash] == [Resume, Crash];
    RunOne(s, Resume);
    NextInv(s, Resume);
    RunOne(Next(s, Resume), Crash);
    NextInv(Next(s, Resume), Crash);
    RoundsAdvance(Next(Next(s, Resume), Crash), ids);
  }

  /** A resume undoes a pause: what happened in between cost nothing. */
  lemma ResumeGoesOn(s: Sys, actions: seq<Action>, ids: seq<Digest>)
    requires Inv(s) && s.attached.None? && Resume !in actions && |ids| <= Remaining(s)
    ensures var t := Run(s, [Pause] + actions + ([Resume, Crash] + Rounds(ids)));
      && t.published == s.published + |ids|
      && t.attached == (if |ids| < Remaining(s) then None else Some(s.source))
  {
    hide Inv, Run, Rounds, ChunksFor;
    RunConcat(s, [Pause] + actions, [Resume, Crash] + Rounds(ids));
    PauseTakesEffect(s, actions);
    PrefixOfSource(s, [Pause] + actions);
    GoesOn(Run(s, [Pause] + actions), ids);
  }

  /** Once attached it stays attached, whatever late workers do, and settling it leaves no progress behind. */
  lemma {:induction false} AttachedStays(s: Sys, actions: seq<Action>)
    requires Inv(s) && s.attached.Some?
    ensures var t := Run(s, actions);
      t.attached == Some(s.source) && !t.paused && Next(t, Settle).prefix.None? && Next(t, Settle).attached == t.attached
    decreases |actions|
  {
    hide ValidPageSize;
    if actions != [] {
      NextInv(s, actions[0]);
      AttachedStays(Next(s, actions[0]), actions[1..]);
    }
  }

  // What each step of a worker does

  /** A chunk is captured if and only if nobody is at work and the conversion is not paused: from the published prefix to
      the next boundary. */
  lemma CaptureIff(s: Sys)
    requires Inv(s)
    ensures var t := Next(s, Capture);
      if s.worker.None? && !s.paused
      then t == s.(worker := t.worker) && t.worker.Some? && t.worker.value.Reading? && t.worker.value.parent == s.prefix
           && t.worker.value.after == Min(Size(s.prefix) + CHUNK_BYTES, |s.source|)
      else t == s
  {
    hide ValidPageSize;
  }

  /** A captured chunk becomes the prefix if and only if the conversion is not paused and the prefix has not moved; either
      way the chunk is done with. */
  lemma PublishIff(s: Sys, id: Digest)
    requires Inv(s) && s.worker.Some? && s.worker.value.Reading?
    ensures var t := Next(s, PublishChunk(id));
      if !s.paused && Size(s.prefix) == Size(s.worker.value.parent)
      then t.prefix == Some(Prefix(id, s.source[..s.worker.value.after])) && t.published == s.published + 1
           && t.worker == Some(Published(t.prefix.value)) && t.attached == s.attached && t.paused == s.paused
      else t == s.(worker := None)
  {
    hide ValidPageSize;
    PageSizePositive(s.ps);
    var w := s.worker.value;
    ChunkEndAligned(Size(w.parent), |s.source|, s.ps);
    ExtendedIsPrefix(w.parent, s.source, s.ps, w.after);
  }

  /** The source is attached if and only if the published view is the whole of it and still the prefix, with no pause, no
      open transaction and nothing attached before; either way the worker is gone. */
  lemma AttachIff(s: Sys, pending: bool)
    requires Inv(s) && s.worker.Some? && s.worker.value.Published?
    ensures var t := Next(s, FinishWork(pending));
      var view := s.worker.value.view;
      t == s.(worker := None,
              attached := if view.content == s.source && s.prefix == Some(view) && !s.paused && !pending then Some(s.source) else s.attached)
  {
    hide ValidPageSize;
  }
}
