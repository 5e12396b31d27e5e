/** The adoption handoff once its descriptor is durable (src/conversion.rs, `adopt_to_zsqlite_with_policy`;
    src/store.rs, `initialize_source`, `load_local`, `reload`). */
module Handoff {
  import opened Bytes
  import opened Engine

  /** The hash, and what SQLite's own exclusive checkpoint does to a native file: it refuses it and leaves it as it is,
      or leaves a file with nothing in its journal, which a second checkpoint does not change. */
  datatype Env = Env(p: Primitives, checkpoint: Bytes -> Option<Bytes>)

  ghost predicate Settles(v: Env) {
    forall b :: v.checkpoint(b).Some? ==> v.checkpoint(v.checkpoint(b).value) == v.checkpoint(b)
  }

  /** What adoption wrote down about the native file before moving it. */
  datatype Descriptor = Descriptor(bytes: nat, pageSize: nat, digest: Digest)

  /** What the new store holds: nothing yet, the native file as its base, a sealed copy of it, or something a
      writer put there in the meantime. */
  datatype Held = Empty | OverSource | OverCopy(content: Bytes) | Foreign(sealed: bool)

  /** The descriptor, the native image as its owner or SQLite's checkpoint last left it, the files at the logical path and at
      `.source`, and what the store holds. */
  datatype Sys = Sys(info: Descriptor, image: Bytes, logical: Option<Bytes>, source: Option<Bytes>, store: Held)

  /** `Resume(k)` is a repeated adoption that is interrupted after at most k durable steps. */
  datatype Action =
    | Resume(k: nat)
    | Open
    | NativeWrite(bytes: Bytes)
    | ForeignCommit
    | ForeignSeal
    | AttachCopy
    | Unlink

  // The checks

  /** What adoption asks of a native file. */
  predicate Adoptable(b: Bytes) {
    && |b| >= 100
    && ParsePageSize(b[..100]).Some? && |b| % ParsePageSize(b[..100]).value == 0
    && b[18] in {1, 2} && b[19] in {1, 2} && b[21..24] == [64, 32, 32]
  }

  function Described(p: Primitives, b: Bytes): Descriptor
    requires Adoptable(b)
  {
    Descriptor(|b|, ParsePageSize(b[..100]).value, p.blake3(b[..100]))
  }

  /** `initialize_source` compares the length and the digest of the first hundred bytes. */
  predicate Fits(p: Primitives, d: Descriptor, b: Bytes) {
    |b| == d.bytes && |b| >= 100 && p.blake3(b[..100]) == d.digest
  }

  /** Opening the new header also compares the page size. */
  predicate Opens(p: Primitives, d: Descriptor, b: Bytes) {
    Fits(p, d, b) && ParsePageSize(b[..100]) == Some(d.pageSize)
  }

  // The steps

  /** The next durable step of an adoption, if one is left and allowed: the native checkpoint, the rename, then the
      new header. */
  function AdoptStep(v: Env, s: Sys): Sys {
    if s.store != Empty then s
    else if s.source.Some? then (if Fits(v.p, s.info, s.source.value) then s.(store := OverSource) else s)
    else if s.logical.None? || v.checkpoint(s.logical.value).None? then s
    else if v.checkpoint(s.logical.value) != s.logical then
      s.(logical := v.checkpoint(s.logical.value), image := v.checkpoint(s.logical.value).value)
    else s.(logical := None, source := s.logical)
  }

  function Adopt(v: Env, s: Sys, k: nat): Sys
    decreases k
  {
    if k == 0 then s else Adopt(v, AdoptStep(v, s), k - 1)
  }

  /** A writable open finishes an interrupted attachment: with a sealed base and no native base recorded, the
      leftover source is removed. */
  function Reloaded(s: Sys): Sys {
    if s.store.OverCopy? || s.store == Foreign(true) then s.(source := None) else s
  }

  function Next(v: Env, s: Sys, a: Action): Sys {
    match a
    case Resume(k) => Adopt(v, Reloaded(s), k)
    case Open => Reloaded(s)
    case NativeWrite(b) => if s.logical.Some? then s.(logical := Some(b), image := b) else s
    case ForeignCommit => if s.store == Empty then s.(store := Foreign(false)) else s
    case ForeignSeal => if s.store == Foreign(false) then s.(store := Foreign(true)) else s
    case AttachCopy => if s.store == OverSource && s.source.Some? then s.(store := OverCopy(s.source.value)) else s
    case Unlink => if s.store.OverCopy? then s.(source := None) else s
  }

  function Run(v: Env, s: Sys, actions: seq<Action>): Sys
    decreases |actions|
  {
    if actions == [] then s else Run(v, Next(v, s, actions[0]), actions[1..])
  }

  /** The descriptor has just become durable. */
  function Begun(v: Env, image: Bytes): Sys
    requires Adoptable(image)
  {
    Sys(Described(v.p, image), image, Some(image), None, Empty)
  }

  /** The handoff is over: `.source` alone names the image, and the store is built on it. */
  predicate Finished(v: Env, s: Sys) {
    s.store == OverSource && s.logical.None? && s.source == Some(s.image) && Opens(v.p, s.info, s.image)
  }

  // Where the image is

  /** Exactly one path names the native image. */
  predicate OneName(s: Sys) {
    (s.logical == Some(s.image) && s.source.None?) || (s.logical.None? && s.source == Some(s.image))
  }

  predicate Inv(v: Env, s: Sys) {
    match s.store
    case Empty => OneName(s)
    case OverSource => s.logical.None? && s.source == Some(s.image) && Fits(v.p, s.info, s.image)
    case OverCopy(c) => c == s.image && s.logical.None? && (s.source.None? || s.source == Some(s.image))
    case Foreign(sealed) => OneName(s) || (sealed && s.logical.None? && s.source.None?)
  }

  lemma {:induction false} AdoptInv(v: Env, s: Sys, k: nat)
    requires Inv(v, s)
    ensures Inv(v, Adopt(v, s, k)) && Adopt(v, s, k).info == s.info
    ensures v.checkpoint(s.image) == Some(s.image) ==> Adopt(v, s, k).image == s.image
    decreases k
  {
    if k > 0 {
      AdoptInv(v, AdoptStep(v, s), k - 1);
    }
  }

  lemma NextInv(v: Env, s: Sys, a: Action)
    requires Inv(v, s)
    ensures Inv(v, Next(v, s, a)) && Next(v, s, a).info == s.info
  {
    hide Fits;
    if a.Resume? {
      AdoptInv(v, Reloaded(s), a.k);
    }
  }

  /** In every run, with native writes and foreign commits at any point, the native image keeps exactly one
      name until a sealed copy of it is attached; only a sealed foreign commit can cost it its name. */
  lemma {:induction false} ImageKeepsOneName(v: Env, s: Sys, actions: seq<Action>)
    requires Inv(v, s)
    ensures var t := Run(v, s, actions);
      && Inv(v, t) && t.info == s.info
      && (OneName(t) || t.store == OverCopy(t.image) || t.store == Foreign(true))
    decreases |actions|
  {
    hide Next;
    if actions != [] {
      NextInv(v, s, actions[0]);
      ImageKeepsOneName(v, Next(v, s, actions[0]), actions[1..]);
    }
  }

  // When a repeated adoption finishes

  lemma {:induction false} AdoptSettled(v: Env, s: Sys, k: nat)
    requires s.store != Empty
    ensures Adopt(v, s, k) == s
    decreases k
  {
    if k > 0 {
      AdoptSettled(v, s, k - 1);
    }
  }

  lemma {:induction false} AdoptMoved(v: Env, s: Sys, k: nat)
    requires Inv(v, s) && s.store == Empty && s.source.Some?
    ensures Adopt(v, s, k) == (if k > 0 && Fits(v.p, s.info, s.image) then s.(store := OverSource) else s)
    decreases k
  {
    if k > 0 {
      if Fits(v.p, s.info, s.image) {
        AdoptSettled(v, AdoptStep(v, s), k - 1);
      } else {
        AdoptMoved(v, s, k - 1);
      }
    }
  }

  /** The file that a repeated adoption will compare with the descriptor: the one already moved, or what the native
      checkpoint makes of the one still in place. */
  function Arriving(v: Env, s: Sys): Option<Bytes> {
    if s.store == Empty && s.source.None? then v.checkpoint(s.image) else Some(s.image)
  }

  /** A repeated adoption, once it is let run, finishes the handoff if and only if nobody has committed into the
      store and the native file passes SQLite's checkpoint and still matches the descriptor; then it always ends in
      the same state. */
  lemma ResumeFinishesIff(v: Env, s: Sys, k: nat)
    requires Settles(v) && Inv(v, s) && k >= 3 && !s.store.OverCopy?
    ensures Finished(v, Next(v, s, Resume(k))) <==>
      && !s.store.Foreign? && Arriving(v, s).Some?
      && var b := Arriving(v, s).value;
      && |b| == s.info.bytes && |b| >= 100 && v.p.blake3(b[..100]) == s.info.digest
      && ParsePageSize(b[..100]) == Some(s.info.pageSize)
    ensures Finished(v, Next(v, s, Resume(k))) ==>
      var b := Arriving(v, s).value; Next(v, s, Resume(k)) == Sys(s.info, b, None, Some(b), OverSource)
  {
    hide Adopt, ParsePageSize;
    if s.store != Empty {
      AdoptSettled(v, Reloaded(s), k);
    } else if s.source.Some? {
      AdoptMoved(v, s, k);
    } else if v.checkpoint(s.image).None? {
      AdoptStuck(v, s, k);
    } else {
      AdoptOnce(v, s, k);
      AdoptOnce(v, AdoptStep(v, s), k - 1);
      var t := AdoptStep(v, s);
      if t.source.Some? {
        AdoptMoved(v, t, k - 1);
      } else {
        AdoptMoved(v, AdoptStep(v, t), k - 2);
      }
    }
  }

  /** A file the native checkpoint refuses stays where it is. */
  lemma {:induction false} AdoptStuck(v: Env, s: Sys, k: nat)
    requires s.store == Empty && s.source.None? && s.logical.Some? && v.checkpoint(s.logical.value).None?
    ensures Adopt(v, s, k) == s
    decreases k
  {
    if k > 0 {
      AdoptStuck(v, s, k - 1);
    }
  }

  lemma AdoptOnce(v: Env, s: Sys, k: nat)
    requires k > 0
    ensures Adopt(v, s, k) == Adopt(v, AdoptStep(v, s), k - 1)
  {
  }

  /** Undisturbed by native writes and foreign commits: wherever earlier attempts stopped, and until a copy is
      attached, the next attempt ends in the one final state. */
  lemma HandoffConverges(v: Env, image: Bytes, actions: seq<Action>, k: nat)
    requires Settles(v) && Adoptable(image) && v.checkpoint(image) == Some(image) && k >= 3
    requires forall a | a in actions :: !a.NativeWrite? && !a.ForeignCommit?
    ensures var t := Run(v, Begun(v, image), actions);
      && t.image == image
      && (t.store.OverCopy? || Next(v, t, Resume(k)) == Sys(Described(v.p, image), image, None, Some(image), OverSource))
  {
    hide Run, Next, Adoptable, ParsePageSize;
    var s := Begun(v, image);
    BegunInv(v, image);
    ImageKeepsOneName(v, s, actions);
    Undisturbed(v, s, actions);
    var t := Run(v, s, actions);
    if !t.store.OverCopy? {
      ResumeFinishesIff(v, t, k);
    }
  }

  lemma BegunInv(v: Env, image: Bytes)
    requires Adoptable(image)
    ensures Inv(v, Begun(v, image)) && Opens(v.p, Begun(v, image).info, image)
  {
  }

  lemma {:induction false} Undisturbed(v: Env, s: Sys, actions: seq<Action>)
    requires Inv(v, s) && !s.store.Foreign? && v.checkpoint(s.image) == Some(s.image)
    requires forall a | a in actions :: !a.NativeWrite? && !a.ForeignCommit?
    ensures var t := Run(v, s, actions); t.image == s.image && t.info == s.info && !t.store.Foreign?
    decreases |actions|
  {
    hide Fits;
    if actions != [] {
      var a := actions[0];
      assert a in actions && !a.NativeWrite? && !a.ForeignCommit?;
      NextInv(v, s, a);
      if a.Resume? {
        AdoptInv(v, Reloaded(s), a.k);
        AdoptNotForeign(v, Reloaded(s), a.k);
      }
      Undisturbed(v, Next(v, s, a), actions[1..]);
    }
  }

  lemma {:induction false} AdoptNotForeign(v: Env, s: Sys, k: nat)
    requires !s.store.Foreign?
    ensures !Adopt(v, s, k).store.Foreign?
    decreases k
  {
    if k > 0 {
      AdoptNotForeign(v, AdoptStep(v, s), k - 1);
    }
  }

  // The two ways it goes wrong

  /** A moved file that does not match the descriptor stays refused, whatever happens next. */
  lemma {:induction false} StrandedForGood(v: Env, s: Sys, actions: seq<Action>)
    requires (s.store == Empty || s.store.Foreign?) && s.logical.None?
    requires s.source.Some? ==> !Fits(v.p, s.info, s.source.value)
    ensures var t := Run(v, s, actions); (t.store == Empty || t.store.Foreign?) && !Finished(v, t)
    decreases |actions|
  {
    hide Fits;
    if actions != [] {
      if actions[0].Resume? {
        AdoptRefuses(v, Reloaded(s), actions[0].k);
      }
      StrandedForGood(v, Next(v, s, actions[0]), actions[1..]);
    }
  }

  lemma {:induction false} AdoptRefuses(v: Env, s: Sys, k: nat)
    requires s.logical.None? && (s.source.Some? ==> !Fits(v.p, s.info, s.source.value))
    ensures Adopt(v, s, k) == s
    decreases k
  {
    if k > 0 {
      AdoptRefuses(v, s, k - 1);
    }
  }

  /** One native write between the interruption and the retry, and the checkpointed file no longer matches: the retry
      moves it first and then refuses it, and no later attempt ever finishes. */
  lemma NativeWriteStrands(v: Env, image: Bytes, b: Bytes, k: nat, actions: seq<Action>)
    requires Settles(v) && Adoptable(image) && k >= 2
    requires v.checkpoint(b).Some? && !Fits(v.p, Described(v.p, image), v.checkpoint(b).value)
    ensures var t, c := Run(v, Begun(v, image), [NativeWrite(b), Resume(k)]), v.checkpoint(b).value;
      && t == Sys(Described(v.p, image), c, None, Some(c), Empty)
      && !Finished(v, Run(v, t, actions))
  {
    hide Fits, Adoptable, Run;
    var s1 := Next(v, Begun(v, image), NativeWrite(b));
    var s2 := AdoptStep(v, s1);
    AdoptOnce(v, s1, k);
    AdoptOnce(v, s2, k - 1);
    if s2.source.Some? {
      AdoptRefuses(v, s2, k - 1);
    } else {
      AdoptRefuses(v, AdoptStep(v, s2), k - 2);
    }
    TwoSteps(v, Begun(v, image), NativeWrite(b), Resume(k));
    StrandedForGood(v, Next(v, s1, Resume(k)), actions);
  }

  /** A native file that is no database any more is refused before it is moved, and putting the image back lets the
      next attempt finish. */
  lemma RefusedFileStays(v: Env, image: Bytes, b: Bytes, k: nat, n: nat)
    requires Settles(v) && Adoptable(image) && v.checkpoint(image) == Some(image) && v.checkpoint(b).None? && n >= 3
    ensures var s := Next(v, Begun(v, image), NativeWrite(b));
      && Next(v, s, Resume(k)) == s
      && Finished(v, Next(v, Next(v, s, NativeWrite(image)), Resume(n)))
  {
    hide Fits, ParsePageSize;
    var s := Next(v, Begun(v, image), NativeWrite(b));
    AdoptStuck(v, s, k);
    BegunInv(v, image);
    ResumeFinishesIff(v, Begun(v, image), n);
  }

  lemma TwoSteps(v: Env, s: Sys, a: Action, b: Action)
    ensures Run(v, s, [a, b]) == Next(v, Next(v, s, a), b)
  {
    hide Next;
    assert [a, b][1..] == [b];
    assert [b][1..] == [];
    assert Run(v, Next(v, s, a), [b]) == Run(v, Next(v, Next(v, s, a), b), []);
  }

  /** Committing into the empty store before the handoff is finished breaks it for good, and sealing that commit
      removes the only name of the native image. */
  lemma ForeignCommitLosesImage(v: Env, image: Bytes, actions: seq<Action>)
    requires Adoptable(image) && v.checkpoint(image) == Some(image)
    ensures Next(v, Run(v, Begun(v, image), [Resume(1), ForeignCommit]), Open).source == Some(image)
    ensures var t := Run(v, Run(v, Begun(v, image), [Resume(1), ForeignCommit]), [ForeignSeal, Open]);
      && t.logical.None? && t.source.None? && !t.store.OverCopy?
      && !Finished(v, Run(v, t, actions))
  {
    hide Adoptable;
    var s := Begun(v, image);
    TwoSteps(v, s, Resume(1), ForeignCommit);
    AdoptOnce(v, s, 1);
    var s2 := Next(v, Next(v, s, Resume(1)), ForeignCommit);
    TwoSteps(v, s2, ForeignSeal, Open);
    StrandedForGood(v, Next(v, Next(v, s2, ForeignSeal), Open), actions);
  }

  /** The handoff and what follows it: a finished adoption, the sealed copy attached, the native file removed; from then on
      nothing changes what the store holds or brings a native file back. */
  lemma AttachCompletes(v: Env, image: Bytes, k: nat, actions: seq<Action>)
    requires Settles(v) && Adoptable(image) && v.checkpoint(image) == Some(image) && k >= 3
    ensures var t := Run(v, Begun(v, image), [Resume(k), AttachCopy]);
      var u := Run(v, Next(v, t, Unlink), actions);
      && t.store == OverCopy(image) && t.source == Some(image) && Next(v, t, Open) == Next(v, t, Unlink)
      && u.store == OverCopy(image) && u.source.None? && u.logical.None?
  {
    hide Run, Adoptable, Adopt, ParsePageSize;
    BegunInv(v, image);
    ResumeFinishesIff(v, Begun(v, image), k);
    TwoSteps(v, Begun(v, image), Resume(k), AttachCopy);
    CopyStays(v, Next(v, Run(v, Begun(v, image), [Resume(k), AttachCopy]), Unlink), actions);
  }

  lemma {:induction false} CopyStays(v: Env, s: Sys, actions: seq<Action>)
    requires s.store.OverCopy? && s.source.None? && s.logical.None?
    ensures Run(v, s, actions) == s
    decreases |actions|
  {
    if actions != [] {
      if actions[0].Resume? {
        AdoptSettled(v, s, actions[0].k);
      }
      CopyStays(v, s, actions[1..]);
    }
  }
}
