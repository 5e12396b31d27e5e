/** Two-phase protection of the sealed head, with the handles, their lock and their reloads
    (src/storage/objects.rs, `prepare_seal`, `finish_seal`, `recover_seal`; src/store.rs, `begin_write`, `refresh`,
    `reload`, `acquire_maintenance`, `create_active`, `finish_view_publication`, `install_active`, `install_source_base`). */
module HeadProtection {
  import opened Bytes
  import opened Format

  /** How a catalog publication ended: applied, or reported as failed with or without taking effect. */
  datatype Fault = Clean | Lost(applied: bool)

  /** Where the owner of the lock is in replacing the active file. `carries` marks a new file that takes over
      records, as attaching the copy of a native file does. */
  datatype Stage = Idle | Prepared(header: ActiveHeader, carries: bool) | Renamed

  /** The publication lock; `writer` when `begin_write` took it and therefore reloaded. */
  datatype Lock = Lock(owner: nat, writer: bool)

  /** The active file on disk (its header, its inode, whether it has commits not yet sealed, and whether those were
      carried over into it or made in it before its sealed head was in force), the two heads in the catalog, the
      manifests that still exist, and the handles: the inode each has loaded, the lock, and who put the current file in
      place without a confirmed finish. */
  datatype Sys = Sys(
    disk: ActiveHeader,
    inode: nat,
    dirty: bool,
    carried: bool,
    sealed: Option<ActiveHeader>,
    pending: Option<ActiveHeader>,
    live: set<Digest>,
    stage: Stage,
    lock: Option<Lock>,
    seen: map<nat, nat>,
    renamer: Option<nat>)

  datatype Action =
    | Install(id: Digest)
    | Open(i: nat, fault: Fault)
    | BeginWrite(i: nat, fault: Fault)
    | Maintain(i: nat, stale: bool, fault: Fault)
    | Commit(i: nat)
    | SetPolicy(i: nat, header: ActiveHeader)
    | Seal(i: nat, header: ActiveHeader, fault: Fault)
    | Rebase(i: nat, id: Digest, history: Digest, fault: Fault)
    | Attach(i: nat, header: ActiveHeader, fault: Fault)
    | Rename(i: nat, adopted: bool)
    | Finish(i: nat, fault: Fault)
    | Unlock(i: nat)
    | Crash(i: nat)
    | Collect(keep: set<Digest>)

  predicate Names(h: Option<ActiveHeader>, id: Digest) {
    h.Some? && h.value.parent == id
  }

  /** The manifest the active file is built on is one of the two heads. */
  predicate Protected(s: Sys) {
    s.disk.parent == ZeroDigest() || Names(s.sealed, s.disk.parent) || Names(s.pending, s.disk.parent)
  }

  /** It is the sealed head already, or there is none. */
  predicate Quiet(s: Sys) {
    s.disk.parent == ZeroDigest() || Names(s.sealed, s.disk.parent)
  }

  // The catalog

  function Apply(s: Sys, t: Sys, fault: Fault): Sys {
    if fault == Lost(false) then s else t
  }

  function PrepareSeal(s: Sys, h: ActiveHeader, carries: bool, fault: Fault): Sys {
    var t := Apply(s, s.(pending := Some(h)), fault);
    if fault == Clean then t.(stage := Prepared(h, carries)) else t.(lock := None)
  }

  /** Called with the header now on disk; another pending header is a conflict and nothing happens. */
  function FinishSeal(s: Sys, fault: Fault): Sys {
    if s.pending == Some(s.disk) then Apply(s, s.(sealed := s.pending, pending := None), fault) else s
  }

  /** Whether recovery has anything to publish. */
  predicate Recovers(s: Sys) {
    s.pending == Some(s.disk) || (s.pending.Some? && (s.sealed.None? || s.sealed.value.parent == s.disk.parent))
  }

  function RecoverSeal(s: Sys, fault: Fault): Sys {
    if s.pending == Some(s.disk) then FinishSeal(s, fault)
    else if Recovers(s) then Apply(s, s.(pending := None), fault)
    else s
  }

  /** Preparing replaces the pending head, so it must not be the one that protects the file on disk. */
  lemma PrepareKeeps(s: Sys, h: ActiveHeader, carries: bool)
    requires Protected(s)
    ensures Protected(PrepareSeal(s, h, carries, Clean)) <==> Quiet(s) || h.parent == s.disk.parent
  {
  }

  /** Recovering drops a pending head that is not the one on disk. That is wrong exactly when there is no sealed
      head and the file on disk has a base. */
  lemma RecoverKeeps(s: Sys)
    requires Protected(s)
    ensures Protected(RecoverSeal(s, Clean)) <==>
      s.pending.None? || s.pending == Some(s.disk) || s.sealed.Some? || s.disk.parent == ZeroDigest()
  {
  }

  // The handles

  predicate Loaded(s: Sys, i: nat) {
    i in s.seen && s.seen[i] == s.inode
  }

  predicate Owns(s: Sys, i: nat) {
    s.lock.Some? && s.lock.value.owner == i
  }

  predicate Reloads(s: Sys, fault: Fault) {
    fault == Clean || !Recovers(s)
  }

  /** `reload`: recovery first, and only then is the file loaded. */
  function Reload(s: Sys, i: nat, fault: Fault): Sys {
    var t := RecoverSeal(s, fault);
    if Reloads(s, fault) then t.(seen := s.seen[i := s.inode], renamer := None, carried := false) else t
  }

  function Rebased(s: Sys, id: Digest, history: Digest): ActiveHeader {
    s.disk.(parent := id, baseHistory := history)
  }

  /** A seal needs commits to seal and makes a manifest that ends later than the one it extends. Compaction,
      repacking and dictionary updates need a sealed file without commits, and a manifest has one endpoint. Only a
      file without a base is attached to one. Commits and policy changes need the lock, however it was taken:
      `begin_write` reloads only when it takes the lock itself. */
  predicate Enabled(s: Sys, a: Action) {
    match a
    case Install(_) => true
    case Open(i, _) => s.stage == Idle && i !in s.seen
    case BeginWrite(_, _) => s.stage == Idle
    case Maintain(_, _, _) => s.stage == Idle
    case Commit(i) => s.stage == Idle && Owns(s, i) && Loaded(s, i)
    case SetPolicy(i, h) =>
      s.stage == Idle && Owns(s, i) && Loaded(s, i) && !s.dirty && h.parent == s.disk.parent
    case Seal(i, h, _) =>
      && s.stage == Idle && Owns(s, i) && Loaded(s, i) && s.dirty
      && h.parent in s.live && h.parent != ZeroDigest() && h.parent != s.disk.parent
    case Rebase(i, id, history, _) =>
      && s.stage == Idle && Owns(s, i) && Loaded(s, i) && !s.dirty && s.disk.parent != ZeroDigest()
      && id in s.live && id != ZeroDigest() && (id == s.disk.parent ==> history == s.disk.baseHistory)
    case Attach(i, h, _) =>
      && s.stage == Idle && Owns(s, i) && Loaded(s, i) && s.disk.parent == ZeroDigest()
      && h.parent in s.live && h.parent != ZeroDigest()
    case Rename(i, _) => s.stage.Prepared? && Owns(s, i)
    case Finish(i, _) => s.stage == Renamed && Owns(s, i)
    case Unlock(i) => s.stage == Idle && Owns(s, i)
    case Crash(_) => true
    case Collect(_) => s.stage == Idle
  }

  function Next(s: Sys, a: Action): Sys {
    if !Enabled(s, a) then s
    else match a
      case Install(id) => s.(live := s.live + {id})
      case Open(i, fault) => Reload(s, i, fault)
      case BeginWrite(i, fault) =>
        if s.lock.Some? then s
        else
          var t := Reload(s, i, fault);
          if Reloads(s, fault) then t.(lock := Some(Lock(i, true))) else t
      case Maintain(i, stale, fault) =>
        if s.lock.Some? then s
        else if Loaded(s, i) && !stale then s.(lock := Some(Lock(i, false)))
        else
          var t := Reload(s, i, fault);
          if Reloads(s, fault) then t.(lock := Some(Lock(i, false))) else t
      case Commit(_) => s.(dirty := true, carried := !Quiet(s))
      case SetPolicy(i, h) => s.(disk := h, inode := s.inode + 1, seen := s.seen[i := s.inode + 1])
      case Seal(_, h, fault) => PrepareSeal(s, h, false, fault)
      case Rebase(_, id, history, fault) => PrepareSeal(s, Rebased(s, id, history), false, fault)
      case Attach(_, h, fault) => PrepareSeal(s, h, true, fault)
      case Rename(i, adopted) =>
        var kept := s.stage.carries && s.dirty;
        var t := s.(disk := s.stage.header, inode := s.inode + 1, dirty := kept, carried := kept);
        if adopted then t.(stage := Renamed, seen := s.seen[i := s.inode + 1], renamer := Some(i))
        else t.(stage := Idle, lock := None, renamer := None)
      case Finish(_, fault) =>
        var t := FinishSeal(s, fault).(stage := Idle);
        if fault == Clean then t.(renamer := None, carried := false) else t.(lock := None)
      case Unlock(_) => s.(lock := None)
      case Crash(i) =>
        var t := s.(seen := s.seen - {i});
        if Owns(s, i) then t.(lock := None, stage := Idle) else t
      case Collect(keep) => s.(live := set id | id in s.live && (id in keep || Names(s.sealed, id) || Names(s.pending, id)))
  }

  function Run(s: Sys, actions: seq<Action>): Sys
    decreases |actions|
  {
    if actions == [] then s else Run(Next(s, actions[0]), actions[1..])
  }

  // The invariant

  predicate Inv(s: Sys) {
    && (Quiet(s) || s.pending == Some(s.disk))
    && (s.stage.Prepared? ==> s.pending == Some(s.stage.header))
    && (s.stage == Renamed ==> s.pending == Some(s.disk))
    && (s.stage != Idle ==> s.lock.Some?)
    && (s.lock.Some? && s.lock.value.writer && s.stage != Renamed ==> Quiet(s))
    && (s.dirty && !s.carried ==> Quiet(s))
    && (forall i | i in s.seen :: s.seen[i] <= s.inode)
    && (!Quiet(s) ==> forall i | i in s.seen && s.seen[i] == s.inode :: s.renamer == Some(i))
    && (s.sealed.Some? ==> s.sealed.value.parent in s.live)
    && (s.pending.Some? ==> s.pending.value.parent in s.live)
  }

  /** The exact condition. Seals are safe unless the commits they seal came over with an attachment that was not
      finished, or were made in a file whose own seal was not; compaction, repacking and dictionary updates, which only
      refresh, must find the sealed head in force or rebuild the manifest that is there; a policy change must find it
      in force or leave the header as it is. Every other step is safe. */
  predicate Safe(s: Sys, a: Action) {
    match a
    case Seal(_, _, fault) => fault == Lost(false) || !s.carried || Quiet(s)
    case Rebase(_, id, _, fault) => fault == Lost(false) || Quiet(s) || id == s.disk.parent
    case SetPolicy(_, h) => Quiet(s) || h == s.disk
    case _ => true
  }

  lemma PrepareInv(s: Sys, h: ActiveHeader, carries: bool, fault: Fault)
    requires Inv(s) && s.stage == Idle && s.lock.Some? && h.parent in s.live && (Quiet(s) || h == s.disk || fault == Lost(false))
    ensures Inv(PrepareSeal(s, h, carries, fault))
  {
  }

  lemma ReloadInv(s: Sys, i: nat, fault: Fault)
    requires Inv(s) && s.stage == Idle
    ensures Inv(Reload(s, i, fault)) && (Reloads(s, fault) ==> Quiet(Reload(s, i, fault)))
    ensures var t := Reload(s, i, fault); t.lock == s.lock && t.stage == Idle && t.disk == s.disk && t.inode == s.inode
  {
  }

  /** A successful recovery or finish puts the sealed head in force. */
  lemma RecoverySettles(s: Sys)
    requires Inv(s)
    ensures Quiet(RecoverSeal(s, Clean)) && Quiet(FinishSeal(s, Clean))
  {
  }

  lemma NextInv(s: Sys, a: Action)
    requires Inv(s) && Safe(s, a)
    ensures Inv(Next(s, a))
  {
    hide Reload, PrepareSeal;
    if Enabled(s, a) {
      match a {
        case Open(i, fault) => ReloadInv(s, i, fault);
        case BeginWrite(i, fault) => ReloadInv(s, i, fault);
        case Maintain(i, _, fault) => ReloadInv(s, i, fault);
        case Seal(_, h, fault) => PrepareInv(s, h, false, fault);
        case Rebase(_, id, history, fault) => PrepareInv(s, Rebased(s, id, history), false, fault);
        case Attach(_, h, fault) => PrepareInv(s, h, true, fault);
        case Rename(i, adopted) => RenameInv(s, i, adopted);
        case Finish(i, fault) => FinishInv(s, i, fault);
        case SetPolicy(i, h) => PolicyInv(s, i, h);
        case Crash(i) => CrashInv(s, i);
        case Collect(keep) => CollectInv(s, keep);
        case _ => PlainInv(s, a);
      }
    }
  }

  lemma RenameInv(s: Sys, i: nat, adopted: bool)
    requires Inv(s) && Enabled(s, Rename(i, adopted))
    ensures Inv(Next(s, Rename(i, adopted)))
  {
  }

  lemma FinishInv(s: Sys, i: nat, fault: Fault)
    requires Inv(s) && Enabled(s, Finish(i, fault))
    ensures Inv(Next(s, Finish(i, fault)))
  {
  }

  lemma PolicyInv(s: Sys, i: nat, h: ActiveHeader)
    requires Inv(s) && Enabled(s, SetPolicy(i, h)) && Safe(s, SetPolicy(i, h))
    ensures Inv(Next(s, SetPolicy(i, h)))
  {
  }

  lemma CrashInv(s: Sys, i: nat)
    requires Inv(s)
    ensures Inv(Next(s, Crash(i)))
  {
    hide Reload, PrepareSeal, FinishSeal;
    var t := Next(s, Crash(i));
    assert Quiet(t) == Quiet(s);
  }

  lemma CollectInv(s: Sys, keep: set<Digest>)
    requires Inv(s) && Enabled(s, Collect(keep))
    ensures Inv(Next(s, Collect(keep)))
  {
  }

  lemma PlainInv(s: Sys, a: Action)
    requires Inv(s) && Enabled(s, a)
    requires a.Install? || a.Commit? || a.Unlock?
    ensures Inv(Next(s, a))
  {
    hide Reload, PrepareSeal, FinishSeal;
  }

  /** A step keeps the invariant if and only if it is safe. */
  lemma InvIffSafe(s: Sys, a: Action)
    requires Inv(s) && Enabled(s, a)
    ensures Inv(Next(s, a)) <==> Safe(s, a)
  {
    if Safe(s, a) {
      NextInv(s, a);
    }
  }

  /** An unsafe seal, compaction, repack or dictionary update strands the manifest on disk at once. */
  lemma ProtectedIffSafe(s: Sys, a: Action)
    requires Inv(s) && Enabled(s, a) && !a.SetPolicy?
    ensures Protected(Next(s, a)) <==> Safe(s, a)
  {
    if Safe(s, a) {
      NextInv(s, a);
    }
  }

  /** An unsafe policy change leaves it to the next writer: with no sealed head the writer's recovery drops the
      pending one, and otherwise the next seal overwrites it. */
  lemma UnsafePolicyStrands(s: Sys, i: nat, h: ActiveHeader, j: nat, h2: ActiveHeader)
    requires Inv(s) && Enabled(s, SetPolicy(i, h)) && !Safe(s, SetPolicy(i, h))
    requires h2.parent in s.live && h2.parent != ZeroDigest() && h2.parent != s.disk.parent
    ensures var t := Next(Next(s, SetPolicy(i, h)), Unlock(i));
      var u := Next(t, BeginWrite(j, Clean));
      && Protected(t)
      && (s.sealed.None? ==> !Protected(u))
      && (s.sealed.Some? ==> !Protected(Run(u, [Commit(j), Seal(j, h2, Clean)])))
  {
    var t := Next(Next(s, SetPolicy(i, h)), Unlock(i));
    var u := Next(t, BeginWrite(j, Clean));
    Two(u, Commit(j), Seal(j, h2, Clean));
  }

  /** Seals of commits made after a reload, policy changes by a handle that reloaded or did not itself leave the file
      unfinished, and attachments are always safe: the reload has put the sealed head in force. */
  lemma ReloadMakesSafe(s: Sys, a: Action)
    requires Inv(s) && Enabled(s, a)
    requires (a.Seal? && !s.carried) || ((a.SetPolicy? || a.Commit?) && Reloaded(s, a.i)) || a.Attach?
    ensures Quiet(s)
  {
  }

  /** The handle holds the lock as a writer, or did not put the current file in place unfinished. */
  predicate Reloaded(s: Sys, i: nat) {
    (s.lock.Some? && s.lock.value.writer) || s.renamer != Some(i)
  }

  /** Another handle's unfinished file is no danger to compaction either. */
  lemma OthersAreSafe(s: Sys, i: nat)
    requires Inv(s) && Loaded(s, i) && s.renamer != Some(i)
    ensures Quiet(s)
  {
  }

  // What each step does

  /** The steps that belong to the owner of the lock. */
  predicate ForOwner(a: Action) {
    a.Commit? || a.SetPolicy? || a.Seal? || a.Rebase? || a.Attach? || a.Rename? || a.Finish? || a.Unlock?
  }

  /** The lock excludes: a step that needs it does nothing for anybody else, and while it is held nobody gets it. */
  lemma LockExcludes(s: Sys, a: Action)
    ensures ForOwner(a) && !Owns(s, a.i) ==> Next(s, a) == s
    ensures (a.BeginWrite? || a.Maintain?) && s.lock.Some? ==> Next(s, a) == s
    ensures a.Open? && a.i in s.seen ==> Next(s, a) == s
  {
  }

  /** What a reload leaves, whoever asks for it: the file loaded, its sealed head in force, and nothing known of an
      unfinished one. */
  predicate JustLoaded(s: Sys, t: Sys, i: nat) {
    Loaded(t, i) && Quiet(t) && t.renamer.None? && !t.carried && t.disk == s.disk && t.dirty == s.dirty && t.live == s.live
  }

  /** Who gets the free lock: a writer if and only if its reload works, maintenance also without one if it has the file
      loaded already; whoever does not get it leaves it free and has loaded nothing. */
  lemma TakesLock(s: Sys, i: nat, stale: bool, fault: Fault)
    requires Inv(s) && s.stage == Idle && s.lock.None?
    ensures var t := Next(s, BeginWrite(i, fault));
      if fault == Clean || !Recovers(s) then t.lock == Some(Lock(i, true)) && JustLoaded(s, t, i)
      else t.lock.None? && t.seen == s.seen && t.disk == s.disk
    ensures var t := Next(s, Maintain(i, stale, fault));
      if Loaded(s, i) && !stale then t == s.(lock := Some(Lock(i, false)))
      else if fault == Clean || !Recovers(s) then t.lock == Some(Lock(i, false)) && JustLoaded(s, t, i)
      else t.lock.None? && t.seen == s.seen && t.disk == s.disk
    ensures i !in s.seen ==>
      var t := Next(s, Open(i, fault));
      && t.lock.None?
      && if fault == Clean || !Recovers(s) then JustLoaded(s, t, i) else t.seen == s.seen && t.disk == s.disk
  {
    hide Reload;
    ReloadInv(s, i, fault);
    ReloadLoads(s, i, fault);
  }

  lemma ReloadLoads(s: Sys, i: nat, fault: Fault)
    ensures var t := Reload(s, i, fault);
      && t.lock == s.lock && t.disk == s.disk && t.dirty == s.dirty && t.live == s.live
      && (if Reloads(s, fault) then Loaded(t, i) && t.renamer.None? && !t.carried else t.seen == s.seen)
  {
  }

  /** The header a step wants to put in force. */
  predicate Proposes(s: Sys, a: Action, h: ActiveHeader)
    requires a.Seal? || a.Rebase? || a.Attach?
  {
    if a.Rebase? then
      && h.parent == a.id && h.baseHistory == a.history && h.database == s.disk.database && h.attachment == s.disk.attachment
      && h.startTxid == s.disk.startTxid && h.baseSize == s.disk.baseSize && h.policy == s.disk.policy && h.layout == s.disk.layout
    else h == a.header
  }

  /** Preparing writes the proposed header down as pending; if that is not confirmed the lock is let go and the file stays
      as it is. */
  lemma PrepareOutcome(s: Sys, a: Action)
    requires (a.Seal? || a.Rebase? || a.Attach?) && Enabled(s, a)
    ensures exists h ::
      && Proposes(s, a, h)
      && var t := Next(s, a);
      && t.disk == s.disk && t.sealed == s.sealed && t.dirty == s.dirty && t.seen == s.seen
      && t.pending == (if a.fault == Lost(false) then s.pending else Some(h))
      && if a.fault == Clean then t.stage == Prepared(h, a.Attach?) && t.lock == s.lock else t.stage == Idle && t.lock.None?
  {
    var h := if a.Rebase? then Rebased(s, a.id, a.history) else a.header;
    assert Proposes(s, a, h);
  }

  /** The rename puts the prepared header on disk; whoever does not get to adopt it lets the lock go without it. */
  lemma RenameOutcome(s: Sys, i: nat, adopted: bool)
    requires Inv(s) && Enabled(s, Rename(i, adopted))
    ensures var t := Next(s, Rename(i, adopted));
      && t.disk == s.stage.header && t.sealed == s.sealed && t.pending == Some(t.disk)
      && t.dirty == t.carried == (s.stage.carries && s.dirty)
      && (forall j | j != i :: !Loaded(t, j))
      && if adopted then t.stage == Renamed && t.lock == s.lock && Loaded(t, i) && t.renamer == Some(i)
         else t.stage == Idle && t.lock.None? && !Loaded(t, i) && t.renamer.None?
  {
  }

  /** A policy change puts its header on disk at once; only its own handle has seen it, and the catalog knows nothing. */
  lemma PolicyOutcome(s: Sys, i: nat, h: ActiveHeader)
    requires Inv(s) && Enabled(s, SetPolicy(i, h))
    ensures var t := Next(s, SetPolicy(i, h));
      && t.disk == h && t.(disk := s.disk, inode := s.inode, seen := s.seen) == s
      && Loaded(t, i) && forall j | j != i :: !Loaded(t, j)
  {
  }

  /** A finish that is not confirmed lets the lock go and remembers who left the file unfinished. */
  lemma FinishFails(s: Sys, i: nat, applied: bool)
    requires Inv(s) && Enabled(s, Finish(i, Lost(applied)))
    ensures var t := Next(s, Finish(i, Lost(applied)));
      && t.disk == s.disk && t.stage == Idle && t.lock.None? && t.renamer == s.renamer && t.carried == s.carried
      && (if applied then t.sealed == Some(s.disk) && t.pending.None? else t.sealed == s.sealed && t.pending == s.pending)
  {
  }

  /** A clean finish puts the head of the file on disk in force, leaves nothing pending, and keeps the lock. */
  lemma FinishSettles(s: Sys, i: nat)
    requires Inv(s) && Enabled(s, Finish(i, Clean))
    ensures var t := Next(s, Finish(i, Clean));
      && t.disk == s.disk && t.sealed == Some(s.disk) && t.pending.None? && Quiet(t)
      && t.stage == Idle && t.lock == s.lock && t.renamer.None? && !t.carried && t.dirty == s.dirty && t.seen == s.seen
  {
  }

  // Runs

  predicate SafeRun(s: Sys, actions: seq<Action>)
    decreases |actions|
  {
    actions == [] || ((Enabled(s, actions[0]) ==> Safe(s, actions[0])) && SafeRun(Next(s, actions[0]), actions[1..]))
  }

  /** At every step, fault and crash point of any number of handles the manifest named by the active header is the
      sealed or the pending head, and no collection that keeps those two removes it. */
  lemma {:induction false} NeverStranded(s: Sys, actions: seq<Action>)
    requires Inv(s) && SafeRun(s, actions)
    ensures var t := Run(s, actions);
      Inv(t) && Protected(t) && (t.disk.parent == ZeroDigest() || t.disk.parent in t.live)
    decreases |actions|
  {
    hide Next, Safe, Enabled;
    if actions != [] {
      if Enabled(s, actions[0]) {
        NextInv(s, actions[0]);
      } else {
        Refused(s, actions[0]);
      }
      NeverStranded(Next(s, actions[0]), actions[1..]);
    }
  }

  lemma Refused(s: Sys, a: Action)
    requires !Enabled(s, a)
    ensures Next(s, a) == s
  {
  }

  /** Commits and policy changes that come through a reload, and no compaction, repacking, dictionary update or
      attachment. */
  predicate Unconditional(s: Sys, a: Action) {
    !a.Rebase? && !a.Attach? && (a.Commit? || a.SetPolicy? ==> Reloaded(s, a.i))
  }

  predicate UnconditionalRun(s: Sys, actions: seq<Action>)
    decreases |actions|
  {
    actions == [] || (Unconditional(s, actions[0]) && UnconditionalRun(Next(s, actions[0]), actions[1..]))
  }

  lemma {:induction false} NotCarried(s: Sys, actions: seq<Action>)
    requires Inv(s) && !s.carried && !(s.stage.Prepared? && s.stage.carries)
    requires UnconditionalRun(s, actions)
    ensures SafeRun(s, actions)
    decreases |actions|
  {
    hide Inv, Next, Safe, Enabled, Unconditional;
    if actions != [] {
      StaysUncarried(s, actions[0]);
      if Enabled(s, actions[0]) {
        NextInv(s, actions[0]);
      } else {
        Refused(s, actions[0]);
      }
      NotCarried(Next(s, actions[0]), actions[1..]);
    }
  }

  lemma StaysUncarried(s: Sys, a: Action)
    requires Inv(s) && !s.carried && !(s.stage.Prepared? && s.stage.carries) && Unconditional(s, a)
    ensures var t := Next(s, a); !t.carried && !(t.stage.Prepared? && t.stage.carries)
    ensures Enabled(s, a) ==> Safe(s, a)
  {
  }

  /** Seals, commits and policy changes after a reload, reloads, faults and crashes in any order never strand the
      database. */
  lemma SealsNeverStrand(s: Sys, actions: seq<Action>)
    requires Inv(s) && !s.carried && !(s.stage.Prepared? && s.stage.carries)
    requires UnconditionalRun(s, actions)
    ensures Protected(Run(s, actions))
  {
    hide Run, SafeRun;
    NotCarried(s, actions);
    NeverStranded(s, actions);
  }

  /** A database whose sealed head is the base of the file on disk. */
  function Installed(h: ActiveHeader): Sys {
    Sys(h, 0, false, false, Some(h), None, {h.parent}, Idle, None, map[], None)
  }

  lemma InstalledInv(h: ActiveHeader)
    ensures Inv(Installed(h))
  {
  }

  // The unsafe steps occur

  /** A file with a sealed head in force and commits of its own, loaded by handle 0 and locked by nobody. */
  predicate Settled(s: Sys) {
    && Inv(s) && s.stage == Idle && s.lock.None? && s.pending.None? && s.dirty && Loaded(s, 0)
  }

  /** A seal whose last catalog write failed, then a compaction by the same handle: it refreshes, sees its own file
      and overwrites the pending head that protects it. */
  lemma UnprotectedAfterCompaction(s: Sys, h: ActiveHeader, id: Digest, history: Digest)
    requires Settled(s) && !s.carried && s.disk.parent != ZeroDigest()
    requires h.parent in s.live && id in s.live && h.parent != ZeroDigest() && id != ZeroDigest()
    requires h.parent != s.disk.parent && id != h.parent
    ensures var failed := [Maintain(0, false, Clean), Seal(0, h, Clean), Rename(0, true), Finish(0, Lost(false))];
      var t := Run(Run(s, failed), [Maintain(0, false, Clean), Rebase(0, id, history, Clean)]);
      t.disk == h && !Protected(t)
  {
    hide Run, Reload;
    SealFails(s, h);
    var s4 := FailedSeal(s, h);
    var s5 := Next(s4, Maintain(0, false, Clean));
    Two(s4, Maintain(0, false, Clean), Rebase(0, id, history, Clean));
  }

  function FailedSeal(s: Sys, h: ActiveHeader): Sys {
    s.(disk := h, inode := s.inode + 1, dirty := false, carried := false, pending := Some(h), lock := None,
       seen := s.seen[0 := s.inode + 1], renamer := Some(0))
  }

  lemma SealFails(s: Sys, h: ActiveHeader)
    requires Settled(s) && h.parent in s.live && h.parent != ZeroDigest() && h.parent != s.disk.parent
    ensures Run(s, [Maintain(0, false, Clean), Seal(0, h, Clean), Rename(0, true), Finish(0, Lost(false))]) == FailedSeal(s, h)
  {
    hide Inv, Run, Reload;
    var s1 := Next(s, Maintain(0, false, Clean));
    var s2 := Next(s1, Seal(0, h, Clean));
    assert s2 == s.(lock := Some(Lock(0, false)), pending := Some(h), stage := Prepared(h, false));
    var s3 := Next(s2, Rename(0, true));
    Four(s, Maintain(0, false, Clean), Seal(0, h, Clean), Rename(0, true), Finish(0, Lost(false)));
  }

  /** Without a fault the same steps put the sealed head in force, with nothing left to seal. */
  lemma SealSucceeds(s: Sys, i: nat, h: ActiveHeader)
    requires Inv(s) && s.stage == Idle && s.lock.None? && s.dirty && Loaded(s, i)
    requires h.parent in s.live && h.parent != ZeroDigest() && h.parent != s.disk.parent
    ensures var t := Run(Run(s, [Maintain(i, false, Clean), Seal(i, h, Clean), Rename(i, true), Finish(i, Clean)]), [Unlock(i)]);
      && t.disk == h && t.sealed == Some(h) && t.pending.None? && !t.dirty && Quiet(t)
      && t.stage == Idle && t.lock.None? && t.renamer.None? && Loaded(t, i) && t.live == s.live
  {
    hide Inv, Run, Next, Enabled;
    Four(s, Maintain(i, false, Clean), Seal(i, h, Clean), Rename(i, true), Finish(i, Clean));
    var s2 := Next(Next(s, Maintain(i, false, Clean)), Seal(i, h, Clean));
    SealPrepares(s, i, h);
    SealFinishes(s, i, h);
    One(Next(Next(s2, Rename(i, true)), Finish(i, Clean)), Unlock(i));
  }

  lemma SealPrepares(s: Sys, i: nat, h: ActiveHeader)
    requires s.stage == Idle && s.lock.None? && s.dirty && Loaded(s, i)
    requires h.parent in s.live && h.parent != ZeroDigest() && h.parent != s.disk.parent
    ensures Next(Next(s, Maintain(i, false, Clean)), Seal(i, h, Clean))
      == s.(lock := Some(Lock(i, false)), pending := Some(h), stage := Prepared(h, false))
  {
    hide Reload;
  }

  lemma SealFinishes(s: Sys, i: nat, h: ActiveHeader)
    ensures var s2 := s.(lock := Some(Lock(i, false)), pending := Some(h), stage := Prepared(h, false));
      Next(Next(Next(s2, Rename(i, true)), Finish(i, Clean)), Unlock(i))
      == s.(disk := h, inode := s.inode + 1, dirty := false, carried := false, sealed := Some(h), pending := None,
            stage := Idle, lock := None, seen := s.seen[i := s.inode + 1], renamer := None)
  {
    hide Reload, PrepareSeal;
    var s2 := s.(lock := Some(Lock(i, false)), pending := Some(h), stage := Prepared(h, false));
    var s3 := Next(s2, Rename(i, true));
    assert s3 == s.(disk := h, inode := s.inode + 1, dirty := false, carried := false, pending := Some(h), stage := Renamed,
                    lock := Some(Lock(i, false)), seen := s.seen[i := s.inode + 1], renamer := Some(i));
  }

  /** It is reached from the start: a manifest is installed, and a handle opens, commits and lets the lock go. */
  lemma FirstSeal(h0: ActiveHeader, i: nat, h: ActiveHeader)
    requires h.parent != ZeroDigest() && h.parent != h0.parent
    ensures var s := Run(Run(Installed(h0), [Install(h.parent), Open(i, Clean), BeginWrite(i, Clean), Commit(i)]), [Unlock(i)]);
      var t := Run(Run(s, [Maintain(i, false, Clean), Seal(i, h, Clean), Rename(i, true), Finish(i, Clean)]), [Unlock(i)]);
      && s.disk == h0 && s.dirty && s.live == {h0.parent, h.parent}
      && t.disk == h && t.sealed == Some(h) && t.pending.None? && !t.dirty && t.lock.None?
  {
    hide Run, RecoverSeal;
    var s0 := Installed(h0);
    InstalledInv(h0);
    Four(s0, Install(h.parent), Open(i, Clean), BeginWrite(i, Clean), Commit(i));
    var s1 := Next(s0, Install(h.parent));
    assert s1 == s0.(live := {h0.parent, h.parent});
    NothingToRecover(s1);
    var s2 := Next(s1, Open(i, Clean));
    assert s2 == s1.(seen := map[i := 0]);
    NothingToRecover(s2);
    var s3 := Next(s2, BeginWrite(i, Clean));
    assert s3 == s2.(lock := Some(Lock(i, true)));
    var s4 := Next(s3, Commit(i));
    One(s4, Unlock(i));
    SealSucceeds(Next(s4, Unlock(i)), i, h);
  }

  lemma NothingToRecover(s: Sys)
    requires s.pending.None?
    ensures RecoverSeal(s, Clean) == s && Reloads(s, Clean)
  {
  }

  /** A handle that crashes has loaded nothing and owns nothing; the file and the catalog are as it left them. */
  lemma CrashReleases(s: Sys, i: nat)
    ensures var t := Next(s, Crash(i));
      && !Owns(t, i) && i !in t.seen && (Owns(s, i) ==> t.lock.None? && t.stage == Idle)
      && (!Owns(s, i) ==> t.lock == s.lock && t.stage == s.stage)
      && t.(lock := s.lock, stage := s.stage, seen := s.seen) == s
      && forall j | j != i :: j in t.seen <==> j in s.seen
  {
  }

  /** A collection removes every manifest that is neither kept nor one of the two heads. */
  lemma CollectRemoves(s: Sys, keep: set<Digest>, id: Digest)
    requires s.stage == Idle && id !in keep && !Names(s.sealed, id) && !Names(s.pending, id)
    ensures id !in Next(s, Collect(keep)).live
  {
  }

  /** The same with a commit under a maintenance lock, which does not reload, and a seal of it. */
  lemma UnprotectedAfterMaintenanceCommit(s: Sys, h: ActiveHeader, h2: ActiveHeader)
    requires Settled(s) && !s.carried
    requires h.parent in s.live && h2.parent in s.live && h.parent != ZeroDigest() && h2.parent != ZeroDigest()
    requires h.parent != s.disk.parent && h2.parent != h.parent && !Names(s.sealed, h.parent)
    ensures var failed := [Maintain(0, false, Clean), Seal(0, h, Clean), Rename(0, true), Finish(0, Lost(false))];
      var t := Run(Run(Run(s, failed), [Maintain(0, false, Clean), Commit(0)]), [Seal(0, h2, Clean)]);
      t.disk == h && !Protected(t)
  {
    hide Run, Reload;
    SealFails(s, h);
    var s4 := FailedSeal(s, h);
    Two(s4, Maintain(0, false, Clean), Commit(0));
    var s6 := Next(Next(s4, Maintain(0, false, Clean)), Commit(0));
    One(s6, Seal(0, h2, Clean));
  }

  lemma One(s: Sys, a: Action)
    ensures Run(s, [a]) == Next(s, a)
  {
    hide Next;
    assert [a][1..] == [];
  }

  /** The same with the copy of a native file: the attachment's last catalog write failed, the file carried
      newer commits, and the next seal by the same handle overwrites the pending head. */
  lemma UnprotectedAfterAttachment(s: Sys, h1: ActiveHeader, h2: ActiveHeader)
    requires Settled(s) && s.disk.parent == ZeroDigest() && s.sealed.None?
    requires h1.parent in s.live && h2.parent in s.live && h1.parent != ZeroDigest() && h2.parent != ZeroDigest()
    requires h2.parent != h1.parent
    ensures var failed := [Maintain(0, false, Clean), Attach(0, h1, Clean), Rename(0, true), Finish(0, Lost(false))];
      var t := Run(Run(s, failed), [Maintain(0, false, Clean), Seal(0, h2, Clean)]);
      t.disk == h1 && !Protected(t)
  {
    hide Inv, Run, Reload;
    var s1 := Next(s, Maintain(0, false, Clean));
    var s2 := Next(s1, Attach(0, h1, Clean));
    assert s2 == s.(lock := Some(Lock(0, false)), pending := Some(h1), stage := Prepared(h1, true));
    var s3 := Next(s2, Rename(0, true));
    var s4 := Next(s3, Finish(0, Lost(false)));
    Four(s, Maintain(0, false, Clean), Attach(0, h1, Clean), Rename(0, true), Finish(0, Lost(false)));
    Two(s4, Maintain(0, false, Clean), Seal(0, h2, Clean));
  }

  lemma Two(s: Sys, a: Action, b: Action)
    ensures Run(s, [a, b]) == Next(Next(s, a), b)
  {
    hide Next;
    assert [a, b][1..] == [b] && [b][1..] == [];
    assert Run(Next(s, a), [b]) == Run(Next(Next(s, a), b), []);
  }

  lemma Four(s: Sys, a: Action, b: Action, c: Action, d: Action)
    ensures Run(s, [a, b, c, d]) == Next(Next(Next(Next(s, a), b), c), d)
  {
    hide Next;
    var s1 := Next(s, a);
    var s2 := Next(s1, b);
    assert [a, b, c, d][1..] == [b, c, d] && [b, c, d][1..] == [c, d];
    assert Run(s1, [b, c, d]) == Run(s2, [c, d]);
    Two(s2, c, d);
  }
}
