/** Many handles on one pagefile: the publication lock, its phases, and seals that race with commits
    (src/store.rs, `PublicationOwner`, `begin_write`, `refresh`, `publish_inner`, `prepare_active_work`,
    `finish_work`). Locks are mutual exclusion, and renaming a new file into place is one step. */
module Handles {
  import opened Bytes
  import opened Format
  import opened E = Engine

  datatype Phase = Unlocked | Transaction | Checkpoint | Maintenance

  /** One inode: the header it was created with and its newest published state. */
  datatype Pagefile = Pagefile(header: ActiveHeader, head: HeadState, sequence: nat, image: Bytes)

  /** The inode the path names; inodes still open are never reused. */
  datatype Disk = Disk(inode: nat, file: Pagefile, next: nat)

  /** A private snapshot taken for sealing, and the phase to come back to. */
  datatype Captured = Captured(header: ActiveHeader, head: HeadState, image: Bytes, restore: Phase)

  /** What a handle last loaded, the bytes of its open transaction, and its unfinished seal. */
  datatype Handle = Handle(phase: Phase, inode: nat, view: Pagefile, pending: Option<Bytes>, work: Option<Captured>)

  /** A publication: the image it was built on and the image it made visible. */
  datatype Commit = Commit(basis: Bytes, image: Bytes)

  datatype Sys = Sys(disk: Disk, handles: seq<Handle>, origin: Pagefile, log: seq<Commit>)

  datatype InstallFault = Clean | NotVisible | VisibleButFailed

  datatype Action =
    | BeginWrite(loads: bool)
    | Write(image: Bytes, loads: bool)
    | Publish(durable: bool, retain: bool, now: u64, loads: bool)
    | Discard
    | BeginCheckpoint(loads: bool)
    | FinishCheckpoint
    | AcquireMaintenance(tail: bool, loads: bool)
    | ReleaseMaintenance
    | Refresh(tail: bool)
    | PrepareSeal(tail: bool, loads: bool)
    | FinishSeal(id: Digest, history: Digest, fault: InstallFault, tail: bool, loads: bool)
    | Close

  datatype Step = Step(sys: Sys, ok: bool)

  // Handles

  predicate Locked(h: Handle) {
    h.phase != Unlocked
  }

  predicate OtherLocked(s: Sys, i: nat) {
    exists j :: 0 <= j < |s.handles| && j != i && Locked(s.handles[j])
  }

  function Put(s: Sys, i: nat, h: Handle): Sys
    requires i < |s.handles|
  {
    s.(handles := s.handles[i := h])
  }

  /** `reload`: everything is read again from the file the path names. */
  function Load(h: Handle, d: Disk): Handle {
    h.(inode := d.inode, view := d.file, pending := None)
  }

  /** `release_publication` lets go of ordinary transactions only. */
  function Released(h: Handle): Handle {
    if h.phase == Transaction then h.(phase := Unlocked) else h
  }

  /** `release_maintenance`. */
  function Dismissed(h: Handle): Handle {
    Released(if h.phase == Maintenance then h.(phase := Transaction) else h)
  }

  /** `refresh`: reload when the state sector advanced, the path names another file, or the file has a tail. */
  function Refreshed(h: Handle, d: Disk, tail: bool): Handle {
    if h.pending.Some? then h
    else if h.inode != d.inode || d.file.sequence > h.view.sequence || tail then Load(h, d)
    else h
  }

  // Calls

  function Begin(s: Sys, i: nat, loads: bool): Step
    requires i < |s.handles|
  {
    var h := s.handles[i];
    if Locked(h) then Step(s, true)
    else if OtherLocked(s, i) || !loads then Step(s, false)
    else Step(Put(s, i, Load(h, s.disk).(phase := Transaction)), true)
  }

  function Acquire(s: Sys, i: nat, tail: bool, loads: bool): Step
    requires i < |s.handles|
  {
    var h := s.handles[i];
    if h.phase == Maintenance then Step(s, true)
    else if h.phase == Checkpoint then Step(s, false)
    else if !Locked(h) && OtherLocked(s, i) then Step(s, false)
    else if !loads then Step(s, false)
    else Step(Put(s, i, Refreshed(h, s.disk, tail).(phase := Maintenance)), true)
  }

  function Advanced(f: Pagefile, image: Bytes, now: u64): Pagefile
    requires f.head.txid + 1 < U64_LIMIT
  {
    var first := if f.head.oldest == 0 then now else f.head.oldest;
    Pagefile(f.header, f.head.(txid := f.head.txid + 1, logicalSize := |image|, oldest := first, last := now), f.sequence + 1, image)
  }

  /** The state sector is written to the file the handle has open, and counts if it is not older. */
  function WriteState(d: Disk, inode: nat, f: Pagefile): Disk {
    if d.inode == inode && f.sequence >= d.file.sequence then d.(file := f) else d
  }

  function PublishInner(s: Sys, i: nat, durable: bool, retain: bool, now: u64, loads: bool): Step
    requires i < |s.handles|
  {
    var h := s.handles[i];
    if h.pending.None? then
      var b := if durable then Begin(s, i, loads) else Step(s, true);
      if !b.ok then b
      else if retain then b
      else Step(Put(b.sys, i, Released(b.sys.handles[i])), true)
    else if h.view.head.txid + 1 >= U64_LIMIT then Step(s, false)
    else
      var f := Advanced(h.view, h.pending.value, now);
      var h' := h.(view := f, pending := None);
      var h'' := if retain && Locked(h') then h'.(phase := Checkpoint) else if retain then h' else Released(h');
      Step(Sys(WriteState(s.disk, h.inode, f), s.handles[i := h''], s.origin, s.log + [Commit(h.view.image, f.image)]), true)
  }

  /** The file a seal puts in place: the captured image as its base, no records, the same transaction. */
  function SealedFile(c: Captured, id: Digest, history: Digest): Pagefile
    requires c.head.txid + 1 < U64_LIMIT && c.head.logicalSize < U64_LIMIT
  {
    Pagefile(c.header.(startTxid := c.head.txid + 1, parent := id, baseHistory := history, baseSize := c.head.logicalSize),
             c.head.(history := history, commitOffset := 0, commitEnd := 0, oldest := 0, last := 0), 1, c.image)
  }

  function Prepare(s: Sys, i: nat, tail: bool, loads: bool): Step
    requires i < |s.handles|
  {
    var h := s.handles[i];
    if h.view.head.txid < h.view.header.startTxid then Step(s, true)
    else
      var a := Acquire(s, i, tail, loads);
      if !a.ok then a
      else
        var g := a.sys.handles[i];
        Step(Put(a.sys, i, g.(phase := Unlocked, work := Some(Captured(g.view.header, g.view.head, g.view.image, h.phase)))), true)
  }

  function Install(s: Sys, i: nat, c: Captured, id: Digest, history: Digest): Sys
    requires i < |s.handles| && c.head.txid + 1 < U64_LIMIT && c.head.logicalSize < U64_LIMIT
  {
    var d := Disk(s.disk.next, SealedFile(c, id, history), s.disk.next + 1);
    s.(disk := d, handles := s.handles[i := Load(s.handles[i], d).(work := None)])
  }

  function Dropped(s: Sys, i: nat): Sys
    requires i < |s.handles|
  {
    Put(s, i, s.handles[i].(work := None))
  }

  /** `finish_work` uses the work up, and installs nothing unless header and head are still the captured ones. */
  function Finish(s: Sys, i: nat, id: Digest, history: Digest, fault: InstallFault, tail: bool, loads: bool): Step
    requires i < |s.handles|
  {
    var h := s.handles[i];
    if h.work.None? || h.pending.Some? then Step(Dropped(s, i), false)
    else
      var c := h.work.value;
      var a := Acquire(s, i, tail, loads);
      if !a.ok then Step(Dropped(s, i), false)
      else
        var g := a.sys.handles[i];
        if g.view.header != c.header || g.view.head != c.head || fault == NotVisible
           || c.head.txid + 1 >= U64_LIMIT || c.head.logicalSize >= U64_LIMIT then
          Step(Put(a.sys, i, Dismissed(g).(work := None)), false)
        else
          var t := Install(a.sys, i, c, id, history);
          if fault == Clean && c.restore != Unlocked then Step(Put(t, i, t.handles[i].(phase := c.restore)), true)
          else Step(Put(t, i, Dismissed(t.handles[i])), fault == Clean)
  }

  function Call(s: Sys, i: nat, a: Action): Step
    requires i < |s.handles|
  {
    var h := s.handles[i];
    match a
    case BeginWrite(loads) => Begin(s, i, loads)
    case Write(image, loads) =>
      var b := Begin(s, i, loads);
      if b.ok then Step(Put(b.sys, i, b.sys.handles[i].(pending := Some(image))), true) else b
    case Publish(durable, retain, now, loads) => PublishInner(s, i, durable, retain, now, loads)
    case Discard =>
      var g := h.(pending := None, phase := if h.phase == Checkpoint then Transaction else h.phase);
      Step(Put(s, i, Released(g)), true)
    case BeginCheckpoint(loads) =>
      if h.phase == Checkpoint then Step(s, true)
      else if Locked(h) || h.pending.Some? then Step(s, false)
      else
        var b := Begin(s, i, loads);
        if b.ok then Step(Put(b.sys, i, b.sys.handles[i].(phase := Checkpoint)), true) else b
    case FinishCheckpoint => Step(Put(s, i, Released(if h.phase == Checkpoint then h.(phase := Transaction) else h)), true)
    case AcquireMaintenance(tail, loads) => Acquire(s, i, tail, loads)
    case ReleaseMaintenance => Step(Put(s, i, Dismissed(h)), true)
    case Refresh(tail) => Step(Put(s, i, Refreshed(h, s.disk, tail)), true)
    case PrepareSeal(tail, loads) => Prepare(s, i, tail, loads)
    case FinishSeal(id, history, fault, tail, loads) => Finish(s, i, id, history, fault, tail, loads)
    case Close => Step(Put(s, i, h.(pending := None, phase := Unlocked)), true)
  }

  // The invariant

  ghost predicate Fresh(h: Handle, d: Disk) {
    h.inode == d.inode && h.view == d.file
  }

  /** A handle that has fallen behind can tell. */
  ghost predicate Behind(h: Handle, d: Disk) {
    && h.inode < d.next
    && (h.inode == d.inode ==> h.view.sequence <= d.file.sequence)
    && (h.inode == d.inode && h.view.sequence == d.file.sequence ==> h.view == d.file)
  }

  /** A snapshot of the current transaction is a snapshot of the current image. */
  ghost predicate Snapshot(c: Captured, d: Disk) {
    c.head.txid <= d.file.head.txid && (c.head.txid == d.file.head.txid ==> c.image == d.file.image)
  }

  ghost predicate HandleOk(h: Handle, d: Disk) {
    && Behind(h, d)
    && (Locked(h) ==> Fresh(h, d))
    && (h.pending.Some? ==> Locked(h))
    && (h.work.Some? ==> Snapshot(h.work.value, d))
  }

  /** At most one handle owns publication. */
  ghost predicate Exclusive(hs: seq<Handle>) {
    forall i, j | 0 <= i < |hs| && 0 <= j < |hs| && Locked(hs[i]) && Locked(hs[j]) :: i == j
  }

  /** What the file holds once the first k publications are in. */
  function ImageAfter(origin: Bytes, log: seq<Commit>, k: nat): Bytes
    requires k <= |log|
  {
    if k == 0 then origin else log[k - 1].image
  }

  /** Every publication was built on the one before it, and the last one is what the file holds. */
  ghost predicate Linear(f: Pagefile, origin: Pagefile, log: seq<Commit>) {
    && (forall k | 0 <= k < |log| :: log[k].basis == ImageAfter(origin.image, log, k))
    && f.image == ImageAfter(origin.image, log, |log|)
    && f.head.txid == origin.head.txid + |log|
  }

  ghost predicate Inv(s: Sys) {
    && s.disk.inode < s.disk.next
    && Exclusive(s.handles) && Linear(s.disk.file, s.origin, s.log)
    && forall i | 0 <= i < |s.handles| :: HandleOk(s.handles[i], s.disk)
  }

  /** Which calls keep a pending transaction under its lock: ending a checkpoint outside maintenance, ending
      maintenance outside a checkpoint, and capturing a snapshot all let the lock go. */
  predicate KeepsLock(s: Sys, i: nat, a: Action)
    requires i < |s.handles|
  {
    var h := s.handles[i];
    match a
    case FinishCheckpoint => h.pending.None? || h.phase == Maintenance
    case ReleaseMaintenance => h.pending.None? || h.phase == Checkpoint
    case PrepareSeal(tail, loads) =>
      h.pending.None? || h.view.head.txid < h.view.header.startTxid || !Acquire(s, i, tail, loads).ok
    case _ => true
  }

  // Changing one handle

  lemma PutInv(s: Sys, i: nat, h: Handle)
    requires Inv(s) && i < |s.handles| && HandleOk(h, s.disk)
    requires Locked(h) ==> Locked(s.handles[i]) || !OtherLocked(s, i)
    ensures Inv(Put(s, i, h))
  {
    hide HandleOk, Linear;
  }

  lemma BeginInv(s: Sys, i: nat, loads: bool)
    requires Inv(s) && i < |s.handles|
    ensures Inv(Begin(s, i, loads).sys)
    ensures var b := Begin(s, i, loads);
      && |b.sys.handles| == |s.handles| && b.sys.disk == s.disk
      && (b.ok ==> Locked(b.sys.handles[i]) && !OtherLocked(b.sys, i))
      && (!b.ok ==> b.sys == s)
      && (b.ok && Locked(s.handles[i]) ==> b.sys == s)
      && (b.ok && !Locked(s.handles[i]) ==> b.sys.handles[i] == Load(s.handles[i], s.disk).(phase := Transaction))
  {
    hide Linear;
    var h := s.handles[i];
    if !Locked(h) && !OtherLocked(s, i) && loads {
      PutInv(s, i, Load(h, s.disk).(phase := Transaction));
    }
  }

  lemma AcquireInv(s: Sys, i: nat, tail: bool, loads: bool)
    requires Inv(s) && i < |s.handles|
    ensures Inv(Acquire(s, i, tail, loads).sys)
    ensures var a := Acquire(s, i, tail, loads);
      && |a.sys.handles| == |s.handles| && a.sys.disk == s.disk && a.sys.handles[i].work == s.handles[i].work
      && (a.ok ==> a.sys.handles[i].phase == Maintenance && Fresh(a.sys.handles[i], s.disk) && !OtherLocked(a.sys, i))
      && (!a.ok ==> a.sys == s)
      && a.sys.handles[i].pending == s.handles[i].pending
  {
    hide Linear;
    var h := s.handles[i];
    if h.phase != Maintenance && h.phase != Checkpoint && !(!Locked(h) && OtherLocked(s, i)) && loads {
      PutInv(s, i, Refreshed(h, s.disk, tail).(phase := Maintenance));
    }
  }

  // Publishing

  lemma OthersBehind(h: Handle, d: Disk, f: Pagefile)
    requires HandleOk(h, d) && !Locked(h) && f.sequence > d.file.sequence && f.head.txid > d.file.head.txid
    ensures HandleOk(h, d.(file := f))
  {
  }

  lemma PublishInv(s: Sys, i: nat, durable: bool, retain: bool, now: u64, loads: bool)
    requires Inv(s) && i < |s.handles|
    ensures Inv(PublishInner(s, i, durable, retain, now, loads).sys)
  {
    hide Linear, Exclusive;
    var h := s.handles[i];
    if h.pending.None? {
      BeginInv(s, i, loads);
      var b := if durable then Begin(s, i, loads) else Step(s, true);
      if b.ok && !retain {
        PutInv(b.sys, i, Released(b.sys.handles[i]));
      }
    } else if h.view.head.txid + 1 < U64_LIMIT {
      PendingPublishInv(s, i, retain, now);
    }
  }

  lemma PendingPublishInv(s: Sys, i: nat, retain: bool, now: u64)
    requires Inv(s) && i < |s.handles| && s.handles[i].pending.Some? && s.handles[i].view.head.txid + 1 < U64_LIMIT
    ensures Inv(PublishInner(s, i, false, retain, now, true).sys)
    ensures PublishInner(s, i, true, retain, now, false) == PublishInner(s, i, false, retain, now, true)
  {
    var h := s.handles[i];
    var t := PublishInner(s, i, false, retain, now, true).sys;
    var f := Advanced(h.view, h.pending.value, now);
    forall j | 0 <= j < |s.handles|
      ensures HandleOk(t.handles[j], t.disk)
    {
      if j != i {
        assert !Locked(s.handles[j]);
        OthersBehind(s.handles[j], s.disk, f);
      }
    }
    LinearStep(s.disk.file, s.origin, s.log, Commit(h.view.image, f.image), f);
  }

  lemma LinearStep(f: Pagefile, origin: Pagefile, log: seq<Commit>, c: Commit, f': Pagefile)
    requires Linear(f, origin, log) && c.basis == f.image && f'.image == c.image && f'.head.txid == f.head.txid + 1
    ensures Linear(f', origin, log + [c])
  {
    var next := log + [c];
    forall k | 0 <= k < |next|
      ensures next[k].basis == ImageAfter(origin.image, next, k)
    {
      if k < |log| {
        assert log[k].basis == ImageAfter(origin.image, log, k);
      }
    }
  }

  // Sealing

  lemma PrepareInv(s: Sys, i: nat, tail: bool, loads: bool)
    requires Inv(s) && i < |s.handles| && KeepsLock(s, i, PrepareSeal(tail, loads))
    ensures Inv(Prepare(s, i, tail, loads).sys)
  {
    hide Linear, Exclusive;
    var h := s.handles[i];
    if h.view.head.txid >= h.view.header.startTxid {
      AcquireInv(s, i, tail, loads);
      var a := Acquire(s, i, tail, loads);
      if a.ok {
        var g := a.sys.handles[i];
        PutInv(a.sys, i, g.(phase := Unlocked, work := Some(Captured(g.view.header, g.view.head, g.view.image, h.phase))));
      }
    }
  }

  /** A seal installs the image that is there. */
  lemma InstallInv(s: Sys, i: nat, id: Digest, history: Digest)
    requires Inv(s) && i < |s.handles| && s.handles[i].phase == Maintenance && s.handles[i].work.Some?
    requires var c := s.handles[i].work.value; c.header == s.handles[i].view.header && c.head == s.handles[i].view.head
    requires var c := s.handles[i].work.value; c.head.txid + 1 < U64_LIMIT && c.head.logicalSize < U64_LIMIT
    requires s.handles[i].pending.None?
    ensures var t := Install(s, i, s.handles[i].work.value, id, history);
      && Inv(t) && t.disk.file.image == s.disk.file.image && t.handles[i].phase == Maintenance
      && t.handles[i].pending.None? && t.handles[i].work.None? && |t.handles| == |s.handles|
  {
    hide Linear;
    var c := s.handles[i].work.value;
    var t := Install(s, i, c, id, history);
    forall j | 0 <= j < |s.handles|
      ensures HandleOk(t.handles[j], t.disk)
    {
      if j != i {
        assert !Locked(s.handles[j]) && HandleOk(s.handles[j], s.disk);
      }
    }
    LinearKept(s.disk.file, s.origin, s.log, t.disk.file);
  }

  lemma LinearKept(f: Pagefile, origin: Pagefile, log: seq<Commit>, f': Pagefile)
    requires Linear(f, origin, log) && f'.image == f.image && f'.head.txid == f.head.txid
    ensures Linear(f', origin, log)
  {
  }

  /** `finish_work` never changes what the file holds, whatever happened since the snapshot was taken. */
  lemma FinishInv(s: Sys, i: nat, id: Digest, history: Digest, fault: InstallFault, tail: bool, loads: bool)
    requires Inv(s) && i < |s.handles|
    ensures var t := Finish(s, i, id, history, fault, tail, loads).sys; Inv(t) && t.disk.file.image == s.disk.file.image
  {
    hide Linear, Exclusive;
    var h := s.handles[i];
    PutInv(s, i, h.(work := None));
    if h.work.Some? && h.pending.None? {
      AcquireInv(s, i, tail, loads);
      var c, a := h.work.value, Acquire(s, i, tail, loads);
      if a.ok {
        var g := a.sys.handles[i];
        if g.view.header != c.header || g.view.head != c.head || fault == NotVisible
           || c.head.txid + 1 >= U64_LIMIT || c.head.logicalSize >= U64_LIMIT {
          PutInv(a.sys, i, Dismissed(g).(work := None));
        } else {
          InstallInv(a.sys, i, id, history);
          var t := Install(a.sys, i, c, id, history);
          if fault == Clean && c.restore != Unlocked {
            PutInv(t, i, t.handles[i].(phase := c.restore));
          } else {
            PutInv(t, i, Dismissed(t.handles[i]));
          }
        }
      }
    }
  }

  // When a seal is installed

  /** Nobody else owns publication, this handle has not reserved it for a checkpoint, and the reload works. */
  predicate LockFree(s: Sys, i: nat, loads: bool)
    requires i < |s.handles|
  {
    s.handles[i].phase == Maintenance || (s.handles[i].phase != Checkpoint && !OtherLocked(s, i) && loads)
  }

  lemma AcquireOkIff(s: Sys, i: nat, tail: bool, loads: bool)
    requires Inv(s) && i < |s.handles|
    ensures Acquire(s, i, tail, loads).ok <==> LockFree(s, i, loads)
  {
    hide HandleOk, Linear;
  }

  /** The file is still the captured one and its numbers have room for a successor. */
  predicate Installable(c: Captured, f: Pagefile) {
    f.header == c.header && f.head == c.head && c.head.txid + 1 < U64_LIMIT && c.head.logicalSize < U64_LIMIT
  }

  /** `finish_work` succeeds if and only if there is work, nothing is open, the lock is free, the file is still the captured one and nothing fails; it
      installs the seal in exactly these cases and when it fails only afterwards. */
  lemma FinishOkIff(s: Sys, i: nat, id: Digest, history: Digest, fault: InstallFault, tail: bool, loads: bool)
    requires Inv(s) && i < |s.handles|
    ensures var r := Finish(s, i, id, history, fault, tail, loads);
      var h := s.handles[i];
      var tries := h.work.Some? && h.pending.None? && LockFree(s, i, loads);
      var free := tries && Installable(h.work.value, s.disk.file);
      && (r.ok <==> free && fault == Clean)
      && (if free && fault != NotVisible then SealedOver(s, r.sys, i, id, history) else r.sys.disk == s.disk)
      && |r.sys.handles| == |s.handles| && r.sys.handles[i].work.None? && r.sys.handles[i].pending == h.pending
      && r.sys.handles[i].phase == (if !tries then h.phase else if r.ok then h.work.value.restore else Unlocked)
  {
    hide Linear, Exclusive, Acquire;
    AcquireOkIff(s, i, tail, loads);
    AcquireInv(s, i, tail, loads);
    var a := Acquire(s, i, tail, loads);
    assert a.ok ==> a.sys.handles[i].view == s.disk.file;
    AcquireFrame(s, i, tail, loads);
  }

  lemma AcquireFrame(s: Sys, i: nat, tail: bool, loads: bool)
    requires i < |s.handles|
    ensures var a := Acquire(s, i, tail, loads).sys;
      a.origin == s.origin && a.log == s.log && forall j | 0 <= j < |s.handles| && j != i :: a.handles[j] == s.handles[j]
  {
  }

  /** A new file is in place over the sealed copy: same database, policy, transaction and bytes, nothing left to seal,
      and only this handle has seen it. */
  ghost predicate SealedOver(s: Sys, t: Sys, i: nat, id: Digest, history: Digest)
    requires i < |s.handles|
  {
    var (f, g) := (s.disk.file, t.disk.file);
    && t.disk.inode != s.disk.inode && (forall j | 0 <= j < |s.handles| :: s.handles[j].inode != t.disk.inode)
    && g.image == f.image && g.head.txid == f.head.txid && g.head.logicalSize == f.head.logicalSize
    && g.head.pageSize == f.head.pageSize && g.head.history == history
    && g.header.parent == id && g.header.startTxid == f.head.txid + 1 && g.header.baseHistory == history
    && g.header.baseSize == f.head.logicalSize && g.head.oldest == 0 && g.head.last == 0
    && g.head.commitOffset == 0 && g.head.commitEnd == 0 && g.sequence == 1
    && g.header.database == f.header.database && g.header.attachment == f.header.attachment
    && g.header.policy == f.header.policy && g.header.layout == f.header.layout && g.header.pageSize == f.header.pageSize
    && t.log == s.log && t.origin == s.origin && |t.handles| == |s.handles|
    && Fresh(t.handles[i], t.disk) && t.handles[i].pending.None?
    && forall j | 0 <= j < |s.handles| && j != i :: t.handles[j] == s.handles[j]
  }

  lemma WriteInv(s: Sys, i: nat, image: Bytes, loads: bool)
    requires Inv(s) && i < |s.handles|
    ensures Inv(Call(s, i, Write(image, loads)).sys)
  {
    hide Linear, Exclusive;
    BeginInv(s, i, loads);
    var b := Begin(s, i, loads);
    if b.ok {
      PutInv(b.sys, i, b.sys.handles[i].(pending := Some(image)));
    }
  }

  lemma BeginCheckpointInv(s: Sys, i: nat, loads: bool)
    requires Inv(s) && i < |s.handles|
    ensures Inv(Call(s, i, BeginCheckpoint(loads)).sys)
  {
    hide Linear, Exclusive;
    BeginInv(s, i, loads);
    var h, b := s.handles[i], Begin(s, i, loads);
    if b.ok && h.phase != Checkpoint && !Locked(h) {
      PutInv(b.sys, i, b.sys.handles[i].(phase := Checkpoint));
    }
  }

  lemma ReleaseInv(s: Sys, i: nat, a: Action)
    requires Inv(s) && i < |s.handles| && KeepsLock(s, i, a)
    requires a.Discard? || a.FinishCheckpoint? || a.ReleaseMaintenance? || a.Refresh? || a.Close?
    ensures Inv(Call(s, i, a).sys)
  {
    hide Linear, Exclusive;
    PutInv(s, i, Call(s, i, a).sys.handles[i]);
  }

  lemma HandleCount(s: Sys, i: nat, a: Action)
    requires i < |s.handles|
    ensures |Call(s, i, a).sys.handles| == |s.handles|
  {
  }

  lemma CallInv(s: Sys, i: nat, a: Action)
    requires Inv(s) && i < |s.handles| && KeepsLock(s, i, a)
    ensures Inv(Call(s, i, a).sys) && |Call(s, i, a).sys.handles| == |s.handles|
  {
    hide Inv, Begin, Acquire, PublishInner, Prepare, Finish, KeepsLock;
    HandleCount(s, i, a);
    match a {
      case BeginWrite(loads) => BeginInv(s, i, loads);
      case Write(image, loads) => WriteInv(s, i, image, loads);
      case Publish(durable, retain, now, loads) => PublishInv(s, i, durable, retain, now, loads);
      case BeginCheckpoint(loads) => BeginCheckpointInv(s, i, loads);
      case AcquireMaintenance(tail, loads) => AcquireInv(s, i, tail, loads);
      case PrepareSeal(tail, loads) => PrepareInv(s, i, tail, loads);
      case FinishSeal(id, history, fault, tail, loads) => FinishInv(s, i, id, history, fault, tail, loads);
      case _ => ReleaseInv(s, i, a);
    }
  }

  /** A call that does not keep the lock leaves a pending handle without it, on a file it has loaded, and every
      other handle without it too. */
  lemma LockDropped(s: Sys, i: nat, a: Action)
    requires Inv(s) && i < |s.handles| && !KeepsLock(s, i, a)
    ensures var t := Call(s, i, a).sys;
      && |t.handles| == |s.handles| && t.disk == s.disk && t.origin == s.origin && t.log == s.log
      && t.handles[i].pending == s.handles[i].pending && t.handles[i].pending.Some?
      && !Locked(t.handles[i]) && Fresh(t.handles[i], t.disk)
      && forall j | 0 <= j < |t.handles| && j != i :: t.handles[j] == s.handles[j] && !Locked(t.handles[j])
  {
    hide Linear;
    AcquireInv(s, i, false, true);
    if a.PrepareSeal? {
      AcquireInv(s, i, a.tail, a.loads);
    }
    forall j | 0 <= j < |s.handles| && j != i
      ensures !Locked(s.handles[j])
    {
      assert HandleOk(s.handles[i], s.disk);
    }
  }

  /** The condition is exact. */
  lemma InvIffKeepsLock(s: Sys, i: nat, a: Action)
    requires Inv(s) && i < |s.handles|
    ensures Inv(Call(s, i, a).sys) <==> KeepsLock(s, i, a)
  {
    hide KeepsLock, Call;
    if KeepsLock(s, i, a) {
      CallInv(s, i, a);
    } else {
      LockDropped(s, i, a);
      assert !HandleOk(Call(s, i, a).sys.handles[i], Call(s, i, a).sys.disk);
    }
  }

  // Runs of any number of handles in any order

  datatype Event = Event(handle: nat, action: Action)

  function After(s: Sys, e: Event): Sys {
    if e.handle < |s.handles| then Call(s, e.handle, e.action).sys else s
  }

  function Run(s: Sys, events: seq<Event>): Sys
    decreases |events|
  {
    if events == [] then s else Run(After(s, events[0]), events[1..])
  }

  predicate KeepsLocks(s: Sys, events: seq<Event>)
    decreases |events|
  {
    events == [] ||
    ((events[0].handle < |s.handles| ==> KeepsLock(s, events[0].handle, events[0].action))
     && KeepsLocks(After(s, events[0]), events[1..]))
  }

  /** Nothing published is ever lost, and at most one handle owns publication, in every interleaving in which no
      call lets go of a pending transaction's lock. */
  lemma {:induction false} NoLostCommit(s: Sys, events: seq<Event>)
    requires Inv(s) && KeepsLocks(s, events)
    ensures Inv(Run(s, events))
    ensures s.log <= Run(s, events).log
    decreases |events|
  {
    hide Inv, KeepsLock, Call;
    if events != [] {
      var e := events[0];
      if e.handle < |s.handles| {
        CallInv(s, e.handle, e.action);
        LogGrows(s, e.handle, e.action);
      }
      NoLostCommit(After(s, e), events[1..]);
    }
  }

  lemma LogGrows(s: Sys, i: nat, a: Action)
    requires i < |s.handles|
    ensures s.log <= Call(s, i, a).sys.log
  {
  }

  /** Handles that have just opened the file. */
  predicate Opened(s: Sys) {
    && s.disk.inode < s.disk.next && s.log == [] && s.origin == s.disk.file
    && forall h | h in s.handles :: h == Handle(Unlocked, s.disk.inode, s.disk.file, None, None)
  }

  lemma OpenedInv(s: Sys)
    requires Opened(s)
    ensures Inv(s)
  {
    forall i | 0 <= i < |s.handles|
      ensures s.handles[i].phase == Unlocked && HandleOk(s.handles[i], s.disk)
    {
      assert s.handles[i] in s.handles;
    }
  }

  // A seal that races with other handles

  /** Capturing takes the file as it is now, and leaves the lock. */
  lemma PrepareCaptures(s: Sys, i: nat, tail: bool, loads: bool)
    requires Inv(s) && i < |s.handles| && s.handles[i].view.head.txid >= s.handles[i].view.header.startTxid
    ensures var r, f := Prepare(s, i, tail, loads), s.disk.file;
      && (r.ok <==> LockFree(s, i, loads))
      && (if r.ok then r.sys.handles[i].work == Some(Captured(f.header, f.head, f.image, s.handles[i].phase))
                       && r.sys.handles[i].phase == Unlocked && r.sys.handles[i].pending == s.handles[i].pending
          else r.sys == s)
      && r.sys.disk == s.disk && r.sys.log == s.log && r.sys.origin == s.origin && |r.sys.handles| == |s.handles|
      && forall j | 0 <= j < |s.handles| && j != i :: r.sys.handles[j] == s.handles[j]
  {
    hide Linear, Exclusive, Acquire;
    AcquireOkIff(s, i, tail, loads);
    AcquireInv(s, i, tail, loads);
    AcquireFrame(s, i, tail, loads);
  }

  /** Nothing another handle does changes this one. */
  lemma OthersLeaveAlone(s: Sys, i: nat, j: nat, a: Action)
    requires i < |s.handles| && j < |s.handles| && i != j
    ensures Call(s, j, a).sys.handles[i] == s.handles[i]
  {
    hide HandleOk, Linear;
    HandleCount(s, j, a);
  }

  lemma {:induction false} RunLeavesAlone(s: Sys, i: nat, events: seq<Event>)
    requires i < |s.handles| && forall e | e in events :: e.handle != i
    ensures var t := Run(s, events); |t.handles| == |s.handles| && t.handles[i] == s.handles[i]
    decreases |events|
  {
    hide Call;
    if events != [] {
      var e := events[0];
      if e.handle < |s.handles| {
        HandleCount(s, e.handle, e.action);
        OthersLeaveAlone(s, i, e.handle, e.action);
      }
      RunLeavesAlone(After(s, e), i, events[1..]);
    }
  }

  /** A handle captures, the others do anything at all, and it finishes: the seal succeeds if and only if by then
      nobody holds the lock and the file is still the one that was captured. */
  lemma SealRaceIff(s: Sys, i: nat, tail: bool, others: seq<Event>, id: Digest, history: Digest, tail': bool)
    requires Inv(s) && i < |s.handles| && s.handles[i].phase == Unlocked && !OtherLocked(s, i)
    requires s.handles[i].view.head.txid >= s.handles[i].view.header.startTxid
    requires forall e | e in others :: e.handle != i
    requires KeepsLocks(Call(s, i, PrepareSeal(tail, true)).sys, others)
    ensures var t := Run(Call(s, i, PrepareSeal(tail, true)).sys, others);
      && i < |t.handles|
      && var r := Call(t, i, FinishSeal(id, history, Clean, tail', true));
      && (r.ok <==>
          && !OtherLocked(t, i) && t.disk.file.header == s.disk.file.header && t.disk.file.head == s.disk.file.head
          && s.disk.file.head.txid + 1 < U64_LIMIT && s.disk.file.head.logicalSize < U64_LIMIT)
      && (if r.ok then SealedOver(t, r.sys, i, id, history) && r.sys.disk.file.image == s.disk.file.image
          else r.sys.disk == t.disk)
  {
    hide Call, Run, KeepsLocks, KeepsLock, SealedOver, HandleOk, Linear, Exclusive;
    PrepareCaptures(s, i, tail, true);
    PrepareCall(s, i, tail);
    var s1 := Call(s, i, PrepareSeal(tail, true)).sys;
    CallInv(s, i, PrepareSeal(tail, true));
    RunLeavesAlone(s1, i, others);
    NoLostCommit(s1, others);
    var t := Run(s1, others);
    FinishOkIff(t, i, id, history, Clean, tail', true);
    FinishInv(t, i, id, history, Clean, tail', true);
    FinishCall(t, i, id, history, tail');
    if t.disk.file.head == s.disk.file.head {
      SnapshotImage(t, i);
    }
  }

  /** What a publication of a pending transaction does: it always lands, on top of what was there. */
  lemma PublishLands(s: Sys, i: nat, durable: bool, retain: bool, now: u64, loads: bool)
    requires Inv(s) && i < |s.handles| && s.handles[i].pending.Some?
    ensures var r := Call(s, i, Publish(durable, retain, now, loads));
      var (f, g) := (s.disk.file, r.sys.disk.file);
      && (r.ok <==> f.head.txid + 1 < U64_LIMIT)
      && (!r.ok ==> r.sys == s)
      && (r.ok ==>
          && g.image == s.handles[i].pending.value && g.head.logicalSize == |g.image|
          && g.head.txid == f.head.txid + 1 && g.sequence == f.sequence + 1 && g.header == f.header
          && r.sys.disk.inode == s.disk.inode
          && g.head.last == now && g.head.oldest == (if f.head.oldest == 0 then now else f.head.oldest)
          && r.sys.log == s.log + [Commit(f.image, g.image)]
          && |r.sys.handles| == |s.handles| && r.sys.handles[i].pending.None?
          && (r.sys.handles[i].phase == Checkpoint <==> retain || s.handles[i].phase == Checkpoint)
          && (r.sys.handles[i].phase == Unlocked <==> !retain && s.handles[i].phase == Transaction))
  {
    hide Linear, Exclusive;
    assert HandleOk(s.handles[i], s.disk);
  }

  /** With nothing open a publication changes no file: a durable one gets the lock first, and the lock is kept only on
      request or by a checkpoint or maintenance. */
  lemma PublishNothing(s: Sys, i: nat, durable: bool, retain: bool, now: u64, loads: bool)
    requires Inv(s) && i < |s.handles| && s.handles[i].pending.None?
    ensures var r := Call(s, i, Publish(durable, retain, now, loads));
      var phase := s.handles[i].phase;
      var locked := if durable && phase == Unlocked then Transaction else phase;
      && (r.ok <==> !durable || phase != Unlocked || (!OtherLocked(s, i) && loads))
      && r.sys.disk == s.disk && r.sys.log == s.log && |r.sys.handles| == |s.handles| && r.sys.handles[i].pending.None?
      && (!r.ok ==> r.sys == s)
      && (r.ok && durable ==> Fresh(r.sys.handles[i], s.disk))
      && (r.ok ==> r.sys.handles[i].phase == if retain then locked else if locked == Transaction then Unlocked else locked)
  {
    hide Linear, Exclusive;
    assert HandleOk(s.handles[i], s.disk);
  }

  /** An idle handle whose turn it is writes, commits and seals, and everything it wrote is sealed. */
  lemma WriteAndSeal(s: Sys, i: nat, x: Bytes, now: u64, id: Digest, history: Digest)
    requires Inv(s) && i < |s.handles| && s.handles[i].phase == Unlocked && !OtherLocked(s, i)
    requires s.disk.file.header.startTxid <= s.disk.file.head.txid + 1
    requires s.disk.file.head.txid + 2 < U64_LIMIT && |x| < U64_LIMIT
    ensures var s1 := Call(s, i, Write(x, true));
      && s1.ok && |s1.sys.handles| == |s.handles|
      && var s2 := Call(s1.sys, i, Publish(true, false, now, true));
      && s2.ok && |s2.sys.handles| == |s.handles|
      && var s3 := Call(s2.sys, i, PrepareSeal(false, true));
      && s3.ok && |s3.sys.handles| == |s.handles|
      && var s4 := Call(s3.sys, i, FinishSeal(id, history, Clean, false, true));
      && s4.ok && SealedOver(s2.sys, s4.sys, i, id, history)
      && s4.sys.disk.file.image == x && s4.sys.disk.file.head.txid == s.disk.file.head.txid + 1
      && s4.sys.handles[i].phase == Unlocked
  {
    hide Call, KeepsLock, SealedOver, HandleOk, Linear, Exclusive;
    WriteOpens(s, i, x);
    CallInv(s, i, Write(x, true));
    var s1 := Call(s, i, Write(x, true)).sys;
    PublishLands(s1, i, true, false, now, true);
    FreshAfterPublish(s1, i, now);
    CallInv(s1, i, Publish(true, false, now, true));
    var s2 := Call(s1, i, Publish(true, false, now, true)).sys;
    PrepareCall(s2, i, false);
    CallInv(s2, i, PrepareSeal(false, true));
    PrepareCaptures(s2, i, false, true);
    var s3 := Call(s2, i, PrepareSeal(false, true)).sys;
    FinishOkIff(s3, i, id, history, Clean, false, true);
    FinishCall(s3, i, id, history, false);
    SealedFrom(s2, s3, Call(s3, i, FinishSeal(id, history, Clean, false, true)).sys, i, id, history);
  }

  lemma WriteOpens(s: Sys, i: nat, x: Bytes)
    requires i < |s.handles| && s.handles[i].phase == Unlocked && !OtherLocked(s, i)
    ensures var r := Call(s, i, Write(x, true));
      && r.ok && KeepsLock(s, i, Write(x, true)) && |r.sys.handles| == |s.handles| && r.sys.disk == s.disk
      && r.sys.handles[i].pending == Some(x) && r.sys.handles[i].phase == Transaction
      && forall j | 0 <= j < |s.handles| && j != i :: r.sys.handles[j] == s.handles[j]
  {
  }

  lemma FreshAfterPublish(s: Sys, i: nat, now: u64)
    requires Inv(s) && i < |s.handles| && s.handles[i].pending.Some? && s.handles[i].phase == Transaction
    requires s.disk.file.head.txid + 1 < U64_LIMIT
    ensures KeepsLock(s, i, Publish(true, false, now, true))
    ensures var t := Call(s, i, Publish(true, false, now, true)).sys;
      |t.handles| == |s.handles| && Fresh(t.handles[i], t.disk) && !OtherLocked(t, i)
  {
    hide Linear;
    assert HandleOk(s.handles[i], s.disk);
  }

  /** Capturing changes no more than the handle that captures. */
  lemma SealedFrom(s: Sys, s': Sys, t: Sys, i: nat, id: Digest, history: Digest)
    requires i < |s.handles| && |s'.handles| == |s.handles| && s'.disk == s.disk && s'.log == s.log && s'.origin == s.origin
    requires s.handles[i].inode == s.disk.inode
    requires forall j | 0 <= j < |s.handles| && j != i :: s'.handles[j] == s.handles[j]
    requires SealedOver(s', t, i, id, history)
    ensures SealedOver(s, t, i, id, history)
  {
  }

  lemma PrepareCall(s: Sys, i: nat, tail: bool)
    requires Inv(s) && i < |s.handles| && s.handles[i].phase == Unlocked
    ensures Call(s, i, PrepareSeal(tail, true)) == Prepare(s, i, tail, true)
    ensures KeepsLock(s, i, PrepareSeal(tail, true)) && s.handles[i].pending.None?
  {
    hide Linear, Exclusive;
    assert HandleOk(s.handles[i], s.disk);
  }

  lemma FinishCall(s: Sys, i: nat, id: Digest, history: Digest, tail: bool)
    requires i < |s.handles|
    ensures Call(s, i, FinishSeal(id, history, Clean, tail, true)) == Finish(s, i, id, history, Clean, tail, true)
  {
  }

  lemma SnapshotImage(t: Sys, i: nat)
    requires Inv(t) && i < |t.handles| && t.handles[i].work.Some?
    requires t.handles[i].work.value.head.txid == t.disk.file.head.txid
    ensures t.handles[i].work.value.image == t.disk.file.image
  {
    assert HandleOk(t.handles[i], t.disk);
  }

  // Every dropped lock can lose a commit

  /** Ending maintenance keeps a pending transaction locked exactly when there is none, or the lock is a
      checkpoint's. */
  lemma DismissKeepsLock(h: Handle)
    requires h.pending.Some? ==> Locked(h)
    ensures (Dismissed(h).pending.Some? ==> Locked(Dismissed(h))) <==> h.pending.None? || h.phase == Checkpoint
  {
  }

  /** Another handle writes and publishes, and then the one that lost its lock publishes. */
  function Overtake(i: nat, j: nat, y: Bytes): seq<Event> {
    [Event(j, Write(y, true)), Event(j, Publish(true, false, 1, true)), Event(i, Publish(true, false, 1, true))]
  }

  lemma OtherCommits(s: Sys, j: nat, y: Bytes)
    requires j < |s.handles| && !Locked(s.handles[j]) && !OtherLocked(s, j) && s.disk.file.head.txid + 1 < U64_LIMIT
    ensures var t := After(After(s, Event(j, Write(y, true))), Event(j, Publish(true, false, 1, true)));
      && t.disk == s.disk.(file := Advanced(s.disk.file, y, 1)) && t.origin == s.origin
      && t.log == s.log + [Commit(s.disk.file.image, y)] && |t.handles| == |s.handles|
      && forall i | 0 <= i < |s.handles| && i != j :: t.handles[i] == s.handles[i]
  {
    var h := Load(s.handles[j], s.disk).(phase := Transaction);
    var s1 := After(s, Event(j, Write(y, true)));
    assert s1 == Put(s, j, h.(pending := Some(y)));
  }

  lemma Three(s: Sys, es: seq<Event>)
    requires |es| == 3
    ensures Run(s, es) == After(After(After(s, es[0]), es[1]), es[2])
  {
    hide After;
    var s1 := After(s, es[0]);
    var s2 := After(s1, es[1]);
    assert Run(s1, es[1..]) == Run(s2, es[1..][1..]) && es[1..][1..] == es[2..];
    assert Run(s2, es[2..]) == Run(After(s2, es[2]), es[2..][1..]) && es[2..][1..] == [];
  }

  /** A pending handle without its lock publishes over another handle's commit. What the file then holds is a mix
      the model does not follow, since the other handle has also cut off the records appended to it; that the second
      publication was not built on the first is enough. */
  lemma OvertakenCommit(s: Sys, i: nat, j: nat, y: Bytes)
    requires i < |s.handles| && j < |s.handles| && i != j
    requires forall k | 0 <= k < |s.handles| :: !Locked(s.handles[k])
    requires s.handles[i].pending.Some? && Fresh(s.handles[i], s.disk)
    requires s.disk.file.head.txid + 2 < U64_LIMIT && y != s.disk.file.image
    ensures var t := Run(s, Overtake(i, j, y));
      && |t.log| == |s.log| + 2 && t.log[|s.log|].image == y && t.log[|s.log| + 1].basis == s.disk.file.image
      && !Linear(t.disk.file, t.origin, t.log)
  {
    hide Run, Begin, Linear;
    var es := Overtake(i, j, y);
    Three(s, es);
    OtherCommits(s, j, y);
    var s2 := After(After(s, es[0]), es[1]);
    assert s2.handles[i] == s.handles[i];
    var t := After(s2, es[2]);
    assert t.log == s2.log + [Commit(s.disk.file.image, s.handles[i].pending.value)];
    BrokenChain(t.disk.file, t.origin, t.log, |s.log|);
  }

  lemma BrokenChain(f: Pagefile, origin: Pagefile, log: seq<Commit>, k: nat)
    requires |log| > k + 1 && log[k + 1].basis != log[k].image
    ensures !Linear(f, origin, log)
  {
    assert ImageAfter(origin.image, log, k + 1) == log[k].image;
  }

  /** The converse of no lost commit: after any call that lets go of a pending transaction's lock, some continuation
      by any second handle loses a commit. */
  lemma DroppedLockLosesCommit(s: Sys, i: nat, a: Action, j: nat)
    requires Inv(s) && i < |s.handles| && j < |s.handles| && i != j && !KeepsLock(s, i, a)
    requires s.disk.file.head.txid + 2 < U64_LIMIT
    ensures var t := After(s, Event(i, a));
      var u := Run(t, Overtake(i, j, s.disk.file.image + [0]));
      !Linear(u.disk.file, u.origin, u.log)
  {
    hide KeepsLock, Call, Run, Linear;
    LockDropped(s, i, a);
    OvertakenCommit(Call(s, i, a).sys, i, j, s.disk.file.image + [0]);
  }

  /** Such a call occurs: a handle writes, enters maintenance and leaves it again. */
  lemma UnlockedPendingLosesCommit(s: Sys, x: Bytes)
    requires Opened(s) && |s.handles| >= 2 && s.disk.file.head.txid + 2 < U64_LIMIT
    ensures var t := After(After(s, Event(0, Write(x, true))), Event(0, AcquireMaintenance(false, true)));
      var u := Run(After(t, Event(0, ReleaseMaintenance)), Overtake(0, 1, s.disk.file.image + [0]));
      !Linear(u.disk.file, u.origin, u.log)
  {
    hide Run, Linear, Overtake;
    OpenedInv(s);
    assert forall h | h in s.handles :: h.phase == Unlocked;
    assert forall k | 0 <= k < |s.handles| :: s.handles[k] in s.handles;
    var h := Handle(Transaction, s.disk.inode, s.disk.file, Some(x), None);
    var s1 := After(s, Event(0, Write(x, true)));
    CallInv(s, 0, Write(x, true));
    assert s1.handles[0] == h && s1.disk == s.disk;
    var t := After(s1, Event(0, AcquireMaintenance(false, true)));
    CallInv(s1, 0, AcquireMaintenance(false, true));
    assert t.handles[0] == h.(phase := Maintenance) && t.disk == s.disk;
    DroppedLockLosesCommit(t, 0, ReleaseMaintenance, 1);
  }

  // Phases

  /** When a call that wants the lock gets it: a checkpoint never takes over a transaction or maintenance. */
  predicate Grants(s: Sys, i: nat, a: Action)
    requires i < |s.handles| && (a.BeginWrite? || a.BeginCheckpoint? || a.AcquireMaintenance?)
  {
    var phase := s.handles[i].phase;
    || (phase == Unlocked && !OtherLocked(s, i) && a.loads)
    || (match a
        case BeginWrite(_) => phase != Unlocked
        case BeginCheckpoint(_) => phase == Checkpoint
        case _ => phase == Maintenance || (phase == Transaction && a.loads))
  }

  /** A granted call owns publication alone, over the file as it is, in the phase it asked for; a refused one changes
      nothing. */
  lemma LockGranted(s: Sys, i: nat, a: Action)
    requires Inv(s) && i < |s.handles| && (a.BeginWrite? || a.BeginCheckpoint? || a.AcquireMaintenance?)
    ensures var r := Call(s, i, a);
      && (r.ok <==> Grants(s, i, a))
      && (if r.ok then
            && |r.sys.handles| == |s.handles| && r.sys.disk == s.disk && !OtherLocked(r.sys, i)
            && Fresh(r.sys.handles[i], s.disk) && r.sys.handles[i].pending == s.handles[i].pending
            && r.sys.handles[i].phase ==
               (if a.BeginCheckpoint? then Checkpoint else if a.AcquireMaintenance? then Maintenance
                else if s.handles[i].phase == Unlocked then Transaction else s.handles[i].phase)
          else r.sys == s)
  {
    hide Linear;
    assert HandleOk(s.handles[i], s.disk);
  }

  /** A refresh catches up completely; an open transaction was never behind. */
  lemma RefreshCatchesUp(s: Sys, i: nat, tail: bool)
    requires Inv(s) && i < |s.handles|
    ensures var t := Call(s, i, Refresh(tail)).sys;
      && Call(s, i, Refresh(tail)).ok
      && Fresh(t.handles[i], s.disk) && t.handles[i].phase == s.handles[i].phase && t.handles[i].pending == s.handles[i].pending
      && t.disk == s.disk
  {
    hide Linear, Exclusive;
    assert HandleOk(s.handles[i], s.disk);
  }

  /** Who still owns publication after each call that ends something, and what is left of an open transaction. */
  lemma AfterEnding(s: Sys, i: nat, a: Action)
    requires Inv(s) && i < |s.handles| && (a.Discard? || a.Close? || a.FinishCheckpoint? || a.ReleaseMaintenance?)
    ensures var t := Call(s, i, a).sys;
      && Call(s, i, a).ok && t.disk == s.disk && t.log == s.log
      && (a.Discard? || a.Close? ==> t.handles[i].pending.None?)
      && (a.FinishCheckpoint? || a.ReleaseMaintenance? ==> t.handles[i].pending == s.handles[i].pending)
      && (Locked(t.handles[i]) <==>
          if a.ReleaseMaintenance? then s.handles[i].phase == Checkpoint else s.handles[i].phase == Maintenance && !a.Close?)
  {
    hide Linear, Exclusive;
  }

  predicate EndsReservation(a: Action) {
    a.FinishCheckpoint? || a.Discard? || a.Close?
  }

  /** A checkpoint reservation survives every call except finish-checkpoint, discard and close. */
  lemma ReservationSurvives(s: Sys, i: nat, j: nat, a: Action)
    requires i < |s.handles| && j < |s.handles| && s.handles[i].phase == Checkpoint
    ensures Call(s, j, a).sys.handles[i].phase == Checkpoint <==> !(j == i && EndsReservation(a))
  {
  }

  /** The first half of `flush_sidecars` without a source: publish what is pending, then capture. */
  function FlushBegin(s: Sys, i: nat, now: u64, tail: bool, loads: bool): Step
    requires i < |s.handles|
  {
    var b := Begin(s, i, loads);
    if !b.ok then b
    else
      var q := if b.sys.handles[i].pending.Some? then PublishInner(b.sys, i, true, false, now, loads) else b;
      if !q.ok then q
      else
        var r := Begin(q.sys, i, loads);
        if !r.ok then r
        else Prepare(r.sys, i, tail, loads)
  }

  /** The second half: install, or do nothing when there was nothing to seal. */
  function FlushEnd(s: Sys, i: nat, sealing: bool, id: Digest, history: Digest, fault: InstallFault, tail: bool, loads: bool): Step
    requires i < |s.handles|
  {
    var f := if sealing then Finish(s, i, id, history, fault, tail, loads) else Step(s, true);
    if !f.ok then f else Step(Put(f.sys, i, Released(f.sys.handles[i])), true)
  }

  predicate Sealing(h: Handle) {
    h.phase == Unlocked && h.work.Some?
  }

  /** A successful flush entered in maintenance returns in maintenance, and one entered unlocked returns
      unlocked, whatever other handles do while the lock is dropped in between. */
  lemma FlushKeepsPhase(s: Sys, i: nat, now: u64, t: Sys, id: Digest, history: Digest, fault: InstallFault, tail: bool, loads: bool)
    requires Inv(s) && i < |s.handles| && s.handles[i].work.None?
    requires s.handles[i].phase == Maintenance || s.handles[i].phase == Unlocked
    requires var b := FlushBegin(s, i, now, tail, loads);
      b.ok && i < |t.handles| && |b.sys.handles| == |s.handles| && t.handles[i] == b.sys.handles[i]
    ensures var b := FlushBegin(s, i, now, tail, loads);
      var r := FlushEnd(t, i, Sealing(t.handles[i]), id, history, fault, tail, loads);
      r.ok ==> r.sys.handles[i].phase == s.handles[i].phase
  {
    hide Linear, Exclusive;
  }

  /** Seals what is there and lets an ordinary lock go, alone and without faults. */
  lemma SealTail(s: Sys, i: nat, id: Digest, history: Digest, tail: bool)
    requires Inv(s) && i < |s.handles| && (s.handles[i].phase == Maintenance || s.handles[i].phase == Transaction)
    requires s.handles[i].pending.None? && s.handles[i].work.None?
    requires var f := s.disk.file; f.header.startTxid <= f.head.txid + 1 < U64_LIMIT && f.head.logicalSize < U64_LIMIT
    ensures var b := Prepare(s, i, tail, true);
      && b.ok && |b.sys.handles| == |s.handles|
      && var r := FlushEnd(b.sys, i, Sealing(b.sys.handles[i]), id, history, Clean, tail, true);
      && r.ok && r.sys.handles[i].pending.None?
      && r.sys.handles[i].phase == (if s.handles[i].phase == Maintenance then Maintenance else Unlocked)
      && r.sys.disk.file.header.startTxid == r.sys.disk.file.head.txid + 1
      && r.sys.disk.file.image == s.disk.file.image && r.sys.disk.file.head.txid == s.disk.file.head.txid
  {
    hide Linear, Finish, Prepare;
    assert HandleOk(s.handles[i], s.disk);
    var h := s.handles[i];
    if h.view.head.txid < h.view.header.startTxid {
      NothingToPrepare(s, i, tail);
    } else {
      AloneWhileLocked(s, i);
      PrepareCaptures(s, i, tail, true);
      PrepareInv(s, i, tail, true);
      var b := Prepare(s, i, tail, true).sys;
      FinishOkIff(b, i, id, history, Clean, tail, true);
      FinishInv(b, i, id, history, Clean, tail, true);
    }
  }

  lemma NothingToPrepare(s: Sys, i: nat, tail: bool)
    requires i < |s.handles| && s.handles[i].view.head.txid < s.handles[i].view.header.startTxid
    ensures Prepare(s, i, tail, true) == Step(s, true)
  {
  }

  lemma AloneWhileLocked(s: Sys, i: nat)
    requires Inv(s) && i < |s.handles| && Locked(s.handles[i])
    ensures !OtherLocked(s, i)
  {
    hide HandleOk, Linear;
  }

  /** A flush that nobody disturbs succeeds: it publishes the open transaction, leaves nothing to seal, and returns in
      the phase it was entered in. */
  lemma FlushSeals(s: Sys, i: nat, now: u64, id: Digest, history: Digest, tail: bool)
    requires Inv(s) && i < |s.handles| && s.handles[i].work.None?
    requires s.handles[i].phase == Maintenance || (s.handles[i].phase == Unlocked && !OtherLocked(s, i))
    requires var f := s.disk.file; f.header.startTxid <= f.head.txid + 1 && f.head.txid + 2 < U64_LIMIT
    requires s.disk.file.head.logicalSize < U64_LIMIT
    requires s.handles[i].pending.Some? ==> |s.handles[i].pending.value| < U64_LIMIT
    ensures var b := FlushBegin(s, i, now, tail, true);
      && b.ok && |b.sys.handles| == |s.handles|
      && var r := FlushEnd(b.sys, i, Sealing(b.sys.handles[i]), id, history, Clean, tail, true);
      && r.ok && r.sys.handles[i].phase == s.handles[i].phase && r.sys.handles[i].pending.None?
      && r.sys.disk.file.header.startTxid == r.sys.disk.file.head.txid + 1
      && r.sys.disk.file.image == (if s.handles[i].pending.Some? then s.handles[i].pending.value else s.disk.file.image)
  {
    hide Linear, Exclusive, HandleOk, Prepare, PublishInner, FlushEnd;
    BeginInv(s, i, true);
    var b := Begin(s, i, true);
    KeepsWork(s, i);
    if b.sys.handles[i].pending.Some? {
      PublishLands(b.sys, i, true, false, now, true);
      PublishInv(b.sys, i, true, false, now, true);
      PublishedHandle(b.sys, i, now);
      var q := PublishInner(b.sys, i, true, false, now, true);
      BeginInv(q.sys, i, true);
      SealTail(q.sys, i, id, history, tail);
    } else {
      SealTail(b.sys, i, id, history, tail);
    }
  }

  /** A flush that cannot have the lock, or whose open transaction cannot be numbered, fails before it changes anything. */
  lemma FlushRefused(s: Sys, i: nat, now: u64, tail: bool, loads: bool)
    requires Inv(s) && i < |s.handles|
    requires if s.handles[i].phase == Unlocked then OtherLocked(s, i) || !loads
             else s.handles[i].pending.Some? && s.disk.file.head.txid + 1 >= U64_LIMIT
    ensures FlushBegin(s, i, now, tail, loads) == Step(s, false)
  {
    hide Linear, Exclusive, Prepare;
    assert HandleOk(s.handles[i], s.disk);
  }

  lemma KeepsWork(s: Sys, i: nat)
    requires Inv(s) && i < |s.handles|
    ensures Begin(s, i, true).sys.handles[i].work == s.handles[i].work
    ensures s.handles[i].phase == Unlocked ==> s.handles[i].pending.None?
  {
    hide Linear, Exclusive;
    assert HandleOk(s.handles[i], s.disk);
  }

  lemma PublishedHandle(s: Sys, i: nat, now: u64)
    requires i < |s.handles| && s.handles[i].pending.Some? && s.handles[i].phase == Maintenance
    ensures Call(s, i, Publish(true, false, now, true)) == PublishInner(s, i, true, false, now, true)
    ensures var q := PublishInner(s, i, true, false, now, true);
      q.ok ==> |q.sys.handles| == |s.handles| && q.sys.handles[i].phase == Maintenance && q.sys.handles[i].work == s.handles[i].work
  {
  }
}
