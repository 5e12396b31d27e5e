/** When committed work must be sealed (src/store.rs, `seal_deadline`, `publish_inner`, `load_local`,
    `adopt_active`). */
module Deadline {
  import opened Bytes
  import opened Pagefile
  import opened Engine
  import opened Publication

  /** A backend's schedule, in seconds. */
  datatype Schedule = Schedule(settle: nat, maxAge: nat)

  /** At once past the rollover target; otherwise, under a schedule, once writes have settled, but never past the
      maximum age of the oldest commit. */
  function SealDeadline(e: Engine, schedule: Option<Schedule>, now: nat): Option<nat> {
    if e.base.SourceBase? then Some(now)
    else if e.head.txid < e.header.startTxid then None
    else if e.header.policy.rollover != 0 && RecordOffset(e.Ps(), e.head.commitEnd) >= e.header.policy.rollover then
      Some(now)
    else if schedule.None? then None
    else Some(Min(e.head.last + schedule.value.settle, e.head.oldest + schedule.value.maxAge))
  }

  datatype Event = Commit(now: u64) | Reopen | Seal

  /** The head after each event; opening again reads it back from the state sector. */
  function Next(e: Engine, v: Event): Engine {
    match v
    case Commit(now) => if e.sequence + 1 < U64_LIMIT && e.head.txid + 1 < U64_LIMIT then Advance(e, now) else e
    case Reopen => if Encodable(e) then e.(head := HeadFor(CurrentState(e), e.header)) else e
    case Seal =>
      if e.head.txid + 1 < U64_LIMIT then
        e.(header := e.header.(startTxid := e.head.txid + 1), head := e.head.(oldest := 0, last := 0))
      else e
  }

  /** The clock at the first commit since the last seal. */
  function FirstSince(first: Option<nat>, e: Engine, v: Event): Option<nat> {
    match v
    case Commit(now) => if Next(e, v) != e && first.None? then Some(now) else first
    case Reopen => first
    case Seal => if e.head.txid + 1 < U64_LIMIT then None else first
  }

  /** The clock is running at the first commit after each seal; later readings do not matter. */
  predicate ClockRuns(first: Option<nat>, e: Engine, events: seq<Event>)
    decreases |events|
  {
    events == [] ||
    ((events[0].Commit? && first.None? ==> events[0].now != 0)
     && ClockRuns(FirstSince(first, e, events[0]), Next(e, events[0]), events[1..]))
  }

  predicate Inv(e: Engine, first: Option<nat>) {
    && e.head.oldest == (if first.Some? then first.value else 0)
    && (first.None? ==> e.head.last == 0)
    && (first.Some? ==> first.value != 0)
  }

  lemma NextInv(e: Engine, first: Option<nat>, v: Event)
    requires Inv(e, first) && (v.Commit? && first.None? ==> v.now != 0)
    ensures Inv(Next(e, v), FirstSince(first, e, v))
  {
    if v.Commit? && e.sequence + 1 < U64_LIMIT && e.head.txid + 1 < U64_LIMIT {
      assert Advance(e, v.now).sequence != e.sequence;
    }
  }

  function Run(e: Engine, events: seq<Event>): Engine
    decreases |events|
  {
    if events == [] then e else Run(Next(e, events[0]), events[1..])
  }

  function FirstOf(first: Option<nat>, e: Engine, events: seq<Event>): Option<nat>
    decreases |events|
  {
    if events == [] then first else FirstOf(FirstSince(first, e, events[0]), Next(e, events[0]), events[1..])
  }

  /** The deadline is never later than the first unsealed commit plus the maximum age, however many commits
      and reopenings follow it. */
  lemma {:induction false} DeadlineBound(e: Engine, first: Option<nat>, events: seq<Event>, schedule: Schedule, now: nat)
    requires Inv(e, first) && ClockRuns(first, e, events)
    ensures var t, f := Run(e, events), FirstOf(first, e, events);
      && Inv(t, f)
      && var due := SealDeadline(t, Some(schedule), now);
      due.Some? && f.Some? ==> due.value == now || due.value <= f.value + schedule.maxAge
    decreases |events|
  {
    hide Next, FirstSince;
    if events != [] {
      NextInv(e, first, events[0]);
      DeadlineBound(Next(e, events[0]), FirstSince(first, e, events[0]), events[1..], schedule, now);
    }
  }

  /** Only a seal ends the span: commits and reopenings never move the recorded start of it. */
  lemma {:induction false} SpanPersists(e: Engine, events: seq<Event>)
    requires e.head.oldest != 0 && Seal !in events
    ensures Run(e, events).head.oldest == e.head.oldest
    decreases |events|
  {
    if events != [] {
      assert events[0] != Seal;
      SpanPersists(Next(e, events[0]), events[1..]);
    }
  }

  // The deadline itself

  /** The clock at the last commit since the last seal. */
  function LastSince(last: Option<nat>, e: Engine, v: Event): Option<nat> {
    match v
    case Commit(now) => if Next(e, v) != e then Some(now) else last
    case Reopen => last
    case Seal => if e.head.txid + 1 < U64_LIMIT then None else last
  }

  function LastOf(last: Option<nat>, e: Engine, events: seq<Event>): Option<nat>
    decreases |events|
  {
    if events == [] then last else LastOf(LastSince(last, e, events[0]), Next(e, events[0]), events[1..])
  }

  /** The recorded end of the span, and whether there is anything to seal. */
  predicate Tracks(e: Engine, first: Option<nat>, last: Option<nat>) {
    && e.head.last == (if last.Some? then last.value else 0) && (first.Some? <==> last.Some?)
    && (first.Some? <==> e.header.startTxid <= e.head.txid) && e.header.startTxid <= e.head.txid + 1
  }

  lemma NextTracks(e: Engine, first: Option<nat>, last: Option<nat>, v: Event)
    requires Tracks(e, first, last)
    ensures Tracks(Next(e, v), FirstSince(first, e, v), LastSince(last, e, v))
    ensures Next(e, v).base == e.base && Next(e, v).header.policy == e.header.policy
  {
    if v.Commit? && e.sequence + 1 < U64_LIMIT && e.head.txid + 1 < U64_LIMIT {
      assert Advance(e, v.now).sequence != e.sequence;
    }
  }

  /** The bytes of the active file have reached the rollover target. */
  predicate RolledOver(e: Engine) {
    e.header.policy.rollover != 0 && RecordOffset(e.Ps(), e.head.commitEnd) >= e.header.policy.rollover
  }

  /** After every run: at once while a native file is attached or the target is reached, nothing without unsealed
      commits, and otherwise the earlier of the last commit plus the settling time and the first one plus the maximum
      age. */
  lemma {:induction false} DeadlineExact(e: Engine, first: Option<nat>, last: Option<nat>, events: seq<Event>,
                                         schedule: Option<Schedule>, now: nat)
    requires Inv(e, first) && Tracks(e, first, last) && ClockRuns(first, e, events)
    ensures var (t, f, l) := (Run(e, events), FirstOf(first, e, events), LastOf(last, e, events));
      var due := SealDeadline(t, schedule, now);
      && (e.base.SourceBase? || (f.Some? && RolledOver(t)) ==> due == Some(now))
      && (!e.base.SourceBase? && f.None? ==> due.None?)
      && (!e.base.SourceBase? && f.Some? && !RolledOver(t) ==>
          && l.Some? && (due.Some? <==> schedule.Some?)
          && (due.Some? ==>
              && due.value <= l.value + schedule.value.settle && due.value <= f.value + schedule.value.maxAge
              && due.value in {l.value + schedule.value.settle, f.value + schedule.value.maxAge}))
    decreases |events|
  {
    hide Next, FirstSince, LastSince;
    if events != [] {
      NextInv(e, first, events[0]);
      NextTracks(e, first, last, events[0]);
      DeadlineExact(Next(e, events[0]), FirstSince(first, e, events[0]), LastSince(last, e, events[0]), events[1..], schedule, now);
    }
  }

  // The exact condition on the clock

  /** Nothing committed since the last seal, and room for these events. */
  predicate JustSealed(e: Engine, events: nat) {
    e.head.oldest == 0 && e.head.last == 0 && e.sequence + events < U64_LIMIT && e.head.txid + events < U64_LIMIT
  }

  /** Every clock reading is zero. */
  predicate AllZero(events: seq<Event>) {
    forall i | 0 <= i < |events| && events[i].Commit? :: events[i].now == 0
  }

  lemma {:induction false} ZeroStart(e: Engine, events: seq<Event>)
    requires JustSealed(e, |events|) && Seal !in events
    ensures Run(e, events).head.oldest == 0 <==> AllZero(events)
    decreases |events|
  {
    if events != [] {
      var v, rest := events[0], events[1..];
      assert v != Seal;
      assert AllZero(events) <==> (v.Commit? ==> v.now == 0) && AllZero(rest) by {
        assert forall i | 0 <= i < |rest| :: rest[i] == events[i + 1];
        assert forall i | 0 < i < |events| :: events[i] == rest[i - 1];
      }
      if v.Commit? && v.now != 0 {
        SpanPersists(Next(e, v), rest);
      } else {
        ZeroStart(Next(e, v), rest);
      }
    }
  }

  /** The recorded start of the span is the reading at its first commit if and only if that reading was not zero,
      or every later one is zero too. */
  lemma RecordedStartIff(e: Engine, first: u64, events: seq<Event>)
    requires JustSealed(e, |events| + 1) && Seal !in events
    ensures Run(Next(e, Commit(first)), events).head.oldest == first <==> first != 0 || AllZero(events)
  {
    hide Run, AllZero;
    if first != 0 {
      SpanPersists(Next(e, Commit(first)), events);
    } else {
      ZeroStart(Next(e, Commit(first)), events);
    }
  }

  /** Where the schedule decides, the deadline respects the age bound of the first unsealed commit under every
      schedule if and only if the clock met that condition. */
  lemma DeadlineBoundIff(e: Engine, first: u64, events: seq<Event>, now: nat)
    requires JustSealed(e, |events| + 1) && Seal !in events
    requires var t := Run(Next(e, Commit(first)), events);
      !t.base.SourceBase? && t.header.startTxid <= t.head.txid && t.header.policy.rollover == 0
    ensures var t := Run(Next(e, Commit(first)), events);
      && (forall schedule :: SealDeadline(t, Some(schedule), now).Some?)
      && ((forall schedule :: SealDeadline(t, Some(schedule), now).value <= first + schedule.maxAge) <==>
          first != 0 || AllZero(events))
  {
    hide Run, AllZero, Next, JustSealed;
    var t := Run(Next(e, Commit(first)), events);
    RecordedStartIff(e, first, events);
    if t.head.oldest != first {
      var late := Schedule(t.head.oldest, 0);
      assert SealDeadline(t, Some(late), now).value == Min(t.head.last + t.head.oldest, t.head.oldest) == t.head.oldest;
    }
  }

  /** Two commits, the first at a clock that reads zero: the deadline passes the first reading plus the maximum
      age by the whole second reading. */
  lemma ZeroClockPassesBound(e: Engine, second: u64, schedule: Schedule, now: nat)
    requires JustSealed(e, 2) && second != 0 && schedule.settle >= schedule.maxAge
    requires !e.base.SourceBase? && e.header.startTxid <= e.head.txid + 1 && e.header.policy.rollover == 0
    ensures SealDeadline(Next(Next(e, Commit(0)), Commit(second)), Some(schedule), now) == Some(second + schedule.maxAge)
  {
  }
}
