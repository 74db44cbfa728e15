/** Scheduled backups (src/netbbs/backup_schedule.py): the slots of a schedule in a zone, which of them is due,
    and what polls and schedule saves do over time. Instants are integers, dates are ordinals whose day 1
    is a Monday. */
module BackupSchedule {
  import opened Prelude

  type Instant = int
  type Date = int

  /** A time zone: the local date of an instant, and the instant of a local time. */
  datatype Zone = Zone(dateOf: Instant -> Date, instantOf: (Date, int, int) -> Instant)
  {
    /** Local dates never run backwards, and a slot stays on its own date. */
    ghost predicate Sound() {
      && (forall i, j | i <= j :: dateOf(i) <= dateOf(j))
      && (forall d, h, m | 0 <= h <= 23 && 0 <= m <= 59 :: dateOf(instantOf(d, h, m)) == d)
    }
  }

  datatype Frequency = Off | Daily | Weekly

  datatype Schedule = Schedule(frequency: Frequency, hour: int, minute: int, weekday: int, keep: int) {
    predicate Valid() {
      0 <= hour <= 23 && 0 <= minute <= 59 && 0 <= weekday <= 6 && 1 <= keep <= MAX_KEEP
    }

    /** What decides when the schedule runs. */
    function Timing(): (Frequency, int, int, Option<int>) {
      (frequency, hour, minute, if frequency.Weekly? then Some(weekday) else None)
    }

    function Step(): int {
      if frequency.Weekly? then 7 else 1
    }
  }

  const MAX_KEEP := 365
  const DEFAULT_KEEP := 7

  function Weekday(d: Date): int {
    (d + 6) % 7
  }

  // ---- slots ----

  function SlotOn(z: Zone, k: Schedule, d: Date): Instant {
    z.instantOf(d, k.hour, k.minute)
  }

  function LatestSlot(z: Zone, k: Schedule, now: Instant): Option<Instant> {
    if k.frequency.Off? then None
    else
      var today := z.dateOf(now);
      var d := if k.frequency.Weekly? then today - (Weekday(today) - k.weekday) % 7 else today;
      var slot := SlotOn(z, k, d);
      Some(if slot > now then SlotOn(z, k, d - k.Step()) else slot)
  }

  function NextSlot(z: Zone, k: Schedule, now: Instant): Option<Instant> {
    var latest := LatestSlot(z, k, now);
    if latest.None? then None else Some(SlotOn(z, k, z.dateOf(latest.value) + k.Step()))
  }

  /** The days a schedule runs on: every day, or each seventh from its weekday in the week of day 1, a Monday. */
  predicate RunsOn(k: Schedule, d: Date) {
    k.frequency.Daily? || (k.frequency.Weekly? && (d - 1 - k.weekday) % 7 == 0)
  }

  /** `x` is one of the schedule's moments: the hour and minute of a day it runs on. */
  ghost predicate IsSlot(z: Zone, k: Schedule, x: Instant) {
    exists d :: RunsOn(k, d) && x == z.instantOf(d, k.hour, k.minute)
  }

  lemma RunsOnWeekday(k: Schedule, d: Date)
    requires k.Valid()
    ensures RunsOn(k, d) <==> k.frequency.Daily? || (k.frequency.Weekly? && Weekday(d) == k.weekday)
  {
    var week := (d - 1) / 7;
    assert d - 1 == 7 * week + (d - 1) % 7 && d + 6 == 7 * (week + 1) + (d - 1) % 7;
  }

  /** A slot is the scheduled moment of its day, and stays on it. */
  lemma SlotStays(z: Zone, k: Schedule, d: Date)
    requires z.Sound() && k.Valid()
    ensures SlotOn(z, k, d) == z.instantOf(d, k.hour, k.minute) && z.dateOf(SlotOn(z, k, d)) == d
  {
  }

  /** A later date has a later slot. */
  lemma SlotsFollowDates(z: Zone, k: Schedule, d: Date, e: Date)
    requires z.Sound() && k.Valid() && d < e
    ensures SlotOn(z, k, d) < SlotOn(z, k, e)
  {
    assert z.dateOf(SlotOn(z, k, d)) == d && z.dateOf(SlotOn(z, k, e)) == e;
  }

  /** The day `LatestSlot` starts from, and that no running day lies between it and today. */
  lemma StartingDay(k: Schedule, today: Date) returns (d: Date)
    requires k.Valid() && !k.frequency.Off?
    ensures d == if k.frequency.Weekly? then today - (Weekday(today) - k.weekday) % 7 else today
    ensures RunsOn(k, d) && RunsOn(k, d - k.Step()) && d <= today
    ensures forall e | RunsOn(k, e) && e <= today :: e <= d
    ensures forall e | RunsOn(k, e) && e < d :: e <= d - k.Step()
    ensures forall e | RunsOn(k, e) && e > d - k.Step() :: e >= d
    ensures RunsOn(k, d + k.Step()) && forall e | RunsOn(k, e) && e > d :: e >= d + k.Step()
  {
    d := if k.frequency.Weekly? then today - (Weekday(today) - k.weekday) % 7 else today;
    if k.frequency.Weekly? {
      DayOfWeek(today, k.weekday);
      RunsOnWeekday(k, d);
      RunsOnWeekday(k, d - 7);
      RunsOnWeekday(k, d + 7);
      forall e | RunsOn(k, e)
        ensures e <= today ==> e <= d
        ensures e < d ==> e <= d - 7
        ensures e > d - 7 ==> e >= d
        ensures e > d ==> e >= d + 7
      {
        RunsOnWeekday(k, e);
        WeeksApart(e, d);
      }
      WeeksApart(d, d);
      hide Weekday;
    }
  }

  lemma DayOfWeek(today: Date, weekday: int)
    requires 0 <= weekday <= 6
    ensures var d := today - (Weekday(today) - weekday) % 7;
            Weekday(d) == weekday && today - 6 <= d <= today
  {
  }

  lemma WeeksApart(e: Date, d: Date)
    requires Weekday(e) == Weekday(d)
    ensures (e - d) % 7 == 0 && Weekday(d - 7) == Weekday(d) && Weekday(d + 7) == Weekday(d)
    ensures e == d || e <= d - 7 || e >= d + 7
  {
  }

  /** The latest slot is the greatest of the schedule's moments that is not after `now`. */
  lemma LatestIsGreatest(z: Zone, k: Schedule, now: Instant)
    requires z.Sound() && k.Valid()
    ensures LatestSlot(z, k, now).None? <==> k.frequency.Off?
    ensures LatestSlot(z, k, now).Some? ==>
              && IsSlot(z, k, LatestSlot(z, k, now).value) && LatestSlot(z, k, now).value <= now
              && forall y | IsSlot(z, k, y) && y <= now :: y <= LatestSlot(z, k, now).value
  {
    if !k.frequency.Off? {
      var d := StartingDay(k, z.dateOf(now));
      var before := d - k.Step();
      SlotsFollowDates(z, k, before, d);
      assert z.dateOf(SlotOn(z, k, before)) == before;
      if before < z.dateOf(now) {
        assert SlotOn(z, k, before) <= now;
      }
      forall y | IsSlot(z, k, y) && y <= now
        ensures y <= LatestSlot(z, k, now).value
      {
        var e :| RunsOn(k, e) && y == z.instantOf(e, k.hour, k.minute);
        SlotStays(z, k, e);
        assert z.dateOf(y) == e && e <= z.dateOf(now);
        if e < d {
          SlotsFollowDates(z, k, e, d);
          if e < before {
            SlotsFollowDates(z, k, e, before);
          }
        }
      }
    }
  }

  /** The next slot is the least of the schedule's moments after `now`. */
  lemma NextIsLeast(z: Zone, k: Schedule, now: Instant)
    requires z.Sound() && k.Valid()
    ensures NextSlot(z, k, now).None? <==> k.frequency.Off?
    ensures NextSlot(z, k, now).Some? ==>
              && IsSlot(z, k, NextSlot(z, k, now).value) && NextSlot(z, k, now).value > now
              && forall y | IsSlot(z, k, y) && y > now :: NextSlot(z, k, now).value <= y
  {
    LatestIsGreatest(z, k, now);
    if !k.frequency.Off? {
      var latest := LatestSlot(z, k, now).value;
      var d :| RunsOn(k, d) && latest == z.instantOf(d, k.hour, k.minute);
      SlotStays(z, k, d);
      assert z.dateOf(latest) == d;
      var same := StartingDay(k, d);
      var next := d + k.Step();
      SlotsFollowDates(z, k, d, next);
      assert IsSlot(z, k, SlotOn(z, k, next));
      forall y | IsSlot(z, k, y) && y > now
        ensures SlotOn(z, k, next) <= y
      {
        var e :| RunsOn(k, e) && y == z.instantOf(e, k.hour, k.minute);
        SlotStays(z, k, e);
        if e < d {
          SlotsFollowDates(z, k, e, d);
        }
        if e > next {
          SlotsFollowDates(z, k, next, e);
        }
      }
    }
  }

  // ---- what is stored ----

  /** The settings as they are stored; a missing one stands for one that cannot be read. */
  datatype Settings = Settings(
    frequency: Option<Frequency>, time: Option<(int, int)>, weekday: Option<int>, keep: Option<int>)

  function Load(s: Settings): (k: Schedule)
    ensures k.Valid()
  {
    var (hour, minute) := if s.time.Some? && 0 <= s.time.value.0 <= 23 && 0 <= s.time.value.1 <= 59
                          then s.time.value else (3, 0);
    var weekday, keep := s.weekday.GetOr(6), s.keep.GetOr(DEFAULT_KEEP);
    Schedule(s.frequency.GetOr(Off), hour, minute, if 0 <= weekday <= 6 then weekday else 6,
             if 1 <= keep <= MAX_KEEP then keep else DEFAULT_KEEP)
  }

  function Store(k: Schedule): Settings {
    Settings(Some(k.frequency), Some((k.hour, k.minute)), Some(k.weekday), Some(k.keep))
  }

  /** A valid schedule is loaded as it was saved. */
  lemma SaveThenLoad(k: Schedule)
    ensures Load(Store(k)) == k <==> k.Valid()
  {
  }

  /** Each setting that is stored and in range is loaded, whatever the others are; the defaults are off, three
      o'clock, Sunday and seven backups kept. */
  lemma LoadedOneByOne(s: Settings, k: Schedule)
    requires k.Valid()
    ensures Load(Settings(None, None, None, None)) == Schedule(Off, 3, 0, 6, 7)
    ensures s.frequency == Some(k.frequency) ==> Load(s).frequency == k.frequency
    ensures s.time == Some((k.hour, k.minute)) ==> Load(s).hour == k.hour && Load(s).minute == k.minute
    ensures s.weekday == Some(k.weekday) ==> Load(s).weekday == k.weekday
    ensures s.keep == Some(k.keep) ==> Load(s).keep == k.keep
  {
  }

  /** A pass that was started: for which slot, and when. */
  datatype Pass = Pass(slot: Instant, at: Instant)

  /** The stored state, the poll in progress (when it began and the slot it found due), and the passes
      started so far. */
  datatype State = State(
    settings: Settings, handled: Option<Instant>, now: Instant, poll: Option<(Instant, Instant)>, passes: seq<Pass>)

  /** `due_slot`: the slot, if any, and the moment handled afterwards. */
  function Due(
    z: Zone, settings: Settings, handled: Option<Instant>, now: Instant): (Option<Instant>, Option<Instant>)
  {
    var slot := LatestSlot(z, Load(settings), now);
    if slot.None? then (None, handled)
    else if handled.None? then (None, Some(now))
    else (if slot.value > handled.value then slot else None, handled)
  }

  /** A poll finds a slot due exactly when some moment of the schedule lies after the handled one and not
      after now, and then it is the latest of them, however many there are. */
  lemma DueExactly(z: Zone, settings: Settings, handled: Instant, now: Instant)
    requires z.Sound()
    ensures Due(z, settings, Some(handled), now).1 == Some(handled)
    ensures Due(z, settings, Some(handled), now).0.Some? <==>
              exists y :: IsSlot(z, Load(settings), y) && handled < y <= now
    ensures Due(z, settings, Some(handled), now).0.Some? ==>
              var slot := Due(z, settings, Some(handled), now).0.value;
              && IsSlot(z, Load(settings), slot) && handled < slot <= now
              && forall y | IsSlot(z, Load(settings), y) && handled < y <= now :: y <= slot
  {
    LatestIsGreatest(z, Load(settings), now);
    hide LatestSlot, IsSlot;
    if exists y :: IsSlot(z, Load(settings), y) && handled < y <= now {
      var y :| IsSlot(z, Load(settings), y) && handled < y <= now;
      NoSlotWhenOff(z, Load(settings), y);
    }
  }

  lemma NoSlotWhenOff(z: Zone, k: Schedule, y: Instant)
    requires IsSlot(z, k, y)
    ensures !k.frequency.Off?
  {
  }

  class BackupScheduler {
    var settings: Settings
    var handled: Option<Instant>

    constructor ()
      ensures settings == Settings(None, None, None, None) && handled == None
    {
      settings, handled := Settings(None, None, None, None), None;
    }

    /** Refused when the schedule is not valid. */
    method SaveSchedule(k: Schedule, now: Instant) returns (ok: bool)
      modifies this
      ensures ok == k.Valid()
      ensures (settings, handled) == if ok then Saved(old(settings), old(handled), k, now)
                                     else (old(settings), old(handled))
    {
      ok := k.Valid();
      if !ok {
        return;
      }
      var timingChanged := k.Timing() != Load(settings).Timing();
      if timingChanged || handled.None? {
        handled := Some(now);
      }
      settings := Store(k);
    }

    method DueSlot(z: Zone, now: Instant) returns (slot: Option<Instant>)
      modifies `handled
      ensures (slot, handled) == Due(z, settings, old(handled), now)
    {
      slot := LatestSlot(z, Load(settings), now);
      if slot.None? {
        return;
      }
      if handled.None? {
        handled := Some(now);
        return None;
      }
      if slot.value <= handled.value {
        slot := None;
      }
    }

    /** The start of a pass: the slot counts as handled before the work is done. */
    method StartPass(z: Zone, now: Instant) returns (slot: Option<Instant>)
      modifies `handled
      ensures slot == Due(z, settings, old(handled), now).0
      ensures handled == if slot.Some? then Some(now) else Due(z, settings, old(handled), now).1
    {
      slot := DueSlot(z, now);
      if slot.Some? {
        handled := Some(now);
      }
    }
  }

  function Saved(settings: Settings, handled: Option<Instant>, k: Schedule, now: Instant): (Settings, Option<Instant>) {
    (Store(k), if k.Timing() != Load(settings).Timing() || handled.None? then Some(now) else handled)
  }

  // ---- polls and saves over time ----

  datatype Action =
    | Tick(elapsed: nat)
    | Poll
    | Mark
    | Save(schedule: Schedule)
    | Restart

  /** A poll runs in a worker: it reads, and marks what it found as handled, and a save may come in between.
      There is one poll at a time. */
  predicate Enabled(s: State, a: Action) {
    match a
    case Poll => s.poll.None?
    case Mark => s.poll.Some?
    case Save(k) => k.Valid()
    case _ => true
  }

  function Next(z: Zone, s: State, a: Action): State
    requires Enabled(s, a)
  {
    match a
    case Tick(elapsed) => s.(now := s.now + elapsed)
    case Poll =>
      var (slot, handled) := Due(z, s.settings, s.handled, s.now);
      s.(handled := handled, poll := if slot.Some? then Some((s.now, slot.value)) else None)
    case Mark =>
      s.(handled := Some(s.poll.value.0), poll := None, passes := s.passes + [Pass(s.poll.value.1, s.poll.value.0)])
    case Save(k) =>
      var (settings, handled) := Saved(s.settings, s.handled, k, s.now);
      s.(settings := settings, handled := handled)
    case Restart => s.(poll := None)
  }

  ghost predicate Legal(z: Zone, s: State, run: seq<Action>)
    decreases |run|
  {
    run == [] || (Enabled(s, run[0]) && Legal(z, Next(z, s, run[0]), run[1..]))
  }

  ghost function Run(z: Zone, s: State, run: seq<Action>): State
    requires Legal(z, s, run)
    decreases |run|
  {
    if run == [] then s else Run(z, Next(z, s, run[0]), run[1..])
  }

  /** The passes are for later and later slots, each after the moment the pass before it was started; no
      pass was started after the moment that counts as handled, and the poll in progress is later than all. */
  ghost predicate Inv(s: State) {
    && (forall i, j | 0 <= i < j < |s.passes| :: s.passes[i].at < s.passes[j].slot)
    && (forall i | 0 <= i < |s.passes| :: s.passes[i].slot <= s.passes[i].at)
    && (s.passes != [] ==> s.handled.Some?)
    && (s.handled.Some? ==> s.handled.value <= s.now)
    && (forall i | 0 <= i < |s.passes| :: s.passes[i].at <= s.handled.value)
    && (s.poll.Some? ==> s.handled.Some? && s.poll.value.1 <= s.poll.value.0 <= s.now)
    && (s.poll.Some? ==> forall i | 0 <= i < |s.passes| :: s.passes[i].at < s.poll.value.1)
  }

  lemma StepKeeps(z: Zone, s: State, a: Action)
    requires z.Sound() && Inv(s) && Enabled(s, a)
    ensures Inv(Next(z, s, a))
  {
    if a.Poll? {
      LatestIsGreatest(z, Load(s.settings), s.now);
    }
    hide LatestSlot;
  }

  lemma {:induction false} RunKeeps(z: Zone, s: State, run: seq<Action>)
    requires z.Sound() && Inv(s) && Legal(z, s, run)
    ensures Inv(Run(z, s, run))
    decreases |run|
  {
    if run != [] {
      StepKeeps(z, s, run[0]);
      RunKeeps(z, Next(z, s, run[0]), run[1..]);
    }
  }

  /** A node as it starts: nothing is under way or done, and what counts as handled is past. */
  predicate Starting(s: State) {
    s.poll.None? && s.passes == [] && (s.handled.Some? ==> s.handled.value <= s.now)
  }

  lemma InitiallyHolds(s: State)
    requires Starting(s)
    ensures Inv(s)
  {
  }

  /** So every state that a run reaches from there is one that the theorems below are about. */
  lemma EveryRunKeeps(z: Zone, s: State, run: seq<Action>)
    requires z.Sound() && Starting(s) && Legal(z, s, run)
    ensures Inv(Run(z, s, run))
  {
    InitiallyHolds(s);
    RunKeeps(z, s, run);
  }

  /** In any run each slot starts at most one pass, and the slots missed between two passes start none of their
      own, even when a save falls between a poll's reading and its marking. */
  lemma OnePassASlot(z: Zone, s: State, run: seq<Action>, i: nat, j: nat)
    requires z.Sound() && Inv(s) && Legal(z, s, run) && i < j < |Run(z, s, run).passes|
    ensures var passes := Run(z, s, run).passes; passes[i].slot <= passes[i].at < passes[j].slot
  {
    RunKeeps(z, s, run);
  }

  /** Since `since`, at which `count` passes had been started, whatever counts as handled, is being polled, or was
      started lies later. */
  ghost predicate Forward(s: State, since: Instant, count: nat) {
    && s.handled.Some? && s.handled.value >= since && count <= |s.passes|
    && (s.poll.Some? ==> s.poll.value.0 >= since && s.poll.value.1 > since)
    && forall i | count <= i < |s.passes| :: s.passes[i].slot > since
  }

  lemma {:induction false} StaysForward(z: Zone, s: State, run: seq<Action>, since: Instant, count: nat)
    requires z.Sound() && Inv(s) && Legal(z, s, run) && Forward(s, since, count)
    ensures Forward(Run(z, s, run), since, count)
    decreases |run|
  {
    if run != [] {
      StepKeeps(z, s, run[0]);
      StaysForward(z, Next(z, s, run[0]), run[1..], since, count);
    }
  }

  /** However many slots were missed, one pass catches up, for the latest, and then nothing is due. */
  lemma OneCatchUp(z: Zone, s: State, missed: Instant)
    requires z.Sound() && Inv(s) && s.poll.None? && s.handled.Some?
    requires IsSlot(z, Load(s.settings), missed) && s.handled.value < missed <= s.now
    ensures Next(z, s, Poll).poll.Some?
    ensures var t := Next(z, Next(z, s, Poll), Mark);
            && |t.passes| == |s.passes| + 1 && t.passes[..|s.passes|] == s.passes
            && t.passes[|s.passes|].at == s.now
            && IsSlot(z, Load(s.settings), t.passes[|s.passes|].slot)
            && missed <= t.passes[|s.passes|].slot <= s.now
            && (forall later: nat | (forall y | IsSlot(z, Load(s.settings), y) && y > s.now :: y > s.now + later) ::
                  Next(z, Next(z, t, Tick(later)), Poll).poll.None?)
  {
    DueExactly(z, s.settings, s.handled.value, s.now);
    hide Due, IsSlot;
    var t := Next(z, Next(z, s, Poll), Mark);
    forall later: nat | forall y | IsSlot(z, Load(s.settings), y) && y > s.now :: y > s.now + later
      ensures Next(z, Next(z, t, Tick(later)), Poll).poll.None?
    {
      DueExactly(z, t.settings, s.now, s.now + later);
    }
  }

  /** Since a save at `since`, at which `count` passes had been started and a poll was under way: its mark and the
      next poll may still look back, and nobody after them. */
  ghost predicate SoonForward(s: State, since: Instant, count: nat) {
    && s.handled.Some? && s.now >= since
    && (forall i | count + 2 <= i < |s.passes| :: s.passes[i].slot > since)
    && (|| (s.handled.value >= since && (s.poll.Some? ==> s.poll.value.0 >= since && s.poll.value.1 > since))
        || (s.handled.value >= since && s.poll.Some? && |s.passes| == count)
        || (s.poll.None? && |s.passes| == count + 1)
        || (s.poll.Some? && s.poll.value.0 >= since && |s.passes| == count + 1))
  }

  lemma {:induction false} StaysSoonForward(z: Zone, s: State, run: seq<Action>, since: Instant, count: nat)
    requires z.Sound() && Inv(s) && Legal(z, s, run) && SoonForward(s, since, count)
    ensures SoonForward(Run(z, s, run), since, count)
    decreases |run|
  {
    if run != [] {
      StepKeeps(z, s, run[0]);
      StaysSoonForward(z, Next(z, s, run[0]), run[1..], since, count);
    }
  }

  /** Two schedules mean the same moments: the same frequency and time, and, if weekly, the same day. */
  predicate SameMoments(k: Schedule, l: Schedule) {
    && k.frequency == l.frequency && k.hour == l.hour && k.minute == l.minute
    && (k.frequency.Weekly? ==> k.weekday == l.weekday)
  }

  /** What a save leaves: the schedule as given, and what was handled, unless the moments change or nothing was;
      then everything up to now counts as handled. */
  lemma SaveCounts(z: Zone, s: State, k: Schedule)
    requires k.Valid()
    ensures var s' := Next(z, s, Save(k));
            && Load(s'.settings) == k && s' == s.(settings := s'.settings, handled := s'.handled)
            && s'.handled == if SameMoments(k, Load(s.settings)) && s.handled.Some? then s.handled else Some(s.now)
  {
    SaveThenLoad(k);
    hide Load, Store;
  }

  /** A node on which nothing was handled yet catches up on nothing: its first poll starts counting from now. */
  lemma FirstPollCounts(z: Zone, s: State)
    requires z.Sound() && s.handled.None? && Enabled(s, Poll)
    ensures Next(z, s, Poll) == if Load(s.settings).frequency.Off? then s else s.(handled := Some(s.now))
  {
    LatestIsGreatest(z, Load(s.settings), s.now);
    hide LatestSlot, Load;
  }

  /** A save that changes the moments never fires for one that was past when it was saved, whatever comes
      later, but for the pass of a poll that is under way and the one after it. */
  lemma NewTimingIsForward(z: Zone, s: State, k: Schedule, run: seq<Action>, i: nat)
    requires z.Sound() && Inv(s) && Enabled(s, Save(k))
    requires !SameMoments(k, Load(s.settings)) && Legal(z, Next(z, s, Save(k)), run)
    requires |s.passes| + (if s.poll.Some? then 2 else 0) <= i < |Run(z, Next(z, s, Save(k)), run).passes|
    ensures Run(z, Next(z, s, Save(k)), run).passes[i].slot > s.now
  {
    StepKeeps(z, s, Save(k));
    SaveCounts(z, s, k);
    hide SameMoments;
    if s.poll.None? {
      StaysForward(z, Next(z, s, Save(k)), run, s.now, |s.passes|);
    } else {
      StaysSoonForward(z, Next(z, s, Save(k)), run, s.now, |s.passes|);
    }
  }

  /** A schedule's slots are its moments. */
  lemma SameMomentsSameSlot(z: Zone, k: Schedule, l: Schedule, now: Instant)
    requires SameMoments(k, l)
    ensures LatestSlot(z, k, now) == LatestSlot(z, l, now)
  {
  }

  /** A save that leaves the moments as they are leaves due what was due, and nothing else. */
  lemma KeepOnlyLeavesDue(z: Zone, s: State, k: Schedule)
    requires z.Sound() && k.Valid()
    requires k.frequency == Load(s.settings).frequency
    requires k.hour == Load(s.settings).hour && k.minute == Load(s.settings).minute
    requires k.frequency.Weekly? ==> k.weekday == Load(s.settings).weekday
    ensures var s' := Next(z, s, Save(k));
            Due(z, s'.settings, s'.handled, s.now).0 == Due(z, s.settings, s.handled, s.now).0
  {
    SaveCounts(z, s, k);
    SameMomentsSameSlot(z, k, Load(s.settings), s.now);
    LatestIsGreatest(z, k, s.now);
    hide LatestSlot, Load, Store;
  }

  /** So a save of another Keep alone does. */
  lemma KeepAloneLeavesDue(z: Zone, s: State, keep: int)
    requires z.Sound() && 1 <= keep <= MAX_KEEP
    ensures var k := Load(s.settings).(keep := keep);
            var s' := Next(z, s, Save(k));
            && k.Valid() && Load(s'.settings) == k
            && Due(z, s'.settings, s'.handled, s.now).0 == Due(z, s.settings, s.handled, s.now).0
            && (s.handled.Some? ==> s'.handled == s.handled)
  {
    var k := Load(s.settings).(keep := keep);
    hide Load, Next;
    SaveCounts(z, s, k);
    KeepOnlyLeavesDue(z, s, k);
  }

  // ---- a save in the middle of a poll ----

  /** The state in which the poll after next ends, when a save falls into a poll that marks `d` later, and the next
      poll comes `e` after that. */
  function PolledAgain(z: Zone, s: State, k: Schedule, d: nat, e: nat): State
    requires s.poll.Some? && k.Valid()
  {
    var saved := Next(z, s, Save(k));
    var marked := Next(z, Next(z, saved, Tick(d)), Mark);
    Next(z, Next(z, marked, Tick(e)), Poll)
  }

  /** A save that changes the timing while a poll is between reading and marking can fire for the past: the mark
      takes the handled moment back to the poll's. However long the mark and the next poll take, that poll
      finds a slot that was past when the schedule was saved exactly when the new schedule has one since the
      first poll began and none since the save. */
  lemma SaveDuringPoll(z: Zone, s: State, k: Schedule, d: nat, e: nat)
    requires z.Sound() && Inv(s) && s.poll.Some? && k.Valid()
    ensures var t := PolledAgain(z, s, k, d, e);
            t.poll.Some? && t.poll.value.1 <= s.now <==>
              && (exists y :: IsSlot(z, k, y) && s.poll.value.0 < y <= s.now)
              && (forall y | IsSlot(z, k, y) :: !(s.now < y <= s.now + d + e))
  {
    SaveThenLoad(k);
    hide Load, Store, LatestSlot, IsSlot;
    DueExactly(z, Store(k), s.poll.value.0, s.now + d + e);
  }

  /** Days of 1440 minutes, and no transitions. */
  function Utc(): Zone {
    Zone((i: Instant) => i / 1440, (d: Date, h: int, m: int) => 1440 * d + 60 * h + m)
  }

  lemma UtcIsSound()
    ensures Utc().Sound()
  {
  }

  /** A node on which nothing was ever saved. */
  const UNTOUCHED := State(Settings(None, None, None, None), None, 0, None, [])

  const AT_TEN := Schedule(Daily, 0, 10, 6, 7)
  const AT_HALF_PAST := Schedule(Daily, 0, 30, 6, 7)

  /** Backups at ten past midnight; at minute 20 a poll begins, and at minute 40, before it has marked its slot,
      they are moved to half past. */
  const SAVED_DURING_POLL := [Save(AT_TEN), Tick(20), Poll, Tick(20)]

  lemma DuringPoll()
    ensures Legal(Utc(), UNTOUCHED, SAVED_DURING_POLL)
    ensures Run(Utc(), UNTOUCHED, SAVED_DURING_POLL)
         == State(Store(AT_TEN), Some(0), 40, Some((20, 10)), [])
  {
    var s1 := Next(Utc(), UNTOUCHED, Save(AT_TEN));
    assert s1 == State(Store(AT_TEN), Some(0), 0, None, []);
    var s2 := Next(Utc(), s1, Tick(20));
    var s3 := Next(Utc(), s2, Poll);
    assert LatestSlot(Utc(), AT_TEN, 20) == Some(10);
    assert s3 == State(Store(AT_TEN), Some(0), 20, Some((20, 10)), []);
    var s4 := Next(Utc(), s3, Tick(20));
    assert SAVED_DURING_POLL[1..] == [Tick(20), Poll, Tick(20)];
    assert SAVED_DURING_POLL[1..][1..] == [Poll, Tick(20)];
    assert SAVED_DURING_POLL[1..][1..][1..] == [Tick(20)];
    assert SAVED_DURING_POLL[1..][1..][1..][1..] == [];
    assert Legal(Utc(), s4, []) && Run(Utc(), s4, []) == s4;
    assert Legal(Utc(), s3, [Tick(20)]) && Run(Utc(), s3, [Tick(20)]) == s4;
    assert Legal(Utc(), s2, [Poll, Tick(20)]) && Run(Utc(), s2, [Poll, Tick(20)]) == s4;
    assert Legal(Utc(), s1, [Tick(20), Poll, Tick(20)]) && Run(Utc(), s1, [Tick(20), Poll, Tick(20)]) == s4;
  }

  lemma HalfPastIsSlot()
    ensures IsSlot(Utc(), AT_HALF_PAST, 30)
  {
    var d := 0;
    assert RunsOn(AT_HALF_PAST, d) && SlotOn(Utc(), AT_HALF_PAST, d) == 30;
  }

  lemma HalfPastIsAnother(s: State)
    requires s == State(Store(AT_TEN), Some(0), 40, Some((20, 10)), [])
    ensures AT_HALF_PAST.Valid() && !SameMoments(AT_HALF_PAST, Load(s.settings)) && Inv(s)
  {
    SaveThenLoad(AT_TEN);
  }

  lemma HalfPastFires(s: State)
    requires s == State(Store(AT_TEN), Some(0), 40, Some((20, 10)), [])
    ensures AT_HALF_PAST.Valid() && !SameMoments(AT_HALF_PAST, Load(s.settings))
    ensures var t := PolledAgain(Utc(), s, AT_HALF_PAST, 0, 0); t.poll.Some? && t.poll.value.1 <= s.now
  {
    hide Utc, PolledAgain, IsSlot, Store, Load, Inv, Zone.Sound;
    UtcIsSound();
    HalfPastIsSlot();
    HalfPastIsAnother(s);
    SaveDuringPoll(Utc(), s, AT_HALF_PAST, 0, 0);
  }

  /** From a fresh node to a backup for a moment that was past when the schedule was saved. */
  lemma SaveFiresForThePast()
    ensures Utc().Sound() && Legal(Utc(), UNTOUCHED, SAVED_DURING_POLL)
    ensures var s := Run(Utc(), UNTOUCHED, SAVED_DURING_POLL);
            && s.poll.Some? && AT_HALF_PAST.Valid() && !SameMoments(AT_HALF_PAST, Load(s.settings))
            && var t := PolledAgain(Utc(), s, AT_HALF_PAST, 0, 0);
            t.poll.Some? && t.poll.value.1 <= s.now
  {
    hide Run, Legal, Load, PolledAgain;
    UtcIsSound();
    DuringPoll();
    HalfPastFires(Run(Utc(), UNTOUCHED, SAVED_DURING_POLL));
  }
}
