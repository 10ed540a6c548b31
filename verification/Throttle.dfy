// Rate limiting of progress reports (aetherlink-core progress.rs): many workers call
// `on_progress` at once, and a compare-exchange on the time of the last report decides
// who emits. Clock read, load and compare-exchange are separate steps of each call.

module Throttle {
  import opened Base

  /** "No update has been emitted yet". */
  const NEVER: u64 := U64_MAX

  /** One call of `on_progress`, from entry to return. */
  datatype Call =
    | Entered(final: bool)
    | Timed(final: bool, now: u64)
    | Loaded(now: u64, seen: u64)     // not final; `seen` is what the load returned
    | Won(final: bool)                // passed every check, has not called the inner sink yet
    | Returned(final: bool, emitted: bool)

  /** `stored` is history: the values compare-exchanged into `last`, in order; `reports` counts the
      non-final updates handed to the inner sink. */
  datatype State = State(clock: u64, last: u64, calls: seq<Call>, stored: seq<u64>, reports: nat)

  datatype Step = Tick(to: u64) | Call(done: u64, total: u64) | ReadClock(k: nat) | Load(k: nat) | Decide(k: nat)
    | Emit(k: nat)

  predicate Init(s: State) {
    s.last == NEVER && s.calls == [] && s.stored == [] && s.reports == 0
  }

  /** The update is the last one: it must land regardless of timing. */
  function IsFinal(done: u64, total: u64): bool { total > 0 && done >= total }

  /** `last != NEVER && now.saturating_sub(last) < interval`. */
  predicate TooSoon(now: u64, seen: u64, interval: nat) {
    seen != NEVER && SaturatingSub(now, seen) < interval
  }

  function Put(s: State, k: nat, c: Call): State
    requires k < |s.calls|
  {
    s.(calls := s.calls[k := c])
  }

  /** The early return or the compare-exchange, for a call that has loaded `seen`. */
  function Decided(s: State, k: nat, interval: nat): State
    requires k < |s.calls| && s.calls[k].Loaded?
  {
    var c := s.calls[k];
    if TooSoon(c.now, c.seen, interval) then Put(s, k, Returned(false, false))
    else if s.last != c.seen then Put(s, k, Returned(false, false))
    else Put(s, k, Won(false)).(last := c.now, stored := s.stored + [c.now])
  }

  predicate Next(interval: nat, s: State, s': State, step: Step) {
    match step
    case Tick(to) => s.clock <= to < NEVER && s' == s.(clock := to)
    case Call(done, total) => s' == s.(calls := s.calls + [Entered(IsFinal(done, total))])
    case ReadClock(k) =>
      k < |s.calls| && s.calls[k].Entered? && s' == Put(s, k, Timed(s.calls[k].final, s.clock))
    case Load(k) =>   // a final call skips the load
      && k < |s.calls| && s.calls[k].Timed?
      && s' == Put(s, k, if s.calls[k].final then Won(true) else Loaded(s.calls[k].now, s.last))
    case Decide(k) =>
      k < |s.calls| && s.calls[k].Loaded? && s' == Decided(s, k, interval)
    case Emit(k) =>
      && k < |s.calls| && s.calls[k].Won?
      && s' == Put(s, k, Returned(s.calls[k].final, true)).(reports := s.reports + if s.calls[k].final then 0 else 1)
  }

  ghost predicate IsRun(interval: nat, states: seq<State>, steps: seq<Step>) {
    && |states| == |steps| + 1 && Init(states[0]) && states[0].clock < NEVER
    && forall i :: 0 <= i < |steps| ==> Next(interval, states[i], states[i + 1], steps[i])
  }

  // ----- invariant -----------------------------------------------------------------------

  /** Successive values are at least `interval` apart. */
  ghost predicate Spaced(stored: seq<u64>, interval: nat) {
    forall i :: 0 < i < |stored| ==> stored[i - 1] + interval <= stored[i]
  }

  ghost predicate CallInv(s: State, c: Call) {
    match c
    case Timed(_, now) => now <= s.clock
    case Loaded(now, seen) => now <= s.clock && (seen != NEVER ==> s.stored != [])
    case Returned(final, emitted) => (final ==> emitted) && (!emitted ==> s.stored != [])
    case _ => true
  }

  /** Calls that stored their time and have yet to report it. */
  ghost function Winners(calls: seq<Call>): nat {
    if calls == [] then 0 else (if calls[0] == Won(false) then 1 else 0) + Winners(calls[1..])
  }

  ghost predicate Inv(interval: nat, s: State) {
    && s.clock < NEVER
    && (s.last == if s.stored == [] then NEVER else s.stored[|s.stored| - 1])
    && (forall i :: 0 <= i < |s.stored| ==> s.stored[i] <= s.clock)
    && (forall k :: 0 <= k < |s.calls| ==> CallInv(s, s.calls[k]))
    && s.reports + Winners(s.calls) == |s.stored|
    && (interval > 0 ==> Spaced(s.stored, interval))
  }

  lemma {:induction false} WinnersUpdate(calls: seq<Call>, k: nat, c: Call)
    requires k < |calls|
    ensures Winners(calls[k := c]) + (if calls[k] == Won(false) then 1 else 0)
         == Winners(calls) + (if c == Won(false) then 1 else 0)
  {
    if k == 0 {
      assert calls[k := c][1..] == calls[1..];
    } else {
      WinnersUpdate(calls[1..], k - 1, c);
      assert calls[k := c][1..] == calls[1..][k - 1 := c];
    }
  }

  lemma {:induction false} WinnersPush(calls: seq<Call>, final: bool)
    ensures Winners(calls + [Entered(final)]) == Winners(calls)
  {
    if calls == [] {
      assert calls + [Entered(final)] == [Entered(final)] && [Entered(final)][1..] == [];
    } else {
      WinnersPush(calls[1..], final);
      assert (calls + [Entered(final)])[1..] == calls[1..] + [Entered(final)];
    }
  }

  /** What holds of one call keeps holding while the clock and the history only grow. */
  lemma CallKeeps(s: State, s': State, c: Call)
    requires CallInv(s, c) && s.clock <= s'.clock && (s.stored != [] ==> s'.stored != [])
    ensures CallInv(s', c)
  {
  }

  lemma DecideKeepsInv(interval: nat, s: State, k: nat)
    requires Inv(interval, s) && k < |s.calls| && s.calls[k].Loaded?
    ensures Inv(interval, Decided(s, k, interval))
  {
    hide CallInv;
    var s', c := Decided(s, k, interval), s.calls[k];
    LoadedHas(s, c);
    OutcomesOk(s');
    WinnersUpdate(s.calls, k, s'.calls[k]);
    forall j | 0 <= j < |s'.calls|
      ensures CallInv(s', s'.calls[j])
    {
      if j != k { CallKeeps(s, s', s.calls[j]); }
    }
  }

  lemma LoadedHas(s: State, c: Call)
    requires CallInv(s, c)
    ensures c.Loaded? ==> c.now <= s.clock && (c.seen != NEVER ==> s.stored != [])
  {
  }

  lemma OutcomesOk(s: State)
    ensures CallInv(s, Won(false)) && (s.stored != [] ==> CallInv(s, Returned(false, false)))
  {
  }

  /** A call moves on without touching the shared word. */
  lemma MoveKeepsInv(interval: nat, s: State, s': State, k: nat, c: Call)
    requires Inv(interval, s) && k < |s.calls| && s' == Put(s, k, c).(reports := s'.reports) && CallInv(s', c)
    requires s'.reports + (if c == Won(false) then 1 else 0) == s.reports + (if s.calls[k] == Won(false) then 1 else 0)
    ensures Inv(interval, s')
  {
    hide CallInv;
    WinnersUpdate(s.calls, k, c);
    forall j | 0 <= j < |s'.calls|
      ensures CallInv(s', s'.calls[j])
    {
      if j != k { CallKeeps(s, s', s.calls[j]); }
    }
  }

  lemma NextKeepsInv(interval: nat, s: State, s': State, step: Step)
    requires Inv(interval, s) && Next(interval, s, s', step)
    ensures Inv(interval, s')
  {
    hide Spaced;
    match step {
      case Tick(_) =>
      case Call(done, total) => WinnersPush(s.calls, IsFinal(done, total));
      case ReadClock(k) => MoveKeepsInv(interval, s, s', k, s'.calls[k]);
      case Load(k) => MoveKeepsInv(interval, s, s', k, s'.calls[k]);
      case Decide(k) => DecideKeepsInv(interval, s, k);
      case Emit(k) => MoveKeepsInv(interval, s, s', k, s'.calls[k]);
    }
  }

  lemma {:induction false} RunKeepsInv(interval: nat, states: seq<State>, steps: seq<Step>, i: nat)
    requires IsRun(interval, states, steps) && i < |states|
    ensures Inv(interval, states[i])
  {
    hide Inv, Next;
    if i == 0 {
      assert Inv(interval, states[0]) by { InitHasInv(interval, states[0]); }
    } else {
      RunKeepsInv(interval, states, steps, i - 1);
      NextKeepsInv(interval, states[i - 1], states[i], steps[i - 1]);
    }
  }

  lemma InitHasInv(interval: nat, s: State)
    requires Init(s) && s.clock < NEVER
    ensures Inv(interval, s)
  {
  }

  // ----- what the throttle promises -----------------------------------------------------------

  lemma {:induction false} SpacedSpan(stored: seq<u64>, interval: nat, n: nat)
    requires Spaced(stored, interval) && n < |stored|
    ensures stored[0] + n * interval <= stored[n]
  {
    if n > 0 {
      SpacedSpan(stored, interval, n - 1);
      assert n * interval == (n - 1) * interval + interval;
    }
  }

  /** Under every interleaving the stored times are at least an interval apart, and so the number of
      non-final reports is at most one more than the intervals that have elapsed. */
  lemma RateIsBounded(interval: nat, states: seq<State>, steps: seq<Step>, i: nat)
    requires interval > 0 && IsRun(interval, states, steps) && i < |states|
    ensures Spaced(states[i].stored, interval)
    ensures states[i].reports > 0 ==> (states[i].reports - 1) * interval <= states[i].clock
  {
    RunKeepsInv(interval, states, steps, i);
    var s := states[i];
    if s.reports > 0 {
      SpacedSpan(s.stored, interval, s.reports - 1);
      assert s.stored[s.reports - 1] <= s.clock;
    }
  }

  ghost predicate NonePending(s: State) {
    forall k :: 0 <= k < |s.calls| ==> s.calls[k].Returned?
  }

  ghost predicate SomeEmitted(s: State) {
    exists k :: 0 <= k < |s.calls| && s.calls[k].Returned? && s.calls[k].emitted
  }

  /** Every final update that has returned was emitted, and once calls have been made and none is
      pending, at least one update was: the losers of a race always leave a winner behind. */
  lemma SomethingIsReported(interval: nat, states: seq<State>, steps: seq<Step>, i: nat)
    requires IsRun(interval, states, steps) && i < |states|
    ensures forall k :: 0 <= k < |states[i].calls| && states[i].calls[k].Returned? && states[i].calls[k].final
              ==> states[i].calls[k].emitted
    ensures states[i].calls != [] && NonePending(states[i]) ==> states[i].reports > 0 || SomeEmitted(states[i])
  {
    RunKeepsInv(interval, states, steps, i);
    var s := states[i];
    forall k | 0 <= k < |s.calls| && s.calls[k].Returned? && s.calls[k].final
      ensures s.calls[k].emitted
    {
      assert CallInv(s, s.calls[k]);
    }
    if s.calls != [] && NonePending(s) {
      NoWinners(s.calls);
      assert CallInv(s, s.calls[0]);
      if s.calls[0].emitted { assert SomeEmitted(s); }
    }
  }

  lemma {:induction false} NoWinners(calls: seq<Call>)
    requires forall k :: 0 <= k < |calls| ==> calls[k].Returned?
    ensures Winners(calls) == 0
  {
    if calls != [] { NoWinners(calls[1..]); }
  }

  /** A run goes on by any step that is enabled in its last state. */
  lemma Extended(interval: nat, states: seq<State>, steps: seq<Step>, s': State, step: Step)
    returns (states': seq<State>, steps': seq<Step>)
    requires IsRun(interval, states, steps) && Next(interval, states[|steps|], s', step)
    ensures IsRun(interval, states', steps') && states'[|steps'|] == s'
  {
    hide Next;
    states', steps' := states + [s'], steps + [step];
    forall i | 0 <= i < |steps'|
      ensures Next(interval, states'[i], states'[i + 1], steps'[i])
    {
      if i < |steps| { assert states'[i] == states[i] && states'[i + 1] == states[i + 1]; }
    }
  }

  /** Two calls enter; the first reads the clock, the second reads it later. */
  lemma TwoReaders() returns (states: seq<State>, steps: seq<Step>)
    ensures IsRun(0, states, steps)
    ensures states[|steps|] == State(5, NEVER, [Timed(false, 0), Timed(false, 5)], [], 0)
  {
    hide IsRun;
    var s := State(0, NEVER, [], [], 0);
    states, steps := [s], [];
    assert IsRun(0, states, steps) by { StartsRun(s); }
    s := s.(calls := [Entered(false)]);
    states, steps := Extended(0, states, steps, s, Call(0, 9));
    s := s.(calls := [Entered(false), Entered(false)]);
    states, steps := Extended(0, states, steps, s, Call(0, 9));
    s := s.(calls := [Timed(false, 0), Entered(false)]);
    states, steps := Extended(0, states, steps, s, ReadClock(0));
    s := s.(clock := 5);
    states, steps := Extended(0, states, steps, s, Tick(5));
    s := s.(calls := [Timed(false, 0), Timed(false, 5)]);
    states, steps := Extended(0, states, steps, s, ReadClock(1));
  }

  lemma StartsRun(s: State)
    requires Init(s) && s.clock < NEVER
    ensures IsRun(0, [s], [])
  {
  }

  // ----- calls by their arguments -------------------------------------------------------------

  /** Whether a call was taken for the final one. */
  function Flag(c: Call): bool {
    match c
    case Entered(final) => final
    case Timed(final, _) => final
    case Loaded(_, _) => false
    case Won(final) => final
    case Returned(final, _) => final
  }

  lemma FlagStays(interval: nat, s: State, s': State, step: Step, k: nat)
    requires Next(interval, s, s', step) && k < |s.calls|
    ensures k < |s'.calls| && Flag(s'.calls[k]) == Flag(s.calls[k])
  {
  }

  lemma {:induction false} FlagOfRun(interval: nat, states: seq<State>, steps: seq<Step>, i: nat, j: nat, k: nat)
    requires IsRun(interval, states, steps) && i <= j < |states| && k < |states[i].calls|
    ensures k < |states[j].calls| && Flag(states[j].calls[k]) == Flag(states[i].calls[k])
    decreases j
  {
    hide Next;
    if i < j {
      FlagOfRun(interval, states, steps, i, j - 1, k);
      FlagStays(interval, states[j - 1], states[j], steps[j - 1], k);
    }
  }

  /** An update that reports completion (a positive total, all of it done) is emitted, however soon it
      comes after the last one and whatever other calls are doing. */
  lemma CompletionIsReported(interval: nat, states: seq<State>, steps: seq<Step>, i: nat, j: nat, done: u64, total: u64)
    requires IsRun(interval, states, steps) && i < j < |states| && steps[i] == Call(done, total)
    requires total > 0 && done >= total
    ensures |states[i].calls| < |states[j].calls|
    ensures
      var c := states[j].calls[|states[i].calls|];
      && (c.Returned? ==> c.emitted)
      && (c.Returned? || c.Won? || c.Timed? || c.Entered?)
  {
    hide Inv;
    var k := |states[i].calls|;
    assert Next(interval, states[i], states[i + 1], steps[i]);
    FlagOfRun(interval, states, steps, i + 1, j, k);
    SomethingIsReported(interval, states, steps, j);
  }

  /** Step `m` of the run stored the time call `k` read. */
  ghost predicate StoredAt(states: seq<State>, steps: seq<Step>, k: nat, m: nat)
    requires |states| == |steps| + 1
  {
    && m < |steps| && steps[m] == Decide(k) && k < |states[m].calls| && states[m].calls[k].Loaded?
    && states[m + 1].stored == states[m].stored + [states[m].calls[k].now]
      && states[m + 1].last == states[m].calls[k].now
  }

  /** Any other update that is emitted, or about to be, has stored its time. */
  lemma {:induction false} OthersStoreTheirTime(interval: nat, states: seq<State>, steps: seq<Step>, i: nat, j: nat,
                                                k: nat)
    requires IsRun(interval, states, steps) && i <= j < |states| && k < |states[i].calls|
    requires !Flag(states[i].calls[k]) && (states[i].calls[k].Entered?)
    ensures k < |states[j].calls|
    ensures states[j].calls[k].Won? || (states[j].calls[k].Returned? && states[j].calls[k].emitted) ==>
              exists m :: i <= m < j && StoredAt(states, steps, k, m)
    decreases j
  {
    hide StoredAt, Next;
    if i < j {
      OthersStoreTheirTime(interval, states, steps, i, j - 1, k);
      FlagOfRun(interval, states, steps, i, j - 1, k);
      var s, s', step := states[j - 1], states[j], steps[j - 1];
      FlagOfRun(interval, states, steps, i, j, k);
      if (s'.calls[k].Won? || (s'.calls[k].Returned? && s'.calls[k].emitted))
        && !(s.calls[k].Won? || (s.calls[k].Returned? && s.calls[k].emitted))
      {
        OnlyDecideWins(interval, states, steps, j - 1, k);
      }
    }
  }

  lemma OnlyDecideWins(interval: nat, states: seq<State>, steps: seq<Step>, m: nat, k: nat)
    requires |states| == |steps| + 1 && m < |steps| && Next(interval, states[m], states[m + 1], steps[m])
    requires k < |states[m].calls| && k < |states[m + 1].calls| && !Flag(states[m].calls[k])
    requires states[m + 1].calls[k].Won? || (states[m + 1].calls[k].Returned? && states[m + 1].calls[k].emitted)
    requires !(states[m].calls[k].Won? || (states[m].calls[k].Returned? && states[m].calls[k].emitted))
    ensures StoredAt(states, steps, k, m)
  {
  }

  /** The same by arguments: an update that does not report completion is emitted only after its own
      clock reading has been stored. */
  lemma ProgressStoresItsTime(interval: nat, states: seq<State>, steps: seq<Step>, i: nat, j: nat, done: u64,
                              total: u64)
    requires IsRun(interval, states, steps) && i < j < |states| && steps[i] == Call(done, total)
    requires total == 0 || done < total
    ensures |states[i].calls| < |states[j].calls|
    ensures
      var k := |states[i].calls|;
      states[j].calls[k].Returned? && states[j].calls[k].emitted ==>
        exists m :: i < m < j && StoredAt(states, steps, k, m)
  {
    hide StoredAt;
    var k := |states[i].calls|;
    assert Next(interval, states[i], states[i + 1], steps[i]);
    OthersStoreTheirTime(interval, states, steps, i + 1, j, k);
  }

  /** Call `k` read the clock at step `r` and found `now`. */
  ghost predicate ReadAt(states: seq<State>, steps: seq<Step>, k: nat, r: nat, now: u64)
    requires |states| == |steps| + 1
  {
    r < |steps| && steps[r] == ReadClock(k) && states[r].clock == now
  }

  /** The time a call works with is what the clock showed when it read it. */
  lemma {:induction false} TimesAreReadings(interval: nat, states: seq<State>, steps: seq<Step>, j: nat, k: nat)
    requires IsRun(interval, states, steps) && j < |states| && k < |states[j].calls|
    requires states[j].calls[k].Timed? || states[j].calls[k].Loaded?
    ensures exists r :: 0 <= r < j && ReadAt(states, steps, k, r, states[j].calls[k].now)
    decreases j
  {
    hide ReadAt, Next;
    var s, s', step := states[j - 1], states[j], steps[j - 1];
    assert Next(interval, s, s', step);
    TimeComesFrom(interval, states, steps, j - 1, k);
    if k < |s.calls| && (s.calls[k].Timed?
      || s.calls[k].Loaded?) { TimesAreReadings(interval, states, steps, j - 1, k); }
  }

  lemma TimeComesFrom(interval: nat, states: seq<State>, steps: seq<Step>, m: nat, k: nat)
    requires |states| == |steps| + 1 && m < |steps| && Next(interval, states[m], states[m + 1], steps[m])
    requires k < |states[m + 1].calls| && (states[m + 1].calls[k].Timed? || states[m + 1].calls[k].Loaded?)
    ensures
      || ReadAt(states, steps, k, m, states[m + 1].calls[k].now)
      || (k < |states[m].calls| && (states[m].calls[k].Timed? || states[m].calls[k].Loaded?)
          && states[m].calls[k].now == states[m + 1].calls[k].now)
  {
  }

  /** A call that has not returned can always take its next step: nobody waits for anybody. */
  lemma CallCanMove(interval: nat, s: State, k: nat) returns (s': State, step: Step)
    requires k < |s.calls| && !s.calls[k].Returned?
    ensures Next(interval, s, s', step) && !step.Tick? && !step.Call?
  {
    match s.calls[k] {
      case Entered(final) =>
        step := ReadClock(k);
        s' := Put(s, k, Timed(final, s.clock));
      case Timed(final, now) =>
        step := Load(k);
        s' := Put(s, k, if final then Won(true) else Loaded(now, s.last));
      case Loaded(_, _) =>
        step := Decide(k);
        s' := Decided(s, k, interval);
      case Won(final) =>
        step := Emit(k);
        s' := Put(s, k, Returned(final, true)).(reports := s.reports + if final then 0 else 1);
    }
  }

  // ----- a call that meets no race ---------------------------------------------------------------

  /** A call that loads, decides and emits with no other call in between: it is emitted exactly if
      nothing has been stored yet or its clock reading is at least an interval past the last stored time. */
  lemma UncontestedIsReportedIff(interval: nat, states: seq<State>, steps: seq<Step>, i: nat, k: nat, now: u64)
    requires interval > 0 && IsRun(interval, states, steps) && i + 2 < |states|
    requires k < |states[i].calls| && states[i].calls[k] == Timed(false, now)
    requires steps[i] == Load(k) && steps[i + 1] == Decide(k)
    ensures k < |states[i + 2].calls|
    ensures
      var stored := states[i].stored;
      var due := stored == [] || stored[|stored| - 1] + interval <= now;
      && states[i + 2].calls[k] == (if due then Won(false) else Returned(false, false))
      && states[i + 2].stored == (if due then stored + [now] else stored)
  {
    RunKeepsInv(interval, states, steps, i);
    var s, s1, s2 := states[i], states[i + 1], states[i + 2];
    assert Next(interval, s, s1, steps[i]) && Next(interval, s1, s2, steps[i + 1]);
    assert s1.calls[k] == Loaded(now, s.last);
  }

  /** With an interval of zero the spacing fails: a call that read the clock early can still replace a
      later time, so the stored values go backwards. */
  lemma ZeroIntervalGoesBackwards() returns (states: seq<State>, steps: seq<Step>)
    ensures IsRun(0, states, steps) && !Spaced(states[|steps|].stored, 0)
  {
    hide IsRun;
    states, steps := TwoReaders();
    var s := State(5, NEVER, [Timed(false, 0), Loaded(5, NEVER)], [], 0);
    states, steps := Extended(0, states, steps, s, Load(1));
    s := State(5, 5, [Timed(false, 0), Won(false)], [5], 0);
    states, steps := Extended(0, states, steps, s, Decide(1));
    s := State(5, 5, [Loaded(0, 5), Won(false)], [5], 0);
    states, steps := Extended(0, states, steps, s, Load(0));
    s := State(5, 0, [Won(false), Won(false)], [5, 0], 0);
    states, steps := Extended(0, states, steps, s, Decide(0));
    assert s.stored[1] < s.stored[0];
  }

  /** The spacing holds in every run exactly when the interval is at least one microsecond. */
  lemma SpacedIffPositive(interval: nat)
    ensures interval > 0 <==>
            forall states: seq<State>, steps: seq<Step> :: IsRun(interval, states, steps)
              ==> Spaced(states[|steps|].stored, interval)
  {
    if interval > 0 {
      forall states: seq<State>, steps: seq<Step> | IsRun(interval, states, steps)
        ensures Spaced(states[|steps|].stored, interval)
      {
        RateIsBounded(interval, states, steps, |steps|);
      }
    } else {
      var states, steps := ZeroIntervalGoesBackwards();
    }
  }
}
