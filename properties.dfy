/**
 * What `run_bot` guarantees, stated over the specification Next and Run.
 * One-iteration facts first, then facts about whole runs.
 */
module FeedProperties {
  import opened Wrappers
  import opened Digits
  import opened Text
  import opened Decimal
  import opened Clock
  import opened Supervisor

  // ---------------------------------------------------------------- one iteration

  /** The guards pass: neither the scheduled restart nor the inactivity failure fires. */
  predicate GuardsPass(s: State, t: Tick) {
    !RestartDue(t.wall, s.restartDay) && !Inactive(t.clock, s.lastMultiplyTime)
  }

  /** Empty or unparseable text is skipped, and a skip changes nothing at all. */
  lemma SkipIff(cfg: FeedConfig, s: State, t: Tick)
    ensures Next(cfg, s, t).1 == Skipped
      <==> s.phase == Polling && GuardsPass(s, t) && t.reading.Read? && ReadValue(t.reading.raw) == None
    ensures Next(cfg, s, t).1 == Skipped ==> Next(cfg, s, t).0 == s
  {
  }

  /** Text that normalises to nothing, or to no number, reads as nothing. */
  lemma MalformedReadings()
    ensures ReadValue("") == None && ReadValue("x") == None && ReadValue(" x ") == None
  {
    assert RemoveX("x") == "";
    assert RemoveX(" x ") == "  " by {
      assert " x "[1..] == "x " && "x "[1..] == " " && " "[1..] == "";
    }
    StripOf("  ", "", "");
    assert "  " + "" + "" == "  ";
  }

  /** Text that is not a decimal literal reads as nothing. */
  lemma NonNumericReading()
    ensures ReadValue("abc") == None
  {
    assert RemoveX("abc") == "abc" by { RemoveXIdentity("abc"); }
    StripOf("", "abc", "");
    assert "" + "abc" + "" == "abc";
    ParseRejects();
  }

  /**
   * The emit rule: a write is appended exactly when the session is polling,
   * the guards pass, the text parses to a value that differs from LAST, and
   * the store accepts the write.
   */
  lemma EmitIff(cfg: FeedConfig, s: State, t: Tick)
    ensures Next(cfg, s, t).1.Emitted?
      <==> s.phase == Polling && GuardsPass(s, t) && t.reading.Read?
           && ReadValue(t.reading.raw).Some? && Differs(ReadValue(t.reading.raw).value, s.last)
           && t.writeOk
    ensures Next(cfg, s, t).0.log == s.log + (if Next(cfg, s, t).1.Emitted? then [Next(cfg, s, t).1.write] else [])
  {
  }

  /**
   * `val != LAST` is numeric inequality: on parsed values, Differs holds
   * exactly when there is no baseline or the two numbers are not equal.
   */
  lemma DiffersIsInequality(raw: string, last: Option<Decimal>)
    requires ReadValue(raw).Some? && (last.Some? ==> Canonical(last.value))
    ensures Canonical(ReadValue(raw).value)
    ensures Differs(ReadValue(raw).value, last) <==> last.None? || !NumEq(ReadValue(raw).value, last.value)
  {
    if last.Some? {
      SameNumberIsNumEq(ReadValue(raw).value, last.value);
    }
  }

  /** After an emit the baseline is the new value and the inactivity clock restarts. */
  lemma EmitMovesBaseline(cfg: FeedConfig, s: State, t: Tick)
    requires Next(cfg, s, t).1.Emitted?
    ensures var (s', a) := Next(cfg, s, t);
      s'.last == Some(a.write.value) && s'.lastMultiplyTime == t.clock && s'.phase == Polling
      && s'.restartDay == s.restartDay && a.write.at == t.wall
      && Some(a.write.value) == ReadValue(t.reading.raw)
      && Pause(a) == PollingInterval
  {
  }

  /** A value equal to LAST changes nothing. */
  lemma UnchangedIff(cfg: FeedConfig, s: State, t: Tick)
    ensures Next(cfg, s, t).1 == Unchanged
      <==> s.phase == Polling && GuardsPass(s, t) && t.reading.Read?
           && ReadValue(t.reading.raw).Some? && !Differs(ReadValue(t.reading.raw).value, s.last)
    ensures Next(cfg, s, t).1 == Unchanged ==> Next(cfg, s, t).0 == s
  {
  }

  /**
   * A failed store write: the inactivity clock was already reset (main.py:173)
   * but LAST is not assigned (main.py:187), and the loop relocates the frame.
   */
  lemma WriteFailureKeepsBaseline(cfg: FeedConfig, s: State, t: Tick, v: Decimal)
    requires s.phase == Polling && GuardsPass(s, t) && t.reading.Read?
    requires ReadValue(t.reading.raw) == Some(v) && Differs(v, s.last) && !t.writeOk
    ensures var (s', a) := Next(cfg, s, t);
      s'.last == s.last && s'.log == s.log && s'.lastMultiplyTime == t.clock
      && (if t.relocation == Found then a == Relocated && s'.phase == Polling
          else a == Recovered(FrameLost) && s'.phase == Starting)
  {
  }

  /** ... so the same value is emitted again on the next successful read. */
  lemma WriteFailureReemits(cfg: FeedConfig, s: State, t1: Tick, t2: Tick, v: Decimal)
    requires s.phase == Polling && GuardsPass(s, t1) && t1.reading.Read?
    requires ReadValue(t1.reading.raw) == Some(v) && Differs(v, s.last) && !t1.writeOk
    requires t1.relocation == Found
    requires !RestartDue(t2.wall, s.restartDay) && !Inactive(t2.clock, t1.clock)
    requires t2.reading == t1.reading && t2.writeOk
    ensures Next(cfg, Next(cfg, s, t1).0, t2).1 == Emitted(Write(v, t2.wall))
  {
  }

  /** A missing payout element leads to relocation: kept session if found, recovery if not. */
  lemma LookupFailure(cfg: FeedConfig, s: State, t: Tick)
    requires s.phase == Polling && GuardsPass(s, t) && t.reading == LookupFailed
    ensures t.relocation == Found ==> Next(cfg, s, t) == (s, Relocated) && Pause(Relocated) == 0.0
    ensures t.relocation == NotFound ==> Next(cfg, s, t) == (s.(phase := Starting), Recovered(FrameLost))
  {
  }

  /**
   * The scheduled restart fires exactly in the first six minutes of a day
   * other than `restart_day`, and only when `driver.quit()` returns; it records
   * the day and leaves the poll loop with no pause.
   */
  lemma RestartIff(cfg: FeedConfig, s: State, t: Tick)
    ensures Next(cfg, s, t).1.ScheduledRestart?
      <==> s.phase == Polling && t.wall.hour == 0 && t.wall.minute <= 5
           && s.restartDay != t.wall.date && t.quitOk
    ensures Next(cfg, s, t).1.ScheduledRestart? ==>
      Next(cfg, s, t) == (s.(phase := Starting, restartDay := t.wall.date), ScheduledRestart(t.wall.date))
      && Pause(Next(cfg, s, t).1) == 0.0
  {
  }

  /** `restart_day` changes only through the scheduled restart: recoveries keep it. */
  lemma RestartDayKept(cfg: FeedConfig, s: State, t: Tick)
    ensures !Next(cfg, s, t).1.ScheduledRestart? ==> Next(cfg, s, t).0.restartDay == s.restartDay
  {
  }

  /**
   * Guard order: a due restart pre-empts the inactivity check; the inactivity
   * failure fires exactly when the restart is not due and strictly more than
   * 360 s passed since the last new value.
   */
  lemma GuardOrder(cfg: FeedConfig, s: State, t: Tick)
    requires s.phase == Polling
    ensures RestartDue(t.wall, s.restartDay) ==>
      Next(cfg, s, t).1 == (if t.quitOk then ScheduledRestart(t.wall.date) else Recovered(QuitFailed))
    ensures Next(cfg, s, t).1 == Recovered(Inactivity)
      <==> !RestartDue(t.wall, s.restartDay) && t.clock - s.lastMultiplyTime > 360.0
  {
  }

  /**
   * Every failure leads to the same recovery: the session is torn down, the
   * loop pauses 5 s and starts over; nothing is written and `restart_day` is kept.
   */
  lemma RecoveryTearsDown(cfg: FeedConfig, s: State, t: Tick)
    requires Next(cfg, s, t).1.Recovered?
    ensures var (s', a) := Next(cfg, s, t);
      s'.phase == Starting && s'.log == s.log && s'.restartDay == s.restartDay
      && Pause(a) == RecoveryBackoff
  {
  }

  /** A new session starts with no baseline and a fresh inactivity clock (main.py:143-144). */
  lemma SessionStartResets(cfg: FeedConfig, s: State, t: Tick)
    requires s.phase == Starting
    ensures t.launch == Found ==>
      Next(cfg, s, t) == (s.(phase := Polling, last := None, lastMultiplyTime := t.clock), SessionStarted)
    ensures t.launch == NotFound ==> Next(cfg, s, t) == (s, Recovered(LaunchFailed))
  {
  }

  /**
   * Fresh baseline: after any recovery and a successful restart of the
   * session, the first readable value is written, even if it equals the
   * value that was LAST before the teardown.
   */
  lemma FirstValueAfterRecoveryEmitted(cfg: FeedConfig, s: State, t0: Tick, t1: Tick, t2: Tick, v: Decimal)
    requires Next(cfg, s, t0).1.Recovered?
    requires t1.launch == Found
    requires !RestartDue(t2.wall, s.restartDay) && !Inactive(t2.clock, t1.clock)
    requires t2.reading.Read? && ReadValue(t2.reading.raw) == Some(v) && t2.writeOk
    ensures Run(cfg, s, [t0, t1, t2]).1 ==
      [Next(cfg, s, t0).1, SessionStarted, Emitted(Write(v, t2.wall))]
  {
    var ticks := [t0, t1, t2];
    var (s0, a0) := Next(cfg, s, t0);
    var s1 := s0.(phase := Polling, last := None, lastMultiplyTime := t1.clock);
    var s2 := s1.(lastMultiplyTime := t2.clock, log := s1.log + [Write(v, t2.wall)], last := Some(v));
    RecoveryTearsDown(cfg, s, t0);
    RunStep(cfg, s, ticks, s0, a0);
    SessionStartResets(cfg, s0, t1);
    assert ticks[1..][0] == t1 && ticks[1..][1..] == [t2];
    RunStep(cfg, s0, ticks[1..], s1, SessionStarted);
    EmitStep(cfg, s1, t2, v);
    RunStep(cfg, s1, [t2], s2, Emitted(Write(v, t2.wall)));
    assert [t2][1..] == [];
  }

  // ---------------------------------------------------------------- entries and keys

  /**
   * What reaches the store for a write: the entry's date is the key's first ten
   * characters, the key after the feed's path reads back as the instant, and a
   * multiplier shown with at most two decimals reads back as the value.
   */
  lemma EntryShape(cfg: FeedConfig, w: Write)
    requires ValidDateTime(w.at)
    ensures var e, p := MakeEntry(w.value, w.at), RecordPath(cfg, w.at);
      e.color == "default-bg"
      && |p| == |cfg.firebasePath| + 27 && p[..|cfg.firebasePath| + 1] == cfg.firebasePath + "/"
      && ParseKey(p[|cfg.firebasePath| + 1..]) == Some(w.at)
      && p[|cfg.firebasePath| + 1..][..10] == e.date
      && (w.value.scale <= 2 && Canonical(w.value) ==> Parse(e.multiplier) == Some(w.value))
  {
    var p := RecordPath(cfg, w.at);
    assert p[|cfg.firebasePath| + 1..] == Key(w.at);
    KeyLayout(w.at);
    KeyRoundTrip(w.at);
    if w.value.scale <= 2 && Canonical(w.value) {
      ParseFormat2(w.value);
    }
  }

  /** Records of one feed made at distinct valid instants go to distinct paths: none overwrites another. */
  lemma RecordPathInjective(cfg: FeedConfig, a: DateTime, b: DateTime)
    requires ValidDateTime(a) && ValidDateTime(b)
    ensures RecordPath(cfg, a) == RecordPath(cfg, b) <==> a == b
  {
    var p := cfg.firebasePath + "/";
    if RecordPath(cfg, a) == RecordPath(cfg, b) {
      assert RecordPath(cfg, a)[|p|..] == Key(a);
      assert RecordPath(cfg, b)[|p|..] == Key(b);
      KeyInjective(a, b);
    }
  }

  // ---------------------------------------------------------------- whole runs

  function WritesOf(acts: seq<Action>): seq<Write> {
    if acts == [] then []
    else (if acts[0].Emitted? then [acts[0].write] else []) + WritesOf(acts[1..])
  }

  function EmittedValues(acts: seq<Action>): seq<Decimal> {
    if acts == [] then []
    else (if acts[0].Emitted? then [acts[0].write.value] else []) + EmittedValues(acts[1..])
  }

  function RestartDays(acts: seq<Action>): seq<Date> {
    if acts == [] then []
    else (if acts[0].ScheduledRestart? then [acts[0].day] else []) + RestartDays(acts[1..])
  }

  lemma WritesOfCons(a: Action, rest: seq<Action>)
    ensures WritesOf([a] + rest) == (if a.Emitted? then [a.write] else []) + WritesOf(rest)
  {
    assert ([a] + rest)[1..] == rest;
  }

  /** The store receives exactly the emitted writes, in the order they were made (nothing else). */
  lemma {:induction false} LogIsEmittedWrites(cfg: FeedConfig, s: State, ticks: seq<Tick>)
    ensures Run(cfg, s, ticks).0.log == s.log + WritesOf(Run(cfg, s, ticks).1)
    decreases |ticks|
  {
    if ticks != [] {
      var (s1, a) := Next(cfg, s, ticks[0]);
      var rest := Run(cfg, s1, ticks[1..]).1;
      LogIsEmittedWrites(cfg, s1, ticks[1..]);
      EmitIff(cfg, s, ticks[0]);
      WritesOfCons(a, rest);
    }
  }

  /** The values a sequence of ticks shows, in order, with unreadable ones dropped. */
  function Shows(t: Tick): seq<Decimal> {
    match t.reading
    case Read(raw) => (match ReadValue(raw) case Some(v) => [v] case None => [])
    case LookupFailed => []
  }

  function Shown(ticks: seq<Tick>): seq<Decimal> {
    if ticks == [] then [] else Shows(ticks[0]) + Shown(ticks[1..])
  }

  /** Run-length change detection: keep a value only when it differs from the one kept before it. */
  function Changes(prev: Option<Decimal>, vs: seq<Decimal>): seq<Decimal>
    decreases |vs|
  {
    if vs == [] then []
    else if Differs(vs[0], prev) then [vs[0]] + Changes(Some(vs[0]), vs[1..])
    else Changes(prev, vs[1..])
  }

  /** A tick that neither trips a guard nor fails: the text is read and the store accepts writes. */
  predicate Calm(t: Tick, restartDay: Date, since: real) {
    !RestartDue(t.wall, restartDay) && since <= t.clock <= since + MaxInactivity
    && t.reading.Read? && t.writeOk
  }

  /** An iteration after which the session is still polling: a skip, no change, or a write. */
  predicate Steady(a: Action) {
    a.Skipped? || a.Unchanged? || a.Emitted?
  }

  /**
   * An iteration that keeps the session polling without losing a value: a
   * skip, no change, a write, or a relocation after the payout element was
   * not found. (A relocation after a failed write also keeps the session,
   * but the value it showed is not written.)
   */
  predicate Kept(t: Tick, a: Action) {
    Steady(a) || (a == Relocated && t.reading == LookupFailed)
  }

  /** Every iteration of a run was Kept. */
  predicate StaysUp(ticks: seq<Tick>, acts: seq<Action>) {
    forall i :: 0 <= i < |ticks| && i < |acts| ==> Kept(ticks[i], acts[i])
  }

  /**
   * An iteration that keeps the session polling keeps `restart_day`, and it
   * writes exactly when the tick shows a value that differs from LAST, which
   * then becomes LAST.
   */
  lemma SteadyStep(cfg: FeedConfig, s: State, t: Tick)
    requires s.phase == Polling && Steady(Next(cfg, s, t).1)
    ensures var (s1, a) := Next(cfg, s, t);
      s1.phase == Polling && s1.restartDay == s.restartDay
      && (a.Emitted? <==> Shows(t) != [] && Differs(Shows(t)[0], s.last))
      && (a.Emitted? ==> Shows(t) == [a.write.value]) && |Shows(t)| <= 1
      && s1.last == (if a.Emitted? then Some(a.write.value) else s.last)
  {
    SteadyState(cfg, s, t);
    SteadyShows(cfg, s, t);
  }

  /** The state half of SteadyStep. */
  lemma SteadyState(cfg: FeedConfig, s: State, t: Tick)
    requires s.phase == Polling && Steady(Next(cfg, s, t).1)
    ensures var (s1, a) := Next(cfg, s, t);
      s1.phase == Polling && s1.restartDay == s.restartDay
      && s1.last == (if a.Emitted? then Some(a.write.value) else s.last)
  {
  }

  /** The value half of SteadyStep. */
  lemma SteadyShows(cfg: FeedConfig, s: State, t: Tick)
    requires s.phase == Polling && Steady(Next(cfg, s, t).1)
    ensures var a := Next(cfg, s, t).1;
      (a.Emitted? <==> Shows(t) != [] && Differs(Shows(t)[0], s.last))
      && (a.Emitted? ==> Shows(t) == [a.write.value]) && |Shows(t)| <= 1
  {
  }

  /**
   * What a polling iteration needs from the world to keep the session up: no
   * guard fires, the payout text is found, and a changed value is accepted by
   * the store.
   */
  lemma SteadyIff(cfg: FeedConfig, s: State, t: Tick)
    requires s.phase == Polling
    ensures Steady(Next(cfg, s, t).1)
      <==> GuardsPass(s, t) && t.reading.Read?
           && (ReadValue(t.reading.raw).Some? && Differs(ReadValue(t.reading.raw).value, s.last) ==> t.writeOk)
  {
  }

  /** A relocation after a failed lookup changes nothing and shows nothing. */
  lemma RelocatedStep(cfg: FeedConfig, s: State, t: Tick)
    requires s.phase == Polling && Next(cfg, s, t).1 == Relocated && t.reading == LookupFailed
    ensures Next(cfg, s, t).0 == s && Shows(t) == []
  {
  }

  /** SteadyStep, extended to the relocations that Kept admits. */
  lemma KeptStep(cfg: FeedConfig, s: State, t: Tick)
    requires s.phase == Polling && Kept(t, Next(cfg, s, t).1)
    ensures var (s1, a) := Next(cfg, s, t);
      s1.phase == Polling && s1.restartDay == s.restartDay
      && (a.Emitted? <==> Shows(t) != [] && Differs(Shows(t)[0], s.last))
      && (a.Emitted? ==> Shows(t) == [a.write.value]) && |Shows(t)| <= 1
      && s1.last == (if a.Emitted? then Some(a.write.value) else s.last)
  {
    if Steady(Next(cfg, s, t).1) {
      SteadyStep(cfg, s, t);
    } else {
      RelocatedStep(cfg, s, t);
    }
  }

  lemma StaysUpTail(ticks: seq<Tick>, a: Action, rest: seq<Action>)
    requires ticks != [] && StaysUp(ticks, [a] + rest)
    ensures Kept(ticks[0], a) && StaysUp(ticks[1..], rest)
  {
    assert ([a] + rest)[0] == a;
    forall i | 0 <= i < |ticks[1..]| && i < |rest| ensures Kept(ticks[1..][i], rest[i]) {
      assert ([a] + rest)[i + 1] == rest[i] && ticks[1..][i] == ticks[i + 1];
    }
  }

  lemma EmittedValuesCons(a: Action, rest: seq<Action>)
    ensures EmittedValues([a] + rest) == (if a.Emitted? then [a.write.value] else []) + EmittedValues(rest)
  {
    assert ([a] + rest)[1..] == rest;
  }

  lemma ChangesCons(prev: Option<Decimal>, v: Decimal, vs: seq<Decimal>)
    ensures Changes(prev, [v] + vs)
      == if Differs(v, prev) then [v] + Changes(Some(v), vs) else Changes(prev, vs)
  {
    assert ([v] + vs)[1..] == vs;
  }

  /**
   * While the session stays up, however long, through skips, repeats, writes
   * and relocations after a failed lookup, the values written are exactly the
   * run-length compression of the values shown, starting from the baseline.
   */
  lemma {:induction false} RunDedup(cfg: FeedConfig, s: State, ticks: seq<Tick>)
    requires s.phase == Polling && StaysUp(ticks, Run(cfg, s, ticks).1)
    ensures Run(cfg, s, ticks).0.phase == Polling
    ensures EmittedValues(Run(cfg, s, ticks).1) == Changes(s.last, Shown(ticks))
    decreases |ticks|
  {
    if ticks != [] {
      var t := ticks[0];
      var (s1, a) := Next(cfg, s, t);
      var rest := Run(cfg, s1, ticks[1..]).1;
      RunStep(cfg, s, ticks, s1, a);
      StaysUpTail(ticks, a, rest);
      KeptStep(cfg, s, t);
      RunDedup(cfg, s1, ticks[1..]);
      EmittedValuesCons(a, rest);
      assert Shown(ticks) == Shows(t) + Shown(ticks[1..]);
      DedupGlue(s.last, s1.last, a, Shows(t), Shown(ticks[1..]), EmittedValues(rest));
    }
  }

  /** The step of RunDedup's induction, on sequences alone. */
  lemma DedupGlue(last: Option<Decimal>, last1: Option<Decimal>, a: Action,
                  shows: seq<Decimal>, later: seq<Decimal>, emitted: seq<Decimal>)
    requires |shows| <= 1
    requires a.Emitted? <==> shows != [] && Differs(shows[0], last)
    requires a.Emitted? ==> shows == [a.write.value]
    requires last1 == (if a.Emitted? then Some(a.write.value) else last)
    requires emitted == Changes(last1, later)
    ensures (if a.Emitted? then [a.write.value] else []) + emitted == Changes(last, shows + later)
  {
    if shows == [] {
      assert shows + later == later;
    } else {
      assert shows == [shows[0]];
      ChangesCons(last, shows[0], later);
    }
  }

  /** The first value Changes keeps differs from the baseline, and no two values it keeps in a row are equal. */
  lemma {:induction false} ChangesHasNoRepeats(prev: Option<Decimal>, vs: seq<Decimal>)
    ensures var c := Changes(prev, vs);
      (c != [] ==> Differs(c[0], prev))
      && forall i :: 0 <= i < |c| - 1 ==> !SameNumber(c[i], c[i + 1])
    decreases |vs|
  {
    if vs != [] {
      ChangesHasNoRepeats(if Differs(vs[0], prev) then Some(vs[0]) else prev, vs[1..]);
      var c := Changes(prev, vs);
      if Differs(vs[0], prev) {
        var c' := Changes(Some(vs[0]), vs[1..]);
        assert c == [vs[0]] + c';
        forall i | 0 <= i < |c| - 1 ensures !SameNumber(c[i], c[i + 1]) {
          if i > 0 {
            assert c[i] == c'[i - 1] && c[i + 1] == c'[i];
          }
        }
      }
    }
  }

  function Repeat(v: Decimal, k: nat): seq<Decimal> {
    if k == 0 then [] else [v] + Repeat(v, k - 1)
  }

  /** k >= 1 consecutive equal values give exactly one write, or none if they equal the baseline. */
  lemma {:induction false} ChangesOfRepeat(prev: Option<Decimal>, v: Decimal, k: nat)
    requires k >= 1
    ensures Changes(prev, Repeat(v, k)) == if Differs(v, prev) then [v] else []
    decreases k
  {
    if k > 1 {
      assert Repeat(v, k)[1..] == Repeat(v, k - 1);
      if Differs(v, prev) {
        ChangesOfRepeat(Some(v), v, k - 1);
      } else {
        ChangesOfRepeat(prev, v, k - 1);
      }
    } else {
      assert Repeat(v, 1)[1..] == [];
    }
  }

  predicate DatesNondecreasing(ticks: seq<Tick>) {
    forall i, j :: 0 <= i <= j < |ticks| ==> DateLe(ticks[i].wall.date, ticks[j].wall.date)
  }

  predicate StrictlyIncreasing(ds: seq<Date>) {
    forall i, j :: 0 <= i < j < |ds| ==> DateLt(ds[i], ds[j])
  }

  lemma DateLeTrans(a: Date, b: Date, c: Date)
    ensures DateLe(a, b) && DateLe(b, c) ==> DateLe(a, c)
    ensures DateLe(a, b) && DateLt(b, c) ==> DateLt(a, c)
  {
  }

  lemma RestartDaysCons(a: Action, rest: seq<Action>)
    ensures RestartDays([a] + rest) == (if a.ScheduledRestart? then [a.day] else []) + RestartDays(rest)
  {
    assert ([a] + rest)[1..] == rest;
  }

  lemma DatesNondecreasingTail(ticks: seq<Tick>)
    requires ticks != [] && DatesNondecreasing(ticks)
    ensures DatesNondecreasing(ticks[1..])
    ensures |ticks| > 1 ==> DateLe(ticks[0].wall.date, ticks[1].wall.date)
  {
    forall i, j | 0 <= i <= j < |ticks[1..]|
      ensures DateLe(ticks[1..][i].wall.date, ticks[1..][j].wall.date)
    {
      assert ticks[1..][i] == ticks[i + 1] && ticks[1..][j] == ticks[j + 1];
    }
  }

  /** Extending a strictly increasing sequence of days at the front by an earlier day. */
  lemma PrependDay(d: Date, r: seq<Date>)
    requires StrictlyIncreasing(r) && (forall k :: 0 <= k < |r| ==> DateLe(d, r[k]))
    requires r != [] ==> r[0] != d
    ensures StrictlyIncreasing([d] + r)
  {
    var r' := [d] + r;
    forall i, j | 0 <= i < j < |r'| ensures DateLt(r'[i], r'[j]) {
      if i == 0 {
        assert r'[j] == r[j - 1];
        if j > 1 {
          assert DateLt(r[0], r[j - 1]);
          DateLeTrans(d, r[0], r[j - 1]);
        }
      } else {
        assert r'[i] == r[i - 1] && r'[j] == r[j - 1];
      }
    }
  }

  lemma LowerBoundShift(d0: Date, d1: Date, r: seq<Date>)
    requires DateLe(d0, d1) && forall k :: 0 <= k < |r| ==> DateLe(d1, r[k])
    ensures forall k :: 0 <= k < |r| ==> DateLe(d0, r[k])
  {
    forall k | 0 <= k < |r| ensures DateLe(d0, r[k]) {
      DateLeTrans(d0, d1, r[k]);
    }
  }

  /**
   * At most one scheduled restart per calendar day, across any number of
   * recoveries: as long as the wall clock does not go back a day, the days
   * of successive restarts strictly increase, and the first one differs
   * from the `restart_day` the run started with.
   */
  lemma {:induction false} RestartsStrictlyIncrease(cfg: FeedConfig, s: State, ticks: seq<Tick>)
    requires DatesNondecreasing(ticks)
    ensures var r := RestartDays(Run(cfg, s, ticks).1);
      StrictlyIncreasing(r)
      && (r != [] ==> r[0] != s.restartDay)
      && (forall k :: 0 <= k < |r| ==> DateLe(ticks[0].wall.date, r[k]))
    decreases |ticks|
  {
    if ticks != [] {
      var t := ticks[0];
      var (s1, a) := Next(cfg, s, t);
      var rest := Run(cfg, s1, ticks[1..]).1;
      RunStep(cfg, s, ticks, s1, a);
      RestartDaysCons(a, rest);
      DatesNondecreasingTail(ticks);
      RestartsStrictlyIncrease(cfg, s1, ticks[1..]);
      var r' := RestartDays(rest);
      if |ticks| > 1 {
        LowerBoundShift(t.wall.date, ticks[1].wall.date, r');
      }
      RestartIff(cfg, s, t);
      RestartDayKept(cfg, s, t);
      if a.ScheduledRestart? {
        PrependDay(a.day, r');
      }
    }
  }

  /** Strictly increasing days are pairwise distinct: no day is restarted twice. */
  lemma IncreasingDistinct(r: seq<Date>)
    requires StrictlyIncreasing(r)
    ensures forall i, j :: 0 <= i < |r| && 0 <= j < |r| && i != j ==> r[i] != r[j]
  {
    forall i, j | 0 <= i < |r| && 0 <= j < |r| && i != j ensures r[i] != r[j] {
      if i < j { assert DateLt(r[i], r[j]); } else { assert DateLt(r[j], r[i]); }
    }
  }

  // ---------------------------------------------------------------- the four-reading scenario

  function Polled(raw: string, wall: DateTime, clock: real): Tick {
    Tick(Found, wall, clock, true, Read(raw), true, Found)
  }

  /** Deleting a trailing unit marker from a trimmed number. */
  lemma NormalizeUnit(txt: string)
    requires 'x' !in txt && Trimmed(txt)
    ensures Normalize(txt + "x") == txt
  {
    RemoveXConcat(txt, "x");
    RemoveXIdentity(txt);
    assert RemoveX("x") == [];
    assert txt + [] == [] + txt + [];
    StripOf([], txt, []);
  }

  lemma ScenarioValues()
    ensures ReadValue("") == None
    ensures ReadValue("1.50x") == Some(Decimal(false, 15, 1))
    ensures ReadValue("2.00x") == Some(Decimal(false, 2, 0))
  {
    assert "1.50" + "x" == "1.50x";
    assert "2.00" + "x" == "2.00x";
    NormalizeUnit("1.50");
    NormalizeUnit("2.00");
    ParseOnePointFifty();
    ParseTwoPointZero();
  }

  /** A polled, valid, changed value with guards passing is written. */
  lemma EmitStep(cfg: FeedConfig, s: State, t: Tick, v: Decimal)
    requires s.phase == Polling && GuardsPass(s, t) && t.reading.Read? && t.writeOk
    requires ReadValue(t.reading.raw) == Some(v) && Differs(v, s.last)
    ensures Next(cfg, s, t)
      == (s.(lastMultiplyTime := t.clock, log := s.log + [Write(v, t.wall)], last := Some(v)), Emitted(Write(v, t.wall)))
  {
  }

  /**
   * A blank reading, a value, the same value again, and a new value, all on
   * calm ticks: exactly two writes, for the first value and for the new one.
   */
  lemma BlankRepeatChange(cfg: FeedConfig, s: State, t0: Tick, t1: Tick, t2: Tick, t3: Tick, v1: Decimal, v2: Decimal)
    requires s.phase == Polling
    requires Calm(t0, s.restartDay, s.lastMultiplyTime) && Calm(t1, s.restartDay, s.lastMultiplyTime)
    requires Calm(t2, s.restartDay, s.lastMultiplyTime) && Calm(t3, s.restartDay, s.lastMultiplyTime)
    requires ReadValue(t0.reading.raw) == None && ReadValue(t1.reading.raw) == Some(v1)
    requires t2.reading == t1.reading && ReadValue(t3.reading.raw) == Some(v2)
    requires Differs(v1, s.last) && Differs(v2, Some(v1))
    ensures Run(cfg, s, [t0, t1, t2, t3]).0.log == s.log + [Write(v1, t1.wall), Write(v2, t3.wall)]
  {
    var s2 := s.(lastMultiplyTime := t1.clock, log := s.log + [Write(v1, t1.wall)], last := Some(v1));
    BlankThenValue(cfg, s, t0, t1, [t2, t3], v1);
    RepeatThenChange(cfg, s2, s.lastMultiplyTime, t2, t3, v1, v2);
  }

  /** The first half: the blank is skipped and the value written. */
  lemma BlankThenValue(cfg: FeedConfig, s: State, t0: Tick, t1: Tick, later: seq<Tick>, v1: Decimal)
    requires s.phase == Polling
    requires Calm(t0, s.restartDay, s.lastMultiplyTime) && Calm(t1, s.restartDay, s.lastMultiplyTime)
    requires ReadValue(t0.reading.raw) == None && ReadValue(t1.reading.raw) == Some(v1)
    requires Differs(v1, s.last)
    ensures Run(cfg, s, [t0, t1] + later).0
      == Run(cfg, s.(lastMultiplyTime := t1.clock, log := s.log + [Write(v1, t1.wall)], last := Some(v1)), later).0
  {
    var ticks := [t0, t1] + later;
    var s2 := s.(lastMultiplyTime := t1.clock, log := s.log + [Write(v1, t1.wall)], last := Some(v1));
    SkipIff(cfg, s, t0);
    RunStep(cfg, s, ticks, s, Skipped);
    EmitStep(cfg, s, t1, v1);
    assert ticks[1..][0] == t1 && ticks[1..][1..] == later;
    RunStep(cfg, s, ticks[1..], s2, Emitted(Write(v1, t1.wall)));
  }

  /** The second half: the repeat is ignored and the new value written. */
  lemma RepeatThenChange(cfg: FeedConfig, s: State, since: real, t2: Tick, t3: Tick, v1: Decimal, v2: Decimal)
    requires s.phase == Polling && s.last == Some(v1) && since <= s.lastMultiplyTime
    requires Calm(t2, s.restartDay, since) && Calm(t3, s.restartDay, since)
    requires ReadValue(t2.reading.raw) == Some(v1) && ReadValue(t3.reading.raw) == Some(v2)
    requires Differs(v2, Some(v1))
    ensures Run(cfg, s, [t2, t3]).0.log == s.log + [Write(v2, t3.wall)]
  {
    var ticks := [t2, t3];
    var s4 := s.(lastMultiplyTime := t3.clock, log := s.log + [Write(v2, t3.wall)], last := Some(v2));
    UnchangedIff(cfg, s, t2);
    RunStep(cfg, s, ticks, s, Unchanged);
    EmitStep(cfg, s, t3, v2);
    assert ticks[1..][0] == t3 && ticks[1..][1..] == [];
    RunStep(cfg, s, ticks[1..], s4, Emitted(Write(v2, t3.wall)));
  }

  /**
   * The readings "", "1.50x", "1.50x", "2.00x" in a fresh session write two
   * records, 1.50 then 2.00, and nothing for the blank or the repeat.
   */
  lemma FourReadingScenario(cfg: FeedConfig, s: State, w: seq<DateTime>, c: seq<real>)
    requires s.phase == Polling && s.last == None
    requires |w| == 4 && |c| == 4
    requires forall i :: 0 <= i < 4 ==> !RestartDue(w[i], s.restartDay)
    requires forall i :: 0 <= i < 4 ==> s.lastMultiplyTime <= c[i] <= s.lastMultiplyTime + MaxInactivity
    ensures var ticks := [Polled("", w[0], c[0]), Polled("1.50x", w[1], c[1]),
                          Polled("1.50x", w[2], c[2]), Polled("2.00x", w[3], c[3])];
      var log := Run(cfg, s, ticks).0.log;
      log == s.log + [Write(Decimal(false, 15, 1), w[1]), Write(Decimal(false, 2, 0), w[3])]
      && MakeEntry(log[|s.log|].value, w[1]).multiplier == "1.50"
      && MakeEntry(log[|s.log| + 1].value, w[3]).multiplier == "2.00"
  {
    var v1, v2 := Decimal(false, 15, 1), Decimal(false, 2, 0);
    ScenarioValues();
    var since := s.lastMultiplyTime;
    assert Calm(Polled("", w[0], c[0]), s.restartDay, since);
    assert Calm(Polled("1.50x", w[1], c[1]), s.restartDay, since);
    assert Calm(Polled("1.50x", w[2], c[2]), s.restartDay, since);
    assert Calm(Polled("2.00x", w[3], c[3]), s.restartDay, since);
    BlankRepeatChange(cfg, s, Polled("", w[0], c[0]), Polled("1.50x", w[1], c[1]),
                      Polled("1.50x", w[2], c[2]), Polled("2.00x", w[3], c[3]), v1, v2);
    Format2OnePointFifty();
    Format2TwoPointZero();
  }
}
