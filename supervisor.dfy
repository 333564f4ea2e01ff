/**
 * The per-feed capture supervisor `run_bot` (main.py:122-201).
 *
 * `run_bot` is two nested `while True` loops over three variables: the
 * baseline `LAST`, the inactivity clock `last_multiply_time`, and
 * `restart_day`, which is declared outside both loops and so survives every
 * recovery. The browser, the store and the clocks are inputs: each iteration
 * of whichever loop is running consumes one Tick, which says what the outside
 * world answered during that iteration.
 *
 * Next is the specification of one iteration, Run of a sequence of them, and
 * RunBot is the loop itself, proved to compute Run.
 */
module Supervisor {
  import opened Wrappers
  import opened Text
  import opened Decimal
  import opened Clock

  /** `POLLING_INTERVAL` (main.py:45): the pause after a skip or a completed poll. */
  const PollingInterval: real := 0.15
  /** `TEMPO_MAX_INATIVIDADE` (main.py:46): seconds without a new value before recovery. */
  const MaxInactivity: real := 360.0
  /** The pause at the end of a recovery (main.py:201). */
  const RecoveryBackoff: real := 5.0
  /** The only colour the source ever writes (main.py:178). */
  const Color: string := "default-bg"

  /** One entry of `CONFIG_BOTS` (main.py:30-41). */
  datatype FeedConfig = FeedConfig(name: string, link: string, firebasePath: string)

  /** Whether `get_game_elements` (or the whole session start before it) produced the payout block. */
  datatype Located = Found | NotFound

  /** What `hist.find_element(...).text` gave: the text, or an exception. */
  datatype Reading = Read(raw: string) | LookupFailed

  /**
   * The world's answers during one loop iteration. While no session is up only
   * `launch` and `clock` are consulted (main.py:133-144); while polling, the rest.
   */
  datatype Tick = Tick(
    launch: Located,      // start_driver, login and get_game_elements (main.py:133-139)
    wall: DateTime,       // datetime.now(TZ_BR) (main.py:148)
    clock: real,          // time() (main.py:144, 155, 173)
    quitOk: bool,         // driver.quit() returns normally (main.py:151)
    reading: Reading,     // main.py:159-160
    writeOk: bool,        // db.reference(...).set(entry) returns normally (main.py:184)
    relocation: Located)  // get_game_elements after a failure (main.py:190)

  /** Which loop is running: the outer loop about to start a session, or the inner poll loop. */
  datatype Phase = Starting | Polling

  /** The record written to the store (main.py:175-180). */
  datatype Entry = Entry(multiplier: string, time: string, color: string, date: string)

  /**
   * One `db.reference(path).set(entry)`, recorded by the value and the instant
   * it was made at: the path is RecordPath(cfg, at) and the entry is
   * MakeEntry(value, at), both fixed by those two.
   */
  datatype Write = Write(value: Decimal, at: DateTime)

  /** `LAST`, `last_multiply_time`, `restart_day`, the running loop, and the store's write log. */
  datatype State = State(
    phase: Phase,
    last: Option<Decimal>,
    lastMultiplyTime: real,
    restartDay: Date,
    log: seq<Write>)

  /** Why the outer `except` (main.py:197-201) tore the session down. */
  datatype Cause =
    | LaunchFailed   // start_driver, login or the first frame lookup failed
    | QuitFailed     // driver.quit() raised during the scheduled restart
    | Inactivity     // main.py:155-156
    | FrameLost      // relocation found no payout block (main.py:191-192)

  /** What one iteration did. */
  datatype Action =
    | SessionStarted
    | Recovered(cause: Cause)
    | ScheduledRestart(day: Date)
    | Skipped
    | Unchanged
    | Emitted(write: Write)
    | Relocated

  /** The state on entry to `run_bot`: `restart_day = date.today()` (main.py:127). */
  function Init(today: Date): State {
    State(Starting, None, 0.0, today, [])
  }

  /** The daily-restart guard (main.py:149). */
  predicate RestartDue(now: DateTime, restartDay: Date) {
    now.hour == 0 && now.minute <= 5 && restartDay != now.date
  }

  /** The inactivity guard (main.py:155). */
  predicate Inactive(clock: real, lastMultiplyTime: real) {
    clock - lastMultiplyTime > MaxInactivity
  }

  /** `val != LAST` (main.py:172): `None` differs from every value. */
  predicate Differs(v: Decimal, last: Option<Decimal>) {
    last.None? || !SameNumber(v, last.value)
  }

  /** The value a reading yields, or None when the loop skips it (main.py:160-170). */
  function ReadValue(raw: string): Option<Decimal> {
    var txt := Normalize(raw);
    if txt == [] then None else Parse(txt)
  }

  /** The entry written for value `v` observed at `now` (main.py:175-180). */
  function MakeEntry(v: Decimal, now: DateTime): Entry {
    Entry(Format2(v), TimeString(now), Color, DateString(now.date))
  }

  /** `f"{fb_path}/{key}"` (main.py:182-184). */
  function RecordPath(cfg: FeedConfig, now: DateTime): string {
    cfg.firebasePath + "/" + Key(now)
  }

  /** The `except` branch of the poll (main.py:189-193): relocate, or fall through to recovery. */
  function Relocate(s: State, t: Tick): (State, Action) {
    if t.relocation == Found then (s, Relocated)
    else (s.(phase := Starting), Recovered(FrameLost))
  }

  /** One iteration of whichever loop is running. */
  function Next(cfg: FeedConfig, s: State, t: Tick): (State, Action) {
    if s.phase == Starting then
      if t.launch == Found then (s.(phase := Polling, last := None, lastMultiplyTime := t.clock), SessionStarted)
      else (s, Recovered(LaunchFailed))
    else if RestartDue(t.wall, s.restartDay) then
      if t.quitOk then (s.(phase := Starting, restartDay := t.wall.date), ScheduledRestart(t.wall.date))
      else (s.(phase := Starting), Recovered(QuitFailed))
    else if Inactive(t.clock, s.lastMultiplyTime) then
      (s.(phase := Starting), Recovered(Inactivity))
    else
      match t.reading
      case LookupFailed => Relocate(s, t)
      case Read(raw) =>
        match ReadValue(raw)
        case None => (s, Skipped)
        case Some(v) =>
          if !Differs(v, s.last) then (s, Unchanged)
          else
            var s1 := s.(lastMultiplyTime := t.clock);
            if t.writeOk then
              (s1.(log := s.log + [Write(v, t.wall)], last := Some(v)), Emitted(Write(v, t.wall)))
            else Relocate(s1, t)
  }

  /** How long the loop sleeps after an action before the next iteration. */
  function Pause(a: Action): real {
    match a
    case Recovered(_) => RecoveryBackoff
    case Skipped | Unchanged | Emitted(_) => PollingInterval
    case SessionStarted | ScheduledRestart(_) | Relocated => 0.0
  }

  /** The state and the actions after a sequence of iterations. */
  function Run(cfg: FeedConfig, s: State, ticks: seq<Tick>): (State, seq<Action>)
    decreases |ticks|
  {
    if ticks == [] then (s, [])
    else
      var (s1, a) := Next(cfg, s, ticks[0]);
      var (s2, acts) := Run(cfg, s1, ticks[1..]);
      (s2, [a] + acts)
  }

  lemma {:induction false} RunSnoc(cfg: FeedConfig, s: State, ticks: seq<Tick>, t: Tick)
    ensures Run(cfg, s, ticks + [t]).0 == Next(cfg, Run(cfg, s, ticks).0, t).0
    ensures Run(cfg, s, ticks + [t]).1 == Run(cfg, s, ticks).1 + [Next(cfg, Run(cfg, s, ticks).0, t).1]
    decreases |ticks|
  {
    if ticks != [] {
      assert (ticks + [t])[1..] == ticks[1..] + [t];
      RunSnoc(cfg, Next(cfg, s, ticks[0]).0, ticks[1..], t);
    } else {
      assert [t][1..] == [];
    }
  }

  /** Run peels off one iteration whose outcome is known. */
  lemma RunStep(cfg: FeedConfig, s: State, ticks: seq<Tick>, s1: State, a: Action)
    requires ticks != [] && Next(cfg, s, ticks[0]) == (s1, a)
    ensures Run(cfg, s, ticks).0 == Run(cfg, s1, ticks[1..]).0
    ensures Run(cfg, s, ticks).1 == [a] + Run(cfg, s1, ticks[1..]).1
  {
  }

  /**
   * One pass through the body of the poll loop (main.py:147-195) on the
   * loop's variables. `exit` is true when the pass leaves the poll loop: by
   * `break` after the scheduled restart, or by an exception that reaches the
   * outer `except`.
   */
  method PollOnce(cfg: FeedConfig, t: Tick, restartDay0: Date, last0: Option<Decimal>,
                  lastMultiplyTime0: real, log0: seq<Write>)
    returns (restartDay: Date, last: Option<Decimal>, lastMultiplyTime: real, log: seq<Write>,
             action: Action, exit: bool)
    ensures Next(cfg, State(Polling, last0, lastMultiplyTime0, restartDay0, log0), t)
      == (State(if exit then Starting else Polling, last, lastMultiplyTime, restartDay, log), action)
  {
    restartDay, last, lastMultiplyTime, log := restartDay0, last0, lastMultiplyTime0, log0;
    exit := false;
    if t.wall.hour == 0 && t.wall.minute <= 5 && restartDay != t.wall.date {
      exit := true;
      if t.quitOk {
        restartDay := t.wall.date;
        action := ScheduledRestart(restartDay);
      } else {
        action := Recovered(QuitFailed);
      }
      return;
    }
    if t.clock - lastMultiplyTime > MaxInactivity {
      exit := true;
      action := Recovered(Inactivity);
      return;
    }
    var failed := false;
    match t.reading {
      case LookupFailed =>
        failed := true;
      case Read(raw) =>
        var txt := Normalize(raw);
        if txt == [] {
          action := Skipped;
          return;
        }
        var parsed := Parse(txt);
        if parsed.None? {
          action := Skipped;
          return;
        }
        var val := parsed.value;
        if !Differs(val, last) {
          action := Unchanged;
          return;
        }
        lastMultiplyTime := t.clock;
        if t.writeOk {
          log := log + [Write(val, t.wall)];
          last := Some(val);
          action := Emitted(Write(val, t.wall));
        } else {
          failed := true;
        }
    }
    if failed {
      if t.relocation == NotFound {
        exit := true;
        action := Recovered(FrameLost);
      } else {
        action := Relocated;
      }
    }
  }

  /**
   * `run_bot(config)` run for as many iterations as there are ticks: the
   * writes it makes and what each iteration did are those of Run.
   */
  method RunBot(cfg: FeedConfig, today: Date, ticks: seq<Tick>) returns (log: seq<Write>, actions: seq<Action>)
    ensures log == Run(cfg, Init(today), ticks).0.log
    ensures actions == Run(cfg, Init(today), ticks).1
  {
    var restartDay := today;
    var last: Option<Decimal> := None;
    var lastMultiplyTime := 0.0;
    var polling := false;
    log, actions := [], [];
    var i := 0;
    while i < |ticks|
      invariant 0 <= i <= |ticks|
      invariant polling ==> i == |ticks|
      invariant Run(cfg, Init(today), ticks[..i])
        == (State(if polling then Polling else Starting, last, lastMultiplyTime, restartDay, log), actions)
    {
      // Start a session (main.py:130-144); any failure goes to the outer except.
      var t := ticks[i];
      RunSnoc(cfg, Init(today), ticks[..i], t);
      assert ticks[..i + 1] == ticks[..i] + [t];
      i := i + 1;
      if t.launch == NotFound {
        actions := actions + [Recovered(LaunchFailed)];
        continue;
      }
      last, lastMultiplyTime := None, t.clock;
      actions := actions + [SessionStarted];
      polling := true;

      // The poll loop (main.py:146-195).
      while i < |ticks|
        invariant 0 <= i <= |ticks|
        invariant polling
        invariant Run(cfg, Init(today), ticks[..i])
          == (State(Polling, last, lastMultiplyTime, restartDay, log), actions)
      {
        t := ticks[i];
        RunSnoc(cfg, Init(today), ticks[..i], t);
        assert ticks[..i + 1] == ticks[..i] + [t];
        i := i + 1;
        var action, exit;
        restartDay, last, lastMultiplyTime, log, action, exit :=
          PollOnce(cfg, t, restartDay, last, lastMultiplyTime, log);
        actions := actions + [action];
        if exit {
          polling := false;
          break;
        }
      }
    }
    assert ticks[..i] == ticks;
  }
}
