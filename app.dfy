/** `WaterTrackerApp` without its widgets: the fields its button handlers, its
    countdown tick and its load and save update in place. Dialog answers, the
    custom-amount entry text, the chosen file and the clock are parameters. */
module WaterTracker {
  import opened Wrappers
  import opened Text
  import opened ReminderTimer
  import opened Persistence

  /** The alert a reminder raises: the chosen sound file, or the window's bell. */
  datatype Alert = PlaySound(path: string) | Bell

  /** `play_reminder_sound`'s choice: the stripped sound path if it is not empty,
      the bell otherwise. */
  function ReminderAlert(soundPath: string): (a: Alert)
    ensures a.PlaySound? <==> Strip(soundPath) != []
    ensures a.PlaySound? ==> a.path == Strip(soundPath) && Unpadded(a.path)
  {
    var soundFile := Strip(soundPath);
    if soundFile != [] then PlaySound(soundFile) else Bell
  }

  /** What the "Add" button does with the entry: add a positive amount, or warn
      that the number is not positive, or that the text is not an integer. */
  datatype AddOutcome = Added(amount: int) | NotPositive | NotAnInteger

  /** `add_custom`'s decision on the entry text. */
  function ClassifyEntry(entry: string): (o: AddOutcome)
    ensures o.Added? <==> ParseInt(entry).Some? && ParseInt(entry).value > 0
    ensures o.Added? ==> o.amount == ParseInt(entry).value && o.amount > 0
    ensures o == NotAnInteger <==> ParseInt(entry) == None
  {
    match ParseInt(entry)
    case None => NotAnInteger
    case Some(amount) => if amount > 0 then Added(amount) else NotPositive
  }

  /** The entries "-5" and "0" are integers but not positive: rejected. */
  lemma NonPositiveEntriesRejected()
    ensures ClassifyEntry("-5") == NotPositive
    ensures ClassifyEntry("0") == NotPositive
  {
    ParseIntOfIntToString(-5);
    assert IntToString(-5) == "-5";
    ParseIntOfIntToString(0);
    assert IntToString(0) == "0";
  }

  /** The entry "abc" is not an integer, and neither is "5" behind U+001C, which
      `int()` does not skip: both are rejected. */
  lemma NonIntegerEntryRejected()
    ensures ClassifyEntry("abc") == NotAnInteger
    ensures ClassifyEntry("\U{1c}5") == NotAnInteger
  {
    ParseIntRejectsStray("abc", 0);
    ParseIntRejectsStray("\U{1c}5", 0);
  }

  /** An entry of 4301 ones is a number with too many digits for `int()`: rejected as
      not an integer. */
  lemma OverlongEntryRejected()
    ensures ClassifyEntry(seq(MaxStrDigits + 1, _ => '1')) == NotAnInteger
  {
    ParseIntRejectsOverlong(seq(MaxStrDigits + 1, _ => '1'));
  }

  /** The entry " 150 " is accepted as 150: `int()` ignores surrounding whitespace. */
  lemma PaddedEntryAccepted()
    ensures ClassifyEntry(" 150 ") == Added(150)
  {
    assert " 150 " == " " + IntToString(150) + " ";
    ParseIntIgnoresPadding(" ", IntToString(150), " ");
    ParseIntOfIntToString(150);
  }

  class WaterTrackerApp {
    var totalConsumed: int
    var customSoundPath: string
    var reminderMinutes: int
    /** Whether `reminder_minutes_var` exists yet (it is created between the two loads). */
    var intervalVarCreated: bool
    var reminderRunning: bool
    var nextReminderTime: int
    var countdownText: string
    /** Every reminder alert raised so far, oldest first. */
    var alerts: seq<Alert>

    /** The values `save_data` writes. */
    function Persisted(): Settings
      reads this
    {
      Settings(totalConsumed, customSoundPath, reminderMinutes)
    }

    function TimerState(): Timer
      reads this
    {
      Timer(reminderRunning, nextReminderTime)
    }

    /** `__init__` without the window: total 0 and an empty sound path, the first
        `load_data`, the reminder fields, the second `load_data`. */
    constructor (file: DataFile)
      ensures Persisted() == Load(Settings(0, "", 1), file, true)
      ensures TimerState() == Stopped && intervalVarCreated
      ensures countdownText == IdleText && alerts == []
    {
      totalConsumed := 0;
      customSoundPath := "";
      reminderMinutes := 0;
      intervalVarCreated := false;
      reminderRunning := false;
      nextReminderTime := 0;
      countdownText := IdleText;
      alerts := [];
      new;
      LoadData(file);
      reminderRunning := false;
      intervalVarCreated := true;
      reminderMinutes := 1;
      nextReminderTime := 0;
      LoadData(file);
      StartupLoadsOnce(file, 0);
    }

    /** `load_data`, given what the data file holds. */
    method LoadData(file: DataFile)
      modifies this`totalConsumed, this`customSoundPath, this`reminderMinutes
      ensures Persisted() == Load(old(Persisted()), file, intervalVarCreated)
    {
      match file
      case Absent =>
      case Unreadable =>
      case Present(saved) =>
        totalConsumed := saved.totalConsumed.GetOr(0);
        customSoundPath := saved.customSound.GetOr("");
        if intervalVarCreated {
          reminderMinutes := saved.reminderInterval.GetOr(0);
        }
    }

    /** `save_data`: the record written to the data file. */
    method SaveData() returns (saved: SavedRecord)
      ensures saved == Save(Persisted())
    {
      saved := SavedRecord(Some(totalConsumed), Some(Strip(customSoundPath)), Some(reminderMinutes));
    }

    /** The "+150 ml" button: no clamping at the capacity. */
    method Add150()
      modifies this`totalConsumed
      ensures totalConsumed == old(totalConsumed) + 150
    {
      totalConsumed := totalConsumed + 150;
    }

    /** The "Add" button with the entry's text. */
    method AddCustom(entry: string) returns (outcome: AddOutcome)
      modifies this`totalConsumed
      ensures outcome == ClassifyEntry(entry)
      ensures outcome.Added? ==> totalConsumed == old(totalConsumed) + outcome.amount
      ensures !outcome.Added? ==> totalConsumed == old(totalConsumed)
    {
      var parsed := ParseInt(entry);
      if parsed.None? {
        outcome := NotAnInteger;
      } else if parsed.value > 0 {
        totalConsumed := totalConsumed + parsed.value;
        outcome := Added(parsed.value);
      } else {
        outcome := NotPositive;
      }
    }

    /** The "Reset Water" button; `confirmed` is the answer to the yes/no dialog. */
    method ResetConsumption(confirmed: bool)
      modifies this`totalConsumed
      ensures totalConsumed == if confirmed then 0 else old(totalConsumed)
    {
      if confirmed {
        totalConsumed := 0;
      }
    }

    /** The "Browse" button; `picked` is the dialog's answer, empty when cancelled. */
    method ChooseSoundFile(picked: string)
      modifies this`customSoundPath
      ensures customSoundPath == if picked != [] then picked else old(customSoundPath)
    {
      if picked != [] {
        customSoundPath := picked;
      }
    }

    /** The interval spinbox changed to `minutes`; it takes effect at the next schedule. */
    method SetReminderMinutes(minutes: int)
      modifies this`reminderMinutes
      ensures reminderMinutes == minutes
    {
      reminderMinutes := minutes;
    }

    /** `play_reminder_sound`: the alert is recorded; playing it is not modelled. */
    method PlayReminderSound()
      modifies this`alerts
      ensures alerts == old(alerts) + [ReminderAlert(customSoundPath)]
    {
      alerts := alerts + [ReminderAlert(customSoundPath)];
    }

    /** `update_countdown` with the tick's clock readings: the pure `Tick` applied
        to the fields. */
    method UpdateCountdown(clock: Reads)
      modifies this`nextReminderTime, this`countdownText, this`alerts
      ensures var r := Tick(old(TimerState()), clock, reminderMinutes);
        && TimerState() == r.timer
        && alerts == old(alerts) + (if r.fired then [ReminderAlert(customSoundPath)] else [])
        && countdownText == (if r.shown.Some? then CountdownText(r.shown.value) else old(countdownText))
    {
      ghost var r := Tick(TimerState(), clock, reminderMinutes);
      if !reminderRunning {
        return;
      }
      var timeLeft := SecondsLeft(nextReminderTime, clock.left);
      if timeLeft <= 0 {
        PlayReminderSound();
        var interval := if reminderMinutes < 1 then 1 else reminderMinutes;
        nextReminderTime := clock.reschedule + interval * 60 * Second;
        timeLeft := SecondsLeft(nextReminderTime, clock.recheck);
      }
      assert r.shown == Some(timeLeft) && r.timer == TimerState();
      countdownText := CountdownText(timeLeft);
    }

    /** `toggle_reminder`, reading the clock at `now`; `clock` holds the readings of
        the tick that starting runs at once. Stopping clears the flag and shows the
        idle text; starting schedules a full interval ahead and runs that tick, which,
        read under a second later, neither fires nor moves the deadline and shows the
        interval, or one second less once the clock has moved. */
    method ToggleReminder(now: int, clock: Reads)
      modifies this`reminderRunning, this`nextReminderTime, this`countdownText, this`alerts
      ensures old(reminderRunning) ==>
        && TimerState() == Toggle(old(TimerState()), now, reminderMinutes)
        && alerts == old(alerts) && countdownText == IdleText
      ensures !old(reminderRunning) ==>
        var r := Tick(Toggle(old(TimerState()), now, reminderMinutes), clock, reminderMinutes);
        && TimerState() == r.timer
        && alerts == old(alerts) + (if r.fired then [ReminderAlert(customSoundPath)] else [])
        && countdownText == CountdownText(r.shown.value)
      ensures !old(reminderRunning) && now <= clock.left < now + Second ==>
        && TimerState() == Toggle(old(TimerState()), now, reminderMinutes)
        && alerts == old(alerts)
        && countdownText == CountdownText(StartShown(now, clock.left, reminderMinutes))
    {
      if reminderRunning {
        reminderRunning := false;
        countdownText := IdleText;
      } else {
        ghost var started := Toggle(TimerState(), now, reminderMinutes);
        ghost var shown := StartShown(now, clock.left, reminderMinutes);
        ghost var quiet := now <= clock.left < now + Second;
        if quiet {
          StartShows(TimerState(), now, clock, reminderMinutes);
        }
        reminderRunning := true;
        var interval := if reminderMinutes < 1 then 1 else reminderMinutes;
        nextReminderTime := now + interval * 60 * Second;
        UpdateCountdown(clock);
        if quiet {
          assert Tick(started, clock, reminderMinutes) == TickResult(started, false, Some(shown));
          assert TimerState() == started;
          assert alerts == old(alerts);
          assert countdownText == CountdownText(shown);
        }
      }
    }
  }
}
