/** The reminder timer (`toggle_reminder`, `update_countdown`) as a state machine
    over `time.time()` in whole milliseconds: a running flag and the absolute time
    of the next reminder. Every clock reading is a parameter, and `minutes` stands
    for the interval spinbox value. */
module ReminderTimer {
  import opened Wrappers
  import opened Text
  import opened PyArith

  /** Milliseconds per second. */
  const Second: int := 1000

  datatype Timer = Timer(running: bool, next: int)

  /** State at start-up: stopped, no reminder scheduled (`next_reminder_time = 0`). */
  const Stopped := Timer(false, 0)

  /** Countdown label text while stopped, and the text before the time left. */
  const IdleText := "No reminder active."
  const CountdownPrefix := "Next reminder in: "

  /** `max(1, minutes) * 60`: the interval in seconds, never shorter than a minute. */
  function IntervalSeconds(minutes: int): (s: int)
    ensures s >= 60
    ensures minutes >= 1 ==> s == minutes * 60
    ensures minutes < 1 ==> s == 60
  {
    (if minutes < 1 then 1 else minutes) * 60
  }

  /** The "Start Reminder" / "Stop Reminder" button, read at `now`, before the tick
      that starting runs. */
  function Toggle(t: Timer, now: int, minutes: int): (r: Timer)
    ensures t.running ==> r == Timer(false, t.next)
    ensures !t.running ==> r == Timer(true, now + IntervalSeconds(minutes) * Second)
  {
    if t.running then t.(running := false) else Timer(true, now + IntervalSeconds(minutes) * Second)
  }

  /** `int(next - time.time())`: the whole seconds left, truncated toward zero. */
  function SecondsLeft(next: int, now: int): int {
    TruncDiv(next - now, Second)
  }

  /** No whole second is left exactly when less than a second remains. */
  lemma SecondsLeftSign(next: int, now: int)
    ensures SecondsLeft(next, now) <= 0 <==> next - now < Second
    ensures next - now >= Second ==> SecondsLeft(next, now) >= 1
  {
  }

  /** `n` whole seconds after a reading `d` milliseconds earlier, with `d` under a
      second: the label shows `n`, or `n - 1` as soon as any time has passed. */
  lemma SecondsLeftAfter(from: int, n: int, now: int)
    requires n >= 1 && from <= now < from + Second
    ensures SecondsLeft(from + n * Second, now) == n - (if now > from then 1 else 0)
  {
    var x := from + n * Second - now;
    if now > from {
      assert (n - 1) * Second < x < n * Second;
    } else {
      assert x == n * Second;
    }
  }

  /** The clock readings one `update_countdown` call makes: for the time left (line
      261), and when the reminder fires, for the new deadline (line 265) and for the
      time left again (line 266). */
  datatype Reads = Reads(left: int, reschedule: int, recheck: int)

  /** A tick during which no time passes: all three readings are `at`. */
  function At(at: int): Reads {
    Reads(at, at, at)
  }

  /** What one tick does: the new timer, whether the reminder fired, and the time
      left that the label shows (None when the timer is stopped and the tick returns). */
  datatype TickResult = TickResult(timer: Timer, fired: bool, shown: Option<int>)

  /** One `update_countdown` call. */
  function Tick(t: Timer, clock: Reads, minutes: int): TickResult {
    if !t.running then
      TickResult(t, false, None)
    else if SecondsLeft(t.next, clock.left) <= 0 then
      var next := clock.reschedule + IntervalSeconds(minutes) * Second;
      TickResult(Timer(true, next), true, Some(SecondsLeft(next, clock.recheck)))
    else
      TickResult(t, false, Some(SecondsLeft(t.next, clock.left)))
  }

  /** A tick while stopped changes nothing. A tick while running fires exactly when
      less than a second is left (the truncated time left is 0), reschedules from its
      own second reading (not from the missed deadline) and shows the truncated time
      to the new deadline; otherwise it keeps the timer and shows at least one
      second. */
  lemma TickSpec(t: Timer, clock: Reads, minutes: int)
    ensures var r := Tick(t, clock, minutes);
      && (!t.running ==> r == TickResult(t, false, None))
      && (t.running ==> r.timer.running && r.shown.Some?)
      && (r.fired <==> t.running && t.next - clock.left < Second)
      && (r.fired ==> r.timer.next == clock.reschedule + IntervalSeconds(minutes) * Second)
      && (r.fired ==> r.shown == Some(SecondsLeft(r.timer.next, clock.recheck)))
      && (t.running && !r.fired ==> r.timer == t)
      && (t.running && !r.fired ==> r.shown == Some(SecondsLeft(t.next, clock.left)) && r.shown.value >= 1)
  {
    SecondsLeftSign(t.next, clock.left);
  }

  /** After a reminder the label shows the whole interval only when no time passes
      between the two readings; otherwise it shows one second less. */
  lemma ShownAfterFire(t: Timer, clock: Reads, minutes: int)
    requires t.running && t.next - clock.left < Second
    requires clock.reschedule <= clock.recheck < clock.reschedule + Second
    ensures Tick(t, clock, minutes).fired
    ensures Tick(t, clock, minutes).shown
      == Some(IntervalSeconds(minutes) - (if clock.recheck > clock.reschedule then 1 else 0))
  {
    SecondsLeftSign(t.next, clock.left);
    SecondsLeftAfter(clock.reschedule, IntervalSeconds(minutes), clock.recheck);
  }

  /** The seconds the label shows right after a start at `now` whose tick reads the
      clock at `left`, under a second later: the interval, less one second as soon
      as the clock has moved. */
  function StartShown(now: int, left: int, minutes: int): int {
    IntervalSeconds(minutes) - (if left > now then 1 else 0)
  }

  /** Starting at `now` schedules the reminder a full interval ahead, and the tick run
      at once, read under a second later, neither fires nor moves it; it shows
      `StartShown`. */
  lemma StartShows(t: Timer, now: int, clock: Reads, minutes: int)
    requires !t.running && now <= clock.left < now + Second
    ensures var started := Toggle(t, now, minutes);
      Tick(started, clock, minutes) == TickResult(started, false, Some(StartShown(now, clock.left, minutes)))
  {
    SecondsLeftAfter(now, IntervalSeconds(minutes), clock.left);
  }

  /** With a one-minute interval, a start whose first tick reads the clock one
      millisecond later shows "0:59", not "1:00". */
  lemma StartLabelOneMinute(now: int)
    ensures var r := Tick(Toggle(Stopped, now, 1), At(now + 1), 1);
      r.shown == Some(59) && CountdownText(r.shown.value) == "Next reminder in: 0:59"
  {
    StartShows(Stopped, now, At(now + 1), 1);
    assert IntToString(0) == "0";
    assert ZeroPad2(59) == "59";
  }

  /** Stopping and starting again forgets the old deadline: the new one is an interval
      after the restart, whatever was left before. */
  lemma RestartForgetsDeadline(t: Timer, stopAt: int, startAt: int, minutes: int)
    requires t.running
    ensures Toggle(Toggle(t, stopAt, minutes), startAt, minutes)
      == Timer(true, startAt + IntervalSeconds(minutes) * Second)
  {
  }

  /** The timer and the number of reminders after the ticks `ticks`, in order, as the
      label's `after(1000, ...)` chain runs them. */
  function RunTicks(t: Timer, ticks: seq<Reads>, minutes: int): (Timer, nat) {
    if ticks == [] then
      (t, 0)
    else
      var (before, fires) := RunTicks(t, ticks[..|ticks| - 1], minutes);
      var r := Tick(before, ticks[|ticks| - 1], minutes);
      (r.timer, fires + if r.fired then 1 else 0)
  }

  /** While at least a second is left at every tick, nothing fires and the deadline
      stays put. */
  lemma {:induction false} NoFireWhileASecondRemains(t: Timer, ticks: seq<Reads>, minutes: int)
    requires t.running
    requires forall j :: 0 <= j < |ticks| ==> t.next - ticks[j].left >= Second
    ensures RunTicks(t, ticks, minutes) == (t, 0)
  {
    if ticks != [] {
      var front := ticks[..|ticks| - 1];
      assert forall j :: 0 <= j < |front| ==> front[j] == ticks[j];
      NoFireWhileASecondRemains(t, front, minutes);
      TickSpec(t, ticks[|ticks| - 1], minutes);
    }
  }

  /** The reminder fires at the first tick at which less than a second is left, and
      not before, and the next deadline is an interval after that tick's second
      reading. */
  lemma FiresAtFirstTickUnderASecond(t: Timer, ticks: seq<Reads>, minutes: int)
    requires t.running && |ticks| >= 1
    requires forall j :: 0 <= j < |ticks| - 1 ==> t.next - ticks[j].left >= Second
    requires t.next - ticks[|ticks| - 1].left < Second
    ensures RunTicks(t, ticks, minutes)
      == (Timer(true, ticks[|ticks| - 1].reschedule + IntervalSeconds(minutes) * Second), 1)
  {
    var front := ticks[..|ticks| - 1];
    assert forall j :: 0 <= j < |front| ==> front[j] == ticks[j];
    NoFireWhileASecondRemains(t, front, minutes);
    TickSpec(t, ticks[|ticks| - 1], minutes);
  }

  /** `n` ticks, `p` milliseconds apart, after a reading at `f`, with no time passing
      inside a tick. */
  function Regular(f: int, p: nat, n: nat): seq<Reads> {
    seq(n, j => At(f + p * (j + 1)))
  }

  /** One reminder cycle: after a reminder rescheduled at `f`, ticks every `p`
      milliseconds fire again at the `n`-th tick, the first one more than `I - 1`
      seconds after `f`; the cycle lasts `n * p` milliseconds, which is `I` seconds
      only when `n * p` happens to equal it. */
  lemma CycleOfRegularTicks(f: int, p: nat, n: nat, minutes: int)
    requires n >= 1
    requires p * (n - 1) <= (IntervalSeconds(minutes) - 1) * Second < p * n
    ensures RunTicks(Timer(true, f + IntervalSeconds(minutes) * Second), Regular(f, p, n), minutes)
      == (Timer(true, f + p * n + IntervalSeconds(minutes) * Second), 1)
  {
    var t := Timer(true, f + IntervalSeconds(minutes) * Second);
    var ticks := Regular(f, p, n);
    forall j | 0 <= j < n - 1
      ensures t.next - ticks[j].left >= Second
    {
      MulLeft(p, j + 1, n - 1);
    }
    assert ticks[n - 1] == At(f + p * n);
    FiresAtFirstTickUnderASecond(t, ticks, minutes);
  }

  /** Ticks exactly a second apart keep the period: the next reminder comes exactly
      one interval after the last. */
  lemma OnTimeTicksKeepThePeriod(f: int, minutes: int)
    ensures var i := IntervalSeconds(minutes);
      RunTicks(Timer(true, f + i * Second), Regular(f, Second, i), minutes)
        == (Timer(true, f + 2 * i * Second), 1)
  {
    CycleOfRegularTicks(f, Second, IntervalSeconds(minutes), minutes);
  }

  /** Ticks 1001 ms apart (each `after(1000, ...)` a millisecond late) with a one-minute
      interval fire at the 59th tick, 59.059 s after the last reminder: every cycle
      is 941 ms short of a minute, so the reminders drift earlier. */
  lemma LateTicksShortenTheCycle(f: int)
    ensures RunTicks(Timer(true, f + 60 * Second), Regular(f, 1001, 59), 1)
      == (Timer(true, f + 59059 + 60 * Second), 1)
  {
    CycleOfRegularTicks(f, 1001, 59, 1);
  }

  /** A start at `T` whose first tick reads the clock `d` ms later (`0 < d < 1000`),
      followed by ticks exactly a second apart: the first reminder fires at the
      `I`-th tick, at `T + d + (I - 1)` seconds, which is before `T + I` seconds. */
  lemma FirstFireBeforeOneInterval(start: int, d: int, minutes: int)
    requires 0 < d < Second
    ensures var i := IntervalSeconds(minutes);
      var ticks := seq(i, j => At(start + d + j * Second));
      && RunTicks(Toggle(Stopped, start, minutes), ticks, minutes)
        == (Timer(true, start + d + (i - 1) * Second + i * Second), 1)
      && start + d + (i - 1) * Second < start + i * Second
  {
    var i := IntervalSeconds(minutes);
    var ticks := seq(i, j => At(start + d + j * Second));
    assert ticks[i - 1].reschedule == start + d + (i - 1) * Second;
    FiresAtFirstTickUnderASecond(Timer(true, start + i * Second), ticks, minutes);
  }

  /** The label `f"Next reminder in: {mins}:{secs:02d}"` with `mins = t // 60` and
      `secs = t % 60` (for the divisor 60, Python's floor division is Dafny's). */
  function CountdownText(timeLeft: int): string {
    CountdownPrefix + IntToString(timeLeft / 60) + ":" + ZeroPad2(timeLeft % 60)
  }

  /** Where the parts of `prefix + mins + ":" + secs` lie, for two-character `secs`. */
  lemma LabelParts(prefix: string, mins: string, secs: string)
    requires |mins| >= 1 && |secs| == 2
    ensures var text := prefix + mins + ":" + secs;
      && |text| == |prefix| + |mins| + 3
      && text[..|prefix|] == prefix
      && text[|text| - 3] == ':'
      && text[|prefix|..|text| - 3] == mins
      && text[|text| - 2..] == secs
  {
  }

  /** The minutes part of the label: between the prefix and the last three characters. */
  function MinutesPart(text: string): string
    requires |text| >= |CountdownPrefix| + 3
  {
    text[|CountdownPrefix|..|text| - 3]
  }

  /** The label reads back as the time left: after the prefix come the minutes, a
      colon and exactly two digits of seconds below 60. */
  lemma CountdownReadsBack(timeLeft: int)
    ensures |CountdownText(timeLeft)| >= |CountdownPrefix| + 4
    ensures CountdownText(timeLeft)[..|CountdownPrefix|] == CountdownPrefix
    ensures var text := CountdownText(timeLeft); text[|text| - 3] == ':'
    ensures var text := CountdownText(timeLeft);
      AllDigits(text[|text| - 2..]) && DigitsValue(text[|text| - 2..]) == timeLeft % 60 < 60
    ensures DecimalValue(MinutesPart(CountdownText(timeLeft))) == Some(timeLeft / 60)
    ensures var text := CountdownText(timeLeft);
      DecimalValue(MinutesPart(text)).value * 60 + DigitsValue(text[|text| - 2..]) == timeLeft
  {
    var mins := IntToString(timeLeft / 60);
    var secs := ZeroPad2(timeLeft % 60);
    LabelParts(CountdownPrefix, mins, secs);
    DecimalOfIntToString(timeLeft / 60);
  }
}
