# Water tracker: a Dafny model of its integer core

The water tracker is a desktop app. It counts the millilitres a user drinks and
draws a bottle that fills as they drink. It also beeps at a fixed interval to
remind them to drink. Almost all of `water_tracker.py` is glue around Tkinter,
PIL, pystray and playsound. Under the glue is some deterministic integer logic,
and that is what this project models and proves:

- **Silhouette extraction** (`silhouette.dfy`, module `Silhouette`). A luminance
  image is a row-major `seq<int>`, in the order `getdata()` yields it. The model
  thresholds it to a 0/255 mask. It inverts the mask when black strictly
  outnumbers white. It then maps the mask to a gray-on-transparent RGBA sprite by
  appending one pixel at a time.
- **Fill rendering** (`fill.dfy`, module `FillRenderer`). The fill height comes
  from the total and the 3000 ml capacity. The fill layer takes the mask as its
  alpha (`putalpha`). It is composited over the sprite; only the alpha 0 and
  alpha 255 cases arise.
- **Reminder timer** (`timer.dfy`, module `ReminderTimer`). A pure state machine
  over `time.time()` in whole milliseconds: start, stop and the tick that
  `after(1000, ...)` reschedules. Every clock reading is a parameter: one for the
  start, and up to three per tick. The truncating `int()` of the time left is
  modelled exactly. It also builds the `mins:ss` countdown label.
- **Persistence** (`persistence.dfy`, module `Persistence`). The mapping between
  the three saved values and an already-parsed JSON record. Missing keys get
  defaults, and the first start-up load is partial.
- **The application object** (`app.dfy`, module `WaterTracker`). This is class
  `WaterTrackerApp`. Its fields are the ones the handlers update in place. Its
  methods are the buttons, the countdown tick, `load_data` and `save_data`.
  Things that come from the user or the platform are parameters: dialog answers,
  the entry text, the chosen file, the clock and the data file's contents.
- **Python string helpers** (`text.dfy`, module `Text`): `str(n)`,
  `f"{n:02d}"`, `int(text)` and `str.strip()`. `arith.dfy` (module `PyArith`)
  holds `int()` on a quotient. `wrappers.dfy` defines `Option`.

Some behaviour of the program that the model keeps, because it is easy to miss:

- Starting the reminder uses `max(1, interval) * 60` seconds.
- Stopping only clears the running flag. The pending `after` callback is not
  cancelled; it returns the next time it runs.
- The mask is inverted exactly when count(0) > count(255); a tie is left alone.
- Inside the silhouette an empty bottle renders opaque black. See Findings.
- The clock is read separately for the deadline (line 253 or 265) and for the
  time left (line 261 or 266), and `int()` truncates, so:
  - a start normally shows one second less than the interval ("0:59" for one
    minute);
  - the reminder fires at the first tick with less than one second left, which
    is up to a second before the deadline;
  - the next deadline is counted from the firing tick, not from the missed
    deadline.
  With ticks exactly a second apart, the first reminder comes about a second
  early and later cycles last exactly one interval. When the `after` chain
  runs late, a cycle ends at the first tick more than I - 1 seconds after the
  last reminder, for an interval of I seconds. With 1 ms of lateness and a
  one-minute interval that is 59.059 s, so the reminders drift earlier. Larger
  lateness can make a cycle longer than the interval: ticks 1017 ms apart give
  60.003 s.

## Model

| member | source | states |
|---|---|---|
| Silhouette.Binarize | water_tracker.py:26 | the mask has one pixel per input pixel, every pixel is 0 or 255, and a pixel is 255 exactly when its luminance exceeds the threshold |
| Silhouette.InvertSwapsMask | water_tracker.py:31-32 | inverting a 0/255 mask keeps it 0/255, swaps every pixel (255 exactly where it was 0) and is undone by inverting again |
| Silhouette.CountPixels | water_tracker.py:29-30 | the counting loop returns the number of pixels equal to the value |
| Silhouette.CountsCoverMask | water_tracker.py:29-30 | in a 0/255 mask the white count plus the black count is the pixel count |
| Silhouette.CountOfInverted | water_tracker.py:29-32 | after inversion, the pixels of value 255 - v are exactly the former pixels of value v |
| Silhouette.PolarityCorrected | water_tracker.py:29-32 | the corrected mask is 0/255 with white at least as common as black; a tie, or fewer blacks, leaves it unchanged; a strict black majority inverts every pixel |
| Silhouette.Count | water_tracker.py:29-30 | the number of pixels equal to a value; `CountPixels` and `CountsCoverMask` state what it counts |
| Silhouette.Invert | water_tracker.py:32 | `ImageOps.invert`: same size; `InvertSwapsMask` states that it swaps 0 and 255 and is its own inverse |
| Silhouette.CorrectPolarity | water_tracker.py:29-32 | the inversion decision; `PolarityCorrected` states when it inverts and that white then is at least as common as black |
| Silhouette.SpritePixel | water_tracker.py:42-46 | the per-pixel gray/transparent choice; `EmptySprite` states it pixel by pixel |
| Silhouette.EmptySprite | water_tracker.py:38-47 | the sprite has one pixel per mask pixel, in order: (150,150,150,255) where the mask is 255, (0,0,0,0) everywhere else |
| Silhouette.GenerateBottleImages | water_tracker.py:24-47 | the returned mask is the polarity-corrected threshold image: 0/255, same size, white at least as common as black, and a pixel is white iff (luminance > threshold) differs from whether the image was inverted; the sprite is the per-pixel gray/transparent map of that mask |
| FillRenderer.FillHeight | water_tracker.py:230-232 | the fill height as the integer floor of h * min(1, total / 3000); `FillHeightRange` and `FillHeightMonotone` state its range and monotonicity |
| FillRenderer.InFill | water_tracker.py:236 | whether a pixel lies in the inclusive rectangle `[0, h - fill_height, w, h]`; `FillLayerRows` states that this is exactly the rows [h - fill_height, h) |
| FillRenderer.FillLayer | water_tracker.py:234-237 | the layer after `rectangle` and `putalpha`, one pixel per mask pixel; `FillLayerRows` states which pixels are blue and what their alpha is |
| FillRenderer.Over | water_tracker.py:239 | `alpha_composite` of one pixel for a source alpha of 0 or 255; `RenderedPixels` states the composite it gives |
| FillRenderer.RenderFilledBottle | water_tracker.py:229-239 | the rendered image, one pixel per mask pixel; `RenderedPixels`, `RenderSaturates` and `EmptyBottleShowsBlack` state its pixels |
| FillRenderer.FillHeightRange | water_tracker.py:230-232 | for a total >= 0 the fill height is min(h, floor(h * total / 3000)): in [0, h], 0 for an empty bottle, h from 3000 ml on |
| FillRenderer.FillHeightMonotone | water_tracker.py:230-232 | a larger total never gives a lower fill height |
| FillRenderer.FillLayerRows | water_tracker.py:234-237 | a fill-layer pixel is blue exactly when its row is in [h - fill_height, h); its alpha is the mask value; with no water no pixel is blue |
| FillRenderer.RenderedPixels | water_tracker.py:234-239 | in the composite, every pixel where the mask is 0 keeps the sprite pixel, so the fill never paints outside the bottle; inside the bottle it is opaque blue in the filled rows and opaque black above them |
| FillRenderer.RenderSaturates | water_tracker.py:230-239 | any two totals of at least 3000 ml render the same image, so 3000 and 10000 look identical |
| FillRenderer.EmptyBottleShowsBlack | water_tracker.py:234-239 | an empty one-pixel bottle renders as opaque black, not as the gray sprite |
| FillRenderer.ClippedFillLayer | water_tracker.py:234-237 | the corrected fill layer has only alpha values 0 and 255 |
| FillRenderer.RenderClippedPixels | water_tracker.py:234-239 | with the corrected layer: mask 0 keeps the sprite; mask 255 in the filled rows is opaque blue; every pixel above the fill line keeps the sprite; a total of 0 renders exactly the sprite |
| FillRenderer.EmptyBottleShowsGrayWhenClipped | water_tracker.py:234-239 | with the corrected layer an empty one-pixel bottle renders gray |
| ReminderTimer.IntervalSeconds | water_tracker.py:252 | the interval is max(1, minutes) * 60 seconds: at least 60, and minutes * 60 for a positive spinbox value |
| ReminderTimer.Toggle | water_tracker.py:244-253 | toggling a running timer clears the flag and keeps the deadline; toggling a stopped timer sets it running with the deadline now + max(1, v) * 60 |
| PyArith.TruncDiv | water_tracker.py:232 | Python's `int()` of an exact quotient, truncating toward zero (also used by `SecondsLeft` for line 261); `FillHeightRange` and `SecondsLeftSign` state the values it gives there |
| ReminderTimer.SecondsLeft | water_tracker.py:261 | `int(next - now)`, truncated toward zero; `SecondsLeftSign` and `SecondsLeftAfter` state its sign and its value |
| ReminderTimer.Tick | water_tracker.py:256-272 | one run of `update_countdown`; `TickSpec` states when it fires and what it sets and shows |
| ReminderTimer.StartShown | water_tracker.py:250-261 | the time left that the start's own tick shows; `StartShows` states that the tick shows it |
| ReminderTimer.RunTicks | water_tracker.py:272 | the `after(1000, ...)` chain as a run of ticks, counting the fires; `NoFireWhileASecondRemains` and `FiresAtFirstTickUnderASecond` state its outcome |
| ReminderTimer.CountdownText | water_tracker.py:268-270 | the countdown label; `CountdownReadsBack` states its layout and that it reads back as the time left |
| ReminderTimer.SecondsLeftSign | water_tracker.py:261-262 | the truncated `int(next - now)` is at most 0 exactly when less than a second is left, and at least 1 otherwise |
| ReminderTimer.SecondsLeftAfter | water_tracker.py:253-261 | `n` whole seconds ahead of a reading under a second earlier, the time left shows `n` when no time has passed and `n - 1` otherwise |
| ReminderTimer.TickSpec | water_tracker.py:256-266 | a tick while stopped changes nothing; while running it fires iff less than a second is left at the reading of line 261; a fire sets the deadline an interval after the reading of line 265 and shows the truncated time to it from the reading of line 266; otherwise the timer is unchanged and at least one second is shown |
| ReminderTimer.ShownAfterFire | water_tracker.py:262-266 | after a fire the label shows the whole interval only when the readings of lines 265 and 266 coincide, and one second less when they differ by under a second |
| ReminderTimer.StartShows | water_tracker.py:250-261 | the tick that starting runs, read under a second after the start, does not fire or move the deadline and shows the interval, or one second less once the clock has moved |
| ReminderTimer.StartLabelOneMinute | water_tracker.py:250-270 | a one-minute start whose tick reads the clock 1 ms later shows "Next reminder in: 0:59" |
| ReminderTimer.RestartForgetsDeadline | water_tracker.py:244-253 | stopping and starting again schedules a full interval after the restart, whatever the timer had before |
| ReminderTimer.NoFireWhileASecondRemains | water_tracker.py:256-272 | over any run of ticks at each of which at least a second is left, nothing fires and the deadline stays put |
| ReminderTimer.FiresAtFirstTickUnderASecond | water_tracker.py:256-272 | over any run of ticks, the reminder fires exactly once, at the first tick with less than a second left, and the next deadline is an interval after that tick's reading of line 265 |
| ReminderTimer.CycleOfRegularTicks | water_tracker.py:261-272 | after a fire rescheduled at `f`, ticks every `p` ms fire next at the first tick more than I - 1 seconds after `f`, so a cycle lasts `n * p` ms, not necessarily I seconds |
| ReminderTimer.OnTimeTicksKeepThePeriod | water_tracker.py:261-272 | ticks exactly a second apart with no time passing inside a tick fire again exactly one interval after the last reminder |
| ReminderTimer.LateTicksShortenTheCycle | water_tracker.py:261-272 | with a one-minute interval and ticks 1001 ms apart the reminder fires at the 59th tick, 59.059 s after the last one, so the reminders drift earlier |
| ReminderTimer.FirstFireBeforeOneInterval | water_tracker.py:250-272 | after a start at T whose first tick is `d` ms later (0 < d < 1000), with ticks a second apart, the first reminder fires at T + d + (I - 1) s, before T + I |
| ReminderTimer.CountdownReadsBack | water_tracker.py:268-270 | the label is the prefix, then the minutes, a colon and exactly two digits of seconds below 60; the minutes denote time_left // 60 (as decimal text of any length), and minutes * 60 + seconds is the time left |
| Text.NatToDecimal | water_tracker.py:270 | `str(n)` gives at least one digit, no leading zero, and reads back as n |
| Text.ZeroPad2 | water_tracker.py:270 | `{secs:02d}` gives digits that read back as secs, exactly two of them for secs < 100 |
| Text.IntToString | water_tracker.py:270 | `str(i)`: at least one character; `DecimalOfIntToString` states that it denotes i |
| Text.IsSpace | water_tracker.py:357 | the characters `str.isspace` accepts, by code point; `Strip` and `StripSpec` state what stripping them does |
| Text.Trim | water_tracker.py:357 | trimming with a chosen padding set: neither end of the result is padding; `TrimSpec` states that it keeps a slice and drops only padding |
| Text.TrimSpec | water_tracker.py:357 | the trimmed string is a slice `s[i..j]` and every character outside `[i, j)` is padding |
| Text.StripSpec | water_tracker.py:357 | the stripped string is a slice `s[i..j]` and every character outside `[i, j)` is whitespace |
| Text.TrimStartSpec | water_tracker.py:357 | trimming the start removes only padding characters and keeps a suffix that does not start with one |
| Text.TrimEndSpec | water_tracker.py:357 | trimming the end removes only padding characters and keeps a prefix that does not end with one |
| Text.TrimOfPadded | water_tracker.py:357 | trimming a string with padding added on either side gives what trimming the string alone gives |
| Text.Strip | water_tracker.py:357 | a stripped string has no whitespace (`str.isspace`) at either end |
| Text.StripFixedIff | water_tracker.py:357 | strip leaves a string unchanged iff it has no whitespace at either end |
| Text.StripIdempotent | water_tracker.py:357 | stripping twice is stripping once |
| Text.TrimKeeps | water_tracker.py:275 | a character that is not padding survives trimming |
| Text.IsIntPadding | water_tracker.py:209 | the characters `int()` skips around a number: `str.isspace` whitespace except U+001C..U+001F; `ParseIntIgnoresPadding` and `ParseIntKeepsSeparators` state what skipping them does |
| Text.DecimalValue | water_tracker.py:209 | an optional sign and at least one ASCII digit denote an integer; `DecimalOfIntToString` states that `str(i)` denotes i |
| Text.ParseInt | water_tracker.py:209 | `int(text)`: padding trimmed, then a sign and 1 to 4300 digits, else the `ValueError`; `ParseIntIgnoresPadding`, `ParseIntOfIntToString`, `ParseIntRejectsOverlong` and `ParseIntRejectsStray` state it |
| Text.DecimalOfIntToString | water_tracker.py:209 | the decimal text of every integer denotes that integer |
| Text.ParseIntIgnoresPadding | water_tracker.py:209 | `int()` gives the same result with any whitespace other than U+001C..U+001F added around the text |
| Text.ParseIntKeepsSeparators | water_tracker.py:209 | `int()` does not skip U+001C, which `str.strip()` removes: `int("\x1c5")` raises while `int("5")` is 5 |
| Text.ParseIntOfIntToString | water_tracker.py:209 | `int(str(i)) == i` for every integer of at most 4300 digits |
| Text.ParseIntRejectsOverlong | water_tracker.py:209 | more than 4300 digits raise (None), although they denote a number |
| Text.ParseIntRejectsStray | water_tracker.py:209 | text holding a character that is not a digit, a sign or `int()` padding (U+001C..U+001F included) raises (None) |
| Persistence.Load | water_tracker.py:331-349 | an absent or unreadable file keeps the current values; a parsed record sets the total, the sound path and the interval, defaulting missing keys to 0, "" and 0; a load before the interval variable exists leaves the interval as it was |
| Persistence.Save | water_tracker.py:353-359 | every key is written; the total and interval as held, and the sound path as `Strip` of the held one, so it has no whitespace at either end |
| Persistence.LoadDefaults | water_tracker.py:339-347 | a record with every key missing loads as 0, "" and 0 |
| Persistence.SaveLoadRoundTrip | water_tracker.py:339-358 | loading a saved record restores total, sound path and interval exactly iff the sound path has no whitespace at either end |
| Persistence.SaveIsStable | water_tracker.py:339-358 | save after load of a saved record writes the same record again |
| Persistence.StartupLoadsOnce | water_tracker.py:67-80 | the partial first load followed by the full second load leaves the same values as one full load from the defaults |
| WaterTracker.ReminderAlert | water_tracker.py:274-283 | the reminder plays the stripped sound path when it is not empty, and rings the bell otherwise |
| WaterTracker.ClassifyEntry | water_tracker.py:207-218 | the entry is added iff it parses to a positive integer, and then that integer is the amount; it is reported as not an integer iff it does not parse |
| WaterTracker.NonPositiveEntriesRejected | water_tracker.py:209-216 | "-5" and "0" are rejected as not positive |
| WaterTracker.NonIntegerEntryRejected | water_tracker.py:209-218 | "abc", and "5" behind U+001C, are rejected as not an integer |
| WaterTracker.OverlongEntryRejected | water_tracker.py:209-218 | an entry of 4301 "1"s is rejected as not an integer |
| WaterTracker.PaddedEntryAccepted | water_tracker.py:209-211 | " 150 " is accepted as 150 |
| WaterTracker.WaterTrackerApp.constructor | water_tracker.py:54-80 | start-up leaves the values of one load from total 0, sound "" and interval 1; the timer is stopped with no deadline, the label idle, no alerts raised |
| WaterTracker.WaterTrackerApp.LoadData | water_tracker.py:331-349 | the saved values become `Load` of the old ones and the file, honouring whether the interval variable exists yet; nothing else changes |
| WaterTracker.WaterTrackerApp.SaveData | water_tracker.py:353-359 | the record written is `Save` of the current values; nothing changes |
| WaterTracker.WaterTrackerApp.Add150 | water_tracker.py:202-205 | the total grows by exactly 150, with no clamp at the capacity; nothing else changes |
| WaterTracker.WaterTrackerApp.AddCustom | water_tracker.py:207-218 | the outcome is the entry's classification; the total grows by exactly the amount when it is added and is unchanged otherwise; nothing else changes |
| WaterTracker.WaterTrackerApp.ResetConsumption | water_tracker.py:220-224 | the total becomes 0 when confirmed and is unchanged otherwise; nothing else changes |
| WaterTracker.WaterTrackerApp.ChooseSoundFile | water_tracker.py:181-192 | a picked file becomes the sound path; a cancelled dialog keeps the old one |
| WaterTracker.WaterTrackerApp.SetReminderMinutes | water_tracker.py:147-148 | the interval value becomes the spinbox value |
| WaterTracker.WaterTrackerApp.PlayReminderSound | water_tracker.py:274-283 | one alert, the one chosen from the current sound path, is appended to the alert log |
| WaterTracker.WaterTrackerApp.UpdateCountdown | water_tracker.py:256-272 | given the tick's clock readings, the timer fields become the pure tick's timer; one alert is logged iff it fired; the label shows the truncated time left, or is untouched while stopped |
| WaterTracker.WaterTrackerApp.ToggleReminder | water_tracker.py:244-254 | stopping clears the flag, keeps the deadline, raises no alert and shows the idle text; starting sets the deadline from the start reading and applies the immediate tick; when that tick reads the clock under a second later it neither fires nor moves the deadline and shows the interval or one second less |

## Findings

| source | as written | input that shows it | evidently intended | confidence | as-written member | corrected member |
|---|---|---|---|---|---|---|
| water_tracker.py:234-239 | `putalpha(self.bottle_mask)` replaces the alpha of the whole layer. Outside the rectangle the layer is (0,0,0), so it becomes opaque black wherever the mask is 255. The gray empty-bottle sprite is therefore covered everywhere inside the bottle. | a 1x1 image with mask [255], sprite [(150,150,150,255)] and a total of 0 renders [(0,0,0,255)] | the mask only clips the fill rectangle: the layer is transparent outside the rectangle, so the empty part of the bottle shows the gray sprite and a total of 0 shows the sprite unchanged | medium; not executed | FillRenderer.EmptyBottleShowsBlack | FillRenderer.RenderClippedPixels |

## Left out

- Tkinter widgets, `StringVar`/`IntVar`, message boxes, file dialogs, `after`
  scheduling and `mainloop`. Their results are parameters: the yes/no answer,
  the entry text, the picked path and the clock readings. A warning dialog is
  the `AddOutcome` value.
- The stop button does not cancel the pending `after` callback. Stopping and
  restarting within a second leaves two tick chains running. The model has one
  tick per call and does not capture this.
- The Gaussian blur, image decoding and the PNG save and reload of the mask and
  sprite. Those are floating-point convolution and foreign file I/O. The model
  starts from the blurred luminance values. It treats reloading as
  reproducing the same pixels.
- General straight-alpha compositing in `Image.alpha_composite`. It is foreign
  and rounds. `Over` covers only a source alpha of 0 or 255. Those are the only
  values that occur for the 0/255 masks `GenerateBottleImages` produces, so the
  renderers require a 0/255 mask.
- RenderFilledBottle: requires a non-negative total. A negative total can only
  come from an edited data file. A total above -3000/h still truncates to a fill
  height of 0 and renders like an empty bottle. A lower one makes the fill
  height negative, and PIL's rectangle then either raises or draws nothing.
- FillHeightRange: states the exact integer floor. The source computes
  `int(h * min(1.0, total / 3000))` in floating point, which can differ by one
  row in rare cases.
- `time.time()` is a float. The model reads it in whole milliseconds, so
  sub-millisecond truncation is not modelled. The readings are parameters, and
  the lemmas state as hypotheses the orderings they need; a wall clock that
  jumps backwards is not ruled out by the model.
- The delay of Tk's `after(1000, ...)` is a parameter: the readings of each tick.
  The run lemmas hold for any readings. The concrete cycle lemmas use evenly
  spaced ticks during which no time passes.
- Text.ParseInt: accepts padding, an optional sign and ASCII digits. The padding
  is `str.isspace` whitespace except U+001C..U+001F. Python's `int()` also
  accepts underscores between digits and non-ASCII decimal digits; the model
  rejects those. The digit limit is CPython's default of 4300
  (`sys.set_int_max_str_digits` is never called), in force since Python 3.11
  and in the 2022 security releases of 3.7 to 3.10; older versions have no
  limit.
- Text.IntToString: does not model the `ValueError` that `str()` raises above
  4300 digits; the model gives the decimal text of every integer. The program
  formats only the total and the countdown minutes, which reach that size only
  through an edited data file.
- `playsound` and the bell are foreign I/O. A fire is recorded as an `Alert` in
  the `alerts` log. The fallback to the bell with a warning when playback
  fails is not modelled.
- The tray icon and its background thread (`hide_window`, `setup_tray_icon`,
  `show_window`, `exit_app`, `cleanup_tray_icon`) and the window handling in
  `on_closing`. These are concurrency and foreign calls. Of `on_closing`, only
  its `save_data` call is modelled.
- Reading and writing the JSON file and the existence check. A file is modelled
  as absent, unreadable or a parsed record with typed fields. JSON values of
  other types are not modelled, such as a string total or a non-object document
  beyond "unreadable".
- `IntVar.get()` raises when the spinbox holds text that is not an integer. The
  model's interval is always an integer, so it does not capture these three
  failures:
  - `save_data` fails, because the read is outside its `try`;
  - `toggle_reminder` raises at line 252, after `reminder_running` is already
    true, so no new deadline is set;
  - `update_countdown` raises at line 264, so the `after(1000, ...)` at line 272
    is skipped and the tick chain stops while `reminder_running` stays true.
- `update_sound_label` and `update_status` (they only change label text) and the
  layout in `create_main_layout`.
- The redraw through `update_filled_bottle` after each change to the total
  (lines 205, 213 and 224). The class holds no displayed image. The image the
  redraw shows is `RenderFilledBottle` of the current total.
