/** The persisted settings (`load_data`, `save_data`): the mapping between the
    three values the program keeps and the already-parsed JSON record, with its
    defaults for missing keys. Reading and writing the file is not modelled. */
module Persistence {
  import opened Wrappers
  import opened Text

  /** The three values that are saved: millilitres drunk, the sound file's path,
      and the reminder interval in minutes (the spinbox value). */
  datatype Settings = Settings(totalConsumed: int, customSound: string, reminderInterval: int)

  /** A parsed `water_data.json` object; each key may be missing. */
  datatype SavedRecord = SavedRecord(
    totalConsumed: Option<int>,
    customSound: Option<string>,
    reminderInterval: Option<int>)

  /** What `load_data` finds at the data file's path: no file, a file that cannot be
      read or parsed (the bare `except` swallows the error), or a parsed record. */
  datatype DataFile = Absent | Unreadable | Present(record: SavedRecord)

  /** `load_data`, applied field by field in source order. `intervalVarExists` is
      false for the first call, made before `reminder_minutes_var` is created: that
      call sets the total and the sound path, then fails on the interval, and the
      swallowed error leaves the interval as it was. */
  function Load(s: Settings, file: DataFile, intervalVarExists: bool): (r: Settings)
    ensures !file.Present? ==> r == s
    ensures file.Present? ==>
      && r.totalConsumed == file.record.totalConsumed.GetOr(0)
      && r.customSound == file.record.customSound.GetOr("")
      && r.reminderInterval == (if intervalVarExists then file.record.reminderInterval.GetOr(0) else s.reminderInterval)
  {
    match file
    case Absent => s
    case Unreadable => s
    case Present(rec) =>
      var total := rec.totalConsumed.GetOr(0);
      var sound := rec.customSound.GetOr("");
      if intervalVarExists then Settings(total, sound, rec.reminderInterval.GetOr(0))
      else Settings(total, sound, s.reminderInterval)
  }

  /** `save_data`: every key is written, and the sound path is stripped. */
  function Save(s: Settings): (rec: SavedRecord)
    ensures rec.totalConsumed == Some(s.totalConsumed)
    ensures rec.customSound == Some(Strip(s.customSound)) && Unpadded(rec.customSound.value)
    ensures rec.reminderInterval == Some(s.reminderInterval)
  {
    SavedRecord(Some(s.totalConsumed), Some(Strip(s.customSound)), Some(s.reminderInterval))
  }

  /** A record with every key missing loads as the defaults 0, "" and 0. */
  lemma LoadDefaults(s: Settings)
    ensures Load(s, Present(SavedRecord(None, None, None)), true) == Settings(0, "", 0)
  {
  }

  /** Loading what was saved restores the settings exactly when the sound path has no
      whitespace at either end; the interval is restored as saved, even 0. */
  lemma SaveLoadRoundTrip(s: Settings, current: Settings)
    ensures Load(current, Present(Save(s)), true) == s <==> Unpadded(s.customSound)
  {
    StripFixedIff(s.customSound);
  }

  /** Saving again after loading a saved record writes the same record: one save and
      load cycle already reaches a fixed point. */
  lemma SaveIsStable(s: Settings, current: Settings)
    ensures Save(Load(current, Present(Save(s)), true)) == Save(s)
  {
    StripIdempotent(s.customSound);
  }

  /** The two start-up loads (the first failing at the interval, the second after the
      interval spinbox exists with its value 1) leave what a single load from the
      defaults would. */
  lemma StartupLoadsOnce(file: DataFile, placeholder: int)
    ensures var first := Load(Settings(0, "", placeholder), file, false);
      Load(first.(reminderInterval := 1), file, true) == Load(Settings(0, "", 1), file, true)
  {
  }
}
