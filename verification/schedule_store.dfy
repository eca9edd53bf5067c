/** `ConfigManager.save_schedule` / `load_schedule`: one schedule kept as a
    JSON object with a minute-precision `post_time`, the target accounts and
    the caption. The file is modelled by what `json.load` would see in it. */
module ScheduleStore {
  import opened Common
  import opened Clock

  /** What `load_schedule` returns. */
  datatype Schedule = Schedule(postTime: TimeOfDay, accounts: seq<string>, caption: string)

  predicate WellFormed(s: Schedule)
  {
    s.postTime.Valid()
  }

  /** The schedule file. `Unreadable` is anything `json.load` rejects or that
      is not a JSON object, an empty (truncated) file included. For a stored
      object each field is `None` when the key is absent or, for `post_time`,
      when its value is not a string. */
  datatype ScheduleFile =
    | Missing
    | Unreadable
    | Stored(postTime: Option<string>, accounts: Option<seq<string>>, caption: Option<string>)

  /** The dict handed to `save_schedule`; `postTime` is `None` when it has no
      `post_time` key. */
  datatype ScheduleRecord = ScheduleRecord(postTime: Option<TimeOfDay>, accounts: seq<string>, caption: string)

  /** The file after a save, and whether the save raised. */
  datatype SaveOutcome = SaveOutcome(file: ScheduleFile, raised: bool)

  /** `save_schedule`: the file is opened for writing (and so truncated)
      before the JSON object is built, so a record without `post_time` raises
      `KeyError` and leaves an empty file behind. */
  function SaveSchedule(rec: ScheduleRecord): (r: SaveOutcome)
    requires rec.postTime.Some? ==> rec.postTime.value.Valid()
    ensures r.raised <==> rec.postTime.None?
    ensures r.raised ==> LoadSchedule(r.file) == None
    ensures !r.raised ==> LoadSchedule(r.file) == Some(Schedule(rec.postTime.value, rec.accounts, rec.caption))
  {
    match rec.postTime
    case None => SaveOutcome(Unreadable, true)
    case Some(t) =>
      ParseFormat(t);
      SaveOutcome(Stored(Some(Format(t)), Some(rec.accounts), Some(rec.caption)), false)
  }

  /** `load_schedule`: `None` for a missing file, for malformed JSON and for
      any other failure (a missing key, a `post_time` strptime rejects). */
  function LoadSchedule(file: ScheduleFile): (r: Option<Schedule>)
    ensures r.Some? ==> WellFormed(r.value)
    ensures r.Some? <==> file.Stored? && file.postTime.Some? && file.accounts.Some?
                          && file.caption.Some? && Parse(file.postTime.value).Some?
    ensures r.Some? ==> r.value.accounts == file.accounts.value && r.value.caption == file.caption.value
    ensures r.Some? ==> Some(r.value.postTime) == Parse(file.postTime.value)
  {
    match file
    case Missing => None
    case Unreadable => None
    case Stored(pt, accounts, caption) =>
      if pt.None? || accounts.None? || caption.None? then None
      else
        match Parse(pt.value)
        case None => None
        case Some(t) => Some(Schedule(t, accounts.value, caption.value))
  }

  /** The record `save_schedule` expects for a schedule. */
  function RecordOf(s: Schedule): ScheduleRecord
  {
    ScheduleRecord(Some(s.postTime), s.accounts, s.caption)
  }

  /** Saving a schedule and loading it back gives the same schedule. */
  lemma SaveLoad(s: Schedule)
    requires WellFormed(s)
    ensures !SaveSchedule(RecordOf(s)).raised
    ensures LoadSchedule(SaveSchedule(RecordOf(s)).file) == Some(s)
  {
  }

  /** A file holding any spelling `strptime` accepts loads as that time,
      and saving what was loaded writes the padded spelling: the file, not
      the schedule, changes on a load/save cycle, and it changes exactly when
      the stored spelling was not the padded five-character one. */
  lemma LoadSaveNormalises(s: string, accounts: seq<string>, caption: string)
    requires Parse(s).Some?
    ensures var f := Stored(Some(s), Some(accounts), Some(caption));
            var t := Parse(s).value;
            && LoadSchedule(f) == Some(Schedule(t, accounts, caption))
            && SaveSchedule(RecordOf(LoadSchedule(f).value)).file == Stored(Some(Format(t)), Some(accounts), Some(caption))
            && (SaveSchedule(RecordOf(LoadSchedule(f).value)).file == f <==> |s| == 5)
  {
    if |s| == 5 {
      FormatParse(s);
    }
  }
}
