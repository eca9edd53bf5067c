# Instagram upload scheduler — a Dafny model

This project models the scheduling and persistent-state core of a small
Flask application that posts videos to Instagram accounts:

- the account registry that `ConfigManager` keeps in an INI file (read with
  normalisation, partial update, delete);
- the random video selection from the upload folder;
- the schedule file (`save_schedule` / `load_schedule`) and the `HH:MM`
  time notation it uses;
- the validation performed by the `/set_schedule` endpoint;
- the `Scheduler` state machine: `start`, `stop`, `get_status`, the next post
  time, one pass of the background loop, and the per-account loop of
  `post_content`;
- the encrypted per-user session store of `SessionManager` and its expiry
  check;
- the outcome classification of the `/upload` endpoint (200, 207 or 500).

Every operation is a pure function or a method over immutable values. Files
become values: a map of sections for the INI file, a `ScheduleFile` for the
JSON schedule, a `SessionDir` for the session folder. Python exceptions
become an `Outcome` that is either `Ok(value)` or `Raised`. The clock is an
integer number of seconds passed in as a parameter. The uploader, the
folder listing and the other collaborators are inputs. Fernet is modelled
symbolically: a token remembers the key it was made under and opens only
under that key. `random.sample` is a nondeterministic choice constrained
only by its postconditions.

The modules do not fit together as the code wires them, and the model
follows the code:

- `set_schedule` hands `save_schedule` a dict keyed `post_times`, but
  `save_schedule` reads `post_time`. `SetSchedule` therefore answers 500 for
  every valid request and leaves a truncated schedule file
  (`ValidRequestFailsToSave`).
- `calculate_next_post_time` reads an `interval` that no loaded schedule
  has. The interval is a parameter of the scheduler's view of a schedule;
  `UpdateRaisesOnStoredSchedules` shows the as-wired view always raises.
- `post_content` calls `get_random_video`, which `ConfigManager` does not
  define. The lookup is an input that can raise; `MissingVideoLookupEndsLoop`
  shows what the raise does to the loop.

## Model

| member | source | states |
|---|---|---|
| Common.Lower | config_manager.py:43 | `str.lower()` keeps the length and lower-cases each ASCII capital, leaving every other character as it is |
| Clock.ParseHour | app.py:133 | the `%H` field of `strptime` accepts exactly one digit, or two digits whose value is below 24 |
| Clock.ParseMinute | app.py:133 | the `%M` field accepts exactly one digit, or two digits whose value is below 60 |
| Clock.Parse | config_manager.py:114 | a string that `strptime(_, '%H:%M')` accepts gives a valid time of day, and it has 3 to 5 characters including a colon |
| Clock.TwoDigits | config_manager.py:63 | the zero-padded two-digit rendering of a number below 100 reads back as that number |
| Clock.Format | config_manager.py:63 | `strftime('%H:%M')` of a valid time is five characters with the colon at index 2 |
| Clock.ParseFormat | config_manager.py:63 | parsing the `%H:%M` rendering of a valid time gives that time back |
| Clock.FormatParse | config_manager.py:114 | a five-character string that parses is exactly the rendering of the time it parses to |
| Clock.UnpaddedAccepted | app.py:133 | `9:05` and `09:05` parse to the same time; `24:00`, `12:60` and `12:345` are rejected |
| Clock.HourSpelling | app.py:133 | `%H` reads a field as `n` iff `n` is below 24 and the field is `n` zero-padded to two digits or, below ten, its single digit |
| Clock.MinuteSpelling | app.py:133 | `%M` reads a field as `n` iff `n` is below 60 and the field is `n` zero-padded to two digits or, below ten, its single digit |
| Clock.ParseSpellings | app.py:133 | for all strings and times, `strptime(s, '%H:%M')` gives `t` iff `t` is valid and `s` is an hour spelling, a colon and a minute spelling of `t` |
| Clock.UnpaddedSpellingsParse | config_manager.py:114 | every valid time is read back from its padded spelling and from each spelling that drops the leading zero of an hour or minute below ten |
| Registry.WithDefaultFlag | config_manager.py:38-39 | a section without `postflag` gains `postflag = 'true'`; a section that has one is unchanged; no other option changes |
| Registry.FlagOnSpellings | config_manager.py:43 | the flag is on exactly for the four-letter spellings of `true` in any letter case |
| Registry.ToAccount | config_manager.py:41-44 | a record carries the stored password, and its flag is on iff the flag is absent or lower-cases to `true` |
| Registry.FlagString | config_manager.py:80 | `str(v).lower()` of a JSON boolean reads back as that boolean, and of a string reads as on exactly when the string itself would |
| Registry.FirstMissing | config_manager.py:36-44 | the walk raises at the first section, in file order, without a password: every section before it has one, and it has none |
| Registry.ReadRecords | config_manager.py:36-44 | walking the sections in file order succeeds iff every section has a password; the result then holds exactly the walked names, each mapped to its record |
| Registry.WriteBacks | config_manager.py:36-40 | the walk writes the default flag into each visited section, up to and including the first one without a password; later sections, sections outside the walk and the set of names are left alone |
| Registry.ReadAll | config_manager.py:31-46 | walking an enumeration of the file covers every section: success iff every section has a password, one record per section, every section normalised |
| Registry.GetAccounts | config_manager.py:31-46 | the records of all sections, or the `KeyError` of a section without a password; on success every section is normalised, on the `KeyError` exactly the sections up to and including the first one without a password are |
| Registry.GetAccount | config_manager.py:48-56 | on a readable file, a record exists iff the username has a section, and it is the record read from that section (password and flag); the file is written back as by `get_accounts` |
| Registry.UpdateAccount | config_manager.py:72-85 | an unknown name changes nothing; a known name gets only the password and/or flag present in the patch, and all other sections and options are kept |
| Registry.DeleteAccount | config_manager.py:87-97 | exactly the named section is removed, the others are kept, and an unknown name changes nothing |
| Registry.DeleteThenGet | config_manager.py:87-97 | after a delete, `get_account` finds no record for that name and reads every other name as before |
| Registry.UpdateFlagThenGet | config_manager.py:79-80 | a flag set from a JSON boolean reads back as that boolean, with the password unchanged |
| Registry.ToAccountNormalised | config_manager.py:37-44 | writing the default flag into a section does not change the record read from it |
| Registry.ReadNormalises | config_manager.py:36-44 | after a successful read every section has a password and a flag and reads as before |
| Registry.GetAccountsTwiceFile | config_manager.py:36-40 | a second read of the accounts writes nothing more to the file |
| Registry.GetAccountsTwice | config_manager.py:31-46 | a second read of the accounts returns the same records |
| Media.Eligible | config_manager.py:22 | exactly the listed names ending in `.mp4`, `.mov` or `.avi` are kept, without repetition if the listing has none |
| Media.Join | config_manager.py:25 | `os.path.join(folder, name)` starts with the folder and ends with the name, with one `/` between them unless the folder is empty or already ends in `/` |
| Media.JoinInjective | config_manager.py:25 | joining the folder to two names gives the same path only for the same name |
| Media.Paths | config_manager.py:25 | each name becomes the path of that name in the folder, in order |
| Media.PathsDistinct | config_manager.py:29 | distinct names give distinct paths |
| Media.Sample | config_manager.py:27 | `random.sample(pool, count)` returns `count` distinct members of the pool, and the whole pool when `count` is its size |
| Media.GetRandomVideos | config_manager.py:16-29 | `min(count, eligible)` distinct paths drawn from the eligible pool, the whole pool when it is short, and the `ValueError` of a negative count |
| ScheduleStore.SaveSchedule | config_manager.py:58-70 | a record without `post_time` raises and leaves a file that no longer loads; otherwise the file loads back as the saved schedule |
| ScheduleStore.LoadSchedule | config_manager.py:108-128 | a schedule is returned iff the file is a JSON object with all three keys and a parsable time; its time is the parse of the stored string, and it has the stored accounts and caption |
| ScheduleStore.SaveLoad | config_manager.py:58-66 | saving a schedule and loading it back gives the same schedule |
| ScheduleStore.LoadSaveNormalises | config_manager.py:58-66 | a file with any accepted spelling of a time loads as that time; saving what was loaded writes the padded spelling, and the file changes exactly when the stored spelling was not five characters |
| ScheduleRequest.ParseTimes | app.py:133 | the list is accepted iff every entry parses, giving one time per entry; otherwise the first bad entry decides the exception |
| ScheduleRequest.FailureOf | app.py:133 | strptime raises `ValueError` exactly for a string entry and `TypeError` for any other |
| ScheduleRequest.Kept | app.py:129 | at most three entries are kept, and they are the leading ones |
| ScheduleRequest.Validate | app.py:125-133 | a missing key or an empty list after truncation is a `ValueError`; a request is accepted iff all keys are present, the list is non-empty and every kept time parses, and keeps the accounts and caption; otherwise the first kept time that does not parse decides the exception |
| ScheduleRequest.ExtrasIgnored | app.py:128-129 | entries after the third never change the verdict |
| ScheduleRequest.FourthTimeNotChecked | app.py:129 | a fourth time that does not parse is still accepted |
| ScheduleRequest.RecordFor | app.py:135-139 | the dict handed to `save_schedule` carries the accounts and caption but no `post_time` |
| ScheduleRequest.SetSchedule | app.py:120-150 | 400 exactly for a `ValueError` in validation; a refused request changes no file; the answer is 200 iff the scheduler was updated, which needs validation and a save that succeeded |
| ScheduleRequest.FirstBadTimeDecides | app.py:133-150 | when the first kept time that does not parse is a string the answer is 400, otherwise 500; either way the file is untouched and the scheduler not updated |
| ScheduleRequest.ValidRequestFailsToSave | app.py:142-150 | as wired, every valid request ends in 500 with the scheduler not updated and a schedule file that no longer loads |
| Scheduler.GetStatus | scheduler.py:21-24 | `running` iff the flag is set, `stopped` otherwise |
| Scheduler.Initial | scheduler.py:13-18 | a new scheduler is stopped, has no loop thread and no next post time |
| Scheduler.GetNextPostTime | scheduler.py:26-31 | nothing iff no next post time is set |
| Scheduler.Start | scheduler.py:33-38 | a running scheduler is unchanged, so no second loop starts; a stopped one becomes running with a live loop and the same next post time |
| Scheduler.Stop | scheduler.py:40-45 | the flag is cleared and the joined loop is gone; a stopped scheduler is unchanged |
| Scheduler.StartStopFromInitial | scheduler.py:13-45 | a new scheduler is stopped with no next post time; starting it spawns a loop, and stopping it then restores the initial state |
| Scheduler.StartIdempotent | scheduler.py:33-38 | starting twice is starting once, and the status is then `running` |
| Scheduler.StopIdempotent | scheduler.py:40-45 | stopping twice is stopping once, and the status is then `stopped` with no loop |
| Scheduler.ViewOf | config_manager.py:113-117 | the schedule the scheduler loads has the stored accounts and caption and no `interval` |
| Scheduler.CalculateNextPostTime | scheduler.py:62-72 | nothing without a schedule, a `KeyError` without an interval, otherwise exactly `interval` minutes after `now` |
| Scheduler.UpdateSchedule | scheduler.py:47-50 | the next post time is replaced by the computed one, or the exception propagates; the flag and the loop are unchanged |
| Scheduler.NextPostTimeAfterUpdate | scheduler.py:26-31 | after a successful update, `get_next_post_time` reports nothing when no schedule loads, otherwise the update instant plus the interval |
| Scheduler.UpdateMovesForward | scheduler.py:68-70 | a positive interval puts the next post strictly after `now` |
| Scheduler.UpdateRaisesOnStoredSchedules | scheduler.py:68 | for every schedule the store can load, `update_schedule` raises |
| Scheduler.Visit | scheduler.py:84-101 | no video means the account is skipped; the uploader is called iff a video, an uploader and the account's record are all there, with that video, caption, name and password; posted iff that call returned true |
| Scheduler.VisitAll | scheduler.py:81-103 | the accounts are handled in order, one report each, until a video lookup raises; no account after that one is handled |
| Scheduler.PostContent | scheduler.py:74-103 | no reports without a schedule; otherwise one report per target account, in schedule order, up to a raising video lookup |
| Scheduler.PostContentRaises | scheduler.py:83 | `post_content` raises iff some account's video lookup raises |
| Scheduler.OtherAccountsUnaffected | scheduler.py:84-101 | changing what happens for one account, short of a raising lookup, changes no other account's report |
| Scheduler.RunStep | scheduler.py:52-60 | a pass fires iff the loop is alive, the flag is set and `now` has reached the next post time; otherwise nothing changes; an exception ends the loop with the flag still set |
| Scheduler.MissingVideoLookupEndsLoop | scheduler.py:81-83 | a raising first video lookup ends the loop with no account handled and the next post time unmoved |
| Scheduler.CrashLeavesSchedulerStuck | scheduler.py:33-38 | after the loop dies on a stored schedule, the status stays `running`, `start` spawns nothing, and no later pass fires |
| Scheduler.NoImmediateRefire | scheduler.py:56-58 | with a positive interval, a pass that fired is not due again at the same instant |
| Sessions.NumericOf | session_manager.py:94 | numbers compare as themselves and booleans as 0 and 1; strings and other values cannot be compared |
| Sessions.Decrypt | session_manager.py:62 | a blob opens iff it is a token made under the same key, and then to the plaintext it was made from |
| Sessions.Encrypt | session_manager.py:41 | the token made from a plaintext opens under the same key to that plaintext |
| Sessions.DecryptEncrypt | session_manager.py:41 | decrypting under the same key undoes encryption |
| Sessions.DecryptOtherKey | session_manager.py:62 | a token never opens under another key |
| Sessions.Setup | session_manager.py:22-30 | an existing key file is reused and the folder left alone; only without one is the generated key used and written |
| Sessions.SaveSession | session_manager.py:33-44 | the user's file is written and every other user's file is kept |
| Sessions.LoadSession | session_manager.py:46-68 | nothing without a file; data is returned only when the file is a token made under the manager's key from that data |
| Sessions.DeleteSession | session_manager.py:70-81 | exactly the user's file is removed, and deleting an absent session changes nothing |
| Sessions.SaveThenLoad | session_manager.py:33-65 | a saved session loads back as saved, and other users load as before |
| Sessions.DeleteThenLoad | session_manager.py:70-81 | after a delete the user has no session, and other users load as before |
| Sessions.SessionSurvivesRestart | session_manager.py:22-30 | a second start reuses the key, so sessions saved earlier still load |
| Sessions.RegeneratedKeyLosesSessions | session_manager.py:61-68 | a manager holding any other key loads no session saved under the old one |
| Sessions.IsSessionValid | session_manager.py:83-99 | valid iff there is a numeric `expiry` and `now` has not passed it; a non-numeric expiry raises `TypeError` |
| Sessions.ExpiryBoundary | session_manager.py:93-99 | a session is valid at its expiry instant and invalid a second later, and validity never returns once lost |
| Upload.AttemptFor | app.py:45-76 | an account is unknown, disabled, short of videos or uploaded exactly under the conditions the loop tests, in that order |
| Upload.Contribution | app.py:45-76 | an upload adds one success; a disabled account adds nothing; every other outcome adds exactly one error message |
| Upload.Tally | app.py:45-76 | successes plus messages never exceed the selection; all accounts succeed iff every one is uploaded; none succeeds iff none is uploaded |
| Upload.TallySnoc | app.py:45-76 | the totals after one more account are the totals so far plus that account's contribution |
| Upload.UnknownAccountOneError | app.py:46-50 | an unknown account adds exactly one error message and no success |
| Upload.DisabledAccountSkipped | app.py:52-54 | a disabled account adds neither a message nor a success |
| Upload.Classify | app.py:78-89 | 200 iff every selected account succeeded, with no error list; 207 iff some but not all did; 500 otherwise; the non-200 answers carry the collected errors |
| Upload.UploadHandler | app.py:35-89 | 400 without a caption, 500 if the registry raised; otherwise 200 iff every account was uploaded, 207 iff some but not all were, 500 iff none of a non-empty selection was |
| Upload.EmptySelectionSucceeds | app.py:78-81 | an empty selection is answered with 200 |
| Upload.AllDisabledFails | app.py:52-54 | a selection of disabled accounts only is answered with 500, no success and no error message |
| Upload.AllDisabledNoErrors | app.py:52-54 | disabled accounts only add neither successes nor messages |

## Left out

- Selenium uploader: `InstagramUploader` is an input that returns true, returns false or raises.
- Logging: every `logger` call is left out, since none affects behaviour.
- Flask: routing, `render_template` and `jsonify` are left out. Only the status code and the error list are kept, not the message text.
- Non-object JSON bodies: a `request.json` that is not an object is not modelled.
- Threads: `threading.Thread`, `join` and `time.sleep` (60 s per loop pass, 600 s after a post) are not modelled. The loop is one `RunStep` at a time, and the clock readings are parameters.
- Schedule snapshots: each pass sees one loaded schedule for both `post_content` and `update_schedule`. A file that changes between the two loads is not modelled.
- Clock precision: the clock and session expiries are whole seconds, not floats.
- File formats: configparser and JSON syntax, `os.path.abspath`, and the mapping from username to file name are not modelled. The INI `DEFAULT` section and configparser interpolation are left out too.
- Key file contents: a key file that does not hold a valid Fernet key is not modelled.
- Character handling: `lower()` and the `strptime` digit classes are ASCII-only, whereas Python also handles other Unicode letters and digits.
- Registry.GetAccounts: the file's section order is a parameter, since configparser keeps sections in file order and the order decides which write-backs happen before a `KeyError`.
- Registry.UpdateAccount: a `postFlag` that is a JSON number or `null` is not modelled; only booleans and strings are. A `password` that is not a JSON string is not modelled either: configparser would raise `TypeError` on the assignment, before anything is written.
- ScheduleRequest.Validate: a `post_times` value that is not a list is not modelled. A string would be sliced and read one character at a time, so strptime raises `ValueError` and the answer is 400. A number, `null` or a boolean makes the slice raise `TypeError`, and the answer is 500.
- ScheduleStore.LoadSchedule: stored `accounts` and `caption` are always a list of strings and a string. `load_schedule` returns whatever JSON value is stored there. `post_content` then iterates `accounts`: a string gives one-character account names, and a number raises `TypeError` outside the `try`, ending the loop.
- Scheduler.GetNextPostTime: returns the instant itself rather than its `%Y-%m-%d %H:%M:%S` rendering.
- Media.GetRandomVideos: the folder listing is an input, and creating a missing folder is not modelled. The listing is required to have no repeated name, as a directory listing never does.
- Other endpoints: the `index` page and the account management routes of `app.py` are not modelled. `index` calls `get_next_post_times`, which the scheduler does not define. The `/api/accounts` POST route calls `save_account`, which `ConfigManager` does not define.
- Browser scripts: the JavaScript under `static/` is not modelled.
