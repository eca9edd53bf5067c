/** The `/set_schedule` endpoint of `app.py`: validate the JSON payload, hand
    the resulting dict to `save_schedule`, then ask the scheduler to
    recompute. `ValueError`s become status 400, any other exception 500. */
module ScheduleRequest {
  import opened Common
  import opened Clock
  import opened ScheduleStore

  /** One entry of the `post_times` list: a JSON string or anything else. */
  datatype TimeEntry = TimeText(text: string) | NotText

  /** The JSON object posted; a field is `None` when its key is absent. */
  datatype Payload = Payload(postTimes: Option<seq<TimeEntry>>, accounts: Option<seq<string>>, caption: Option<string>)

  /** The two exception classes the handler tells apart. */
  datatype Failure = ValueError | OtherError

  datatype Checked<T> = Accepted(value: T) | Refused(failure: Failure)

  /** At most this many times are kept from a request. */
  const MaxPostTimes: nat := 3

  /** A validated request: the dict `set_schedule` builds. */
  datatype Request = Request(times: seq<TimeOfDay>, accounts: seq<string>, caption: string)

  predicate Good(e: TimeEntry)
  {
    e.TimeText? && Parse(e.text).Some?
  }

  /** What strptime raises on a bad entry: `ValueError` for a string it
      cannot parse, `TypeError` for a non-string. */
  function FailureOf(e: TimeEntry): (f: Failure)
    ensures f == ValueError <==> e.TimeText?
    ensures f == OtherError <==> e.NotText?
  {
    if e.TimeText? then ValueError else OtherError
  }

  predicate AllGood(es: seq<TimeEntry>)
  {
    forall i :: 0 <= i < |es| ==> Good(es[i])
  }

  /** The list comprehension `[strptime(t, '%H:%M').time() for t in ...]`:
      the first bad entry raises. */
  function ParseTimes(es: seq<TimeEntry>): (r: Checked<seq<TimeOfDay>>)
    ensures r.Accepted? <==> AllGood(es)
    ensures r.Accepted? ==> |r.value| == |es|
    ensures r.Accepted? ==> forall i :: 0 <= i < |es| ==> Some(r.value[i]) == Parse(es[i].text)
    ensures r.Refused? ==> exists k :: 0 <= k < |es| && AllGood(es[..k]) && !Good(es[k])
                                      && r.failure == FailureOf(es[k])
  {
    if es == [] then Accepted([])
    else if !Good(es[0]) then
      assert es[..0] == [];
      Refused(FailureOf(es[0]))
    else
      var rest := ParseTimes(es[1..]);
      match rest
      case Refused(f) =>
        var k :| 0 <= k < |es[1..]| && AllGood(es[1..][..k]) && !Good(es[1..][k]) && f == FailureOf(es[1..][k]);
        assert es[..k + 1] == [es[0]] + es[1..][..k];
        Refused(f)
      case Accepted(ts) =>
        Accepted([Parse(es[0].text).value] + ts)
  }

  /** The validation part of `set_schedule`: required keys, truncation to the
      first three times, a non-empty list, and every kept time parsing. */
  function Validate(p: Payload): (r: Checked<Request>)
    ensures p.postTimes.None? || p.accounts.None? || p.caption.None? ==> r == Refused(ValueError)
    ensures p.postTimes.Some? && p.postTimes.value == [] ==> r == Refused(ValueError)
    ensures r.Accepted? <==> && p.postTimes.Some? && p.accounts.Some? && p.caption.Some?
                             && p.postTimes.value != []
                             && AllGood(Kept(p.postTimes.value))
    ensures r.Accepted? ==> && 1 <= |r.value.times| <= MaxPostTimes
                            && |r.value.times| == |Kept(p.postTimes.value)|
                            && r.value.accounts == p.accounts.value
                            && r.value.caption == p.caption.value
    ensures r.Accepted? ==> forall i :: 0 <= i < |r.value.times| ==>
              Some(r.value.times[i]) == Parse(p.postTimes.value[i].text)
    ensures r.Refused? && p.postTimes.Some? && p.accounts.Some? && p.caption.Some? && p.postTimes.value != [] ==>
              var kept := Kept(p.postTimes.value);
              exists k :: 0 <= k < |kept| && AllGood(kept[..k]) && !Good(kept[k]) && r.failure == FailureOf(kept[k])
  {
    if p.postTimes.None? || p.accounts.None? || p.caption.None? then Refused(ValueError)
    else
      var kept := Kept(p.postTimes.value);
      if kept == [] then Refused(ValueError)
      else
        match ParseTimes(kept)
        case Refused(f) => Refused(f)
        case Accepted(ts) => Accepted(Request(ts, p.accounts.value, p.caption.value))
  }

  /** `post_times[:3]`. */
  function Kept(es: seq<TimeEntry>): (r: seq<TimeEntry>)
    ensures |r| == if |es| < MaxPostTimes then |es| else MaxPostTimes
    ensures r == es[..|r|]
  {
    if |es| <= MaxPostTimes then es else es[..MaxPostTimes]
  }

  /** Times after the third are dropped without being looked at: whatever
      follows the first three entries, the verdict is the same. */
  lemma ExtrasIgnored(p: Payload, extra: seq<TimeEntry>)
    requires p.postTimes.Some? && |p.postTimes.value| == MaxPostTimes
    ensures Validate(p.(postTimes := Some(p.postTimes.value + extra))) == Validate(p)
  {
  }

  /** A fourth time that does not even parse is still accepted. */
  lemma FourthTimeNotChecked()
    ensures Validate(Payload(Some([TimeText("09:00"), TimeText("12:00"), TimeText("18:00"), TimeText("bad")]),
                             Some(["a"]), Some("c"))).Accepted?
  {
  }

  /** The handler's observable effect: the HTTP status, the schedule file
      afterwards, and whether `scheduler.update_schedule()` was called. */
  datatype Response = Response(status: int, file: ScheduleFile, schedulerUpdated: bool)

  /** The dict `set_schedule` passes to `save_schedule`. It is keyed
      `post_times`, while `save_schedule` reads `post_time`, so it carries no
      `post_time` at all. */
  function RecordFor(req: Request): (rec: ScheduleRecord)
    ensures rec.postTime.None?
    ensures rec.accounts == req.accounts && rec.caption == req.caption
  {
    ScheduleRecord(None, req.accounts, req.caption)
  }

  /** `set_schedule` as the code wires it. */
  function SetSchedule(p: Payload, file: ScheduleFile): (r: Response)
    ensures r.status in {200, 400, 500}
    ensures r.status == 400 <==> Validate(p) == Refused(ValueError)
    ensures Validate(p).Refused? ==> r.file == file && !r.schedulerUpdated
    ensures r.schedulerUpdated ==> Validate(p).Accepted? && r.status == 200
    ensures r.status == 200 <==> r.schedulerUpdated
  {
    match Validate(p)
    case Refused(ValueError) => Response(400, file, false)
    case Refused(OtherError) => Response(500, file, false)
    case Accepted(req) =>
      var saved := SaveSchedule(RecordFor(req));
      if saved.raised then Response(500, saved.file, false)
      else Response(200, saved.file, true)
  }

  /** The first kept time that does not parse decides the answer: a string
      strptime rejects is a `ValueError` and so a 400, anything else a 500;
      either way the file is untouched and the scheduler is not updated. */
  lemma FirstBadTimeDecides(p: Payload, file: ScheduleFile, k: nat)
    requires p.postTimes.Some? && p.accounts.Some? && p.caption.Some?
    requires k < |Kept(p.postTimes.value)|
    requires AllGood(Kept(p.postTimes.value)[..k]) && !Good(Kept(p.postTimes.value)[k])
    ensures Kept(p.postTimes.value)[k].TimeText? ==> SetSchedule(p, file) == Response(400, file, false)
    ensures Kept(p.postTimes.value)[k].NotText? ==> SetSchedule(p, file) == Response(500, file, false)
  {
    var kept := Kept(p.postTimes.value);
    var r := Validate(p);
    assert !AllGood(kept) by {
      assert !Good(kept[k]);
    }
    var j :| 0 <= j < |kept| && AllGood(kept[..j]) && !Good(kept[j]) && r.failure == FailureOf(kept[j]);
    FirstBadUnique(kept, j, k);
  }

  /** There is only one first entry that does not parse. */
  lemma FirstBadUnique(es: seq<TimeEntry>, j: nat, k: nat)
    requires j < |es| && AllGood(es[..j]) && !Good(es[j])
    requires k < |es| && AllGood(es[..k]) && !Good(es[k])
    ensures j == k
  {
    if j < k {
      GoodBefore(es, k, j);
    } else if k < j {
      GoodBefore(es, j, k);
    }
  }

  /** Every entry before one that the all-good prefix covers parses. */
  lemma GoodBefore(es: seq<TimeEntry>, k: nat, i: nat)
    requires i < k <= |es| && AllGood(es[..k])
    ensures Good(es[i])
  {
    assert es[..k][i] == es[i];
  }

  /** Because of the key mismatch, every request that passes validation ends
      in status 500: `save_schedule` raises `KeyError` after truncating the
      file, so the previous schedule no longer loads and the scheduler is not
      updated. */
  lemma ValidRequestFailsToSave(p: Payload, file: ScheduleFile)
    requires Validate(p).Accepted?
    ensures var r := SetSchedule(p, file);
            r.status == 500 && !r.schedulerUpdated && LoadSchedule(r.file) == None
  {
  }
}
