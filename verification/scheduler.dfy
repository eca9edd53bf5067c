/** The `Scheduler` class: a `running` flag, the background loop, and the
    single `next_post_time`. Threads and sleeps are not modelled; the loop is
    one `RunStep` at a time with the clock readings as integer seconds, and
    the collaborators it calls (schedule loading, video lookup, account
    lookup, the uploader) are inputs. */
module Scheduler {
  import opened Common
  import ScheduleStore

  /** `running` is the flag; `loopAlive` says whether the thread started by
      `start` is still executing `run`. */
  datatype Scheduler = Scheduler(running: bool, loopAlive: bool, nextPostTime: Option<int>)

  /** A live loop always belongs to a running scheduler. */
  predicate Consistent(s: Scheduler)
  {
    s.loopAlive ==> s.running
  }

  /** A freshly constructed scheduler: stopped, with no loop thread and no
      next post time. */
  function Initial(): (s: Scheduler)
    ensures !s.running && !s.loopAlive && s.nextPostTime.None?
    ensures Consistent(s)
  {
    Scheduler(false, false, None)
  }

  /** `get_status`. */
  function GetStatus(s: Scheduler): (r: string)
    ensures r == "running" || r == "stopped"
    ensures r == "running" <==> s.running
  {
    if s.running then "running" else "stopped"
  }

  /** `get_next_post_time` (the instant itself rather than its
      `%Y-%m-%d %H:%M:%S` rendering). */
  function GetNextPostTime(s: Scheduler): (r: Option<int>)
    ensures r.None? <==> s.nextPostTime.None?
  {
    s.nextPostTime
  }

  /** `start`: only a stopped scheduler spawns a loop. */
  function Start(s: Scheduler): (r: Scheduler)
    ensures r.running
    ensures s.running ==> r == s
    ensures !s.running ==> r.loopAlive && r.nextPostTime == s.nextPostTime
    ensures Consistent(s) ==> Consistent(r)
  {
    if s.running then s else s.(running := true, loopAlive := true)
  }

  /** `stop`: clear the flag and join the loop thread, so no loop survives. */
  function Stop(s: Scheduler): (r: Scheduler)
    ensures !r.running
    ensures Consistent(s) ==> !r.loopAlive
    ensures s.running ==> !r.loopAlive && r.nextPostTime == s.nextPostTime
    ensures !s.running ==> r == s
    ensures Consistent(s) ==> Consistent(r)
  {
    if s.running then s.(running := false, loopAlive := false) else s
  }

  lemma StartIdempotent(s: Scheduler)
    ensures Start(Start(s)) == Start(s)
    ensures GetStatus(Start(s)) == "running"
  {
  }

  /** A new scheduler is stopped with no next post time; starting and then
      stopping it brings it back to that state. */
  lemma StartStopFromInitial()
    ensures GetStatus(Initial()) == "stopped" && GetNextPostTime(Initial()) == None
    ensures Start(Initial()).loopAlive && Stop(Start(Initial())) == Initial()
  {
  }

  lemma StopIdempotent(s: Scheduler)
    requires Consistent(s)
    ensures Stop(Stop(s)) == Stop(s)
    ensures GetStatus(Stop(s)) == "stopped" && !Stop(s).loopAlive
  {
  }

  /** The fields of a loaded schedule the scheduler reads. `interval` is
      `None` when the key is absent. */
  datatype ScheduleView = ScheduleView(accounts: seq<string>, caption: string, interval: Option<int>)

  /** What the scheduler sees of a schedule `load_schedule` returns: that
      record has no `interval` key. */
  function ViewOf(s: ScheduleStore.Schedule): (v: ScheduleView)
    ensures v.interval.None?
    ensures v.accounts == s.accounts && v.caption == s.caption
  {
    ScheduleView(s.accounts, s.caption, None)
  }

  const SecondsPerMinute: int := 60

  /** `calculate_next_post_time`: `now` plus the interval in minutes, `None`
      without a schedule, and a `KeyError` when the schedule has no
      interval. */
  function CalculateNextPostTime(view: Option<ScheduleView>, now: int): (r: Outcome<Option<int>>)
    ensures view.None? ==> r == Ok(None)
    ensures view.Some? && view.value.interval.None? ==> r.Raised?
    ensures view.Some? && view.value.interval.Some? ==>
              r.Ok? && r.value.Some? && r.value.value - now == SecondsPerMinute * view.value.interval.value
  {
    match view
    case None => Ok(None)
    case Some(v) =>
      match v.interval
      case None => Raised
      case Some(minutes) => Ok(Some(now + SecondsPerMinute * minutes))
  }

  /** `update_schedule`: replace `next_post_time`, or propagate the
      exception; nothing else changes. */
  function UpdateSchedule(s: Scheduler, view: Option<ScheduleView>, now: int): (r: Outcome<Scheduler>)
    ensures r.Raised? <==> CalculateNextPostTime(view, now).Raised?
    ensures r.Ok? ==> r.value.running == s.running && r.value.loopAlive == s.loopAlive
    ensures r.Ok? ==> r.value.nextPostTime == CalculateNextPostTime(view, now).value
  {
    match CalculateNextPostTime(view, now)
    case Raised => Raised
    case Ok(next) => Ok(s.(nextPostTime := next))
  }

  /** What `get_next_post_time` reports after a successful update: nothing
      when no schedule loads, otherwise `interval` minutes after the update. */
  lemma NextPostTimeAfterUpdate(s: Scheduler, view: Option<ScheduleView>, now: int)
    requires UpdateSchedule(s, view, now).Ok?
    ensures view.None? ==> GetNextPostTime(UpdateSchedule(s, view, now).value) == None
    ensures view.Some? ==> view.value.interval.Some?
                           && GetNextPostTime(UpdateSchedule(s, view, now).value)
                              == Some(now + SecondsPerMinute * view.value.interval.value)
  {
  }

  /** A positive interval always schedules the next post strictly later. */
  lemma UpdateMovesForward(s: Scheduler, v: ScheduleView, now: int)
    requires v.interval.Some? && v.interval.value > 0
    ensures var r := UpdateSchedule(s, Some(v), now);
            r.Ok? && r.value.nextPostTime.Some? && r.value.nextPostTime.value > now
  {
  }

  /** As the schedule file is written, every schedule that loads lacks an
      interval, so `update_schedule` raises whenever there is a schedule. */
  lemma UpdateRaisesOnStoredSchedules(s: Scheduler, sched: ScheduleStore.Schedule, now: int)
    ensures UpdateSchedule(s, Some(ViewOf(sched)), now).Raised?
  {
  }

  // ----- post_content -----

  /** `get_account` for one username: the password, no record, or an
      exception (an unreadable accounts file). */
  datatype InfoLookup = Found(password: string) | NotFound | LookupRaised

  /** `get_random_video(self.video_folder)`: a path, a falsy result, or an
      exception. The call sits outside the `try`, so an exception leaves
      `post_content` altogether. */
  datatype VideoLookup = VideoFound(path: string) | NoVideoFound | VideoRaised

  /** Everything the loop body learns from its collaborators for one
      account: the video lookup, whether `InstagramUploader()` could be
      constructed, the account lookup and the upload. */
  datatype AccountEnv = AccountEnv(video: VideoLookup, uploaderStarts: bool, info: InfoLookup, publish: PublishOutcome)

  /** The arguments of one `upload_to_instagram` call. */
  datatype PublishCall = PublishCall(video: string, caption: string, account: string, password: string)

  datatype Verdict = NoVideo | NoAccountInfo | Errored | Posted | NotPosted

  /** What happened for one account: the call made (if any) and how it
      ended. */
  datatype AccountReport = AccountReport(account: string, call: Option<PublishCall>, verdict: Verdict)

  /** One iteration of the loop in `post_content` whose video lookup returned. */
  function Visit(account: string, env: AccountEnv, caption: string): (r: AccountReport)
    requires !env.video.VideoRaised?
    ensures r.account == account
    ensures r.verdict == NoVideo <==> env.video.NoVideoFound?
    ensures r.call.Some? <==> env.video.VideoFound? && env.uploaderStarts && env.info.Found?
    ensures r.call.Some? ==> r.call.value == PublishCall(env.video.path, caption, account, env.info.password)
    ensures r.verdict == Posted <==> r.call.Some? && env.publish == Published
    ensures r.verdict == NoAccountInfo <==> env.video.VideoFound? && env.uploaderStarts && env.info.NotFound?
  {
    match env.video
    case NoVideoFound => AccountReport(account, None, NoVideo)
    case VideoFound(video) =>
      if !env.uploaderStarts then AccountReport(account, None, Errored)
      else
        match env.info
        case LookupRaised => AccountReport(account, None, Errored)
        case NotFound => AccountReport(account, None, NoAccountInfo)
        case Found(password) =>
          var call := PublishCall(video, caption, account, password);
          match env.publish
          case Published => AccountReport(account, Some(call), Posted)
          case NotPublished => AccountReport(account, Some(call), NotPosted)
          case PublishRaised => AccountReport(account, Some(call), Errored)
  }

  /** The reports of the accounts handled, and whether a video lookup raised
      and ended `post_content` early. */
  datatype PostResult = PostResult(reports: seq<AccountReport>, raised: bool)

  /** The loop over the schedule's accounts, in order: a failure inside the
      `try` is caught and the loop goes on with the next account; a raising
      video lookup ends the loop there. */
  function VisitAll(accounts: seq<string>, envs: seq<AccountEnv>, caption: string): (r: PostResult)
    requires |envs| == |accounts|
    ensures |r.reports| <= |accounts|
    ensures forall i :: 0 <= i < |r.reports| ==> !envs[i].video.VideoRaised?
    ensures forall i :: 0 <= i < |r.reports| ==> r.reports[i] == Visit(accounts[i], envs[i], caption)
    ensures r.raised ==> |r.reports| < |accounts| && envs[|r.reports|].video.VideoRaised?
    ensures !r.raised ==> |r.reports| == |accounts|
  {
    if accounts == [] then PostResult([], false)
    else if envs[0].video.VideoRaised? then PostResult([], true)
    else
      var rest := VisitAll(accounts[1..], envs[1..], caption);
      PostResult([Visit(accounts[0], envs[0], caption)] + rest.reports, rest.raised)
  }

  /** `post_content`: nothing without a schedule, otherwise the reports of
      the loop over the target accounts. */
  function PostContent(view: Option<ScheduleView>, envs: seq<AccountEnv>): (r: PostResult)
    requires view.Some? ==> |envs| == |view.value.accounts|
    ensures view.None? ==> r == PostResult([], false)
    ensures view.Some? ==> |r.reports| <= |envs|
    ensures view.Some? ==> forall i :: 0 <= i < |r.reports| ==>
              !envs[i].video.VideoRaised? && r.reports[i] == Visit(view.value.accounts[i], envs[i], view.value.caption)
    ensures view.Some? && r.raised ==> |r.reports| < |envs| && envs[|r.reports|].video.VideoRaised?
    ensures view.Some? && !r.raised ==> |r.reports| == |envs|
  {
    match view
    case None => PostResult([], false)
    case Some(v) => VisitAll(v.accounts, envs, v.caption)
  }

  /** `post_content` raises exactly when some account's video lookup raises. */
  lemma PostContentRaises(v: ScheduleView, envs: seq<AccountEnv>)
    requires |envs| == |v.accounts|
    ensures PostContent(Some(v), envs).raised <==> exists i :: 0 <= i < |envs| && envs[i].video.VideoRaised?
  {
  }

  /** A skipped or failing account does not affect the others: changing what
      happens for account `i`, other than making its video lookup raise,
      changes only the `i`-th report. */
  lemma {:induction false} OtherAccountsUnaffected(accounts: seq<string>, caption: string, envs: seq<AccountEnv>,
                                                    i: nat, e: AccountEnv)
    requires |envs| == |accounts| && i < |envs|
    requires !envs[i].video.VideoRaised? && !e.video.VideoRaised?
    ensures var before := VisitAll(accounts, envs, caption);
            var after := VisitAll(accounts, envs[i := e], caption);
            && after.raised == before.raised && |after.reports| == |before.reports|
            && forall j :: 0 <= j < |before.reports| && j != i ==> after.reports[j] == before.reports[j]
    decreases i
  {
    if i > 0 && !envs[0].video.VideoRaised? {
      assert envs[i := e][1..] == envs[1..][i - 1 := e];
      OtherAccountsUnaffected(accounts[1..], caption, envs[1..], i - 1, e);
    }
  }

  // ----- the loop -----

  /** The result of one pass of `run`: the new state, the reports of the
      post (if one fired), and whether it fired. */
  datatype Step = Step(state: Scheduler, reports: seq<AccountReport>, fired: bool)

  /** Whether the loop would post at `now`. */
  predicate Due(s: Scheduler, now: int)
  {
    s.nextPostTime.Some? && now >= s.nextPostTime.value
  }

  /** One pass of `run` at clock reading `now`. A loop that sees `running`
      cleared exits. When the post is due it runs `post_content` and then
      `update_schedule` at clock reading `doneAt`; an exception from either
      ends the thread while `running` stays set. */
  function RunStep(s: Scheduler, view: Option<ScheduleView>, envs: seq<AccountEnv>, now: int, doneAt: int): (r: Step)
    requires view.Some? ==> |envs| == |view.value.accounts|
    ensures r.fired <==> s.loopAlive && s.running && Due(s, now)
    ensures r.state.running == s.running
    ensures !r.fired ==> r.reports == [] && r.state.nextPostTime == s.nextPostTime
    ensures !r.fired && s.running ==> r.state == s
    ensures r.fired ==> r.reports == PostContent(view, envs).reports
    ensures r.fired && PostContent(view, envs).raised ==> !r.state.loopAlive && r.state.nextPostTime == s.nextPostTime
    ensures r.fired && !PostContent(view, envs).raised && UpdateSchedule(s, view, doneAt).Ok? ==>
              r.state == UpdateSchedule(s, view, doneAt).value
    ensures r.fired && !PostContent(view, envs).raised && UpdateSchedule(s, view, doneAt).Raised? ==>
              !r.state.loopAlive && r.state.nextPostTime == s.nextPostTime
    ensures Consistent(s) ==> Consistent(r.state)
  {
    if !s.loopAlive then Step(s, [], false)
    else if !s.running then Step(s.(loopAlive := false), [], false)
    else if Due(s, now) then
      var post := PostContent(view, envs);
      if post.raised then Step(s.(loopAlive := false), post.reports, true)
      else
        match UpdateSchedule(s, view, doneAt)
        case Ok(s') => Step(s', post.reports, true)
        case Raised => Step(s.(loopAlive := false), post.reports, true)
    else Step(s, [], false)
  }

  /** `ConfigManager` defines no `get_random_video`, so the first lookup
      raises `AttributeError`: a due post with any target account ends the
      loop thread before any account is handled, and `next_post_time` is
      not moved. */
  lemma MissingVideoLookupEndsLoop(s: Scheduler, v: ScheduleView, envs: seq<AccountEnv>, now: int, doneAt: int)
    requires s.loopAlive && s.running && Due(s, now)
    requires |envs| == |v.accounts| > 0 && envs[0].video == VideoRaised
    ensures var r := RunStep(s, Some(v), envs, now, doneAt);
            && r.fired && r.reports == [] && !r.state.loopAlive && r.state.running
            && r.state.nextPostTime == s.nextPostTime
  {
  }

  /** After the loop thread dies, on the missing interval or on a raising
      video lookup, the scheduler is stuck: it reports `running`, `start`
      does not spawn a new loop, and no later pass fires. */
  lemma CrashLeavesSchedulerStuck(s: Scheduler, sched: ScheduleStore.Schedule, envs: seq<AccountEnv>,
                                  now: int, doneAt: int, later: int, envs': seq<AccountEnv>)
    requires s.loopAlive && s.running && Due(s, now)
    requires |envs| == |sched.accounts| && |envs'| == |sched.accounts|
    ensures var s' := RunStep(s, Some(ViewOf(sched)), envs, now, doneAt).state;
            && GetStatus(s') == "running"
            && Start(s') == s'
            && !RunStep(Start(s'), Some(ViewOf(sched)), envs', later, later).fired
  {
  }

  /** With an interval, every video lookup returning, and a clock that does
      not run backwards, a pass that fired leaves the next post strictly in
      the future, so the next pass at the same instant does not fire again. */
  lemma NoImmediateRefire(s: Scheduler, v: ScheduleView, envs: seq<AccountEnv>, now: int, doneAt: int)
    requires |envs| == |v.accounts|
    requires v.interval.Some? && v.interval.value > 0 && doneAt >= now
    requires !PostContent(Some(v), envs).raised
    requires RunStep(s, Some(v), envs, now, doneAt).fired
    ensures var s' := RunStep(s, Some(v), envs, now, doneAt).state;
            s'.loopAlive && !Due(s', now) && !RunStep(s', Some(v), envs, now, doneAt).fired
  {
  }
}
