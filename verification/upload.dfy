/** The `/upload` endpoint of `app.py`: for each selected account, skip it
    when it is unknown or has its post flag off, otherwise fetch three random
    videos and call the uploader; then answer 200, 207 or 500 from the number
    of successes. The uploader and the video folder are inputs. */
module Upload {
  import opened Common
  import Registry

  /** The number of videos one upload needs. */
  const VideosPerPost: nat := 3

  /** What one iteration learns from its collaborators: the paths
      `get_random_videos(VIDEO_FOLDER, 3)` returned and the uploader's
      outcome. */
  datatype UploadEnv = UploadEnv(videos: seq<string>, publish: PublishOutcome)

  /** How one selected account ended. */
  datatype Attempt = UnknownAccount | Disabled | TooFewVideos | Uploaded | UploadFailed | UploadRaised

  /** The error messages the handler collects, by kind and account. */
  datatype UploadError =
    | NotFoundError(account: string)
    | NotEnoughVideos(account: string)
    | FailedError(account: string)
    | RaisedError(account: string)

  /** One iteration of the loop. */
  function AttemptFor(account: string, registry: map<string, Registry.Account>, env: UploadEnv): (r: Attempt)
    ensures r == UnknownAccount <==> account !in registry
    ensures r == Disabled <==> account in registry && !registry[account].postFlag
    ensures r == TooFewVideos <==> account in registry && registry[account].postFlag && |env.videos| < VideosPerPost
    ensures r == Uploaded <==> account in registry && registry[account].postFlag
                               && |env.videos| >= VideosPerPost && env.publish == Published
  {
    if account !in registry then UnknownAccount
    else if !registry[account].postFlag then Disabled
    else if |env.videos| < VideosPerPost then TooFewVideos
    else match env.publish
      case Published => Uploaded
      case NotPublished => UploadFailed
      case PublishRaised => UploadRaised
  }

  datatype Totals = Totals(successes: nat, errors: seq<UploadError>)

  /** What one iteration adds to the running totals. */
  function Contribution(account: string, a: Attempt): (t: Totals)
    ensures t.successes == (if a == Uploaded then 1 else 0)
    ensures |t.errors| == (if a in {Uploaded, Disabled} then 0 else 1)
  {
    match a
    case UnknownAccount => Totals(0, [NotFoundError(account)])
    case Disabled => Totals(0, [])
    case TooFewVideos => Totals(0, [NotEnoughVideos(account)])
    case Uploaded => Totals(1, [])
    case UploadFailed => Totals(0, [FailedError(account)])
    case UploadRaised => Totals(0, [RaisedError(account)])
  }

  function Plus(a: Totals, b: Totals): Totals
  {
    Totals(a.successes + b.successes, a.errors + b.errors)
  }

  /** Every selected account was uploaded to. */
  predicate AllUploaded(selected: seq<string>, registry: map<string, Registry.Account>, envs: seq<UploadEnv>)
    requires |envs| == |selected|
  {
    forall i :: 0 <= i < |selected| ==> AttemptFor(selected[i], registry, envs[i]) == Uploaded
  }

  /** No selected account was uploaded to. */
  predicate NoneUploaded(selected: seq<string>, registry: map<string, Registry.Account>, envs: seq<UploadEnv>)
    requires |envs| == |selected|
  {
    forall i :: 0 <= i < |selected| ==> AttemptFor(selected[i], registry, envs[i]) != Uploaded
  }

  /** `success_count` and `error_messages` after the loop. */
  function Tally(selected: seq<string>, registry: map<string, Registry.Account>, envs: seq<UploadEnv>): (r: Totals)
    requires |envs| == |selected|
    ensures r.successes + |r.errors| <= |selected|
    ensures r.successes == |selected| <==> AllUploaded(selected, registry, envs)
    ensures r.successes == 0 <==> NoneUploaded(selected, registry, envs)
  {
    if selected == [] then Totals(0, [])
    else
      var rest := Tally(selected[1..], registry, envs[1..]);
      assert forall i :: 1 <= i < |selected| ==> selected[1..][i - 1] == selected[i] && envs[1..][i - 1] == envs[i];
      Plus(Contribution(selected[0], AttemptFor(selected[0], registry, envs[0])), rest)
  }

  /** The loop read front to back: the totals after one more account are the
      totals so far plus that account's contribution. */
  lemma {:induction false} TallySnoc(selected: seq<string>, registry: map<string, Registry.Account>, envs: seq<UploadEnv>,
                                      account: string, env: UploadEnv)
    requires |envs| == |selected|
    ensures Tally(selected + [account], registry, envs + [env])
         == Plus(Tally(selected, registry, envs), Contribution(account, AttemptFor(account, registry, env)))
  {
    if selected == [] {
      assert [account] + [] == [account];
    } else {
      assert (selected + [account])[1..] == selected[1..] + [account];
      assert (envs + [env])[1..] == envs[1..] + [env];
      TallySnoc(selected[1..], registry, envs[1..], account, env);
      var h := Contribution(selected[0], AttemptFor(selected[0], registry, envs[0]));
      var t := Tally(selected[1..], registry, envs[1..]);
      var c := Contribution(account, AttemptFor(account, registry, env));
      assert h.errors + (t.errors + c.errors) == (h.errors + t.errors) + c.errors;
    }
  }

  /** An unknown account adds exactly one error message and no success. */
  lemma UnknownAccountOneError(selected: seq<string>, registry: map<string, Registry.Account>, envs: seq<UploadEnv>,
                               account: string, env: UploadEnv)
    requires |envs| == |selected| && account !in registry
    ensures var before := Tally(selected, registry, envs);
            Tally(selected + [account], registry, envs + [env])
              == Totals(before.successes, before.errors + [NotFoundError(account)])
  {
    TallySnoc(selected, registry, envs, account, env);
  }

  /** An account with its flag off is skipped silently: no error message,
      no success. */
  lemma DisabledAccountSkipped(selected: seq<string>, registry: map<string, Registry.Account>, envs: seq<UploadEnv>,
                               account: string, env: UploadEnv)
    requires |envs| == |selected| && account in registry && !registry[account].postFlag
    ensures Tally(selected + [account], registry, envs + [env]) == Tally(selected, registry, envs)
  {
    TallySnoc(selected, registry, envs, account, env);
    var t := Tally(selected, registry, envs);
    assert t.errors + [] == t.errors;
  }

  /** The handler's answer: status, the number of successes and the error
      messages it reports. */
  datatype Response = Response(status: int, successCount: nat, errors: seq<UploadError>)

  /** The status chosen after the loop over `n` selected accounts: complete
      success, partial success with the error list, or failure. */
  function Classify(n: nat, t: Totals): (r: Response)
    ensures r.successCount == t.successes
    ensures r.status in {200, 207, 500}
    ensures r.status == 200 <==> t.successes == n
    ensures r.status == 207 <==> 0 < t.successes != n
    ensures r.status != 200 ==> r.errors == t.errors
    ensures r.status == 200 ==> r.errors == []
  {
    if t.successes == n then Response(200, t.successes, [])
    else if t.successes > 0 then Response(207, t.successes, t.errors)
    else Response(500, t.successes, t.errors)
  }

  /** `upload`. A form without `caption` is a 400 from Flask before anything
      else; an exception from `get_accounts` is an unhandled 500. */
  function UploadHandler(selected: seq<string>, caption: Option<string>,
                         registry: Outcome<map<string, Registry.Account>>, envs: seq<UploadEnv>): (r: Response)
    requires |envs| == |selected|
    ensures caption.None? ==> r.status == 400
    ensures caption.Some? && registry.Raised? ==> r.status == 500
    ensures r.successCount <= |selected|
    ensures caption.Some? && registry.Ok? ==>
              && (r.status == 200 <==> AllUploaded(selected, registry.value, envs))
              && (r.status == 207 <==> 0 < r.successCount < |selected|)
              && (r.status == 500 <==> |selected| > 0 && NoneUploaded(selected, registry.value, envs))
              && r.successCount == Tally(selected, registry.value, envs).successes
  {
    if caption.None? then Response(400, 0, [])
    else if registry.Raised? then Response(500, 0, [])
    else Classify(|selected|, Tally(selected, registry.value, envs))
  }

  /** An empty selection counts as complete success. */
  lemma EmptySelectionSucceeds(caption: string, registry: map<string, Registry.Account>)
    ensures UploadHandler([], Some(caption), Ok(registry), []).status == 200
  {
  }

  /** Every selected account is registered with its flag off. */
  predicate AllDisabled(selected: seq<string>, registry: map<string, Registry.Account>)
  {
    forall i :: 0 <= i < |selected| ==> selected[i] in registry && !registry[selected[i]].postFlag
  }

  /** Selecting only accounts whose flag is off is answered with 500 and an
      empty error list. */
  lemma AllDisabledFails(selected: seq<string>, registry: map<string, Registry.Account>, envs: seq<UploadEnv>, caption: string)
    requires |envs| == |selected| && |selected| > 0
    requires AllDisabled(selected, registry)
    ensures UploadHandler(selected, Some(caption), Ok(registry), envs) == Response(500, 0, [])
  {
    HandlerClassifies(selected, registry, envs, caption);
    AllDisabledNoErrors(selected, registry, envs);
  }

  /** With a caption and a readable registry the answer is the
      classification of the loop's totals. */
  lemma HandlerClassifies(selected: seq<string>, registry: map<string, Registry.Account>, envs: seq<UploadEnv>, caption: string)
    requires |envs| == |selected|
    ensures UploadHandler(selected, Some(caption), Ok(registry), envs) == Classify(|selected|, Tally(selected, registry, envs))
  {
  }

  lemma {:induction false} AllDisabledNoErrors(selected: seq<string>, registry: map<string, Registry.Account>, envs: seq<UploadEnv>)
    requires |envs| == |selected|
    requires AllDisabled(selected, registry)
    ensures Tally(selected, registry, envs) == Totals(0, [])
  {
    if selected != [] {
      assert AllDisabled(selected[1..], registry) by {
        forall i | 0 <= i < |selected| - 1
          ensures selected[1..][i] in registry && !registry[selected[1..][i]].postFlag
        {
          assert selected[1..][i] == selected[i + 1];
        }
      }
      AllDisabledNoErrors(selected[1..], registry, envs[1..]);
      assert selected[0] in registry && !registry[selected[0]].postFlag;
    }
  }
}
