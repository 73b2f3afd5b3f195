/*
 * main.py as written (policy `AsWritten`) against what its comments and log
 * lines describe (policy `Corrected`): the status-email weekday, the
 * unreachable cleanup weekday, and the `await` on a synchronous function.
 */
module MonitoringFindings {
  import opened Monitoring
  import opened MonitoringProperties

  /**
   * As written, the status email goes out on weekday 4, which is Friday under
   * `datetime.weekday()`; a Thursday run sends none.
   */
  lemma AsWrittenStatusOnFriday(env: Env, day: Weekday, listing: Listing)
    ensures OfKind(RunSpec(AsWritten, env, day, listing), StatusKind) != []
      <==> Healthy(env, listing) && day == Friday
    ensures OfKind(RunSpec(AsWritten, env, Thursday, listing), StatusKind) == []
  {
    StatusEmailIff(AsWritten, env, day, listing);
    StatusEmailIff(AsWritten, env, Thursday, listing);
  }

  /** With the weekday the comment names, the status email goes out on Thursdays only. */
  lemma CorrectedStatusOnThursday(env: Env, day: Weekday, listing: Listing)
    ensures OfKind(RunSpec(Corrected, env, day, listing), StatusKind) != []
      <==> Healthy(env, listing) && day == Thursday
    ensures Healthy(env, listing) && day == Thursday ==>
      StatusEmail(StatusMail(ConfigOf(env)), Report(listing.probes)) in RunSpec(Corrected, env, day, listing)
  {
    StatusEmailIff(Corrected, env, day, listing);
    if Healthy(env, listing) && day == Thursday {
      OfKindSubset(RunSpec(Corrected, env, day, listing), StatusKind,
                   StatusEmail(StatusMail(ConfigOf(env)), Report(listing.probes)));
    }
  }

  /** As written, `weekday() == 7` never holds, so no run ever cleans up multipart uploads. */
  lemma AsWrittenNeverCleans(env: Env, day: Weekday, listing: Listing)
    ensures forall e :: e in RunSpec(AsWritten, env, day, listing) ==> !e.CleanMultiparts?
  {
    assert day != AsWritten.cleanupDay;
    CleanupIff(AsWritten, env, day, listing);
    CleansNothing(RunSpec(AsWritten, env, day, listing));
  }

  /**
   * With Sunday as weekday 6, a healthy Sunday run cleans up every listed
   * bucket, and no other day cleans up any.
   */
  lemma CorrectedCleansOnSunday(env: Env, day: Weekday, listing: Listing)
    ensures Healthy(env, listing) && day == Sunday ==>
      forall i :: 0 <= i < |listing.probes| ==>
        CleanMultiparts(listing.probes[i].bucket) in RunSpec(Corrected, env, day, listing)
    ensures day != Sunday ==> forall e :: e in RunSpec(Corrected, env, day, listing) ==> !e.CleanMultiparts?
  {
    CleanupIff(Corrected, env, day, listing);
    if Healthy(env, listing) && day == Sunday {
      CleansListed(RunSpec(Corrected, env, day, listing), listing.probes);
    }
    if day != Sunday {
      CleansNothing(RunSpec(Corrected, env, day, listing));
    }
  }

  /**
   * As written, awaiting the None of `trigger_slack_webhook` raises after the
   * first item over the threshold: a run's alerts are nothing, or one warning
   * email followed by the Slack attempt for the same bucket, and the run logs
   * "Finished" only when no bucket is over.
   */
  lemma AsWrittenWarnsAtMostOnce(env: Env, day: Weekday, listing: Listing)
    ensures var a := OfKind(RunSpec(AsWritten, env, day, listing), AlertKind);
      a == [] || (Healthy(env, listing) && |a| == 2 && a[0].WarningEmail?
                  && a[1] == SlackAttempt(ConfigOf(env), Entry(a[0].bucket, a[0].bytes)))
    ensures Last(RunSpec(AsWritten, env, day, listing)) == Finished <==>
      Healthy(env, listing) && forall x :: x in Report(listing.probes) ==> !OverThreshold(x.bytes)
    ensures Healthy(env, listing) && !(forall x :: x in Report(listing.probes) ==> !OverThreshold(x.bytes)) ==>
      Last(RunSpec(AsWritten, env, day, listing)) == Crash(AwaitedNone)
  {
    RunAlerts(AsWritten, env, day, listing);
    RunEndsOnce(AsWritten, env, day, listing);
    if Healthy(env, listing) {
      FirstAlertShape(ConfigOf(env), Report(listing.probes));
      HealthyRunLast(AsWritten, env, day, listing);
    }
  }

  /** Two buckets over the threshold, on a Monday, with every setting present but SLACK_WEBHOOK. */
  const TwoLargeEnv: Env := Env(Some("admin@example.org"), Some("smtp.example.org"), None)
  const TwoLargeListing: Listing :=
    Listed([Probe("a", Some(ThresholdBytes + 1)), Probe("b", Some(ThresholdBytes + 1))])

  /** As written, the only warning email of a run is the one for the first item over the threshold. */
  lemma AsWrittenWarnsOnlyFirst(env: Env, day: Weekday, listing: Listing, e: Effect)
    requires e in RunSpec(AsWritten, env, day, listing) && e.WarningEmail?
    ensures Healthy(env, listing)
    ensures FirstOver(Report(listing.probes)) < |Report(listing.probes)|
    ensures Entry(e.bucket, e.bytes) == Report(listing.probes)[FirstOver(Report(listing.probes))]
  {
    var t := RunSpec(AsWritten, env, day, listing);
    RunAlerts(AsWritten, env, day, listing);
    OfKindMember(t, AlertKind, e);
  }

  /** As written, the second bucket over the threshold gets no warning and the run crashes. */
  lemma AsWrittenSkipsSecondWarning()
    ensures forall e :: e in RunSpec(AsWritten, TwoLargeEnv, Monday, TwoLargeListing) && e.WarningEmail? ==>
                          e.bucket != "b"
    ensures Last(RunSpec(AsWritten, TwoLargeEnv, Monday, TwoLargeListing)) == Crash(AwaitedNone)
  {
    var ps := TwoLargeListing.probes;
    assert Names(ps) == ["a", "b"];
    assert Distinct(Names(ps));
    ReportOnePerBucket(ps);
    assert Report(ps)[0] == Entry("a", ThresholdBytes + 1);
    assert FirstOver(Report(ps)) == 0;
    forall e | e in RunSpec(AsWritten, TwoLargeEnv, Monday, TwoLargeListing) && e.WarningEmail?
      ensures e.bucket != "b"
    {
      AsWrittenWarnsOnlyFirst(TwoLargeEnv, Monday, TwoLargeListing, e);
    }
    AsWrittenWarnsAtMostOnce(TwoLargeEnv, Monday, TwoLargeListing);
    assert Report(ps)[0] in Report(ps);
  }

  /**
   * Without the `await`, every bucket over the threshold gets its warning
   * email and Slack attempt, in dictionary order, and the run logs "Finished".
   */
  lemma CorrectedWarnsEveryBucket(env: Env, day: Weekday, listing: Listing)
    requires Healthy(env, listing)
    ensures OfKind(RunSpec(Corrected, env, day, listing), AlertKind)
      == Alerts(ConfigOf(env), Report(listing.probes))
    ensures forall x :: x in Report(listing.probes) && OverThreshold(x.bytes) ==>
      WarningEmail(WarningMail(ConfigOf(env), x.bucket), x.bucket, x.bytes) in RunSpec(Corrected, env, day, listing)
    ensures Last(RunSpec(Corrected, env, day, listing)) == Finished
  {
    var t := RunSpec(Corrected, env, day, listing);
    var c := ConfigOf(env);
    var report := Report(listing.probes);
    RunAlerts(Corrected, env, day, listing);
    RunEndsOnce(Corrected, env, day, listing);
    AlertsShape(c, report);
    forall x | x in report && OverThreshold(x.bytes)
      ensures WarningEmail(WarningMail(c, x.bucket), x.bucket, x.bytes) in t
    {
      OfKindSubset(t, AlertKind, WarningEmail(WarningMail(c, x.bucket), x.bucket, x.bytes));
    }
  }

  /** On the same two buckets, on any weekday, the corrected loop warns about both and finishes. */
  lemma CorrectedWarnsSecondBucket(day: Weekday)
    ensures WarningEmail(WarningMail(ConfigOf(TwoLargeEnv), "a"), "a", ThresholdBytes + 1)
      in RunSpec(Corrected, TwoLargeEnv, day, TwoLargeListing)
    ensures WarningEmail(WarningMail(ConfigOf(TwoLargeEnv), "b"), "b", ThresholdBytes + 1)
      in RunSpec(Corrected, TwoLargeEnv, day, TwoLargeListing)
    ensures Last(RunSpec(Corrected, TwoLargeEnv, day, TwoLargeListing)) == Finished
  {
    var ps := TwoLargeListing.probes;
    assert Names(ps) == ["a", "b"];
    assert Distinct(Names(ps));
    ReportOnePerBucket(ps);
    assert Report(ps)[0] == Entry("a", ThresholdBytes + 1);
    assert Report(ps)[0] in Report(ps);
    assert Report(ps)[1] == Entry("b", ThresholdBytes + 1);
    assert Report(ps)[1] in Report(ps);
    CorrectedWarnsEveryBucket(TwoLargeEnv, day, TwoLargeListing);
  }
}
