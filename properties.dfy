/*
 * What a run of main() does and does not do, stated over the trace `RunSpec`
 * (which `Monitoring.Run` is proved to produce), and the three places where
 * main.py does something other than what its comments and log lines say.
 */
module MonitoringProperties {
  import opened Monitoring

  /** The effects grouped by the collaborator they concern. */
  datatype Kind =
    | StorageKind   // list_buckets and size
    | StatusKind    // the status email
    | CleanupKind   // clean_multiparts
    | AlertKind     // warning emails and Slack attempts
    | TerminalKind  // the event that ends the run: an exception or "Finished"

  function KindOf(e: Effect): Kind
  {
    match e
    case ListBuckets => StorageKind
    case Measure(_) => StorageKind
    case StatusEmail(_, _) => StatusKind
    case CleanMultiparts(_) => CleanupKind
    case WarningEmail(_, _, _) => AlertKind
    case SlackSend(_, _, _) => AlertKind
    case SlackSkip(_) => AlertKind
    case ConfigError(_) => TerminalKind
    case Crash(_) => TerminalKind
    case Finished => TerminalKind
  }

  /** The effects of kind `k` in a trace, in trace order. */
  function OfKind(t: seq<Effect>, k: Kind): seq<Effect>
  {
    if t == [] then []
    else (if KindOf(t[0]) == k then [t[0]] else []) + OfKind(t[1..], k)
  }

  function Last(t: seq<Effect>): Effect
    requires t != []
  {
    t[|t| - 1]
  }

  predicate AllMeasured(probes: seq<Probe>)
  {
    forall i :: 0 <= i < |probes| ==> probes[i].size.Some?
  }

  /** The index of the first bucket whose size cannot be read, or the number of buckets. */
  function FirstFailure(probes: seq<Probe>): (k: nat)
    ensures k <= |probes|
    ensures k < |probes| <==> !AllMeasured(probes)
    ensures k < |probes| ==> probes[k].size.None?
  {
    if probes == [] then 0
    else if probes[0].size.None? then 0
    else 1 + FirstFailure(probes[1..])
  }

  /** Every bucket before the first failure has a size. */
  lemma {:induction false} FirstFailureIsFirst(probes: seq<Probe>)
    ensures forall i :: 0 <= i < FirstFailure(probes) ==> probes[i].size.Some?
    decreases |probes|
  {
    if probes != [] && probes[0].size.Some? {
      FirstFailureIsFirst(probes[1..]);
      forall i | 0 <= i < FirstFailure(probes) ensures probes[i].size.Some? {
        if i > 0 { assert probes[i] == probes[1..][i - 1]; }
      }
    }
  }

  /** The bucket names of a listing, in order. */
  function Names(probes: seq<Probe>): (names: seq<string>)
    ensures |names| == |probes|
    ensures forall i :: 0 <= i < |probes| ==> names[i] == probes[i].bucket
  {
    if probes == [] then [] else [probes[0].bucket] + Names(probes[1..])
  }

  /** The `Measure` events of a run that measures every bucket of `probes`. */
  function MeasureLog(probes: seq<Probe>): seq<Effect>
  {
    if probes == [] then [] else [Measure(probes[0].bucket)] + MeasureLog(probes[1..])
  }

  /** `bucket_size_dict` after the measuring loop has added `probes` to `acc`. */
  function Fill(acc: seq<Entry>, probes: seq<Probe>): seq<Entry>
    requires AllMeasured(probes)
    decreases |probes|
  {
    if probes == [] then acc
    else Fill(Upsert(acc, probes[0].bucket, probes[0].size.value), probes[1..])
  }

  /** `bucket_size_dict` as main() builds it from the listing. */
  function Report(probes: seq<Probe>): seq<Entry>
    requires AllMeasured(probes)
  {
    Fill([], probes)
  }

  /** The items of `report` over the threshold, each with its email and Slack attempt. */
  function Alerts(c: Config, report: seq<Entry>): seq<Effect>
  {
    if report == [] then []
    else (if OverThreshold(report[0].bytes) then Alert(c, report[0]) else []) + Alerts(c, report[1..])
  }

  /** The index of the first item over the threshold, or the number of items. */
  function FirstOver(report: seq<Entry>): (k: nat)
    ensures k <= |report|
    ensures forall i :: 0 <= i < k ==> !OverThreshold(report[i].bytes)
    ensures k < |report| ==> OverThreshold(report[k].bytes)
  {
    if report == [] then 0
    else if OverThreshold(report[0].bytes) then 0
    else 1 + FirstOver(report[1..])
  }

  /** The alerts of the first item over the threshold, if there is one. */
  function FirstAlert(c: Config, report: seq<Entry>): seq<Effect>
  {
    if FirstOver(report) < |report| then Alert(c, report[FirstOver(report)]) else []
  }

  /** A run that gets past its configuration checks, its listing and every size. */
  predicate Healthy(env: Env, listing: Listing)
  {
    Configured(env) && listing.Listed? && AllMeasured(listing.probes)
  }

  // ---------------------------------------------------------------------------
  // Sequence helpers

  lemma {:induction false} OfKindAppend(a: seq<Effect>, b: seq<Effect>, k: Kind)
    ensures OfKind(a + b, k) == OfKind(a, k) + OfKind(b, k)
    decreases |a|
  {
    if a != [] {
      assert (a + b)[1..] == a[1..] + b;
      OfKindAppend(a[1..], b, k);
      AppendAssoc(if KindOf(a[0]) == k then [a[0]] else [], OfKind(a[1..], k), OfKind(b, k));
    } else {
      assert a + b == b;
    }
  }

  lemma {:induction false} OfKindMember(t: seq<Effect>, k: Kind, e: Effect)
    requires e in t && KindOf(e) == k
    ensures e in OfKind(t, k)
    decreases |t|
  {
    if t[0] != e {
      assert e in t[1..];
      OfKindMember(t[1..], k, e);
    }
  }

  lemma {:induction false} OfKindSubset(t: seq<Effect>, k: Kind, e: Effect)
    requires e in OfKind(t, k)
    ensures e in t && KindOf(e) == k
    decreases |t|
  {
    if t != [] && !(KindOf(t[0]) == k && e == t[0]) {
      assert e in OfKind(t[1..], k);
      OfKindSubset(t[1..], k, e);
    }
  }

  lemma {:induction false} MeasureLogOfKind(probes: seq<Probe>, k: Kind)
    ensures OfKind(MeasureLog(probes), k) == if k == StorageKind then MeasureLog(probes) else []
    decreases |probes|
  {
    if probes != [] {
      OfKindAppend([Measure(probes[0].bucket)], MeasureLog(probes[1..]), k);
      MeasureLogOfKind(probes[1..], k);
    }
  }

  lemma {:induction false} CleanupLogOfKind(allBuckets: seq<Probe>, k: Kind)
    ensures OfKind(CleanupLog(allBuckets), k) == if k == CleanupKind then CleanupLog(allBuckets) else []
    decreases |allBuckets|
  {
    if allBuckets != [] {
      OfKindAppend([CleanMultiparts(allBuckets[0].bucket)], CleanupLog(allBuckets[1..]), k);
      CleanupLogOfKind(allBuckets[1..], k);
    }
  }

  lemma OfKindSingle(e: Effect, k: Kind)
    ensures OfKind([e], k) == if KindOf(e) == k then [e] else []
  {
    assert [e][1..] == [];
  }

  lemma AlertOfKind(c: Config, e: Entry, k: Kind)
    ensures OfKind(Alert(c, e), k) == if k == AlertKind then Alert(c, e) else []
  {
    var a := Alert(c, e);
    assert KindOf(a[0]) == AlertKind && KindOf(a[1]) == AlertKind;
    assert a[1..][1..] == [];
    assert OfKind(a[1..], k) == (if k == AlertKind then [a[1]] else []) + OfKind([], k);
    assert a == [a[0]] + [a[1]];
  }

  // ---------------------------------------------------------------------------
  // The measuring loop

  /** The log up to the first failure, one bucket at a time. */
  lemma {:induction false} MeasureLogStep(probes: seq<Probe>)
    requires probes != [] && probes[0].size.Some? && FirstFailure(probes) < |probes|
    ensures probes[FirstFailure(probes)] == probes[1..][FirstFailure(probes[1..])]
    ensures MeasureLog(probes[..FirstFailure(probes) + 1])
      == [Measure(probes[0].bucket)] + MeasureLog(probes[1..][..FirstFailure(probes[1..]) + 1])
  {
    var k := FirstFailure(probes[1..]);
    assert probes[..k + 2] == [probes[0]] + probes[1..][..k + 1];
  }

  /** A listing is fully measured exactly when its tail is and its head is. */
  lemma AllMeasuredCons(probes: seq<Probe>)
    requires probes != []
    ensures AllMeasured(probes) <==> probes[0].size.Some? && AllMeasured(probes[1..])
  {
    if probes[0].size.Some? && AllMeasured(probes[1..]) {
      forall i | 0 <= i < |probes| ensures probes[i].size.Some? {
        if i > 0 { assert probes[i] == probes[1..][i - 1]; }
      }
    }
  }

  /**
   * When every size can be read, the measuring loop measures every bucket
   * and hands the complete dictionary to the rest of main().
   */
  lemma {:induction false} MeasureComplete(p: Policy, c: Config, day: Weekday, allBuckets: seq<Probe>,
                                           acc: seq<Entry>, probes: seq<Probe>)
    requires AllMeasured(probes)
    ensures MeasurePhase(p, c, day, allBuckets, acc, probes)
      == MeasureLog(probes) + Decisions(p, c, day, allBuckets, Fill(acc, probes))
    decreases |probes|
  {
    if probes == [] {
      assert MeasureLog(probes) == [];
    } else {
      var rest := probes[1..];
      var acc' := Upsert(acc, probes[0].bucket, probes[0].size.value);
      AllMeasuredCons(probes);
      MeasureComplete(p, c, day, allBuckets, acc', rest);
      AppendAssoc([Measure(probes[0].bucket)], MeasureLog(rest), Decisions(p, c, day, allBuckets, Fill(acc', rest)));
    }
  }

  /** The measuring loop's log when it stops: each bucket up to the first unreadable size, then the exception. */
  function StopLog(probes: seq<Probe>): seq<Effect>
  {
    if probes == [] then []
    else
      [Measure(probes[0].bucket)]
      + (if probes[0].size.None? then [Crash(SizeUnavailable(probes[0].bucket))] else StopLog(probes[1..]))
  }

  /**
   * Otherwise the measuring loop stops with an exception right after the
   * first bucket whose size cannot be read.
   */
  lemma {:induction false} MeasureStops(p: Policy, c: Config, day: Weekday, allBuckets: seq<Probe>,
                                        acc: seq<Entry>, probes: seq<Probe>)
    requires !AllMeasured(probes)
    ensures MeasurePhase(p, c, day, allBuckets, acc, probes) == StopLog(probes)
    decreases |probes|
  {
    AllMeasuredCons(probes);
    if probes[0].size.Some? {
      var acc' := Upsert(acc, probes[0].bucket, probes[0].size.value);
      assert MeasurePhase(p, c, day, allBuckets, acc, probes)
        == [Measure(probes[0].bucket)] + MeasurePhase(p, c, day, allBuckets, acc', probes[1..]);
      MeasureStops(p, c, day, allBuckets, acc', probes[1..]);
    }
  }

  /** The log of a stopped loop is the log of the buckets up to the first failure, then the exception. */
  lemma {:induction false} StopLogShape(probes: seq<Probe>)
    requires !AllMeasured(probes)
    ensures StopLog(probes)
      == MeasureLog(probes[..FirstFailure(probes) + 1])
         + [Crash(SizeUnavailable(probes[FirstFailure(probes)].bucket))]
    decreases |probes|
  {
    AllMeasuredCons(probes);
    if probes[0].size.None? {
      assert probes[..1] == [probes[0]];
      assert MeasureLog(probes[..1]) == [Measure(probes[0].bucket)] + MeasureLog([]);
    } else {
      var rest := probes[1..];
      StopLogShape(rest);
      MeasureLogStep(probes);
      var m := [Measure(probes[0].bucket)];
      var k := FirstFailure(rest);
      var log := MeasureLog(rest[..k + 1]);
      var crash := [Crash(SizeUnavailable(rest[k].bucket))];
      AppendAssoc(m, log, crash);
      calc {
        StopLog(probes);
        m + StopLog(rest);
        m + (log + crash);
        (m + log) + crash;
        { assert probes[FirstFailure(probes)] == rest[k]; }
        MeasureLog(probes[..FirstFailure(probes) + 1])
        + [Crash(SizeUnavailable(probes[FirstFailure(probes)].bucket))];
      }
    }
  }

  /**
   * The shape of every run that passes its configuration checks: list the
   * buckets, then either stop on the listing error, stop right after the
   * first bucket whose size cannot be read, or measure every bucket and go on
   * with the complete size dictionary.
   */
  lemma RunShape(p: Policy, env: Env, day: Weekday, listing: Listing)
    requires Configured(env)
    ensures listing.ListingFailed? ==>
      RunSpec(p, env, day, listing) == [ListBuckets, Crash(ListingUnavailable)]
    ensures Healthy(env, listing) ==>
      RunSpec(p, env, day, listing)
        == [ListBuckets] + MeasureLog(listing.probes)
           + Decisions(p, ConfigOf(env), day, listing.probes, Report(listing.probes))
    ensures listing.Listed? && !AllMeasured(listing.probes) ==>
      var k := FirstFailure(listing.probes);
      RunSpec(p, env, day, listing)
        == [ListBuckets] + MeasureLog(listing.probes[..k + 1])
           + [Crash(SizeUnavailable(listing.probes[k].bucket))]
  {
    if Healthy(env, listing) {
      HealthyShape(p, env, day, listing);
    } else if listing.Listed? {
      SizeFailureShape(p, env, day, listing);
    }
  }

  lemma HealthyShape(p: Policy, env: Env, day: Weekday, listing: Listing)
    requires Healthy(env, listing)
    ensures RunSpec(p, env, day, listing)
      == [ListBuckets] + MeasureLog(listing.probes)
         + Decisions(p, ConfigOf(env), day, listing.probes, Report(listing.probes))
  {
    var ps := listing.probes;
    var c := ConfigOf(env);
    MeasureComplete(p, c, day, ps, [], ps);
    AppendAssoc([ListBuckets], MeasureLog(ps), Decisions(p, c, day, ps, Report(ps)));
  }

  lemma SizeFailureShape(p: Policy, env: Env, day: Weekday, listing: Listing)
    requires Configured(env) && listing.Listed? && !AllMeasured(listing.probes)
    ensures var k := FirstFailure(listing.probes);
      RunSpec(p, env, day, listing)
        == [ListBuckets] + MeasureLog(listing.probes[..k + 1])
           + [Crash(SizeUnavailable(listing.probes[k].bucket))]
  {
    var ps := listing.probes;
    var k := FirstFailure(ps);
    MeasureStops(p, ConfigOf(env), day, ps, [], ps);
    StopLogShape(ps);
    AppendAssoc([ListBuckets], MeasureLog(ps[..k + 1]), [Crash(SizeUnavailable(ps[k].bucket))]);
  }

  // ---------------------------------------------------------------------------
  // The warning loop

  /** How the warning loop ends: with the exception of the first `await`, or with "Finished". */
  function WarnEnd(p: Policy, report: seq<Entry>): Effect
  {
    if p.awaitsSlack && FirstOver(report) < |report| then Crash(AwaitedNone) else Finished
  }

  lemma WarnPhaseAlerts(p: Policy, c: Config, report: seq<Entry>)
    ensures OfKind(WarnPhase(p, c, report), AlertKind)
      == if p.awaitsSlack then FirstAlert(c, report) else Alerts(c, report)
  {
    if p.awaitsSlack {
      WarnPhaseFirstAlert(p, c, report);
    } else {
      WarnPhaseEveryAlert(p, c, report);
    }
  }

  /** FirstAlert skips the items under the threshold. */
  lemma FirstAlertStep(c: Config, report: seq<Entry>)
    requires report != []
    ensures FirstAlert(c, report)
      == if OverThreshold(report[0].bytes) then Alert(c, report[0]) else FirstAlert(c, report[1..])
  {
    var rest := report[1..];
    if !OverThreshold(report[0].bytes) {
      assert FirstOver(report) == 1 + FirstOver(rest);
      if FirstOver(rest) < |rest| {
        assert report[FirstOver(report)] == rest[FirstOver(rest)];
      }
    }
  }

  lemma {:induction false} WarnPhaseFirstAlert(p: Policy, c: Config, report: seq<Entry>)
    requires p.awaitsSlack
    ensures OfKind(WarnPhase(p, c, report), AlertKind) == FirstAlert(c, report)
    decreases |report|
  {
    if report == [] {
      OfKindSingle(Finished, AlertKind);
    } else {
      var rest := report[1..];
      FirstAlertStep(c, report);
      if OverThreshold(report[0].bytes) {
        assert WarnPhase(p, c, report) == Alert(c, report[0]) + [Crash(AwaitedNone)];
        AlertOfKind(c, report[0], AlertKind);
        OfKindAppend(Alert(c, report[0]), [Crash(AwaitedNone)], AlertKind);
        OfKindSingle(Crash(AwaitedNone), AlertKind);
      } else {
        assert WarnPhase(p, c, report) == WarnPhase(p, c, rest);
        WarnPhaseFirstAlert(p, c, rest);
      }
    }
  }

  lemma {:induction false} WarnPhaseEveryAlert(p: Policy, c: Config, report: seq<Entry>)
    requires !p.awaitsSlack
    ensures OfKind(WarnPhase(p, c, report), AlertKind) == Alerts(c, report)
    decreases |report|
  {
    if report == [] {
      OfKindSingle(Finished, AlertKind);
    } else {
      var rest := report[1..];
      WarnPhaseEveryAlert(p, c, rest);
      if OverThreshold(report[0].bytes) {
        assert WarnPhase(p, c, report) == Alert(c, report[0]) + WarnPhase(p, c, rest);
        AlertOfKind(c, report[0], AlertKind);
        OfKindAppend(Alert(c, report[0]), WarnPhase(p, c, rest), AlertKind);
      } else {
        assert WarnPhase(p, c, report) == WarnPhase(p, c, rest);
        assert Alerts(c, report) == [] + Alerts(c, rest);
      }
    }
  }

  /** How the warning loop ends, one item at a time. */
  lemma WarnEndStep(p: Policy, report: seq<Entry>)
    requires report != []
    ensures WarnEnd(p, report)
      == if p.awaitsSlack && OverThreshold(report[0].bytes) then Crash(AwaitedNone) else WarnEnd(p, report[1..])
  {
    if !OverThreshold(report[0].bytes) {
      assert FirstOver(report) == 1 + FirstOver(report[1..]);
    }
  }

  /** An alert adds nothing to the terminal sub-trace. */
  lemma AlertThenTerminal(c: Config, e: Entry, tail: seq<Effect>)
    ensures OfKind(Alert(c, e) + tail, TerminalKind) == OfKind(tail, TerminalKind)
  {
    AlertOfKind(c, e, TerminalKind);
    OfKindAppend(Alert(c, e), tail, TerminalKind);
  }

  lemma {:induction false} WarnPhaseTerminal(p: Policy, c: Config, report: seq<Entry>)
    ensures OfKind(WarnPhase(p, c, report), TerminalKind) == [WarnEnd(p, report)]
    decreases |report|
  {
    if report == [] {
      OfKindSingle(Finished, TerminalKind);
    } else {
      var rest := report[1..];
      WarnEndStep(p, report);
      if !OverThreshold(report[0].bytes) {
        assert WarnPhase(p, c, report) == WarnPhase(p, c, rest);
        WarnPhaseTerminal(p, c, rest);
      } else if p.awaitsSlack {
        assert WarnPhase(p, c, report) == Alert(c, report[0]) + [Crash(AwaitedNone)];
        AlertThenTerminal(c, report[0], [Crash(AwaitedNone)]);
        OfKindSingle(Crash(AwaitedNone), TerminalKind);
      } else {
        assert WarnPhase(p, c, report) == Alert(c, report[0]) + WarnPhase(p, c, rest);
        WarnPhaseTerminal(p, c, rest);
        AlertThenTerminal(c, report[0], WarnPhase(p, c, rest));
      }
    }
  }

  lemma {:induction false} WarnPhaseQuiet(p: Policy, c: Config, report: seq<Entry>, k: Kind)
    requires k != AlertKind && k != TerminalKind
    ensures OfKind(WarnPhase(p, c, report), k) == []
    decreases |report|
  {
    if report == [] {
      OfKindSingle(Finished, k);
    } else {
      var rest := report[1..];
      WarnPhaseQuiet(p, c, rest, k);
      if OverThreshold(report[0].bytes) {
        AlertOfKind(c, report[0], k);
        if p.awaitsSlack {
          OfKindAppend(Alert(c, report[0]), [Crash(AwaitedNone)], k);
          OfKindSingle(Crash(AwaitedNone), k);
        } else {
          OfKindAppend(Alert(c, report[0]), WarnPhase(p, c, rest), k);
        }
      }
    }
  }

  /**
   * The warning loop sends the alerts of every item over the threshold when it
   * does not await `trigger_slack_webhook`, and only those of the first such
   * item when it does; it does nothing else but end the run.
   */
  lemma WarnPhaseOfKind(p: Policy, c: Config, report: seq<Entry>, k: Kind)
    ensures OfKind(WarnPhase(p, c, report), k) ==
      match k
      case AlertKind => if p.awaitsSlack then FirstAlert(c, report) else Alerts(c, report)
      case TerminalKind => [WarnEnd(p, report)]
      case _ => []
  {
    match k {
      case AlertKind => WarnPhaseAlerts(p, c, report);
      case TerminalKind => WarnPhaseTerminal(p, c, report);
      case _ => WarnPhaseQuiet(p, c, report, k);
    }
  }

  /** The warning loop's last event is the one that ends it. */
  lemma {:induction false} WarnPhaseLast(p: Policy, c: Config, report: seq<Entry>)
    ensures WarnPhase(p, c, report) != [] && Last(WarnPhase(p, c, report)) == WarnEnd(p, report)
    decreases |report|
  {
    if report != [] {
      var rest := report[1..];
      WarnPhaseLast(p, c, rest);
      if !OverThreshold(report[0].bytes) {
        assert FirstOver(report) == 1 + FirstOver(rest);
      }
    }
  }

  /** Everything after the measuring loop, sorted by kind. */
  lemma DecisionsOfKind(p: Policy, c: Config, day: Weekday, allBuckets: seq<Probe>, report: seq<Entry>, k: Kind)
    ensures OfKind(Decisions(p, c, day, allBuckets, report), k) ==
      match k
      case StatusKind => if day == p.statusDay then [StatusEmail(StatusMail(c), report)] else []
      case CleanupKind => if day == p.cleanupDay then CleanupLog(allBuckets) else []
      case AlertKind => if p.awaitsSlack then FirstAlert(c, report) else Alerts(c, report)
      case TerminalKind => [WarnEnd(p, report)]
      case StorageKind => []
  {
    var status := if day == p.statusDay then [StatusEmail(StatusMail(c), report)] else [];
    var cleanup := if day == p.cleanupDay then CleanupLog(allBuckets) else [];
    OfKindAppend(status + cleanup, WarnPhase(p, c, report), k);
    OfKindAppend(status, cleanup, k);
    if day == p.statusDay {
      assert OfKind(status, k) == (if k == StatusKind then status else []) + OfKind([], k);
    }
    CleanupLogOfKind(allBuckets, k);
    WarnPhaseOfKind(p, c, report, k);
  }

  /** The storage calls at the head of a run contribute nothing but storage calls. */
  lemma StoragePrefix(measured: seq<Probe>, tail: seq<Effect>, k: Kind)
    requires k != StorageKind
    ensures OfKind([ListBuckets] + MeasureLog(measured) + tail, k) == OfKind(tail, k)
  {
    OfKindAppend([ListBuckets] + MeasureLog(measured), tail, k);
    OfKindAppend([ListBuckets], MeasureLog(measured), k);
    MeasureLogOfKind(measured, k);
    assert OfKind([ListBuckets], k) == [] + OfKind([], k);
  }

  // ---------------------------------------------------------------------------
  // Properties of a whole run

  /**
   * SMTP_EMAIL is checked first and SMTP_SERVER second; a missing one ends the
   * run with an OSError, and the storage service is called only when both are set.
   */
  lemma ConfigChecksComeFirst(p: Policy, env: Env, day: Weekday, listing: Listing)
    ensures env.smtpEmail.None? ==> RunSpec(p, env, day, listing) == [ConfigError(SmtpEmail)]
    ensures env.smtpEmail.Some? && env.smtpServer.None? ==>
      RunSpec(p, env, day, listing) == [ConfigError(SmtpServer)]
    ensures OfKind(RunSpec(p, env, day, listing), StorageKind) != [] <==> Configured(env)
    ensures Configured(env) ==> RunSpec(p, env, day, listing)[0] == ListBuckets
  {
    var t := RunSpec(p, env, day, listing);
    if Configured(env) {
      assert t[0] == ListBuckets;
      assert OfKind(t, StorageKind) == [ListBuckets] + OfKind(t[1..], StorageKind);
    } else {
      assert |t| == 1 && KindOf(t[0]) == TerminalKind;
      assert OfKind(t, StorageKind) == [] + OfKind([], StorageKind);
    }
  }

  /**
   * The storage calls of a run: the listing, then the size of every listed
   * bucket in listing order, stopping at the first size that cannot be read
   * (there is no per-bucket recovery).
   */
  lemma StorageCalls(p: Policy, env: Env, day: Weekday, listing: Listing)
    requires Configured(env) && listing.Listed?
    ensures var ps := listing.probes;
      OfKind(RunSpec(p, env, day, listing), StorageKind)
        == [ListBuckets] + MeasureLog(ps[..if AllMeasured(ps) then |ps| else FirstFailure(ps) + 1])
  {
    var ps := listing.probes;
    if AllMeasured(ps) {
      assert ps[..|ps|] == ps;
      StorageCallsHealthy(p, env, day, listing);
    } else {
      StorageCallsStopped(p, env, day, listing);
    }
  }

  lemma StorageCallsHealthy(p: Policy, env: Env, day: Weekday, listing: Listing)
    requires Healthy(env, listing)
    ensures OfKind(RunSpec(p, env, day, listing), StorageKind) == [ListBuckets] + MeasureLog(listing.probes)
  {
    var ps := listing.probes;
    var c := ConfigOf(env);
    HealthyShape(p, env, day, listing);
    DecisionsOfKind(p, c, day, ps, Report(ps), StorageKind);
    StorageHead(ps, Decisions(p, c, day, ps, Report(ps)));
  }

  lemma StorageCallsStopped(p: Policy, env: Env, day: Weekday, listing: Listing)
    requires Configured(env) && listing.Listed? && !AllMeasured(listing.probes)
    ensures var ps := listing.probes;
      OfKind(RunSpec(p, env, day, listing), StorageKind) == [ListBuckets] + MeasureLog(ps[..FirstFailure(ps) + 1])
  {
    var ps := listing.probes;
    SizeFailureShape(p, env, day, listing);
    StoppedRunOfKind(RunSpec(p, env, day, listing), ps[..FirstFailure(ps) + 1],
                     Crash(SizeUnavailable(ps[FirstFailure(ps)].bucket)), StorageKind);
  }

  lemma StorageHead(measured: seq<Probe>, tail: seq<Effect>)
    requires OfKind(tail, StorageKind) == []
    ensures OfKind([ListBuckets] + MeasureLog(measured) + tail, StorageKind) == [ListBuckets] + MeasureLog(measured)
  {
    OfKindAppend([ListBuckets] + MeasureLog(measured), tail, StorageKind);
    OfKindAppend([ListBuckets], MeasureLog(measured), StorageKind);
    MeasureLogOfKind(measured, StorageKind);
    assert OfKind([ListBuckets], StorageKind) == [ListBuckets] + OfKind([], StorageKind);
    assert OfKind([ListBuckets] + MeasureLog(measured) + tail, StorageKind)
      == ([ListBuckets] + MeasureLog(measured)) + [];
  }

  /**
   * A failure to read one bucket's size ends the run right after that
   * bucket: no status email, no cleanup, no warning for any bucket.
   */
  lemma SizeFailureEndsRun(p: Policy, env: Env, day: Weekday, listing: Listing)
    requires Configured(env) && listing.Listed? && !AllMeasured(listing.probes)
    ensures Last(RunSpec(p, env, day, listing))
      == Crash(SizeUnavailable(listing.probes[FirstFailure(listing.probes)].bucket))
    ensures OfKind(RunSpec(p, env, day, listing), StatusKind) == []
    ensures OfKind(RunSpec(p, env, day, listing), CleanupKind) == []
    ensures OfKind(RunSpec(p, env, day, listing), AlertKind) == []
  {
    var ps := listing.probes;
    var n := FirstFailure(ps);
    SizeFailureShape(p, env, day, listing);
    StorageThenEnd(ps[..n + 1], Crash(SizeUnavailable(ps[n].bucket)), TerminalKind);
    SizeFailureOfKind(p, env, day, listing, StatusKind);
    SizeFailureOfKind(p, env, day, listing, CleanupKind);
    SizeFailureOfKind(p, env, day, listing, AlertKind);
  }

  /**
   * Apart from the storage calls, a run that gets past configuration, listing
   * and measuring does what the rest of main() decides; any other run does
   * nothing but end.
   */
  lemma RunOfKind(p: Policy, env: Env, day: Weekday, listing: Listing, k: Kind)
    requires k != StorageKind
    ensures RunSpec(p, env, day, listing) != []
    ensures OfKind(RunSpec(p, env, day, listing), k) ==
      if Healthy(env, listing) then
        OfKind(Decisions(p, ConfigOf(env), day, listing.probes, Report(listing.probes)), k)
      else if k == TerminalKind then [Last(RunSpec(p, env, day, listing))]
      else []
  {
    var t := RunSpec(p, env, day, listing);
    if !Configured(env) {
      assert t == [t[0]];
      OfKindSingle(t[0], k);
    } else if listing.ListingFailed? {
      assert t == [ListBuckets] + MeasureLog([]) + [Crash(ListingUnavailable)];
      StorageThenEnd([], Crash(ListingUnavailable), k);
    } else if AllMeasured(listing.probes) {
      HealthyOfKind(p, env, day, listing, k);
    } else {
      SizeFailureOfKind(p, env, day, listing, k);
    }
  }

  lemma HealthyOfKind(p: Policy, env: Env, day: Weekday, listing: Listing, k: Kind)
    requires Healthy(env, listing) && k != StorageKind
    ensures OfKind(RunSpec(p, env, day, listing), k)
      == OfKind(Decisions(p, ConfigOf(env), day, listing.probes, Report(listing.probes)), k)
  {
    var ps := listing.probes;
    HealthyShape(p, env, day, listing);
    StoragePrefix(ps, Decisions(p, ConfigOf(env), day, ps, Report(ps)), k);
  }

  lemma SizeFailureOfKind(p: Policy, env: Env, day: Weekday, listing: Listing, k: Kind)
    requires Configured(env) && listing.Listed? && !AllMeasured(listing.probes) && k != StorageKind
    ensures RunSpec(p, env, day, listing) != []
    ensures OfKind(RunSpec(p, env, day, listing), k)
      == if k == TerminalKind then [Last(RunSpec(p, env, day, listing))] else []
  {
    var ps := listing.probes;
    SizeFailureShape(p, env, day, listing);
    StoppedRunOfKind(RunSpec(p, env, day, listing), ps[..FirstFailure(ps) + 1],
                     Crash(SizeUnavailable(ps[FirstFailure(ps)].bucket)), k);
  }

  /** StorageThenEnd, for a trace already known to have that shape. */
  lemma StoppedRunOfKind(t: seq<Effect>, measured: seq<Probe>, e: Effect, k: Kind)
    requires t == [ListBuckets] + MeasureLog(measured) + [e] && KindOf(e) == TerminalKind
    ensures t != [] && Last(t) == e
    ensures OfKind(t, k)
      == match k
         case StorageKind => [ListBuckets] + MeasureLog(measured)
         case TerminalKind => [e]
         case _ => []
  {
    StorageThenEnd(measured, e, k);
  }

  /** A run that stops before the warning loop holds storage calls and its terminal event. */
  lemma StorageThenEnd(measured: seq<Probe>, e: Effect, k: Kind)
    requires KindOf(e) == TerminalKind
    ensures OfKind([ListBuckets] + MeasureLog(measured) + [e], k)
      == match k
         case StorageKind => [ListBuckets] + MeasureLog(measured)
         case TerminalKind => [e]
         case _ => []
    ensures Last([ListBuckets] + MeasureLog(measured) + [e]) == e
  {
    OfKindSingle(e, k);
    if k == StorageKind {
      StorageHead(measured, [e]);
    } else {
      StoragePrefix(measured, [e], k);
    }
  }

  /**
   * The status email goes out exactly on the policy's status day, once, to
   * the admin, carrying the complete size dictionary.
   */
  lemma StatusEmailIff(p: Policy, env: Env, day: Weekday, listing: Listing)
    ensures OfKind(RunSpec(p, env, day, listing), StatusKind) ==
      if Healthy(env, listing) && day == p.statusDay
      then [StatusEmail(StatusMail(ConfigOf(env)), Report(listing.probes))]
      else []
  {
    RunOfKind(p, env, day, listing, StatusKind);
    if Healthy(env, listing) {
      DecisionsOfKind(p, ConfigOf(env), day, listing.probes, Report(listing.probes), StatusKind);
    }
  }

  /**
   * The multipart cleanup runs exactly on the policy's cleanup day, over the
   * listed buckets (not the keys of the size dictionary).
   */
  lemma CleanupIff(p: Policy, env: Env, day: Weekday, listing: Listing)
    ensures OfKind(RunSpec(p, env, day, listing), CleanupKind) ==
      if Healthy(env, listing) && day == p.cleanupDay then CleanupLog(listing.probes) else []
  {
    RunOfKind(p, env, day, listing, CleanupKind);
    if Healthy(env, listing) {
      DecisionsOfKind(p, ConfigOf(env), day, listing.probes, Report(listing.probes), CleanupKind);
    }
  }

  /** The cleanup loop calls `clean_multiparts` once per listed bucket, in listing order. */
  lemma {:induction false} CleanupCoversListing(allBuckets: seq<Probe>)
    ensures |CleanupLog(allBuckets)| == |allBuckets|
    ensures forall i :: 0 <= i < |allBuckets| ==> CleanupLog(allBuckets)[i] == CleanMultiparts(allBuckets[i].bucket)
    decreases |allBuckets|
  {
    if allBuckets != [] {
      CleanupCoversListing(allBuckets[1..]);
    }
  }

  /** A trace whose cleanup sub-trace is the cleanup loop over `allBuckets` cleans every one of them. */
  lemma CleansListed(t: seq<Effect>, allBuckets: seq<Probe>)
    requires OfKind(t, CleanupKind) == CleanupLog(allBuckets)
    ensures forall i :: 0 <= i < |allBuckets| ==> CleanMultiparts(allBuckets[i].bucket) in t
  {
    CleanupCoversListing(allBuckets);
    forall i | 0 <= i < |allBuckets| ensures CleanMultiparts(allBuckets[i].bucket) in t {
      assert CleanupLog(allBuckets)[i] == CleanMultiparts(allBuckets[i].bucket);
      OfKindSubset(t, CleanupKind, CleanMultiparts(allBuckets[i].bucket));
    }
  }

  /** A trace with an empty cleanup sub-trace holds no cleanup at all. */
  lemma CleansNothing(t: seq<Effect>)
    requires OfKind(t, CleanupKind) == []
    ensures forall e :: e in t ==> !e.CleanMultiparts?
  {
    forall e | e in t && e.CleanMultiparts? ensures false {
      OfKindMember(t, CleanupKind, e);
    }
  }

  /**
   * The warning emails and Slack attempts of a run: for every item over the
   * threshold in dictionary order without the `await`, only the first such
   * item with it, none in a run that does not reach the warning loop.
   */
  lemma RunAlerts(p: Policy, env: Env, day: Weekday, listing: Listing)
    ensures OfKind(RunSpec(p, env, day, listing), AlertKind) ==
      if !Healthy(env, listing) then []
      else if p.awaitsSlack then FirstAlert(ConfigOf(env), Report(listing.probes))
      else Alerts(ConfigOf(env), Report(listing.probes))
  {
    RunOfKind(p, env, day, listing, AlertKind);
    if Healthy(env, listing) {
      DecisionsOfKind(p, ConfigOf(env), day, listing.probes, Report(listing.probes), AlertKind);
    }
  }

  /**
   * Every run ends with exactly one terminal event, and it is "Finished"
   * exactly when the run reaches the warning loop and is not stopped there by
   * the `await` on an item over the threshold.
   */
  lemma RunEndsOnce(p: Policy, env: Env, day: Weekday, listing: Listing)
    ensures RunSpec(p, env, day, listing) != []
    ensures OfKind(RunSpec(p, env, day, listing), TerminalKind) == [Last(RunSpec(p, env, day, listing))]
    ensures Last(RunSpec(p, env, day, listing)) == Finished <==>
      Healthy(env, listing)
      && !(p.awaitsSlack && FirstOver(Report(listing.probes)) < |Report(listing.probes)|)
  {
    RunOfKind(p, env, day, listing, TerminalKind);
    if Healthy(env, listing) {
      HealthyRunLast(p, env, day, listing);
      DecisionsOfKind(p, ConfigOf(env), day, listing.probes, Report(listing.probes), TerminalKind);
    } else if Configured(env) && listing.Listed? {
      SizeFailureEndsRun(p, env, day, listing);
    } else if Configured(env) {
      assert RunSpec(p, env, day, listing) == [ListBuckets, Crash(ListingUnavailable)];
    }
  }

  lemma HealthyRunLast(p: Policy, env: Env, day: Weekday, listing: Listing)
    requires Healthy(env, listing)
    ensures RunSpec(p, env, day, listing) != []
    ensures Last(RunSpec(p, env, day, listing)) == WarnEnd(p, Report(listing.probes))
  {
    var ps := listing.probes;
    var c := ConfigOf(env);
    HealthyShape(p, env, day, listing);
    WarnPhaseLast(p, c, Report(ps));
    var status := if day == p.statusDay then [StatusEmail(StatusMail(c), Report(ps))] else [];
    var cleanup := if day == p.cleanupDay then CleanupLog(ps) else [];
    var w := WarnPhase(p, c, Report(ps));
    var head := [ListBuckets] + MeasureLog(ps);
    AppendAssoc(head, status + cleanup, w);
    assert RunSpec(p, env, day, listing) == (head + (status + cleanup)) + w;
  }

  // ---------------------------------------------------------------------------
  // The size dictionary

  predicate Distinct(names: seq<string>)
  {
    forall i, j :: 0 <= i < j < |names| ==> names[i] != names[j]
  }

  /** The items main() adds for the buckets of `probes`, in order. */
  function Entries(probes: seq<Probe>): seq<Entry>
    requires AllMeasured(probes)
  {
    if probes == [] then [] else [Entry(probes[0].bucket, probes[0].size.value)] + Entries(probes[1..])
  }

  lemma {:induction false} UpsertNewKey(report: seq<Entry>, bucket: string, bytes: nat)
    requires bucket !in Keys(report)
    ensures Upsert(report, bucket, bytes) == report + [Entry(bucket, bytes)]
    decreases |report|
  {
    if report != [] {
      var rest := report[1..];
      assert Keys(report)[0] == report[0].bucket;
      assert Keys(report) == [report[0].bucket] + Keys(rest);
      UpsertNewKey(rest, bucket, bytes);
      assert Upsert(report, bucket, bytes) == [report[0]] + (rest + [Entry(bucket, bytes)]);
      AppendAssoc([report[0]], rest, [Entry(bucket, bytes)]);
      assert report == [report[0]] + rest;
    }
  }

  lemma {:induction false} FillKeys(acc: seq<Entry>, probes: seq<Probe>)
    requires AllMeasured(probes)
    requires Distinct(Keys(acc))
    ensures Distinct(Keys(Fill(acc, probes)))
    ensures forall b :: b in Keys(Fill(acc, probes)) <==> b in Keys(acc) || b in Names(probes)
    decreases |probes|
  {
    if probes != [] {
      var acc' := Upsert(acc, probes[0].bucket, probes[0].size.value);
      assert Distinct(Keys(acc'));
      assert AllMeasured(probes[1..]);
      FillKeys(acc', probes[1..]);
      assert Names(probes) == [probes[0].bucket] + Names(probes[1..]);
    }
  }

  /** The names after the first are distinct, exclude the first, and are names of the whole listing. */
  lemma {:induction false} NamesTail(probes: seq<Probe>)
    requires probes != [] && Distinct(Names(probes))
    ensures Distinct(Names(probes[1..]))
    ensures probes[0].bucket !in Names(probes[1..])
    ensures forall b :: b in Names(probes[1..]) ==> b in Names(probes)
  {
    var rest := probes[1..];
    assert Names(probes) == [probes[0].bucket] + Names(rest);
    forall i, j | 0 <= i < j < |rest| ensures Names(rest)[i] != Names(rest)[j] {
      assert Names(probes)[i + 1] == Names(rest)[i];
      assert Names(probes)[j + 1] == Names(rest)[j];
    }
    forall j | 0 <= j < |rest| ensures Names(rest)[j] != probes[0].bucket {
      assert Names(probes)[j + 1] == Names(rest)[j];
    }
  }

  lemma {:induction false} KeysAppend(report: seq<Entry>, e: Entry)
    ensures Keys(report + [e]) == Keys(report) + [e.bucket]
    decreases |report|
  {
    if report == [] {
      assert [] + [e] == [e];
      assert Keys([e]) == [e.bucket] + Keys([]);
    } else {
      assert (report + [e])[1..] == report[1..] + [e];
      KeysAppend(report[1..], e);
    }
  }

  lemma {:induction false} FillDistinct(acc: seq<Entry>, probes: seq<Probe>)
    requires AllMeasured(probes)
    requires Distinct(Names(probes))
    requires forall b :: b in Names(probes) ==> b !in Keys(acc)
    ensures Fill(acc, probes) == acc + Entries(probes)
    decreases |probes|
  {
    if probes == [] {
      assert acc + [] == acc;
    } else {
      var e := Entry(probes[0].bucket, probes[0].size.value);
      assert probes[0].bucket in Names(probes);
      UpsertNewKey(acc, probes[0].bucket, probes[0].size.value);
      var rest := probes[1..];
      assert AllMeasured(rest);
      assert Names(probes) == [probes[0].bucket] + Names(rest);
      NamesTail(probes);
      assert Keys(acc + [e]) == Keys(acc) + [e.bucket] by { KeysAppend(acc, e); }
      FillDistinct(acc + [e], rest);
      AppendAssoc(acc, [e], Entries(rest));
    }
  }

  lemma {:induction false} EntriesAt(probes: seq<Probe>)
    requires AllMeasured(probes)
    ensures |Entries(probes)| == |probes|
    ensures forall i :: 0 <= i < |probes| ==> Entries(probes)[i] == Entry(probes[i].bucket, probes[i].size.value)
    decreases |probes|
  {
    if probes != [] {
      assert AllMeasured(probes[1..]);
      EntriesAt(probes[1..]);
    }
  }

  /**
   * The size dictionary has one key per distinct listed bucket name and no
   * other key; when the listed names are distinct (as bucket names are), it
   * holds one item per listed bucket, in listing order, with its byte count.
   */
  lemma ReportOnePerBucket(probes: seq<Probe>)
    requires AllMeasured(probes)
    ensures Distinct(Keys(Report(probes)))
    ensures forall b :: b in Keys(Report(probes)) <==> b in Names(probes)
    ensures Distinct(Names(probes)) ==>
      |Report(probes)| == |probes|
      && forall i :: 0 <= i < |probes| ==> Report(probes)[i] == Entry(probes[i].bucket, probes[i].size.value)
  {
    FillKeys([], probes);
    if Distinct(Names(probes)) {
      FillDistinct([], probes);
      EntriesAt(probes);
      assert [] + Entries(probes) == Entries(probes);
    }
  }

  /**
   * The threshold in bytes is the threshold main.py applies to the size in
   * gigabytes; a bucket of exactly 20000 GB is not over it.
   */
  lemma ThresholdExact(bytes: nat)
    ensures OverThreshold(bytes) <==> SizeGb(bytes) > ThresholdGb as real
    ensures !OverThreshold(ThresholdBytes) && SizeGb(ThresholdBytes) == ThresholdGb as real
  {
    var g := BytesPerGb as real;
    assert g > 0.0;
    assert SizeGb(bytes) * g == bytes as real;
    assert ThresholdBytes as real == ThresholdGb as real * g;
  }

  // ---------------------------------------------------------------------------
  // Alerts and emails

  /**
   * A warning email goes out for an item exactly when it is over the
   * threshold, addressed to the admin; each is followed at once by the Slack
   * attempt for the same bucket, which is a send when SLACK_WEBHOOK is set and
   * a logged skip when it is not.
   */
  lemma {:induction false} AlertsShape(c: Config, report: seq<Entry>)
    ensures forall e :: e in Alerts(c, report) && e.WarningEmail? ==>
      Entry(e.bucket, e.bytes) in report && OverThreshold(e.bytes) && e.mail == WarningMail(c, e.bucket)
    ensures forall x :: x in report && OverThreshold(x.bytes) ==>
      WarningEmail(WarningMail(c, x.bucket), x.bucket, x.bytes) in Alerts(c, report)
    ensures forall i :: 0 <= i < |Alerts(c, report)| && Alerts(c, report)[i].WarningEmail? ==>
      i + 1 < |Alerts(c, report)|
      && Alerts(c, report)[i + 1] == SlackAttempt(c, Entry(Alerts(c, report)[i].bucket, Alerts(c, report)[i].bytes))
    ensures forall e :: e in Alerts(c, report) ==>
      e.WarningEmail?
      || (e.SlackSend? && c.slackWebhook == Some(e.webhook))
      || (e.SlackSkip? && c.slackWebhook.None?)
    decreases |report|
  {
    if report != [] {
      var x := report[0];
      var rest := report[1..];
      AlertsShape(c, rest);
      var head := if OverThreshold(x.bytes) then Alert(c, x) else [];
      var a := Alerts(c, report);
      assert a == head + Alerts(c, rest);
      forall y | y in report && OverThreshold(y.bytes)
        ensures WarningEmail(WarningMail(c, y.bucket), y.bucket, y.bytes) in a
      {
        if y != x {
          assert y in rest;
        }
      }
      forall i | 0 <= i < |a| && a[i].WarningEmail?
        ensures i + 1 < |a| && a[i + 1] == SlackAttempt(c, Entry(a[i].bucket, a[i].bytes))
      {
        if i >= |head| {
          assert a[i] == Alerts(c, rest)[i - |head|];
          assert a[i + 1] == Alerts(c, rest)[i + 1 - |head|];
        }
      }
    }
  }

  /** The alerts of a single item over the threshold have the same shape. */
  lemma FirstAlertShape(c: Config, report: seq<Entry>)
    ensures forall e :: e in FirstAlert(c, report) && e.WarningEmail? ==>
      Entry(e.bucket, e.bytes) in report && OverThreshold(e.bytes) && e.mail == WarningMail(c, e.bucket)
    ensures var a := FirstAlert(c, report);
      a == [] || (|a| == 2 && a[0].WarningEmail? && a[1] == SlackAttempt(c, Entry(a[0].bucket, a[0].bytes)))
    ensures FirstAlert(c, report) == [] <==> forall x :: x in report ==> !OverThreshold(x.bytes)
  {
    if FirstOver(report) < |report| {
      assert report[FirstOver(report)] in report;
    } else {
      forall x | x in report ensures !OverThreshold(x.bytes) {
        var i :| 0 <= i < |report| && report[i] == x;
      }
    }
  }

  /**
   * Both emails are addressed from and to SMTP_EMAIL and handed to
   * SMTP_SERVER on port 25, under the status subject or the warning subject
   * naming the bucket.
   */
  lemma EmailsAddressedToAdmin(p: Policy, env: Env, day: Weekday, listing: Listing)
    ensures forall e :: e in RunSpec(p, env, day, listing) && e.StatusEmail? ==>
      Configured(env)
      && e.mail == Mail(env.smtpEmail.value, env.smtpEmail.value, "S3 Status Update", env.smtpServer.value, 25)
    ensures forall e :: e in RunSpec(p, env, day, listing) && e.WarningEmail? ==>
      Configured(env)
      && e.mail == Mail(env.smtpEmail.value, env.smtpEmail.value,
                        "WARNING: Bucket " + e.bucket + " > 20TB", env.smtpServer.value, 25)
  {
    var t := RunSpec(p, env, day, listing);
    forall e | e in t && e.StatusEmail?
      ensures Configured(env)
      ensures e.mail == Mail(env.smtpEmail.value, env.smtpEmail.value, "S3 Status Update", env.smtpServer.value, 25)
    {
      StatusEmailAddressed(p, env, day, listing, e);
    }
    forall e | e in t && e.WarningEmail?
      ensures Configured(env)
      ensures e.mail == Mail(env.smtpEmail.value, env.smtpEmail.value,
                             "WARNING: Bucket " + e.bucket + " > 20TB", env.smtpServer.value, 25)
    {
      WarningEmailAddressed(p, env, day, listing, e);
    }
  }

  lemma StatusEmailAddressed(p: Policy, env: Env, day: Weekday, listing: Listing, e: Effect)
    requires e in RunSpec(p, env, day, listing) && e.StatusEmail?
    ensures Configured(env) && e.mail == StatusMail(ConfigOf(env))
  {
    StatusEmailIff(p, env, day, listing);
    OfKindMember(RunSpec(p, env, day, listing), StatusKind, e);
  }

  lemma WarningEmailAddressed(p: Policy, env: Env, day: Weekday, listing: Listing, e: Effect)
    requires e in RunSpec(p, env, day, listing) && e.WarningEmail?
    ensures Configured(env) && e.mail == WarningMail(ConfigOf(env), e.bucket)
  {
    RunAlerts(p, env, day, listing);
    OfKindMember(RunSpec(p, env, day, listing), AlertKind, e);
    assert Healthy(env, listing);
    AlertsShape(ConfigOf(env), Report(listing.probes));
    FirstAlertShape(ConfigOf(env), Report(listing.probes));
  }
}
