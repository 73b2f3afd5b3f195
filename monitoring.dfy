/*
 * The per-run decision flow of the s3-monitoring job (main.py, `main()`).
 *
 * A run is observed as the ordered trace of the effects it has on the outside
 * world: configuration errors, calls into the storage service, emails, Slack
 * notifications, the crash that ends a run early, and the final "Finished" log.
 * The storage service, the clock and the environment are inputs; the SMTP
 * transport, the Slack client and template rendering are abstract events.
 *
 * `RunSpec` states the whole trace as a function of the inputs; `Run` is the
 * step-by-step procedure of `main()`, proved to produce exactly that trace.
 */
module Monitoring {

  datatype Option<T> = None | Some(value: T)

  /** `datetime.weekday()`: Monday is 0, Sunday is 6. */
  type Weekday = d: int | 0 <= d <= 6

  const Monday: Weekday := 0
  const Tuesday: Weekday := 1
  const Wednesday: Weekday := 2
  const Thursday: Weekday := 3
  const Friday: Weekday := 4
  const Saturday: Weekday := 5
  const Sunday: Weekday := 6

  /** main.py divides the byte count by 1024 three times. */
  const BytesPerGb: nat := 1024 * 1024 * 1024

  /** The warning threshold `size_gb > 20000`, stated in bytes. */
  const ThresholdGb: nat := 20000
  const ThresholdBytes: nat := ThresholdGb * BytesPerGb

  const SmtpPort: nat := 25
  const StatusSubject: string := "S3 Status Update"

  function WarningSubject(bucket: string): string
  {
    "WARNING: Bucket " + bucket + " > 20TB"
  }

  /** The comparison `size_gb > 20000` on a size measured in bytes. */
  predicate OverThreshold(bytes: nat)
  {
    bytes > ThresholdBytes
  }

  /** The value main.py stores in `bucket_size_dict`: bytes / 1024 / 1024 / 1024. */
  function SizeGb(bytes: nat): real
  {
    bytes as real / BytesPerGb as real
  }

  /** The environment variables main.py reads; `None` means the variable is absent. */
  datatype Env = Env(smtpEmail: Option<string>, smtpServer: Option<string>, slackWebhook: Option<string>)

  /** The configuration once both required variables have been found. */
  datatype Config = Config(email: string, server: string, slackWebhook: Option<string>)

  /** Both variables main() requires are set. */
  predicate Configured(env: Env)
  {
    env.smtpEmail.Some? && env.smtpServer.Some?
  }

  /** `smtp_email`, `smtp_server` and the optional SLACK_WEBHOOK, once the checks have passed. */
  function ConfigOf(env: Env): Config
    requires Configured(env)
  {
    Config(env.smtpEmail.value, env.smtpServer.value, env.slackWebhook)
  }

  datatype EnvVar = SmtpEmail | SmtpServer

  /**
   * What the storage service answers for one listed bucket: the byte count
   * `Bucket.size` returns, or `None` when that call raises.
   */
  datatype Probe = Probe(bucket: string, size: Option<nat>)

  /** What `Bucket.list_buckets` does: raise, or list the buckets in order. */
  datatype Listing = ListingFailed | Listed(probes: seq<Probe>)

  /** One item of `bucket_size_dict`, its size kept in bytes. */
  datatype Entry = Entry(bucket: string, bytes: nat)

  /** The header fields of a message given to the SMTP transport. */
  datatype Mail = Mail(sender: string, recipient: string, subject: string, host: string, port: nat)

  /** Why a run stopped with an exception after its configuration checks. */
  datatype Failure =
    | ListingUnavailable            // Bucket.list_buckets raised
    | SizeUnavailable(bucket: string) // Bucket.size raised for this bucket
    | AwaitedNone                   // `await` applied to the None of trigger_slack_webhook

  datatype Effect =
    | ConfigError(missing: EnvVar)
    | ListBuckets
    | Measure(bucket: string)
    | StatusEmail(mail: Mail, report: seq<Entry>)
    | CleanMultiparts(bucket: string)
    | WarningEmail(mail: Mail, bucket: string, bytes: nat)
    | SlackSend(webhook: string, bucket: string, bytes: nat)
    | SlackSkip(bucket: string)
    | Crash(failure: Failure)
    | Finished

  /**
   * The three constants that decide the schedule and the warning loop:
   * the weekday of the status email, the weekday of the multipart cleanup,
   * and whether the result of `trigger_slack_webhook` is awaited.
   */
  datatype Policy = Policy(statusDay: int, cleanupDay: int, awaitsSlack: bool)

  /** main.py as written: `weekday() == 4`, `weekday() == 7`, `await trigger_slack_webhook(...)`. */
  const AsWritten: Policy := Policy(4, 7, true)

  /** What the comments and log messages of main.py describe: Thursday, Sunday, no await. */
  const Corrected: Policy := Policy(Thursday, Sunday, false)

  /** The keys of `bucket_size_dict`, in insertion order. */
  function Keys(report: seq<Entry>): seq<string>
  {
    if report == [] then [] else [report[0].bucket] + Keys(report[1..])
  }

  /** `bucket_size_dict.get(bucket)`, in bytes. */
  function Lookup(report: seq<Entry>, bucket: string): Option<nat>
  {
    if report == [] then None
    else if report[0].bucket == bucket then Some(report[0].bytes)
    else Lookup(report[1..], bucket)
  }

  /**
   * `bucket_size_dict[bucket] = ...`: a new key goes to the end, an existing
   * key keeps its position and takes the new value, other keys are untouched.
   */
  function Upsert(report: seq<Entry>, bucket: string, bytes: nat): (r: seq<Entry>)
    ensures Keys(r) == if bucket in Keys(report) then Keys(report) else Keys(report) + [bucket]
    ensures Lookup(r, bucket) == Some(bytes)
  {
    if report == [] then [Entry(bucket, bytes)]
    else if report[0].bucket == bucket then [Entry(bucket, bytes)] + report[1..]
    else [report[0]] + Upsert(report[1..], bucket, bytes)
  }

  /** Assigning one key of `bucket_size_dict` leaves every other key's value as it was. */
  lemma {:induction false} UpsertKeepsOthers(report: seq<Entry>, bucket: string, bytes: nat, other: string)
    requires other != bucket
    ensures Lookup(Upsert(report, bucket, bytes), other) == Lookup(report, other)
    decreases |report|
  {
    if report != [] && report[0].bucket != bucket {
      UpsertKeepsOthers(report[1..], bucket, bytes, other);
    }
  }

  function StatusMail(c: Config): Mail
  {
    Mail(c.email, c.email, StatusSubject, c.server, SmtpPort)
  }

  function WarningMail(c: Config, bucket: string): Mail
  {
    Mail(c.email, c.email, WarningSubject(bucket), c.server, SmtpPort)
  }

  /** `trigger_slack_webhook`: send when SLACK_WEBHOOK is set, otherwise log and skip. */
  function SlackAttempt(c: Config, e: Entry): Effect
  {
    if c.slackWebhook.Some? then SlackSend(c.slackWebhook.value, e.bucket, e.bytes) else SlackSkip(e.bucket)
  }

  /** The warning email and the Slack attempt for one item over the threshold, in that order. */
  function Alert(c: Config, e: Entry): seq<Effect>
  {
    [WarningEmail(WarningMail(c, e.bucket), e.bucket, e.bytes), SlackAttempt(c, e)]
  }

  /** The cleanup loop over `all_buckets`. */
  function CleanupLog(allBuckets: seq<Probe>): seq<Effect>
  {
    if allBuckets == [] then [] else [CleanMultiparts(allBuckets[0].bucket)] + CleanupLog(allBuckets[1..])
  }

  /** The warning loop over the items of `bucket_size_dict`, then the final log line. */
  function WarnPhase(p: Policy, c: Config, report: seq<Entry>): seq<Effect>
  {
    if report == [] then [Finished]
    else if OverThreshold(report[0].bytes) then
      Alert(c, report[0])
      + (if p.awaitsSlack then [Crash(AwaitedNone)] else WarnPhase(p, c, report[1..]))
    else WarnPhase(p, c, report[1..])
  }

  /** Everything main() does once the size dictionary is complete. */
  function Decisions(p: Policy, c: Config, day: Weekday, allBuckets: seq<Probe>, report: seq<Entry>): seq<Effect>
  {
    (if day == p.statusDay then [StatusEmail(StatusMail(c), report)] else [])
    + (if day == p.cleanupDay then CleanupLog(allBuckets) else [])
    + WarnPhase(p, c, report)
  }

  /** The measuring loop from the bucket `rest[0]` on, with `report` built so far. */
  function MeasurePhase(p: Policy, c: Config, day: Weekday, allBuckets: seq<Probe>,
                        report: seq<Entry>, rest: seq<Probe>): seq<Effect>
    decreases |rest|
  {
    if rest == [] then Decisions(p, c, day, allBuckets, report)
    else
      [Measure(rest[0].bucket)]
      + (match rest[0].size
         case None => [Crash(SizeUnavailable(rest[0].bucket))]
         case Some(bytes) => MeasurePhase(p, c, day, allBuckets, Upsert(report, rest[0].bucket, bytes), rest[1..]))
  }

  /** The whole trace of one run of main(). */
  function RunSpec(p: Policy, env: Env, day: Weekday, listing: Listing): seq<Effect>
  {
    if env.smtpEmail.None? then [ConfigError(SmtpEmail)]
    else if env.smtpServer.None? then [ConfigError(SmtpServer)]
    else
      var c := ConfigOf(env);
      match listing
      case ListingFailed => [ListBuckets, Crash(ListingUnavailable)]
      case Listed(probes) => [ListBuckets] + MeasurePhase(p, c, day, probes, [], probes)
  }

  lemma AppendAssoc<T>(a: seq<T>, b: seq<T>, c: seq<T>)
    ensures (a + b) + c == a + (b + c)
  {
  }

  /**
   * main(): check the configuration, list and measure the buckets into the
   * size dictionary, then the status email, the cleanup loop and the warning
   * loop, each effect appended to the trace as it happens.
   */
  method Run(p: Policy, env: Env, day: Weekday, listing: Listing) returns (trace: seq<Effect>)
    ensures trace == RunSpec(p, env, day, listing)
  {
    if env.smtpEmail.None? {
      return [ConfigError(SmtpEmail)];
    }
    if env.smtpServer.None? {
      return [ConfigError(SmtpServer)];
    }
    var c := ConfigOf(env);
    trace := [ListBuckets];
    if listing.ListingFailed? {
      trace := trace + [Crash(ListingUnavailable)];
      return;
    }
    var allBuckets := listing.probes;
    ghost var target := [ListBuckets] + MeasurePhase(p, c, day, allBuckets, [], allBuckets);
    assert allBuckets[0..] == allBuckets;

    var bucketSizes: seq<Entry> := [];
    var i := 0;
    while i < |allBuckets|
      invariant 0 <= i <= |allBuckets|
      invariant trace + MeasurePhase(p, c, day, allBuckets, bucketSizes, allBuckets[i..]) == target
    {
      var probe := allBuckets[i];
      assert allBuckets[i..][0] == probe && allBuckets[i..][1..] == allBuckets[i + 1..];
      ghost var rest := if probe.size.None? then [Crash(SizeUnavailable(probe.bucket))]
        else MeasurePhase(p, c, day, allBuckets, Upsert(bucketSizes, probe.bucket, probe.size.value), allBuckets[i + 1..]);
      assert MeasurePhase(p, c, day, allBuckets, bucketSizes, allBuckets[i..]) == [Measure(probe.bucket)] + rest;
      AppendAssoc(trace, [Measure(probe.bucket)], rest);
      trace := trace + [Measure(probe.bucket)];
      if probe.size.None? {
        trace := trace + [Crash(SizeUnavailable(probe.bucket))];
        return;
      }
      bucketSizes := Upsert(bucketSizes, probe.bucket, probe.size.value);
      i := i + 1;
    }
    assert allBuckets[i..] == [];
    assert trace + Decisions(p, c, day, allBuckets, bucketSizes) == target;
    ghost var measured := trace;
    ghost var statusPart := if day == p.statusDay then [StatusEmail(StatusMail(c), bucketSizes)] else [];

    if day == p.statusDay {
      trace := trace + [StatusEmail(StatusMail(c), bucketSizes)];
    }
    var cleanupLog: seq<Effect> := [];
    if day == p.cleanupDay {
      cleanupLog := CleanAll(allBuckets);
    }
    var warningLog := WarnAll(p, c, bucketSizes);
    assert trace == measured + statusPart;
    AppendAssoc(measured, statusPart, cleanupLog);
    AppendAssoc(measured, statusPart + cleanupLog, warningLog);
    trace := trace + cleanupLog + warningLog;
  }

  /** The cleanup loop of main(): `clean_multiparts` for every listed bucket, in listing order. */
  method CleanAll(allBuckets: seq<Probe>) returns (log: seq<Effect>)
    ensures log == CleanupLog(allBuckets)
  {
    log := [];
    var j := 0;
    while j < |allBuckets|
      invariant 0 <= j <= |allBuckets|
      invariant log + CleanupLog(allBuckets[j..]) == CleanupLog(allBuckets)
    {
      assert allBuckets[j..][0] == allBuckets[j] && allBuckets[j..][1..] == allBuckets[j + 1..];
      AppendAssoc(log, [CleanMultiparts(allBuckets[j].bucket)], CleanupLog(allBuckets[j + 1..]));
      log := log + [CleanMultiparts(allBuckets[j].bucket)];
      j := j + 1;
    }
    assert allBuckets[j..] == [];
  }

  /**
   * The warning loop of main() and its final log line: a warning email and a
   * Slack attempt for each item over the threshold, in dictionary order.
   */
  method WarnAll(p: Policy, c: Config, bucketSizes: seq<Entry>) returns (log: seq<Effect>)
    ensures log == WarnPhase(p, c, bucketSizes)
  {
    log := [];
    assert bucketSizes[0..] == bucketSizes;
    var k := 0;
    while k < |bucketSizes|
      invariant 0 <= k <= |bucketSizes|
      invariant log + WarnPhase(p, c, bucketSizes[k..]) == WarnPhase(p, c, bucketSizes)
    {
      var item := bucketSizes[k];
      assert bucketSizes[k..][0] == item && bucketSizes[k..][1..] == bucketSizes[k + 1..];
      if OverThreshold(item.bytes) {
        ghost var alert := Alert(c, item);
        ghost var after := if p.awaitsSlack then [Crash(AwaitedNone)] else WarnPhase(p, c, bucketSizes[k + 1..]);
        AppendAssoc(log, alert, after);
        log := log + [WarningEmail(WarningMail(c, item.bucket), item.bucket, item.bytes), SlackAttempt(c, item)];
        if p.awaitsSlack {
          log := log + [Crash(AwaitedNone)];
          return;
        }
      }
      k := k + 1;
    }
    assert bucketSizes[k..] == [];
    log := log + [Finished];
  }
}
