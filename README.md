# s3-monitoring: the decision flow of one run

This project models `main()` of the EnviDat s3-monitoring job. One run goes through these steps:

1. Check that `SMTP_EMAIL` and `SMTP_SERVER` are set.
2. List the storage buckets.
3. Read each bucket's size into the size dictionary `bucket_size_dict`.
4. On the status weekday, email that dictionary to the admin. The comment names Thursday, but main.py compares `weekday()` with 4, which is Friday (see Findings).
5. On the cleanup weekday, clean up every bucket's incomplete multipart uploads. main.py compares `weekday()` with 7, which never occurs, so as written the cleanup never runs (see Findings).
6. Go through the dictionary in order. For a bucket over 20000 GB, send a warning email and try to post to Slack. As written, the `await` on main.py:117 raises right after the first such bucket, so no later bucket gets a warning (see Findings).
7. If the warning loop ends normally, log "Finished".

A run is modelled as the ordered trace of its effects on the outside world (`Monitoring.Effect`):

- a configuration error;
- the bucket listing;
- one size request per bucket;
- the status email, which carries the size dictionary;
- one multipart cleanup per bucket;
- a warning email for a bucket;
- a Slack send, or a Slack skip that is only logged;
- the exception that ends a run early;
- the final "Finished" log line.

Inputs:

- The environment is an `Env`: each of the three variables is present or absent.
- The weekday uses `datetime.weekday()` numbering, where Monday is 0 and Sunday is 6.
- The storage service's answers form a `Listing`. Either the listing raises, or it returns the bucket names in order. Each bucket comes with its byte count, or with `None` when `Bucket.size` raises for it.

Sizes are kept as integer bytes. main.py divides the byte count by 1024 three times and compares the result with 20000. The model compares the bytes with 20000 · 2^30 instead. `ThresholdExact` proves that this comparison agrees with comparing the exact quotient bytes / 2^30 with 20000. That quotient is the float main.py computes for any byte count below 2^53. For larger counts the agreement is argued but not proved. Such counts are far above the threshold 20000 · 2^30, which is below 2^45. Float rounding is monotone and 20000 · 2^20 is representable, so the rounded quotient stays above 20000.

The size dictionary is a sequence of `Entry` items in insertion order. `Monitoring.Upsert` gives it Python's dict-assignment behaviour:

- a new key is appended at the end;
- a repeated key keeps its position and takes the new value.

The modules are:

- **`Monitoring`** (monitoring.dfy) holds the data model and the whole-run specification `RunSpec`. It also holds `Run`, the step-by-step procedure of `main()`. `Run` appends one effect at a time inside the measuring loop. The cleanup loop and the warning loop are the methods `CleanAll` and `WarnAll`: each builds its own log one bucket at a time, and `Run` appends both logs at the end. `Run` is proved to produce exactly `RunSpec`.
- **`MonitoringProperties`** (properties.dfy) proves what a run does, stated through the sub-trace of one kind of effect (`OfKind`).
- **`MonitoringFindings`** (findings.dfy) compares main.py as written with what its comments and log lines describe.

The three constants that differ between the two are collected in a `Policy`:

| constant | `AsWritten` | `Corrected` |
|---|---|---|
| status weekday | 4 | Thursday (3) |
| cleanup weekday | 7 | Sunday (6) |
| Slack result awaited | yes | no |

`Run` and `RunSpec` take the policy as a parameter, so the corrected behaviour uses the same definitions under `Corrected`. Every property in `MonitoringProperties` holds for every policy.

## Model

| member | source | states |
|---|---|---|
| Monitoring.Run | main.py:78-122 | The effects main() has, in the order it has them, are exactly `RunSpec`: config checks, listing, the measuring loop with its early exit, the status email, the cleanup loop, then the warning loop with its early exit and the final log line |
| Monitoring.CleanAll | main.py:106-111 | The cleanup loop calls `clean_multiparts` once for each listed bucket, in listing order, and does nothing else |
| Monitoring.WarnAll | main.py:113-122 | The warning loop goes through the dictionary items in order. For each item over the threshold it emits the warning email and then the Slack attempt. When the Slack result is awaited it stops with an exception after the first such item; otherwise it ends with "Finished" |
| Monitoring.Upsert | main.py:99 | Assigning `bucket_size_dict[bucket]` keeps the key order and adds the bucket as the last key only when it is new. Afterwards the bucket maps to the new size |
| Monitoring.UpsertKeepsOthers | main.py:99 | Assigning one key leaves the value of every other key unchanged |
| MonitoringProperties.ConfigChecksComeFirst | main.py:83-90 | A missing SMTP_EMAIL ends the run with a configuration error, and nothing else happens. SMTP_EMAIL is checked first. A missing SMTP_SERVER does the same. The storage service is called if and only if both are set, and the listing is then the first effect |
| MonitoringProperties.StorageCalls | main.py:92-99 | The storage calls are the listing, then one size request per listed bucket in listing order. They stop at the first bucket whose size cannot be read; no bucket is skipped or retried |
| MonitoringProperties.FirstFailureIsFirst | main.py:95-98 | Every bucket measured before the one that stops the run had a readable size |
| MonitoringProperties.SizeFailureEndsRun | main.py:95-99 | A bucket whose size cannot be read ends the run with that exception. The run then sends no status email, does no cleanup and sends no warning or Slack message |
| MonitoringProperties.MeasureComplete | main.py:95-99 | When every size can be read, the measuring loop requests each size in order. It then hands the complete dictionary to the rest of main() |
| MonitoringProperties.MeasureStops | main.py:95-99 | When some size cannot be read, the measuring loop's effects are those of a stopped loop (`StopLog`) |
| MonitoringProperties.StopLogShape | main.py:95-98 | A stopped loop requests the sizes up to and including the first unreadable one, then raises for that bucket |
| MonitoringProperties.RunShape | main.py:92-122 | A configured run lists the buckets and then does one of three things. It stops on a listing error. Or it stops right after the first unreadable size. Or it measures every bucket and does what the status, cleanup and warning steps decide over the complete dictionary |
| MonitoringProperties.ReportOnePerBucket | main.py:92-99 | The size dictionary has exactly one key per listed bucket name and no other key. When the names are distinct, it holds one item per listed bucket, in listing order, with that bucket's size |
| MonitoringProperties.ThresholdExact | main.py:115 | `bytes > 20000 · 2^30` holds exactly when bytes / 1024 / 1024 / 1024 > 20000. A bucket of exactly 20000 GB is not over the threshold |
| MonitoringProperties.StatusEmailIff | main.py:101-104 | The status email appears if and only if the run measured every bucket and the weekday is the status weekday. It then appears exactly once and carries the complete size dictionary |
| MonitoringProperties.CleanupIff | main.py:106-111 | Multipart cleanup happens if and only if the run measured every bucket and the weekday is the cleanup weekday. It then runs over the listed buckets, not the dictionary keys |
| MonitoringProperties.CleanupCoversListing | main.py:109-111 | The cleanup loop has one `clean_multiparts` per listed bucket, the i-th for the i-th bucket |
| MonitoringProperties.RunAlerts | main.py:113-120 | A run that measured every bucket issues the alerts of every item over the threshold, in dictionary order, when nothing is awaited. With the `await` it issues only the alerts of the first such item. Any other run issues no alerts |
| MonitoringProperties.WarnPhaseEveryAlert | main.py:114-120 | Without the `await`, the warning loop's alerts are those of every item over the threshold, in order |
| MonitoringProperties.WarnPhaseFirstAlert | main.py:114-120 | With the `await`, the warning loop's alerts are those of the first item over the threshold, if there is one |
| MonitoringProperties.WarnPhaseTerminal | main.py:113-122 | The warning loop has exactly one terminal effect. It is the `await` exception when an item is over the threshold and the result is awaited; otherwise it is "Finished" |
| MonitoringProperties.AlertsShape | main.py:114-120 | A warning email goes out for a dictionary item if and only if the item is over the threshold, addressed to the admin. Each warning email is directly followed by the Slack attempt for the same bucket. That attempt (`trigger_slack_webhook`, main.py:64-75) is a send to SLACK_WEBHOOK when the variable is set and a logged skip when it is not |
| MonitoringProperties.FirstAlertShape | main.py:114-120 | With the `await`, the alerts are either nothing, or exactly one warning email followed by the Slack attempt for the same bucket. That warning is for an item of the dictionary that is over the threshold and is addressed to the admin. The alerts are nothing if and only if no item is over the threshold |
| MonitoringProperties.RunEndsOnce | main.py:78-122 | Every run ends with exactly one terminal effect. It is "Finished" if and only if the run measured every bucket and was not stopped by the `await` on an item over the threshold |
| MonitoringProperties.EmailsAddressedToAdmin | main.py:39-61 | Every email is From and To SMTP_EMAIL and is handed to SMTP_SERVER on port 25. The subject is "S3 Status Update" for the status email and "WARNING: Bucket {name} > 20TB" for a warning |
| MonitoringFindings.AsWrittenStatusOnFriday | main.py:101-103 | As written, the status email goes out if and only if the run measured every bucket and the day is Friday (weekday 4). A Thursday run never sends it |
| MonitoringFindings.CorrectedStatusOnThursday | main.py:101-103 | With weekday 3, the status email goes out if and only if the run measured every bucket and the day is Thursday |
| MonitoringFindings.AsWrittenNeverCleans | main.py:106-111 | As written, no run ever calls `clean_multiparts` |
| MonitoringFindings.CorrectedCleansOnSunday | main.py:106-111 | With weekday 6, a fully measured Sunday run cleans up every listed bucket, and no other day cleans up any |
| MonitoringFindings.AsWrittenWarnsAtMostOnce | main.py:113-122 | As written, a run's alerts are either nothing, or exactly one warning email followed by the Slack attempt for the same bucket. It logs "Finished" if and only if it measured every bucket and no bucket is over the threshold; otherwise a fully measured run ends with the `await` exception |
| MonitoringFindings.AsWrittenWarnsOnlyFirst | main.py:114-120 | As written, the only warning email a run can send is the one for the first item over the threshold |
| MonitoringFindings.AsWrittenSkipsSecondWarning | main.py:114-120 | As written, with two buckets "a" and "b" each of 20000 · 2^30 + 1 bytes, no warning email goes out for "b", and the run ends with the `await` exception |
| MonitoringFindings.CorrectedWarnsEveryBucket | main.py:114-122 | Without the `await`, a fully measured run issues the alerts of every item over the threshold, in dictionary order, and ends with "Finished" |
| MonitoringFindings.CorrectedWarnsSecondBucket | main.py:114-122 | Without the `await`, on any weekday, the same two buckets "a" and "b" both get their warning email, and the run ends with "Finished" |

## Left out

- The SMTP transport, MIME message construction, Jinja rendering and the template files (main.py:23-61) are not modelled. An email is an abstract event that carries its header fields and its data: the size dictionary for a status email, the bucket and its size for a warning email. A failure of the transport or of rendering is not modelled; in main.py either one would raise out of `main()`.
- The Slack `WebhookClient` is not modelled beyond the decision to send or skip. A network failure of `webhook.send` is not modelled.
- The `Bucket` client of the `envidat` package is not part of this model. Its answers are inputs: the listing and the byte count of each bucket. A failure of `clean_multiparts` is not modelled, and neither is the `items_per_page` hint.
- The clock is an input. The model takes one weekday per run, although main.py calls `datetime.today()` twice (main.py:102, main.py:107). A run that straddles midnight is not modelled.
- The asyncio event loop, dotenv loading, logger setup and the debug and info log lines are not modelled. The only log lines kept are the Slack skip warning and "Finished".
- The float formatting of `size_gb` in the Slack message and the templates is not modelled. The model keeps exact byte counts. `Monitoring.SizeGb` is the exact real quotient, which equals the float main.py computes for any byte count below 2^53.
- Byte counts beyond the float range are not modelled. In main.py the first `/ 1024` is a true division that raises `OverflowError` once the quotient exceeds the largest float (about 1.8 · 10^308, so above about 1.8 · 10^311 bytes). The model instead records such a bucket and warns about it.
- Monitoring.Upsert: the model has no hashing; the dictionary is a sequence that keeps Python's insertion order.
- main.py has no exclusion set, no force flags for the status email or the cleanup, no per-bucket recovery from a failed size request, no two-decimal rounding, no per-notification outcomes and no run summary, so the model has none of them.

## Findings

| source | as written | input that shows it | evidently intended | confidence | as-written member | corrected member |
|---|---|---|---|---|---|---|
| main.py:101-103 | `weekday() == 4` is Friday under Monday = 0, yet the comment and log line say Thursday | any fully measured run on a Thursday (weekday 3): no status email | status email on Thursdays, `weekday() == 3` | high; the convention is Python's own; not executed | MonitoringFindings.AsWrittenStatusOnFriday | MonitoringFindings.CorrectedStatusOnThursday |
| main.py:106-111 | `weekday() == 7` never holds, because `weekday()` is in 0..6, so multipart cleanup never runs | any run, e.g. a fully measured Sunday run (weekday 6): no `clean_multiparts` | cleanup on Sundays, `weekday() == 6` | high; not executed | MonitoringFindings.AsWrittenNeverCleans | MonitoringFindings.CorrectedCleansOnSunday |
| main.py:117-120 | `await trigger_slack_webhook(...)` awaits the `None` of `trigger_slack_webhook`, a synchronous function (main.py:64). That raises a TypeError after the first over-threshold bucket's email and Slack attempt | SMTP_EMAIL and SMTP_SERVER set, no SLACK_WEBHOOK; buckets "a" and "b", each of 20000 · 2^30 + 1 bytes, on a Monday: no warning for "b", no "Finished" | call `trigger_slack_webhook` without `await`, so every over-threshold bucket is warned about and the run finishes | high; Python raises TypeError when awaiting None; not executed | MonitoringFindings.AsWrittenSkipsSecondWarning | MonitoringFindings.CorrectedWarnsEveryBucket |
