# sslreminder, modelled in Dafny

sslreminder checks the TLS certificates of a configured list of hosts once a
day and sends one reminder email when any certificate expires within
`THRESHOLD_DAYS` days. This project models its decision layer, which is all in
`sslreminder.go`:

- **Configuration** (`Settings`): `envMandatory`, `envOptional`,
  `readConfig` and `readSendgridConfig` over an environment given as a map.
  Fatal exits become `ConfigError` results. The comma split of `EMAILS` and
  `HOSTS` is `Text.Split`, and the parse of `THRESHOLD_DAYS` is `Text.ParseInt`.
- **Certificate inspector** (`Inspector`): `GetExpiration`. The TLS dial is an
  opaque `dial` that fails or yields the peer chain. The chain's entries may
  be nil. The model then chooses the leaf's `NotAfter` or one of the three
  errors.
- **Expiration collector** (`Collector`): the `GetExpirationMap` loop. A failing
  host is skipped (`continue`) and every success goes into the map. The
  snapshot it builds is the function `Collected`.
- **Decision** (`Reminder`): the threshold `now + thresholdDays` days, the
  `shouldRemind` loop of `check`, and the split of the snapshot into `soon`
  (strictly before the threshold) and `others` (at or after it).
- **Mail body** (`Body`): `mailBody`'s three loops writing into a buffer. Go
  visits maps in an unspecified order, so the loops here pick hosts in an
  arbitrary order. `IsMailBody` says what every possible body is: the header,
  one line per `soon` host, and the second section only when `others` is not
  empty. `MailBodyShape` reads such a body back line by line.
- **Check cycle** (`CheckCycle`): `check` and `remind`. The result of a cycle
  is the mail handed to the mail client, or none.

Time is an integer count of seconds since the Unix epoch, in UTC. There
`AddDate(0, 0, d)` is exactly `d * 86400` seconds. The `%v` text of a time is
an opaque parameter `format`.

Facts about the code that the model keeps:

- The reminder fires when an expiration is strictly before the threshold (`ex.Before(threshold)`, sslreminder.go:149).
- The host and email lists always have at least one entry, because a comma split always gives one. An entry may be empty (`HOSTS=","` gives two empty hosts), and the code dials such entries like any other host.
- Hosts within a section are listed in Go's map order, which is unspecified. They are not sorted.

Proof note: the two mail titles are each cut into short literals inside `Body.SoonTitleNewlineFree` and `Body.OthersTitleNewlineFree`. This is only a hint so the solver can check that they contain no newline; it is not a property of the source.

## Model

| member | source | states |
|---|---|---|
| `Text.Split` | sslreminder.go:112 | splitting on a separator yields at least one piece, and no piece contains the separator |
| `Text.JoinSplit` | sslreminder.go:112-115 | joining the pieces of a split with the separator gives back the original text |
| `Text.SplitJoin` | sslreminder.go:112-115 | splitting a join of a non-empty list of separator-free pieces gives back exactly those pieces |
| `Text.ParseInt` | sslreminder.go:106 | an accepted threshold text is a sign and digits, or digits alone, with no leading zero unless the digits are just "0", and a value in the 64-bit range |
| `Text.ParseFormat` | sslreminder.go:106 | every 64-bit integer written in decimal parses back to itself |
| `Times.Before` | sslreminder.go:149 | `ex.Before(threshold)` is strict: an instant is never before itself |
| `Times.AddDaysAcrossMonth` | sslreminder.go:145 | 2024-01-20 plus 30 days is 2024-02-19, across a month boundary |
| `Times.AddDays` | sslreminder.go:145 | the threshold is later than now iff the day count is positive, and equal to now iff it is zero |
| `Settings.Getenv` | sslreminder.go:77 | an unset variable reads as the empty string; a set one reads as its value |
| `Settings.EnvMandatory` | sslreminder.go:76-82 | an unset or empty variable is the fatal error for that key; otherwise its value is returned |
| `Settings.EnvOptional` | sslreminder.go:86-92 | an unset or empty variable yields the default; otherwise the value is returned unchanged |
| `Settings.ThresholdText` | sslreminder.go:104-105 | the THRESHOLD_DAYS text is "30" when unset or empty, and the variable's value otherwise |
| `Settings.ParseThreshold` | sslreminder.go:106-110 | a threshold text that does not parse is the fatal error naming that text |
| `Settings.ReadConfig` | sslreminder.go:103-120 | succeeds iff the threshold parses and EMAILS and HOSTS are set; errors come in that order (threshold, then EMAILS, then HOSTS); both lists are non-empty; `from` is FROM, or else the first email |
| `Settings.ReadConfigLists` | sslreminder.go:112-116 | the host and email lists are the comma-free pieces that, joined with commas, give HOSTS and EMAILS |
| `Settings.ThresholdDefault` | sslreminder.go:104-106 | with THRESHOLD_DAYS unset or empty and EMAILS and HOSTS set, the threshold is 30 days |
| `Settings.ReadSendgridConfig` | sslreminder.go:95-100 | succeeds iff both credentials are set, with those values; otherwise the error names the first missing one |
| `Settings.Startup` | sslreminder.go:208-209 | start-up succeeds iff both configurations read; a `readConfig` error comes first; otherwise a missing credential is `readSendgridConfig`'s error; with EMAILS unset it fails, so no check ever runs |
| `Inspector.LeafExpiration` | sslreminder.go:60-71 | an empty chain is "no peer certificates"; a nil first entry is "first certificate nil"; otherwise the result is the first certificate's NotAfter |
| `Inspector.LeafIgnoresRestOfChain` | sslreminder.go:65-70 | certificates after the leaf never change the outcome |
| `Inspector.GetExpiration` | sslreminder.go:50-72 | a failed dial is a dial error; a result is exactly a successful dial whose chain starts with a non-nil certificate, and its value is that certificate's NotAfter |
| `Collector.CollectedStep` | sslreminder.go:126-136 | one more host adds its expiration when its inspection succeeds and changes nothing when it fails |
| `Collector.GetExpirationMap` | sslreminder.go:123-139 | the loop builds exactly the snapshot `Collected` of the configured hosts |
| `Collector.CollectedContents` | sslreminder.go:124-138 | the snapshot's keys are exactly the configured hosts whose inspection succeeded, each with its own inspection's expiration; no hosts give an empty snapshot |
| `Collector.FailingHostChangesNothing` | sslreminder.go:127-133 | a failing host, wherever it stands in the list, neither removes nor alters another host's entry |
| `Reminder.Threshold` | sslreminder.go:145 | the threshold is `thresholdDays` whole days after now, and later than now iff the day count is positive; `check` and `mailBody` (line 162) both use it |
| `Reminder.ShouldRemind` | sslreminder.go:147-152 | the flag is set iff some expiration in the snapshot is strictly before the threshold, whatever the visiting order |
| `Reminder.PartitionProperties` | sslreminder.go:165-172 | `soon` and `others` are disjoint and together form the snapshot; `soon` values are before the threshold and `others` values are at or after it, so an expiry equal to the threshold is in `others` |
| `Reminder.RemindIffSoonNonEmpty` | sslreminder.go:149-155 | the reminder is due exactly when `soon` is non-empty, so an empty snapshot sends nothing |
| `Reminder.Partition` | sslreminder.go:162-172 | the first loop of `mailBody` fills `soon` and `others` exactly as the partition |
| `Reminder.TwoHostExample` | sslreminder.go:162-172 | for {a: 2024-01-01, b: 2025-01-01} checked on 2024-01-01 with 30 days, a reminder is due, with `a` soon and `b` other |
| `Body.EntryLayout` | sslreminder.go:178-184 | an entry is the host, then ": ", then the formatted expiration |
| `Body.HostLineLayout` | sslreminder.go:178-184 | a written line is the entry followed by one newline |
| `Body.WriteEntries` | sslreminder.go:177-185 | used for both the soon loop (177-179) and the others loop (183-185): the buffer gets one `host: exp` line for every host of the section, each host exactly once, in some order |
| `Body.MailBody` | sslreminder.go:161-188 | the body starts with the soon header and has the soon section and, only when `others` is non-empty, the others section, for some listing order of each |
| `Body.RenderIsJoin` | sslreminder.go:174-187 | the body is its title and entry lines joined with newlines, ending with a newline |
| `Body.ReadBack` | sslreminder.go:174-187 | when no host name or time text contains a newline, splitting the body on newlines gives back exactly those lines |
| `Body.MailBodyShape` | sslreminder.go:174-187 | when no host name or formatted time contains a newline, read back, any body is the soon title; one entry per soon host; then a blank line, the others title and one entry per other host only when others is non-empty; and the line count is 2 + soon (+ 2 + others) |
| `CheckCycle.Remind` | sslreminder.go:191-199 | the mail goes to all configured emails from `config.from`, with the fixed subject, on the given account, and its text is a mail body for this snapshot |
| `CheckCycle.Check` | sslreminder.go:142-158 | a mail is sent iff some collected expiration is before `now + thresholdDays`; it then has a non-empty soon section against that same threshold; with no hosts nothing is sent |
| `CheckCycle.ReminderDueIffHostExpiresSoon` | sslreminder.go:144-152 | a reminder is due iff some configured host was inspected successfully and its leaf expires before the threshold |

## Left out

- The TLS dial, `ConnectionState` and `conn.Close` (sslreminder.go:51-58) are network I/O. They are the `dial` parameter, and a failed dial is one error value. `tls.Dial` with an empty `tls.Config` verifies the chain against the current time, so a host whose certificate has already expired fails the dial and drops out of the snapshot with only a log line; the program never reminds about an already-expired certificate. The unconstrained `dial` includes this case but does not tie a dial failure to the expiry date.
- The SendGrid client and `sg.Send` (sslreminder.go:193-204) are a foreign library. A cycle yields the request it would send. Whether sending succeeds is only logged in the source, so it is not modelled.
- `log.Printf` and `log.Println` are not modelled. `log.Fatalf` becomes a `ConfigError` result.
- `os.Getenv` reads the environment, which is the `Env` map here.
- ParseInt: models `strconv.ParseInt(s, 0, 0)` for decimal text only. Go reads base prefixes (`0x`, `0o`, `0b`), a leading `0` as octal, and underscores between digits. The model rejects prefixes, underscores and every digit string with a leading zero other than "0" itself, so each text it accepts Go accepts with the same value; it rejects octal text such as "030" that Go reads as 24.
- AddDays: `time.AddDate` in a zone with daylight saving time can differ from `d * 86400` seconds by an hour. Go's 64-bit overflow of time arithmetic for huge thresholds is not modelled either.
- The `%v` rendering of a `time.Time` is the opaque `format` parameter.
- Go's map iteration order is random. The model allows any order and states the body up to the order within each section.
- A host listed twice in HOSTS is dialled twice by the source, and the two answers may differ. The model's `dial` is a function, so both answers agree.
- The `main` loop that runs `check` in a goroutine every 24 hours (sslreminder.go:210-214) is scheduling and concurrency. Only its start-up reads are modelled, as `Settings.Startup`.
