/**
 * One check cycle, `check`: collect the snapshot, decide, and when a
 * reminder is due hand one mail to the mailer. The mailer itself is a
 * foreign client, so the cycle's outcome is the request it would send.
 */
module CheckCycle {
  import opened Wrappers
  import opened Times
  import opened Settings
  import opened Inspector
  import opened Collector
  import opened Reminder
  import opened Body

  const Subject: string := "REMINDER SSL certificate expiration"

  /** The mail `remind` gives the SendGrid client, with the account it logs in with. */
  datatype SendRequest = SendRequest(account: SendgridConfig, to: seq<string>, from: string, subject: string, text: string)

  /** `remind`: the mail to every configured address, from `config.from`. */
  method Remind(config: Config, sgConfig: SendgridConfig, now: Time, exMap: map<Host, Time>, format: Time -> string)
    returns (request: SendRequest)
    ensures request.account == sgConfig
    ensures request.to == config.emails && request.from == config.from && request.subject == Subject
    ensures IsMailBody(request.text, exMap, Threshold(config, now), format)
  {
    var text := MailBody(config, now, exMap, format);
    request := SendRequest(sgConfig, config.emails, config.from, Subject, text);
  }

  /**
   * `check`: a mail is sent exactly when some configured host's certificate
   * was read and expires strictly before `now + thresholdDays`; its body then
   * has a non-empty `soon` section, computed against the same threshold.
   */
  method Check(config: Config, sgConfig: SendgridConfig, now: Time,
               dial: Host -> Option<Chain>, format: Time -> string)
    returns (sent: Option<SendRequest>)
    ensures sent.Some? <==> AnyBefore(Collected(config.hosts, dial), Threshold(config, now))
    ensures sent.Some? ==>
      && Soon(Collected(config.hosts, dial), Threshold(config, now)) != map[]
      && sent.value.account == sgConfig
      && sent.value.to == config.emails && sent.value.from == config.from && sent.value.subject == Subject
      && IsMailBody(sent.value.text, Collected(config.hosts, dial), Threshold(config, now), format)
    ensures config.hosts == [] ==> sent.None?
  {
    var exMap := GetExpirationMap(config, dial);
    var threshold := Threshold(config, now);
    var shouldRemind := ShouldRemind(exMap, threshold);
    RemindIffSoonNonEmpty(exMap, threshold);
    CollectedContents(config.hosts, dial);
    if shouldRemind {
      var request := Remind(config, sgConfig, now, exMap, format);
      sent := Some(request);
    } else {
      sent := None;
    }
  }

  /** In terms of the hosts themselves: a reminder is due iff some host's leaf certificate expires in time. */
  lemma ReminderDueIffHostExpiresSoon(config: Config, now: Time, dial: Host -> Option<Chain>)
    ensures AnyBefore(Collected(config.hosts, dial), Threshold(config, now)) <==>
      exists h :: h in config.hosts && GetExpiration(h, dial).Success?
                  && Before(GetExpiration(h, dial).value, Threshold(config, now))
  {
    CollectedContents(config.hosts, dial);
  }
}
