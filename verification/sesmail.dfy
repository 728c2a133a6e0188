/**
 * sendEmail over Amazon SES: a configuration-completeness guard, then the
 * construction of one SendEmail request whose envelope comes from the
 * configuration and whose text body carries the submission.
 */
module SesMail {
  import opened Wrappers
  import opened GoStrings

  /** AWS_ACCESS_KEY_ID, AWS_SECRET_ACCESS_KEY, AWS_REGION, SES_SENDER and SES_RECIPIENT, "" when unset. */
  datatype Config = Config(accessKeyId: string, secretAccessKey: string, region: string, sender: string, recipient: string)

  predicate Complete(cfg: Config) {
    && cfg.accessKeyId != ""
    && cfg.secretAccessKey != ""
    && cfg.region != ""
    && cfg.sender != ""
    && cfg.recipient != ""
  }

  /** The fields of ses.SendEmailInput the function sets. */
  datatype SendEmailInput = SendEmailInput(source: string, toAddresses: seq<string>, subject: string,
                                           body: string, charset: string)

  datatype MailError = IncompleteConfig | AwsConfigFailed | SendFailed

  /** What sendEmail returned (None for a nil error) and the request it handed to SES, if it got that far. */
  datatype Attempt = Attempt(error: Option<MailError>, submitted: Option<SendEmailInput>)

  const Subject := "Prospecto via Blog"
  const Charset := "UTF-8"
  const NameLabel := "Nome: "
  const EmailLabel := "Email: "
  const MessageLabel := "Mensagem: "

  /** The text body: "Nome: <name>\nEmail: <email>\nMensagem: <message>". */
  function MessageBody(name: string, email: string, message: string): string {
    NameLabel + name + "\n" + EmailLine(email, message)
  }

  /** The part of the body after the name line. */
  function EmailLine(email: string, message: string): string {
    EmailLabel + email + "\n" + MessageLabel + message
  }

  /** The request for one submission; nothing in its envelope depends on the submission. */
  function BuildInput(cfg: Config, name: string, email: string, message: string): (input: SendEmailInput)
    ensures input.source == cfg.sender
    ensures input.toAddresses == [cfg.recipient]
    ensures input.subject == Subject && input.charset == Charset
    ensures input.body == MessageBody(name, email, message)
  {
    SendEmailInput(cfg.sender, [cfg.recipient], Subject, MessageBody(name, email, message), Charset)
  }

  /**
   * sendEmail. `loadAws` says whether loading the AWS configuration with
   * these credentials and region succeeds; `ses` whether SES accepts the
   * request. Both are outside the model.
   */
  function SendEmail(cfg: Config, name: string, email: string, message: string,
                     loadAws: Config -> bool, ses: SendEmailInput -> bool): (a: Attempt)
    ensures !Complete(cfg) ==> a == Attempt(Some(IncompleteConfig), None)
    ensures a.submitted.Some? <==> Complete(cfg) && loadAws(cfg)
    ensures a.submitted.Some? ==> a.submitted.value == BuildInput(cfg, name, email, message)
    ensures a.error == Some(AwsConfigFailed) <==> Complete(cfg) && !loadAws(cfg)
    ensures a.error.None? <==> Complete(cfg) && loadAws(cfg) && ses(BuildInput(cfg, name, email, message))
    ensures a.error == Some(SendFailed) <==> Complete(cfg) && loadAws(cfg) && !ses(BuildInput(cfg, name, email, message))
  {
    if !Complete(cfg) then Attempt(Some(IncompleteConfig), None)
    else if !loadAws(cfg) then Attempt(Some(AwsConfigFailed), None)
    else
      var input := BuildInput(cfg, name, email, message);
      if ses(input) then Attempt(None, Some(input)) else Attempt(Some(SendFailed), Some(input))
  }

  /** Two submissions under one configuration produce the same sender, recipients, subject and charset. */
  lemma EnvelopeIgnoresSubmission(cfg: Config, n1: string, e1: string, m1: string, n2: string, e2: string, m2: string)
    ensures var a, b := BuildInput(cfg, n1, e1, m1), BuildInput(cfg, n2, e2, m2);
            a.source == b.source && a.toAddresses == b.toAddresses && a.subject == b.subject && a.charset == b.charset
  {
  }

  /** `s` split at its first newline; None when it has none. */
  function SplitLine(s: string): (r: Option<(string, string)>)
    ensures r.None? <==> '\n' !in s
    ensures r.Some? ==> '\n' !in r.value.0 && s == r.value.0 + "\n" + r.value.1
    decreases |s|
  {
    if s == [] then None
    else if s[0] == '\n' then Some(([], s[1..]))
    else match SplitLine(s[1..])
      case None => None
      case Some((line, rest)) => Some(([s[0]] + line, rest))
  }

  lemma {:induction false} SplitLineOfJoin(line: string, rest: string)
    requires '\n' !in line
    ensures SplitLine(line + "\n" + rest) == Some((line, rest))
    decreases |line|
  {
    var s := line + "\n" + rest;
    if line != [] {
      assert s[1..] == line[1..] + "\n" + rest;
      SplitLineOfJoin(line[1..], rest);
      assert [line[0]] + line[1..] == line;
    } else {
      assert s[1..] == rest;
    }
  }

  /** Reads "Mensagem: <message>" back into the message. */
  function ParseMessageLine(s: string): Option<string> {
    if HasPrefix(s, MessageLabel) then Some(TrimPrefix(s, MessageLabel)) else None
  }

  /** Reads "Email: <email>\nMensagem: <message>" back into (email, message). */
  function ParseEmailLine(s: string): Option<(string, string)> {
    if !HasPrefix(s, EmailLabel) then None
    else match SplitLine(TrimPrefix(s, EmailLabel))
      case None => None
      case Some((email, rest)) =>
        match ParseMessageLine(rest)
        case None => None
        case Some(message) => Some((email, message))
  }

  /** Reads a body back into (name, email, message), taking name and email up to their line ends. */
  function ParseBody(body: string): Option<(string, string, string)> {
    if !HasPrefix(body, NameLabel) then None
    else match SplitLine(TrimPrefix(body, NameLabel))
      case None => None
      case Some((name, rest)) =>
        match ParseEmailLine(rest)
        case None => None
        case Some((email, message)) => Some((name, email, message))
  }

  lemma EmailLineRoundTrip(email: string, message: string)
    requires '\n' !in email
    ensures ParseEmailLine(EmailLine(email, message)) == Some((email, message))
  {
    var rest := MessageLabel + message;
    assert EmailLine(email, message) == EmailLabel + (email + "\n" + rest);
    TrimPrefixOfConcat(EmailLabel, email + "\n" + rest);
    SplitLineOfJoin(email, rest);
    TrimPrefixOfConcat(MessageLabel, message);
    assert ParseMessageLine(rest) == Some(message);
  }

  /** The body gives back the submission whenever the name and address are single lines. */
  lemma BodyRoundTrip(name: string, email: string, message: string)
    requires '\n' !in name && '\n' !in email
    ensures ParseBody(MessageBody(name, email, message)) == Some((name, email, message))
  {
    var body := MessageBody(name, email, message);
    var rest := EmailLine(email, message);
    assert body == NameLabel + (name + "\n" + rest);
    TrimPrefixOfConcat(NameLabel, name + "\n" + rest);
    assert TrimPrefix(body, NameLabel) == name + "\n" + rest;
    SplitLineOfJoin(name, rest);
    EmailLineRoundTrip(email, message);
    assert ParseEmailLine(rest) == Some((email, message));
  }

  /** A name spanning lines can make two different submissions indistinguishable in the body. */
  lemma BodyAmbiguousAcrossLines()
    ensures MessageBody("x\nEmail: y", "z", "m") == MessageBody("x", "y\nEmail: z", "m")
  {
  }
}
