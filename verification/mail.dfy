/** The pure part of sending one message: the configuration guard, the choice of
    transport security by port, and the message built from a reminder. The network
    transfer itself is not modelled; a caller supplies its outcome. */
module Mail {
  import opened Wrappers
  import opened Text
  import opened Reminders

  /** The SMTP part of the settings file. A port of 0 stands for an unset port. */
  datatype SmtpConfig = SmtpConfig(
    email: string, password: string, smtpHost: string, smtpPort: int, secure: bool)

  /** The settings file; `email` is absent when the SMTP section is missing. */
  datatype Settings = Settings(email: Option<SmtpConfig>)

  datatype SendError =
    | NotConfigured        // a required SMTP field is missing or empty
    | NoRecipients         // the reminder names nobody
    | NoTestAddress        // a test message was requested without an address
    | VerifyFailed         // the server rejected the connection check of a test message
    | TransportFailed      // the transfer itself failed

  datatype Security = Security(secure: bool, requireTLS: bool)

  datatype TransportConfig = TransportConfig(
    host: string, port: int, security: Security, user: string, pass: string,
    minTlsVersion: string, rejectUnauthorized: bool,
    connectionTimeout: int, greetingTimeout: int, socketTimeout: int)

  datatype Message = Message(from: string, to: string, subject: string, text: string, html: string)

  /** A transport configuration and the message to hand to it. */
  datatype Outgoing = Outgoing(config: TransportConfig, message: Message)

  /** Every field the guard demands is present and truthy. */
  predicate Configured(s: Settings) {
    && s.email.Some?
    && s.email.value.email != ""
    && s.email.value.password != ""
    && s.email.value.smtpHost != ""
    && s.email.value.smtpPort != 0
  }

  /** Transport security as the code chooses it: implicit TLS exactly on port 465,
      a mandatory STARTTLS upgrade exactly on port 587. The configured `secure`
      flag is not consulted (see `IntendedSecurity`). */
  function TransportSecurity(port: int, secureFlag: bool): (s: Security)
    ensures s.secure <==> port == 465
    ensures s.requireTLS <==> port == 587
    ensures !(s.secure && s.requireTLS)
  {
    var isSslPort := port == 465;
    Security(isSslPort, !isSslPort && port == 587)
  }

  /** The flag the settings screen offers has no effect on any port. */
  lemma SecureFlagIgnored(port: int)
    ensures TransportSecurity(port, true) == TransportSecurity(port, false)
    ensures !TransportSecurity(25, true).secure
  {
  }

  /** Transport security as the comments describe it: ports 465 and 587 as above,
      the configured flag on every other port. */
  function IntendedSecurity(port: int, secureFlag: bool): (s: Security)
    ensures port != 465 && port != 587 ==> s.secure == secureFlag && !s.requireTLS
    ensures port == 465 || port == 587 ==> s == TransportSecurity(port, secureFlag)
    ensures !(s.secure && s.requireTLS)
  {
    if port == 465 || port == 587 then TransportSecurity(port, secureFlag)
    else Security(secureFlag, false)
  }

  /** The fixed transport options: TLS 1.2 at least, certificates not checked, and
      the connection, greeting and socket timeouts in milliseconds. */
  const MinTlsVersion: string := "TLSv1.2"
  const ConnectionTimeout: int := 15000
  const GreetingTimeout: int := 10000
  const SocketTimeout: int := 20000

  /** The transport configuration both the reminder sender and the test sender build. */
  function ConfigFor(c: SmtpConfig): (t: TransportConfig)
    ensures t.host == c.smtpHost && t.port == c.smtpPort
    ensures t.security == TransportSecurity(c.smtpPort, c.secure)
    ensures t.user == Trim(c.email) && t.pass == Trim(c.password)
    ensures t.minTlsVersion == MinTlsVersion && !t.rejectUnauthorized
    ensures t.connectionTimeout == ConnectionTimeout && t.greetingTimeout == GreetingTimeout
    ensures t.socketTimeout == SocketTimeout
  {
    TransportConfig(
      c.smtpHost, c.smtpPort, TransportSecurity(c.smtpPort, c.secure),
      Trim(c.email), Trim(c.password), MinTlsVersion, false,
      ConnectionTimeout, GreetingTimeout, SocketTimeout)
  }

  /** `xs.join(sep)`. */
  function Join(xs: seq<string>, sep: string): string
    decreases |xs|
  {
    if xs == [] then ""
    else if |xs| == 1 then xs[0]
    else xs[0] + sep + Join(xs[1..], sep)
  }

  /** Every element appears in the joined string: each recipient is named in the
      `to` header, and a single recipient is the whole header. */
  lemma {:induction false} JoinHoldsEach(xs: seq<string>, sep: string, k: int)
    requires 0 <= k < |xs|
    ensures exists p :: OccursAt(Join(xs, sep), xs[k], p)
    ensures |xs| == 1 ==> Join(xs, sep) == xs[0]
    decreases |xs|
  {
    var j := Join(xs, sep);
    if k == 0 {
      assert j[..|xs[0]|] == xs[0];
      assert OccursAt(j, xs[0], 0);
    } else {
      var rest := Join(xs[1..], sep);
      JoinHoldsEach(xs[1..], sep, k - 1);
      var p :| OccursAt(rest, xs[1..][k - 1], p);
      var q := |xs[0]| + |sep| + p;
      assert j == (xs[0] + sep) + rest;
      assert j[q..q + |xs[k]|] == rest[p..p + |xs[k]|];
      assert OccursAt(j, xs[k], q);
    }
  }

  /** `s.replace(/\n/g, '<br>')`, character by character. */
  function ReplaceLineBreaks(s: string): string
    decreases |s|
  {
    if s == [] then ""
    else (if s[0] == '\n' then "<br>" else [s[0]]) + ReplaceLineBreaks(s[1..])
  }

  lemma {:induction false} ReplaceLineBreaksFacts(s: string)
    ensures '\n' !in ReplaceLineBreaks(s)
    ensures '\n' !in s ==> ReplaceLineBreaks(s) == s
    ensures |ReplaceLineBreaks(s)| >= |s|
    decreases |s|
  {
    if s != [] {
      var piece := if s[0] == '\n' then "<br>" else [s[0]];
      var rest := ReplaceLineBreaks(s[1..]);
      ReplaceLineBreaksFacts(s[1..]);
      assert ReplaceLineBreaks(s) == piece + rest;
      assert '\n' !in piece;
      if '\n' !in s {
        assert s[0] != '\n' && '\n' !in s[1..];
        assert s == [s[0]] + s[1..];
      }
    }
  }

  /** The HTML body's line breaks: no newline is left, text without one is kept
      as it is, and nothing gets shorter. */
  function LineBreaksToHtml(s: string): (r: string)
    ensures '\n' !in r
    ensures '\n' !in s ==> r == s
    ensures |r| >= |s|
  {
    ReplaceLineBreaksFacts(s);
    ReplaceLineBreaks(s)
  }

  /** Converting a string that starts with `c` converts `c`, then the rest. */
  lemma ReplaceCons(c: char, s: string)
    ensures ReplaceLineBreaks([c] + s) == (if c == '\n' then "<br>" else [c]) + ReplaceLineBreaks(s)
  {
    assert ([c] + s)[0] == c;
    assert ([c] + s)[1..] == s;
  }

  lemma {:induction false} ReplaceConcat(a: string, b: string)
    ensures ReplaceLineBreaks(a + b) == ReplaceLineBreaks(a) + ReplaceLineBreaks(b)
    decreases |a|
  {
    if a == [] {
      assert a + b == b;
    } else {
      var c := a[0];
      var rest := a[1..];
      var piece := if c == '\n' then "<br>" else [c];
      ReplaceConcat(rest, b);
      HeadSplit(a, b);
      ReplaceCons(c, rest + b);
      ReplaceCons(c, rest);
      Associate(piece, ReplaceLineBreaks(rest), ReplaceLineBreaks(b));
    }
  }

  lemma HeadSplit<T>(a: seq<T>, b: seq<T>)
    requires a != []
    ensures a == [a[0]] + a[1..] && a + b == [a[0]] + (a[1..] + b)
  {
  }

  lemma Associate<T>(p: seq<T>, x: seq<T>, y: seq<T>)
    ensures p + (x + y) == (p + x) + y
  {
  }

  /** The replacement works piece by piece: converting a concatenation converts
      each part. */
  lemma LineBreaksConcat(a: string, b: string)
    ensures LineBreaksToHtml(a + b) == LineBreaksToHtml(a) + LineBreaksToHtml(b)
  {
    ReplaceConcat(a, b);
  }

  /** Each newline becomes `<br>`, and every other character stays as it is. */
  lemma LineBreakPieces(c: char)
    ensures LineBreaksToHtml("\n") == "<br>"
    ensures c != '\n' ==> LineBreaksToHtml([c]) == [c]
  {
    assert "\n"[1..] == [];
    assert [c][1..] == [];
  }

  /** Prepares the message for one scheduled time of a reminder: the guard first
      (no transport is built without a complete configuration), then the recipient
      check, then the message. */
  function PrepareSend(settings: Settings, r: Reminder): (res: Result<Outgoing, SendError>)
    ensures !Configured(settings) ==> res == Failure(NotConfigured)
    ensures Configured(settings) && Recipients(r) == [] ==> res == Failure(NoRecipients)
    ensures res.Success? <==> Configured(settings) && Recipients(r) != []
    ensures res.Success? ==>
      && res.value.config == ConfigFor(settings.email.value)
      && res.value.message.from == settings.email.value.email
      && res.value.message.to == Join(Recipients(r), ", ")
      && res.value.message.subject == r.title
      && res.value.message.text == Body(r)
      && res.value.message.html == "<p>" + LineBreaksToHtml(Body(r)) + "</p>"
  {
    if !Configured(settings) then Failure(NotConfigured)
    else
      var recipients := Recipients(r);
      if |recipients| == 0 then Failure(NoRecipients)
      else
        var c := settings.email.value;
        var body := Body(r);
        Success(Outgoing(
          ConfigFor(c),
          Message(c.email, Join(recipients, ", "), r.title, body,
                  "<p>" + LineBreaksToHtml(body) + "</p>")))
  }

  /** One delivery attempt of a reminder: it succeeds exactly when preparation
      succeeds and the transport (`delivered`) reports success. */
  predicate SendSucceeds(settings: Settings, r: Reminder, delivered: bool) {
    PrepareSend(settings, r).Success? && delivered
  }

  const TestSubject: string := "RemindMail Test Email"
  const TestText: string :=
    "This is a test email from RemindMail. If you received this, your email configuration is working correctly!"

  /** The test-message handler: configuration guard, then the address check, then
      the connection check (`verified`), then the transfer (`delivered`). */
  function TestEmail(settings: Settings, to: string, verified: bool, delivered: bool)
    : (res: Result<Outgoing, SendError>)
    ensures !Configured(settings) ==> res == Failure(NotConfigured)
    ensures Configured(settings) && to == "" ==> res == Failure(NoTestAddress)
    ensures res.Success? <==> Configured(settings) && to != "" && verified && delivered
    ensures Configured(settings) && to != "" && !verified ==> res == Failure(VerifyFailed)
    ensures res.Success? ==>
      && res.value.config == ConfigFor(settings.email.value)
      && res.value.message == Message(settings.email.value.email, to, TestSubject, TestText,
                                      "<p>" + TestText + "</p>")
  {
    if !Configured(settings) then Failure(NotConfigured)
    else if to == "" then Failure(NoTestAddress)
    else if !verified then Failure(VerifyFailed)
    else if !delivered then Failure(TransportFailed)
    else
      var c := settings.email.value;
      Success(Outgoing(ConfigFor(c), Message(c.email, to, TestSubject, TestText, "<p>" + TestText + "</p>")))
  }
}
