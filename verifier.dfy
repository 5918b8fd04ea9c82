/**
 * `EmailVerifier`: the cache, the configured source identities with their
 * round-robin cursor, and the three checks run in order (syntax, mail
 * exchangers, SMTP probe), each skipped once an earlier one has failed.
 *
 * DNS and the socket are inputs: `answer` is what the resolver returns for the
 * domain, `events` what the socket would deliver. The out-parameter `io` lists
 * the lookups and connections the call actually makes.
 */
module Verifier {
  import opened Wrappers
  import opened Strings
  import Syntax
  import Smtp
  import Cache
  import Rotation

  /** One answer of `dns.resolveMx`, in the resolver's order. */
  datatype MxRecord = MxRecord(exchange: string, priority: int)

  /** A resolution either yields the records or rejects with an error message. */
  datatype MxAnswer = Records(records: seq<MxRecord>) | ResolveError(message: string)

  datatype Checks = Checks(syntax: bool, mx: bool, smtp: bool)

  /** `details`: `mx_records`, `smtp` and `error`, each absent until assigned. */
  datatype Details = Details(mxRecords: Option<seq<MxRecord>>, smtp: Option<string>, error: Option<string>)

  datatype VerificationResult = VerificationResult(
    email: string,
    valid: bool,
    checks: Checks,
    details: Details,
    timestamp: Option<int>)  // absent until `finalizeResult`

  /** An outside action of one verification. */
  datatype Io =
    | ResolveMx(domain: string)
    | SmtpSession(host: string, port: int, identity: string, sent: seq<string>)

  const NoDetails := Details(None, None, None)

  /** `[...].filter(Boolean)` on the configured values: drops the undefined and the empty ones,
      keeping the order of the rest. */
  function Truthy(values: seq<Option<string>>): (ips: seq<string>)
    ensures |ips| <= |values|
    ensures forall s :: s in ips <==> Some(s) in values && s != ""
  {
    if values == [] then []
    else
      var rest := Truthy(values[1..]);
      assert forall v :: v in values <==> v == values[0] || v in values[1..];
      match values[0]
      case Some(s) => if s != "" then [s] + rest else rest
      case None => rest
  }

  /** The filter works value by value and keeps the configured order. */
  lemma {:induction false} TruthyAppend(a: seq<Option<string>>, b: seq<Option<string>>)
    ensures Truthy(a + b) == Truthy(a) + Truthy(b)
    ensures |a| == 1 ==> Truthy(a) == if a[0].Some? && a[0].value != "" then [a[0].value] else []
  {
    if a != [] {
      TruthyAppend(a[1..], b);
      assert (a + b)[1..] == a[1..] + b;
      if |a| == 1 {
        assert a[1..] == [];
      }
    } else {
      assert a + b == b;
    }
  }

  /** An identity as a template literal renders it: JavaScript's `undefined` becomes "undefined". */
  function Rendered(identity: Option<string>): string {
    match identity
    case Some(s) => s
    case None => "undefined"
  }

  class EmailVerifier {
    const ipAddresses: seq<string>
    var currentIpIndex: nat
    var cache: Cache.Store<VerificationResult>
    /** The identities handed out so far, oldest first. */
    ghost var issued: seq<string>

    /** The cursor and the history follow the round robin from a fresh start; with no
        identity configured nothing is ever handed out. */
    ghost predicate Valid()
      reads this
    {
      if |ipAddresses| == 0 then
        currentIpIndex == 0 && issued == []
      else
        currentIpIndex == Rotation.CursorAfter(|ipAddresses|, |issued|) &&
        issued == Rotation.Issued(ipAddresses, |issued|)
    }

    /** `new EmailVerifier()` with the three configured values read from the environment. */
    constructor (ip1: Option<string>, ip2: Option<string>, ip3: Option<string>)
      ensures Valid()
      ensures ipAddresses == Truthy([ip1, ip2, ip3])
      ensures currentIpIndex == 0 && cache == map[] && issued == []
    {
      ipAddresses := Truthy([ip1, ip2, ip3]);
      currentIpIndex := 0;
      cache := map[];
      issued := [];
    }

    /** Reads the identity at the cursor and advances the cursor modulo the number of
        identities. With none configured the read gives `undefined`. */
    method NextIdentity() returns (identity: Option<string>)
      requires Valid()
      modifies this`currentIpIndex, this`issued
      ensures Valid()
      ensures |ipAddresses| == 0 ==>
        identity == None && currentIpIndex == old(currentIpIndex) && issued == old(issued)
      ensures |ipAddresses| > 0 ==>
        && old(currentIpIndex) < |ipAddresses|
        && identity == Some(ipAddresses[old(currentIpIndex)])
        && currentIpIndex == (old(currentIpIndex) + 1) % |ipAddresses|
        && issued == old(issued) + [ipAddresses[old(currentIpIndex)]]
    {
      if |ipAddresses| == 0 {
        identity := None;
      } else {
        identity := Some(ipAddresses[currentIpIndex]);
        Rotation.AdvanceIsModulo(currentIpIndex, |ipAddresses|);
        currentIpIndex := (currentIpIndex + 1) % |ipAddresses|;
        issued := issued + [identity.value];
      }
    }

    /** `verifySmtp(email, mxServer)`: takes the next identity, connects to port 25 of
        `mxServer` and runs the probe on the socket's events. */
    method VerifySmtp(email: string, mxServer: string, events: seq<Smtp.SocketEvent>)
      returns (outcome: Smtp.ProbeOutcome, session: Io)
      requires Valid()
      requires Smtp.ConnectsFirst(events)
      modifies this`currentIpIndex, this`issued
      ensures Valid()
      ensures |ipAddresses| == 0 ==> currentIpIndex == old(currentIpIndex) && issued == old(issued)
      ensures |ipAddresses| > 0 ==>
        && currentIpIndex == (old(currentIpIndex) + 1) % |ipAddresses|
        && issued == old(issued) + [ipAddresses[old(currentIpIndex)]]
      ensures var identity := if |ipAddresses| == 0 then "undefined" else ipAddresses[old(currentIpIndex)];
        session == SmtpSession(mxServer, Smtp.SMTP_PORT, identity,
                               Smtp.Commands(identity, email)[..Smtp.Min(Smtp.AdvancingCount(events), 4)])
      ensures outcome == Smtp.Resolution(events)
    {
      var identity := NextIdentity();
      var sourceIP := Rendered(identity);
      var run := Smtp.Probe(sourceIP, email, events);
      session := SmtpSession(mxServer, Smtp.SMTP_PORT, sourceIP, run.sent);
      match run.outcome {
        case Some(o) => outcome := o;
        case None => outcome := Smtp.ProbeOutcome(false, "Connection timeout");
      }
    }

    /** `finalizeResult`: sets `valid` to the conjunction of the checks, stamps the result
        and stores it under exactly `result.email`. */
    method FinalizeResult(result: VerificationResult, now: int) returns (r: VerificationResult)
      modifies this`cache
      ensures r.email == result.email && r.checks == result.checks && r.details == result.details
      ensures r.valid <==> result.checks.syntax && result.checks.mx && result.checks.smtp
      ensures r.timestamp == Some(now)
      ensures cache == Cache.Set(old(cache), result.email, r, now)
    {
      r := result.(valid := result.checks.syntax && result.checks.mx && result.checks.smtp);
      r := r.(timestamp := Some(now));
      cache := Cache.Set(cache, r.email, r, now);
    }

    /**
     * `verifyEmail(email)`, looked up at time `now` and finalized at time `finishedAt`.
     * A live cache entry is returned as stored. Otherwise the checks run in order and
     * every outcome, including a syntax failure, is stored in the cache.
     */
    method VerifyEmail(email: string, now: int, answer: MxAnswer,
                       events: seq<Smtp.SocketEvent>, finishedAt: int)
      returns (r: VerificationResult, io: seq<Io>)
      requires Valid()
      requires Smtp.ConnectsFirst(events)
      modifies this`currentIpIndex, this`issued, this`cache
      ensures Valid()
      // a hit: the stored result, and nothing else happens
      ensures Cache.Get(old(cache), email, now).Some? ==>
        && r == Cache.Get(old(cache), email, now).value
        && io == []
        && cache == old(cache) && currentIpIndex == old(currentIpIndex) && issued == old(issued)
      // a miss: a fresh result, stored under the address
      ensures Cache.Get(old(cache), email, now).None? ==>
        && r.email == email
        && r.checks.syntax == Syntax.ValidateSyntax(email)
        && (r.valid <==> r.checks.syntax && r.checks.mx && r.checks.smtp)
        && r.timestamp == Some(finishedAt)
        && cache == Cache.Set(old(cache), email, r, finishedAt)
      // a syntax failure: no lookup, no probe
      ensures Cache.Get(old(cache), email, now).None? && !Syntax.ValidateSyntax(email) ==>
        && !r.checks.mx && !r.checks.smtp && r.details == NoDetails
        && io == [] && currentIpIndex == old(currentIpIndex) && issued == old(issued)
      // a valid address: its domain is looked up
      ensures Cache.Get(old(cache), email, now).None? && Syntax.ValidateSyntax(email) ==>
        |io| >= 1 && io[0] == ResolveMx(Split(email, '@')[1])
      // a resolution error: recorded, and nothing else passes
      ensures Cache.Get(old(cache), email, now).None? && Syntax.ValidateSyntax(email) && answer.ResolveError? ==>
        && !r.checks.mx && !r.checks.smtp && r.details == Details(None, None, Some(answer.message))
        && |io| == 1 && currentIpIndex == old(currentIpIndex) && issued == old(issued)
      // no mail exchanger: no probe
      ensures Cache.Get(old(cache), email, now).None? && Syntax.ValidateSyntax(email) &&
              answer.Records? && |answer.records| == 0 ==>
        && !r.checks.mx && !r.checks.smtp && r.details == Details(Some([]), None, None)
        && |io| == 1 && currentIpIndex == old(currentIpIndex) && issued == old(issued)
      // mail exchangers: only the first is probed, with the next identity
      ensures Cache.Get(old(cache), email, now).None? && Syntax.ValidateSyntax(email) &&
              answer.Records? && |answer.records| > 0 ==>
        var identity := if |ipAddresses| == 0 then "undefined" else ipAddresses[old(currentIpIndex)];
        var probe := Smtp.Resolution(events);
        && r.checks.mx && r.checks.smtp == probe.valid
        && r.details == Details(Some(answer.records), Some(probe.details), None)
        && io == [ResolveMx(Split(email, '@')[1]),
                  SmtpSession(answer.records[0].exchange, Smtp.SMTP_PORT, identity,
                              Smtp.Commands(identity, email)[..Smtp.Min(Smtp.AdvancingCount(events), 4)])]
        && (|ipAddresses| > 0 ==> issued == old(issued) + [identity])
    {
      io := [];
      var cached := Cache.Get(cache, email, now);
      if cached.Some? {
        return cached.value, io;
      }

      var result := VerificationResult(email, false, Checks(false, false, false), NoDetails, None);

      result := result.(checks := result.checks.(syntax := Syntax.ValidateSyntax(email)));
      if !result.checks.syntax {
        r := FinalizeResult(result, finishedAt);
        return;
      }

      var domain := Split(email, '@')[1];
      io := io + [ResolveMx(domain)];
      match answer {
        case ResolveError(message) =>
          result := result.(details := result.details.(error := Some(message)));
        case Records(mxRecords) =>
          result := result.(checks := result.checks.(mx := |mxRecords| > 0));
          result := result.(details := result.details.(mxRecords := Some(mxRecords)));
          if result.checks.mx {
            var smtpResult, session := VerifySmtp(email, mxRecords[0].exchange, events);
            result := result.(checks := result.checks.(smtp := smtpResult.valid));
            result := result.(details := result.details.(smtp := Some(smtpResult.details)));
            io := io + [session];
          }
      }
      r := FinalizeResult(result, finishedAt);
    }
  }
}
