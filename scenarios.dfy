/**
 * A client of `EmailVerifier`: what callers can conclude from the contracts alone for
 * an address without `@`, a domain without mail exchangers, an accepted probe, and
 * a second request for the same address inside the time-to-live.
 */
module Scenarios {
  import opened Wrappers
  import opened Strings
  import Syntax
  import Smtp
  import Cache
  import opened Verifier

  method NotAnEmail() {
    var v := new EmailVerifier(Some("198.51.100.7"), None, None);
    // No `@`: every check fails and nothing is looked up.
    Strings.SplitPieceFree("not-an-email", '@', []);
    assert "not-an-email" + [] == "not-an-email";
    var r, io := v.VerifyEmail("not-an-email", 0, Records([]), [], 0);
    assert !r.valid && r.checks == Checks(false, false, false) && io == [];
  }

  /** Any valid address in a domain without mail exchangers: syntax passes, nothing else,
      and no probe is made. */
  method NoMailExchanger(email: string)
    requires Syntax.ValidateSyntax(email)
  {
    var v := new EmailVerifier(Some("198.51.100.7"), None, None);
    var r, io := v.VerifyEmail(email, 0, Records([]), [], 0);
    assert !r.valid && r.checks == Checks(true, false, false);
    assert r.details.mxRecords == Some([]) && |io| == 1;
  }

  /** Any valid address whose one exchanger answers an accepting reply and closes
      passes every check; asked again a day later, to
      the millisecond, the verifier returns the stored result without a lookup. */
  method AcceptedThenCached(email: string, reply: string)
    requires Syntax.ValidateSyntax(email)
    requires Smtp.Accepts(reply)
  {
    var v := new EmailVerifier(Some("198.51.100.7"), None, Some(""));
    var events := [Smtp.Connect, Smtp.Data(reply), Smtp.Close];
    ProbeAccepted(reply, events);
    var r, io := v.VerifyEmail(email, 5, Records([MxRecord("mx.good.test", 10)]), events, 9);
    assert r.valid && r.checks == Checks(true, true, true);
    assert r.details.smtp == Some(reply);

    Cache.GetAfterSet(v.cache, email, r, 9, 9 + Cache.TTL_MS);
    var again, io' := v.VerifyEmail(email, 9 + Cache.TTL_MS, Records([]), [], 0);
    assert again == r && io' == [];
  }

  /** The same, for the address "user@good.test" and the reply "250 OK\r\n". */
  method GoodAddressAccepted() {
    GoodAddressValid();
    Smtp.AcceptsExamples();
    AcceptedThenCached("user@good.test", "250 OK\r\n");
  }

  /** The address of the concrete scenario is valid. */
  lemma GoodAddressValid()
    ensures Syntax.ValidateSyntax("user@good.test")
  {
    AddressIsValid("user", ["good", "test"]);
    assert "user" + ['@'] + Join(["good", "test"], '.') == "user@good.test";
  }

  /** A server that answers one accepting chunk and closes passes the probe. */
  lemma ProbeAccepted(reply: string, events: seq<Smtp.SocketEvent>)
    requires Smtp.Accepts(reply)
    requires events == [Smtp.Connect, Smtp.Data(reply), Smtp.Close]
    ensures Smtp.ConnectsFirst(events)
    ensures Smtp.Resolution(events) == Smtp.ProbeOutcome(true, reply)
  {
    var connected := [Smtp.Connect];
    var answered := connected + [Smtp.Data(reply)];
    assert events == answered + [Smtp.Close];
    Smtp.SettledStep([], Smtp.Connect);
    assert [] + [Smtp.Connect] == connected;
    Smtp.SettledStep(connected, Smtp.Data(reply));
    Smtp.SettledStep(answered, Smtp.Close);
    assert Smtp.Received(connected) == [];
    Smtp.ReceivedAppend(connected, [Smtp.Data(reply)]);
    assert Smtp.Received([Smtp.Data(reply)]) == reply + Smtp.Received([]);
    assert Smtp.Received(answered) == reply;
    assert Smtp.Settled(events) == Some(Smtp.ProbeOutcome(true, reply));
  }

  /** An address built from a local part and labels is accepted. */
  lemma AddressIsValid(local: string, labels: seq<string>)
    requires Syntax.IsLocalPart(local)
    requires Syntax.IsLabelSequence(labels)
    ensures Syntax.ValidateSyntax(local + ['@'] + Join(labels, '.'))
  {
    var email := local + ['@'] + Join(labels, '.');
    assert email[..|local|] == local && email[|local| + 1..] == Join(labels, '.');
    assert Syntax.LabelsSpell(labels, email[|local| + 1..]);
    Syntax.GrammarImpliesValid(email, |local|);
  }
}
