/**
 * The probe of `EmailVerifier.verifySmtp`: a client-side run of the RFC 5321
 * command sequence HELO, MAIL FROM, RCPT TO, QUIT (sections 4.1.1.1,
 * 4.1.1.2, 4.1.1.3 and 4.1.1.10), driven by the socket's events.
 *
 * The socket is an input: the sequence of events it delivers. The handlers
 * registered by the source become the branches of one loop over that sequence.
 */
module Smtp {
  import opened Wrappers
  import opened Strings

  /** The mail-transfer port the probe connects to. */
  const SMTP_PORT := 25

  datatype SocketEvent =
    | Connect
    | Data(chunk: string)
    | Error(message: string)
    | Timeout
    | Close

  /** What the probe's promise resolves to. */
  datatype ProbeOutcome = ProbeOutcome(valid: bool, details: string)

  /** Everything one run of the handlers produces. */
  datatype ProbeRun = ProbeRun(
    sent: seq<string>,              // the commands written to the socket, in order
    transcript: string,             // `response`: every chunk received
    currentCommand: nat,            // the index of the next command to send
    outcome: Option<ProbeOutcome>)  // how the promise resolved, if it has

  /** The four commands, each ended by CRLF. */
  function Commands(identity: string, email: string): (cmds: seq<string>)
    ensures |cmds| == 4
  {
    [ "HELO " + identity + "\r\n",
      "MAIL FROM:<verify@" + identity + ">\r\n",
      "RCPT TO:<" + email + ">\r\n",
      "QUIT\r\n" ]
  }

  /** The commands are pairwise different, so a prefix of them has no repeats. */
  lemma CommandsDistinct(identity: string, email: string)
    ensures forall i, j :: 0 <= i < j < 4 ==> Commands(identity, email)[i] != Commands(identity, email)[j]
  {
    var cmds := Commands(identity, email);
    assert cmds[0][0] == 'H' && cmds[1][0] == 'M' && cmds[2][0] == 'R' && cmds[3][0] == 'Q';
  }

  /** `/^[23]\d{2}/.test(chunk)`: the chunk begins with a 2xx or 3xx reply code
      (the positive completion and positive intermediate replies of RFC 5321, section 4.2). */
  predicate IsPositiveReply(chunk: string) {
    |chunk| >= 3 && (chunk[0] == '2' || chunk[0] == '3') && IsDigit(chunk[1]) && IsDigit(chunk[2])
  }

  /** The verdict taken on close: some "250" and none of "550", "501", "503". */
  predicate Accepts(transcript: string) {
    && !Includes(transcript, "550")
    && !Includes(transcript, "501")
    && !Includes(transcript, "503")
    && Includes(transcript, "250")
  }

  predicate IsRejectCode(code: string) {
    code == "550" || code == "501" || code == "503"
  }

  /** Once a rejecting code has been received, nothing received before or after it makes the
      transcript acceptable. */
  lemma RejectionIsFinal(transcript: string, code: string, before: string, after: string)
    requires IsRejectCode(code) && Includes(transcript, code)
    ensures !Accepts(before + transcript + after)
  {
    IncludesExtended(transcript, code, before, after);
  }

  /** Acceptance needs a "250" and is otherwise only spoilt by a rejecting code. */
  lemma AcceptsCharacterized(transcript: string)
    ensures Accepts(transcript) <==>
      (exists i :: OccursAt(transcript, "250", i)) &&
      forall code, i :: IsRejectCode(code) ==> !OccursAt(transcript, code, i)
  {
    if !Accepts(transcript) && Includes(transcript, "250") {
      var code := if Includes(transcript, "550") then "550"
                  else if Includes(transcript, "501") then "501" else "503";
      var i :| OccursAt(transcript, code, i);
    }
  }

  /** Two transcripts: an acceptance, and an acceptance spoilt by a later
      "550 No such user". */
  lemma AcceptsExamples()
    ensures Accepts("250 OK\r\n")
    ensures !Accepts("250 OK\r\n" + "550 No such user\r\n")
  {
    var ok := "250 OK\r\n";
    assert OccursAt(ok, "250", 0);
    forall code, i | IsRejectCode(code) ensures !OccursAt(ok, code, i) {
      if 0 <= i <= |ok| - 3 {
        assert ok[i..i + 3][1] == ok[i + 1] && ok[i..i + 3][2] == ok[i + 2];
      }
    }
    var late := "550 No such user\r\n";
    assert OccursAt(late, "550", 0);
    RejectionIsFinal(late, "550", "250 OK\r\n", "");
    assert "250 OK\r\n" + late + "" == "250 OK\r\n" + late;
  }

  // ----- The specification of one run, by the events alone -----

  predicate IsTerminal(e: SocketEvent) {
    e.Error? || e.Timeout? || e.Close?
  }

  /** The events that make the handlers write a command: the connection, and a
      chunk that begins with a positive reply. */
  predicate IsAdvancing(e: SocketEvent) {
    e.Connect? || (e.Data? && IsPositiveReply(e.chunk))
  }

  /** The socket delivers `connect` first if at all. */
  predicate ConnectsFirst(events: seq<SocketEvent>) {
    forall i :: 0 < i < |events| ==> !events[i].Connect?
  }

  /** All chunks received, concatenated in arrival order. */
  function Received(events: seq<SocketEvent>): string {
    if events == [] then []
    else (if events[0].Data? then events[0].chunk else []) + Received(events[1..])
  }

  /** How many events would write a command if commands never ran out. */
  function AdvancingCount(events: seq<SocketEvent>): nat {
    if events == [] then 0
    else (if IsAdvancing(events[0]) then 1 else 0) + AdvancingCount(events[1..])
  }

  function Min(a: nat, b: nat): nat { if a <= b then a else b }

  /** The index of the first terminal event, or `|events|` when there is none. */
  function FirstTerminal(events: seq<SocketEvent>): (k: nat)
    ensures k <= |events|
    ensures forall j :: 0 <= j < k ==> !IsTerminal(events[j])
    ensures k < |events| ==> IsTerminal(events[k])
  {
    if events == [] then 0
    else if IsTerminal(events[0]) then 0
    else 1 + FirstTerminal(events[1..])
  }

  /** What a terminal event resolves the promise to, given the transcript so far. */
  function SettleOn(e: SocketEvent, transcript: string): (o: ProbeOutcome)
    requires IsTerminal(e)
    ensures o.valid <==> e.Close? && Accepts(transcript)
  {
    match e
    case Error(message) => ProbeOutcome(false, "Connection failed: " + message)
    case Timeout => ProbeOutcome(false, "Connection timeout")
    case Close => ProbeOutcome(Accepts(transcript), transcript)
  }

  /** The first terminal event decides the outcome; nothing decides it before. */
  function Settled(events: seq<SocketEvent>): (r: Option<ProbeOutcome>)
    ensures r.None? <==> forall j :: 0 <= j < |events| ==> !IsTerminal(events[j])
  {
    var k := FirstTerminal(events);
    if k == |events| then None else Some(SettleOn(events[k], Received(events[..k])))
  }

  /** The value the probe's promise resolves to once the trace is over: the settled
      outcome, or, when no terminal event arrived, that of the 10-second idle timeout
      (`socket.setTimeout(10000)`) which then fires on the open socket. */
  function Resolution(events: seq<SocketEvent>): (o: ProbeOutcome)
    ensures FirstTerminal(events) == |events| ==> o == ProbeOutcome(false, "Connection timeout")
    ensures o.valid ==> exists k :: 0 <= k < |events| && events[k].Close?
  {
    match Settled(events)
    case Some(outcome) => outcome
    case None => ProbeOutcome(false, "Connection timeout")
  }

  // ----- Lemmas about the specification -----

  lemma {:induction false} ReceivedAppend(a: seq<SocketEvent>, b: seq<SocketEvent>)
    ensures Received(a + b) == Received(a) + Received(b)
  {
    if a != [] {
      ReceivedAppend(a[1..], b);
      assert (a + b)[1..] == a[1..] + b;
    } else {
      assert a + b == b;
    }
  }

  lemma {:induction false} AdvancingCountAppend(a: seq<SocketEvent>, b: seq<SocketEvent>)
    ensures AdvancingCount(a + b) == AdvancingCount(a) + AdvancingCount(b)
  {
    if a != [] {
      AdvancingCountAppend(a[1..], b);
      assert (a + b)[1..] == a[1..] + b;
    } else {
      assert a + b == b;
    }
  }

  /** One more event moves the command index by at most one step: exactly when the
      event is advancing and a command is left to send. */
  lemma StepAtMostOne(events: seq<SocketEvent>, e: SocketEvent)
    ensures var before := Min(AdvancingCount(events), 4);
            Min(AdvancingCount(events + [e]), 4) ==
              before + (if IsAdvancing(e) && before < 4 then 1 else 0)
  {
    AdvancingCountAppend(events, [e]);
    assert AdvancingCount([e]) == (if IsAdvancing(e) then 1 else 0) by {
      assert [e][1..] == [];
    }
  }

  /** Events after the first terminal one do not change the outcome: the promise is
      already resolved when, say, the `close` that follows a `destroy` arrives. */
  lemma SettledIsFinal(events: seq<SocketEvent>, later: seq<SocketEvent>)
    requires Settled(events).Some?
    ensures Settled(events + later) == Settled(events)
  {
    var k := FirstTerminal(events);
    var all := events + later;
    assert forall j :: 0 <= j <= k ==> all[j] == events[j];
    FirstTerminalUnique(all, k);
    assert all[..k] == events[..k];
  }

  /** The index of the first terminal event is fixed by its two defining properties. */
  lemma FirstTerminalUnique(events: seq<SocketEvent>, k: nat)
    requires k <= |events|
    requires forall j :: 0 <= j < k ==> !IsTerminal(events[j])
    requires k < |events| ==> IsTerminal(events[k])
    ensures FirstTerminal(events) == k
  {
  }

  /** Until a terminal event arrives nothing is settled; the first one settles with
      the chunks received before it. */
  lemma SettledStep(events: seq<SocketEvent>, e: SocketEvent)
    requires Settled(events).None?
    ensures Settled(events + [e]) ==
      if IsTerminal(e) then Some(SettleOn(e, Received(events))) else None
  {
    var all := events + [e];
    assert FirstTerminal(events) == |events|;
    FirstTerminalUnique(all, if IsTerminal(e) then |events| else |events| + 1);
    assert all[..|events|] == events;
  }

  // ----- The handlers -----

  /**
   * Runs the source's `connect`, `data`, `error`, `timeout` and `close` handlers on the
   * socket's events in order. The first command goes out on `connect`; a chunk is
   * appended to the transcript and, when it begins with 2xx or 3xx and a command is
   * left, the next command goes out; the first terminal event resolves the outcome.
   */
  method Probe(identity: string, email: string, events: seq<SocketEvent>) returns (run: ProbeRun)
    requires ConnectsFirst(events)
    ensures run.transcript == Received(events)
    ensures run.currentCommand == Min(AdvancingCount(events), 4)
    ensures run.sent == Commands(identity, email)[..run.currentCommand]
    ensures run.outcome == Settled(events)
  {
    var commands := Commands(identity, email);
    var response := "";
    var currentCommand := 0;
    var sent := [];
    var resolved := None;
    for i := 0 to |events|
      invariant response == Received(events[..i])
      invariant currentCommand == Min(AdvancingCount(events[..i]), 4)
      invariant sent == commands[..currentCommand]
      invariant resolved == Settled(events[..i])
    {
      var e := events[i];
      assert events[..i + 1] == events[..i] + [e];
      ReceivedAppend(events[..i], [e]);
      assert Received([e]) == (if e.Data? then e.chunk else []) by { assert [e][1..] == []; }
      StepAtMostOne(events[..i], e);
      if resolved.Some? {
        SettledIsFinal(events[..i], [e]);
      } else {
        SettledStep(events[..i], e);
      }
      match e {
        case Connect =>
          assert i == 0;
          sent := sent + [commands[currentCommand]];
          currentCommand := currentCommand + 1;
        case Data(chunk) =>
          response := response + chunk;
          if IsPositiveReply(chunk) && currentCommand < |commands| {
            sent := sent + [commands[currentCommand]];
            currentCommand := currentCommand + 1;
          }
        case Error(message) =>
          if resolved.None? {
            resolved := Some(ProbeOutcome(false, "Connection failed: " + message));
          }
        case Timeout =>
          if resolved.None? {
            resolved := Some(ProbeOutcome(false, "Connection timeout"));
          }
        case Close =>
          if resolved.None? {
            resolved := Some(ProbeOutcome(Accepts(response), response));
          }
      }
    }
    assert events[..|events|] == events;
    run := ProbeRun(sent, response, currentCommand, resolved);
  }
}
