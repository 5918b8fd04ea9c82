# Email verifier: a Dafny model

This project models the verification engine of a small email-verification service:
the `EmailVerifier` class of `server/src/services/emailVerifier.js`. Given an address,
the engine

1. returns a cached result when one is still live (time-to-live 86400 seconds);
2. checks the address against the HTML Living Standard's "valid email address"
   pattern (WHATWG HTML, section 4.10.5.1.5);
3. looks up the domain's mail exchangers (MX records);
4. probes the first exchanger over SMTP on port 25 with the RFC 5321 commands
   HELO, MAIL FROM, RCPT TO and QUIT (sections 4.1.1.1, 4.1.1.2, 4.1.1.3, 4.1.1.10).
   The greeting and sender name a source identity. Identities are taken round
   robin from up to three configured values;
5. sets `valid` to the conjunction of the three checks, stamps the result and
   caches it under the address.

Files, one module each:

- `wrappers.dfy`: `Option`. It stands for JavaScript's `undefined` and for absent properties.
- `strings.dfy`: the JavaScript string operations used. These are `split` on one
  character, joining the pieces back, and `includes`.
- `syntax.dfy`: `validateSyntax`, plus the proof that it accepts exactly the grammar's addresses.
- `smtp.dfy`: the probe. Its socket handlers become the branches of one loop over
  the socket's events (`Connect`, `Data(chunk)`, `Error(message)`, `Timeout`, `Close`).
  The file also holds the specification of a run in terms of the events alone.
- `rotation.dfy`: which identity the k-th probe presents (the cursor `currentIpIndex`).
- `cache.dfy`: the cache as a map from address to (result, expiry instant).
- `verifier.dfy`: the class `EmailVerifier`. Its fields are the identities, the
  cursor, the cache, and a ghost history of the identities issued so far.
- `scenarios.dfy`: a client of the class. It shows what callers can conclude from
  the contracts alone. The cases are the address "not-an-email", any valid address
  in a domain without exchangers, and any valid address whose exchanger accepts,
  made concrete for "user@good.test" and the reply "250 OK".
  The last case also covers a repeated request inside the time-to-live.

Inputs that the source gets from its environment are parameters here:

- the three environment values become the constructor's arguments;
- the resolver's answer (`MxAnswer`) is a parameter;
- the socket's event sequence is a parameter;
- the clock is an integer millisecond reading. `VerifyEmail` takes one reading for
  the cache lookup and one for `finalizeResult`.

The out-parameter `io` of `VerifyEmail` lists the DNS lookups and SMTP sessions that
the call actually makes. Each session records its host, port, identity and the
commands written.

## Model

| member | source | states |
|---|---|---|
| `Syntax.ValidateSyntaxMatchesGrammar` | server/src/services/emailVerifier.js:60-63 | The validator accepts an address iff some `@` in it splits it into a non-empty local part of letters, digits and the punctuation the pattern lists, and a non-empty dot-joined sequence of labels. Each label is 1 to 63 letters, digits or hyphens and starts and ends with a letter or digit. |
| `Syntax.DomainOfValidAddress` | server/src/services/emailVerifier.js:35-39 | A valid address has exactly one `@`. `email.split('@')[1]` is everything after it and is a valid domain. `split('@')[0]` is the local part. |
| `Syntax.ValidateSyntax` | server/src/services/emailVerifier.js:60-63 | `regex.test(email)`: splitting at `@` gives exactly two pieces; the first is a non-empty run of letters, digits and the listed punctuation, and every dot-separated piece of the second is a label of 1 to 63 characters. |
| `Strings.Includes` | server/src/services/emailVerifier.js:122-125 | `includes(t)` holds iff `t` occurs at some index of the string. |
| `Strings.IncludesExtended` | server/src/services/emailVerifier.js:122-125 | An occurrence stays an occurrence when text is added before or after the string. |
| `Strings.Split` | server/src/services/emailVerifier.js:39 | `split(sep)` gives at least one piece, and no piece contains the separator. |
| `Strings.JoinSplit` | server/src/services/emailVerifier.js:39 | Joining the pieces of a split with the separator gives back the string. |
| `Strings.SplitJoin` | server/src/services/emailVerifier.js:39 | Splitting a join of separator-free pieces gives back the pieces. |
| `Smtp.CommandsDistinct` | server/src/services/emailVerifier.js:74-79 | The four commands HELO, MAIL FROM, RCPT TO and QUIT are pairwise different, so a prefix of them never repeats a command. |
| `Smtp.Commands` | server/src/services/emailVerifier.js:74-79 | The four commands, each ended by CRLF: `HELO` with the identity, `MAIL FROM:<verify@` identity `>`, `RCPT TO:<` address `>`, and `QUIT`. |
| `Smtp.IsPositiveReply` | server/src/services/emailVerifier.js:97 | `/^[23]\d{2}/` on a chunk: at least three characters, the first `2` or `3`, the next two decimal digits. |
| `Smtp.Probe` | server/src/services/emailVerifier.js:80-131 | For any event trace in which `connect` comes first if at all, the handlers produce the following. The transcript is the concatenation of every received chunk in arrival order. The command index is min(4, number of `connect` and 2xx/3xx-leading chunks). The commands written are exactly that prefix of the four commands. The outcome is decided by the first terminal event: `Error(m)` gives invalid with "Connection failed: " + m; `Timeout` gives invalid with "Connection timeout"; `Close` gives the transcript verdict with the chunks received before it as details. |
| `Smtp.StepAtMostOne` | server/src/services/emailVerifier.js:94-101 | One more event raises the command index by at most one. It does so exactly when the event is `connect`, or a chunk matching `^[23]\d{2}`, and fewer than four commands have gone out. Every other chunk, such as 4xx or 5xx, leaves it unchanged. |
| `Smtp.ReceivedAppend` | server/src/services/emailVerifier.js:95 | The transcript of two traces in sequence is the first transcript followed by the second. |
| `Smtp.FirstTerminal` | server/src/services/emailVerifier.js:103-131 | The index found is the first error, timeout or close in the trace, or the trace's length when there is none. |
| `Smtp.SettleOn` | server/src/services/emailVerifier.js:103-130 | The outcome a terminal event resolves to. `Error(m)` gives invalid with "Connection failed: " + m; `Timeout` gives invalid with "Connection timeout"; `Close` gives the transcript verdict with the transcript as details. The outcome is valid iff the event is a `close` and the transcript is accepted. |
| `Smtp.Settled` | server/src/services/emailVerifier.js:103-131 | The outcome decided by the first terminal event, given the chunks received before it. It is unresolved iff the trace holds no error, timeout or close. |
| `Smtp.SettledStep` | server/src/services/emailVerifier.js:103-131 | While unresolved, a non-terminal event keeps the probe unresolved. The first terminal event resolves it with the transcript received so far. |
| `Smtp.SettledIsFinal` | server/src/services/emailVerifier.js:103-131 | Once resolved, no later event (such as the `close` that follows `destroy`) changes the outcome. |
| `Smtp.Resolution` | server/src/services/emailVerifier.js:82-83 | A trace that ends with no terminal event resolves as the idle timeout: invalid, "Connection timeout". A valid outcome always comes from a `close`. |
| `Smtp.Accepts` | server/src/services/emailVerifier.js:122-125 | The close handler's verdict: the transcript includes none of "550", "501", "503", and includes "250". |
| `Smtp.AcceptsCharacterized` | server/src/services/emailVerifier.js:122-125 | A transcript is accepted iff it contains "250" and does not contain "550", "501" or "503". |
| `Smtp.RejectionIsFinal` | server/src/services/emailVerifier.js:122-125 | Once "550", "501" or "503" has been received, no text before or after it makes the transcript accepted. |
| `Smtp.AcceptsExamples` | server/src/services/emailVerifier.js:122-125 | "250 OK" alone is accepted. "250 OK" followed by "550 No such user" is rejected. |
| `Rotation.Advance` | server/src/services/emailVerifier.js:72 | The next cursor position is again a valid index. |
| `Rotation.AdvanceIsModulo` | server/src/services/emailVerifier.js:72 | The wrap-around step equals `(currentIpIndex + 1) % ipAddresses.length`. |
| `Rotation.CursorAfter` | server/src/services/emailVerifier.js:71-72 | After any number of probes the cursor is a valid index into a non-empty list. |
| `Rotation.FirstRoundCursor` | server/src/services/emailVerifier.js:71-72 | During the first n probes the cursor takes the values 0, 1, ..., n - 1. |
| `Rotation.CursorPeriodic` | server/src/services/emailVerifier.js:71-72 | The cursor repeats with period n = the number of identities. |
| `Rotation.FirstRoundIsConfiguredOrder` | server/src/services/emailVerifier.js:71-72 | The first n probes present the configured list slot by slot, each slot once, in configured order. |
| `Rotation.WindowIsRotation` | server/src/services/emailVerifier.js:71-72 | Any n consecutive probes present the configured list rotated to start at the cursor, so each configured slot is used once. |
| `Rotation.NextRoundRepeats` | server/src/services/emailVerifier.js:71-72 | The next n probes repeat the previous n exactly. |
| `Verifier.Truthy` | server/src/services/emailVerifier.js:9-13 | `filter(Boolean)` keeps exactly the configured values that are defined and non-empty, and never lengthens the list. |
| `Verifier.TruthyAppend` | server/src/services/emailVerifier.js:9-13 | The filter acts value by value and preserves the configured order. |
| `Verifier.Rendered` | server/src/services/emailVerifier.js:75-76 | How a template literal renders the identity: the configured string itself, or "undefined" when the list has no entry at the cursor. |
| `Verifier.EmailVerifier.constructor` | server/src/services/emailVerifier.js:7-15 | A new verifier has the filtered identity list, cursor 0 and an empty cache, and satisfies the class invariant. |
| `Verifier.EmailVerifier.NextIdentity` | server/src/services/emailVerifier.js:71-72 | Returns the identity at the cursor and advances the cursor modulo the list length. The history grows by that identity and the invariant is kept. With no identity configured, the read is `undefined` and nothing advances. |
| `Verifier.EmailVerifier.VerifySmtp` | server/src/services/emailVerifier.js:65-133 | Uses the next identity (rendered "undefined" when none is configured). Connects to port 25 of the given exchanger. Writes the command prefix determined by the events. Resolves to the trace's outcome. |
| `Verifier.EmailVerifier.FinalizeResult` | server/src/services/emailVerifier.js:135-146 | `valid` is the conjunction of syntax, mx and smtp. The timestamp is the clock reading. The result is stored under exactly `result.email`, with expiry 86400 s later. Nothing else in the result changes. |
| `Verifier.EmailVerifier.VerifyEmail` | server/src/services/emailVerifier.js:17-58 | A live cache entry is returned unchanged, with no lookup, no probe and no state change. On a miss, the following hold. Syntax is `validateSyntax`. A syntax failure leaves mx and smtp false, adds no details and makes no lookup. A valid address has its domain `split('@')[1]` looked up. A resolution error is recorded in `details.error` and leaves mx and smtp false. An empty MX list leaves mx and smtp false, records `[]` and makes no probe. Otherwise only `mxRecords[0].exchange` is probed, with the next identity, and smtp and its details come from the probe. `valid` is the conjunction of the checks, and every outcome is cached. |
| `Cache.Get` | server/src/services/emailVerifier.js:19 | `cache.get(email)`: the stored result when the address has an entry and the clock has not passed its expiry instant; an entry is served up to and including that instant. Otherwise a miss. |
| `Cache.Set` | server/src/services/emailVerifier.js:143 | `cache.set(result.email, result)`: the entry under the address is replaced by the result with expiry 86400 s after the set; every other entry is kept. |
| `Cache.GetAfterSet` | server/src/services/emailVerifier.js:8 | A stored result is returned unchanged exactly up to 86400 s after it was stored, and missed afterwards. |
| `Cache.SetKeepsOtherKeys` | server/src/services/emailVerifier.js:143 | Storing one address changes no other address's lookup. |
| `Cache.ExpiryIsPermanent` | server/src/services/emailVerifier.js:19-20 | A miss at one time is a miss at every later time. |

## Behaviour of the code worth noting

- The domain is not lower-cased before the lookup; the cache key is the raw address.
- The probe targets `mxRecords[0]` in the order the resolver returns the records;
  nothing sorts them by priority.
- With no identity configured, nothing fails: the probe presents `undefined`
  (a `HELO undefined` greeting).
- The details keys are `mx_records`, `smtp` and `error`.

## Left out

- Real DNS (`dns.resolveMx`) and real TCP (`net.Socket`). Their answers are inputs:
  an `MxAnswer`, and a sequence of socket events.
- The promise and event-loop scheduling, and concurrent verifications. One
  verification runs at a time.
- `console.error` logging, and `socket.destroy()` as an action. The `close` that
  follows a destroy is an ordinary later event in the trace.
- `new Date().toISOString()`. The timestamp is the integer clock reading.
- `process.env`. The constructor takes the three values.
- The internals of the `node-cache` package: cloning on get and set, deletion of
  expired keys on `get`, and statistics. Lazy deletion changes nothing observable,
  because a miss is always followed by a fresh `set` of the same key. The expiry
  boundary is taken as inclusive: an entry is served at its expiry instant.
- Decoding of socket buffers (`data.toString()`). Chunks are strings.
- The `connect` call itself at line 86. It is recorded as an `SmtpSession` in `io`,
  together with the port 25.
- The 10-second idle timer (line 83) is not a clock inside the model. A trace that
  ends without an error, timeout or close is taken to end in that timer's `Timeout`.
- Smtp.Probe: it requires that `connect`, if it occurs, is the first event. A
  socket delivers it before any data or close.
- Verifier.EmailVerifier.VerifyEmail: it requires the same of its event trace, even
  on the paths that make no probe.
- Verifier.EmailVerifier.NextIdentity: with an empty list the source's cursor
  becomes `NaN`, while the model keeps 0. Every read is `undefined` either way.
- The client application, the HTTP server, routes and controller
  (`client/src/*`, `server/src/index.js`, `server/src/routes/index.js`,
  `server/src/controllers/emailController.js`). They are display and transport
  code around `verifyEmail`.
