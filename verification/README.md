# Whalemail: an SMTP session, its mail bodies, its deliveries, and its client

Whalemail is a small mail server. This project models its core: the decoding of mail bodies, one SMTP
session as a state machine, the SASL wrapper, the division of a mail between local mailboxes and the outgoing
queue, the queue itself, and the client that hands queued mail to another server. It proves what a maintainer relies on,
with the conditions under which it holds: a dot-stuffed body survives the transparency procedure if the stream is
safely cut; after EHLO a local sender, and after any greeting a mail for other domains, has an accepted password
behind it; a recipient answered 250 in a session that completed has its copy, or its delivery was attempted, or
it is still in the queue; a failed delivery restores the transaction; and a client talking to a server of this kind
leaves there the mail as that server decodes it once more, or an error, as the lines of the body decide.

`dafny verify dfyconfig.toml` checks everything.

## How it is modelled

- `Text.dfy`, `Wrappers.dfy`: strings as `seq<char>`, splitting and joining, `Option` and `Result`.
- `Transparency.dfy`: the decoder as the program's split-and-reassemble loop (`DecodeTransparency`), proved
  equal to a line-by-line reading of the body (`Decoded`) on every string.
- `DotStuffing.dfy`, `Segmentation.dfy`: the sender's side of section 4.5.2 of RFC 5321 as a specification,
  the round trip, relaying, and where the end of a message is seen when the stream is cut anywhere.
- `Rejection.dfy`, `Relaying.dfy`: which texts the decoder refuses, and what becomes of any stored body that is
  sent on, in terms of their lines.
- `Addresses.dfy`, `Commands.dfy`: addresses, envelopes, command verbs and the two address patterns.
- `Sasl.dfy`: the class `Auth`. The SASL library is an oracle: a step answers with how it ended, what it wrote,
  and which credentials it had validated.
- `Delivery.dfy`, `OutgoingQueue.dfy`: recipients grouped by domain (a multimap is a map without empty
  sequences, its key order is arbitrary), local delivery, and the class `Queue` with its histories.
- `Protocol.dfy`: `Handle` says what one input does to a session, given `Answers`, everything the outside world
  answers during that call: whether each send succeeds, the user database, mailbox lookups, storage, SASL. A
  fresh and unrelated `Answers` comes with every input. `Run` is a whole connection.
- `Provenance.dfy`, `RelaySafety.dfy`, `Transcript.dfy`, `Replies.dfy`, `Bodies.dfy`, `Completion.dfy`: theorems
  about every run. `RetryRun.dfy`: one whole session in which a mail is queued twice.
- `AuthExchange.dfy`: what an AUTH command and each step after it lead to, told from the library's answers and the
  database's verdicts. `LoginRun.dfy`: a whole AUTH LOGIN.
- `OnTheWire.dfy`: what the client reads for every kind of input, and where the session then is, told from the text of
  the input; and what the first digit it reads means.
- `Server.dfy`: the class `SmtpServer`, which replaces its `state`, pushes recipients, grows the body and loops
  over recipients as the program does, proved to do exactly what `Protocol` says; and the socket loop.
- `Process.dfy`: the accept loop over any sequence of clients on one queue.
- `MxHosts.dfy`, `Client.dfy`, `EndToEnd.dfy`: the search for a mail exchanger, the client's lock-step dialogue
  with an arbitrary peer, and that dialogue with a server session as the peer.
- `AddressLines.dfy`: the addresses a session accepts and the command lines the client writes for them.
- `Journey.dfy`: the whole way of a mail, from the session it is submitted in through queue and client to the
  mailboxes of another server.

When a send fails, `handle` returns the error and the session object is gone; the model then leaves the state
at `Cancelled` with the outcome `IoError`. Replies are a datatype whose `Wire` gives the text sent; `OnTheWire` and
`AuthExchange` write these texts out again, letter by letter, in what they state. They assume working sends, and
`Replies.FailedSend` says for every input what a failing one changes.

## What was found

- A mail without a single line (the body `.` CRLF alone) is decoded to CRLF `.`; the round trip holds exactly
  for mails of at least one line (`EmptyBodyMangled`, `RoundTripIff`).
- The end of a body is looked for in each piece by itself. For whole lines the cut does not matter
  (`CuttingsAgree`). For other cuts the end is seen where it is exactly under `SafelyCut` (`EndSeenIff`, and for
  one cut `OneCutIff`): no piece but the last, of three characters or more, starts before the last dot of a line
  or ends behind the first dot of a line, and the last piece does not have one, two or four characters. Otherwise
  the session waits for ever (`EndMissed`), or takes a line such as `a.` or a stuffed dot for the end, hands over
  the beginning of the mail, and reads the rest as commands (`LineTakenForEnd`, `StuffingTakenForEnd`,
  `BrokenPipeline`).
- Text behind the terminator line in the same piece is refused only if the message has lines and the text does not
  begin with a dot, or for something later in it (`TextAfterEndRefusedIff`). A client that sends `.` CRLF `QUIT` CRLF
  after DATA gets a mail stored with the QUIT in it (`CommandBecomesText`, `CommandDelivered`).
- A stored body is relayed as it is, so the next server looks for its end and decodes it again. Told from the lines of
  the body, for every body (`RelayedBody`): without a second line or a dot line it is never answered; with a dot
  line, not the first, before undotted text it is refused with 500; else each line loses a leading dot, and it
  arrives unchanged exactly if its end - a terminator line, or a dot alone - is all that begins with a dot
  (`UnchangedIff`, `RelayLosesDot`). The queue has let go of it in every case.
- So a mail can be accepted with 250 that no server will ever answer when it is sent on: exactly when its body was
  received without a terminator line at its end, unless it is of two lines or more and its last line is empty or a dot, or an earlier line is two dots
  (`StoredShowsEndIff`, `BodyTravels`). `.` CRLF `foo` in one piece is such a body (`LostText`, `MailLost`).
- The check that a local sender is the authorized user is made after EHLO only (`HeloSenderUnchecked`,
  `HeloSenderExample`). Whatever is queued for other domains was nevertheless queued for an authorized user, and a
  local sender is that user, because only a session opened with EHLO comes to hold one (`QueuedOnlyForUsers`).
- The queue is filled before local delivery. A mail that is sent again is queued again for its remote recipients if
  and only if a mailbox lookup or a store had failed for a local one (`RetryQueuesAgainIff`; a whole session of
  that kind is `QueuedTwice`).
- The address pattern takes any text without `>`, line breaks included. The client's command lines are single lines
  exactly if no address in them holds a CRLF (`ScriptOnLinesIff`); that is so if every MAIL and RCPT input was a
  single line (`QueuedOnOneLine`), and need not be so otherwise (`BrokenAddressExample`). What is said of the
  dialogue with a server holds for a server that takes each message in one read.
- The queue is fired once after each connection that ended without an error, and a fire takes one entry only. So a
  session that queued two mails, as after a retry, or a connection that ended in an error, leaves entries behind that
  wait for later clients; how many is known (`Backlog`), and if every session queues at most one mail and ends well,
  none is left (`ServedAtOnce`).
- The policy constant `policy_allow_rnp_end` is true, so the error for a missing final newline never occurs.

## Model

| member | source | states |
|---|---|---|
| Transparency.DecodeTransparency | src/smtp/server.rs:709-766 | on every string the chunk loop yields the input with one leading dot gone from each line, the terminator line kept (or the closing dot re-added); it fails exactly when CRLF `.` CRLF is followed by a character other than a dot, with that one error |
| Transparency.Reassemble | src/smtp/server.rs:738-759 | the loop over chunks rejects exactly when a later chunk begins with CRLF, else joins them by CRLF with the first dot stripped |
| Transparency.ChunksAreLines | src/smtp/server.rs:717-755 | joining the pieces between CRLF-dot separators is the same as stripping every line's dot |
| Transparency.LastChunk | src/smtp/server.rs:719-728 | the last chunk is rewritten exactly for a body that ends in a terminator line, or is CRLF alone |
| Transparency.BadChunkIsPremature | src/smtp/server.rs:750-753 | a rejected chunk means CRLF `.` CRLF followed by a character other than a dot |
| Transparency.PrematureHasBadChunk | src/smtp/server.rs:750-753 | CRLF `.` CRLF anywhere, followed by a character other than a dot, makes a chunk that is rejected |
| DotStuffing.RoundTrip | src/smtp/server.rs:706-766 | decoding undoes dot-stuffing: any message of at least one line comes back as its lines and the terminator |
| DotStuffing.RoundTripIff | src/smtp/server.rs:706-766 | the round trip holds if and only if there is at least one line |
| DotStuffing.EmptyBodyMangled | src/smtp/server.rs:720-728 | the body of no lines decodes to CRLF dot instead of the terminator |
| DotStuffing.DetectsDotLine | src/smtp/server.rs:585-589 | on whole lines the end is detected exactly when one of them is a single dot |
| DotStuffing.RelayLosesDot | src/smtp/client.rs:290-293 | a body that changes when relayed |
| Segmentation.EndsAtFirstDot | src/smtp/server.rs:585-611 | the first piece with a detected end is the one holding the first dot line, and there is one only if there is such a line |
| Segmentation.CuttingsAgree | src/smtp/server.rs:604-611 | two cuttings of the same text into whole lines stop at the same line, or neither stops |
| Segmentation.EndSeenIff | src/smtp/server.rs:585-611 | a terminated message cut anywhere: the end is seen in the last piece and in none before if and only if it is safely cut, which is read off the places of the cuts in the lines |
| Segmentation.OneCutIff | src/smtp/server.rs:585-611 | for one cut: the end is seen in the second piece exactly if the first does not end in CRLF dot and the second does not have one or four characters |
| Segmentation.WholeLinesSafelyCut | src/smtp/server.rs:604-611 | pieces of whole lines are safely cut |
| Rejection.RefusedIff | src/smtp/server.rs:714-757 | any text is refused if and only if one of its lines but the first is a single dot and is followed by text that does not begin with a dot |
| Rejection.TextAfterEndRefusedIff | src/smtp/server.rs:714-757 | when text behind the first terminator line is refused, and when it becomes part of the mail |
| Rejection.CommandBecomesText | src/smtp/server.rs:714-766 | a command behind the terminator of an empty message is decoded as text |
| Relaying.EndSeenInText | src/smtp/server.rs:585-589 | in any text taken as one piece the end is seen exactly if it has two lines or more and one of them is a dot |
| Relaying.BodyDecoded | src/smtp/server.rs:714-766 | decoding any text in which an end is seen, told from its lines: refused for a stray dot line, else each line loses a dot, and a dot marks the end if no terminator line does |
| Relaying.UnchangedIff | src/smtp/client.rs:290-293 | any body sent on is seen complete and decodes to itself exactly if its end is all that begins with a dot |
| Relaying.StoredShowsEndIff | src/smtp/server.rs:714-766 | what is stored of a received body still shows an end exactly if the body had a terminator line at its end, or two lines and a last one that is empty or a dot, or an earlier line of two dots |
| Relaying.LostText | src/smtp/server.rs:714-766 | a body that is complete and decodes, and whose stored form shows no end |
| Addresses.AddressHasOneAt | src/smtp/envelope.rs:25-42 | a string is an address exactly when it holds one `@`, and then it is its two parts around it, local exactly in the server's domain |
| Commands.CutWordSameVerb | src/smtp/server.rs:85-96 | cutting the first word to ten characters never changes the verb that is found |
| Commands.VerbIff | src/smtp/server.rs:85-96 | a line has a verb exactly if its first word is one of the nine names up to case: each character equal, or the two cases of one ASCII letter |
| Commands.FirstWordIff | src/smtp/server.rs:85-89 | the first word is the one that stands behind white space and before a blank, or before white space up to the end |
| Commands.AddressPattern | src/smtp/server.rs:118-122 | the address pattern accepts exactly the keyword up to case, by characters, a non-empty text without `>`, and the line end |
| Commands.MailLine | src/smtp/client.rs:282 | the MAIL line the client writes is read back by the server as MAIL with the same address |
| Commands.RcptLine | src/smtp/client.rs:286 | the RCPT line the client writes is read back by the server as RCPT with the same address |
| Sasl.Auth.New | src/auth.rs:192-236 | the wrapper object does what the specification of `Auth::new` says, with the logins accepted meanwhile |
| Sasl.Auth.Step | src/auth.rs:246-287 | one step changes flags, user, buffer and validation slot as specified, and returns the user only when finished silently with a validated one |
| Sasl.Auth.Run | src/auth.rs:147-165 | writes of the library are appended to the buffer in order, and every finalised login is recorded |
| Sasl.StepKeepsUserOnlyWhenFinished | src/auth.rs:246-287 | a stored user implies a finished session, after every step |
| Sasl.NewAuthFinishedHasUser | src/auth.rs:192-236 | a session handed out by `Auth::new` is never finished without a user, and that user's password was accepted in it |
| Delivery.DeliveryConservesRecipients | src/smtp/server.rs:683-693 | recipients are, as a multiset, the local ones and all groups together, in whatever key order |
| Delivery.EnumeratedIsWellGrouped | src/queue.rs:40-53 | the groups of an entry are non-empty, of one domain each, and no domain occurs twice |
| Delivery.LocalDeliveryIsPrefix | src/smtp/server.rs:642-671 | if a lookup fails nothing is stored; else what is stored is a prefix of the local recipients in order, and Ok means all of them |
| Delivery.LocalDeliveryStops | src/smtp/server.rs:642-671 | with all lookups answered the copies end exactly at the first store that fails, and that is the error returned |
| Delivery.QueuedIffRemote | src/smtp/server.rs:695-701 | the queue is given the mail exactly when some recipient is remote, with remote recipients only, whatever happens locally |
| Delivery.PartitionStep | src/smtp/server.rs:685-693 | one more recipient goes to the local list or to the end of its domain's group |
| OutgoingQueue.Queue.Add | src/queue.rs:40-53 | one entry is pushed with the multimap's groups in some key order, none for an empty multimap |
| OutgoingQueue.Queue.Fire | src/queue.rs:55-74 | the last entry is popped and each of its groups is attempted once, also after failures; the errors are those of the client's deliveries, in order |
| OutgoingQueue.Queue.Deliver | src/queue.rs:76-78 | a delivery is always for a non-empty group of one domain, and ends as the client's delivery into that net does |
| OutgoingQueue.QueueConserves | src/queue.rs:40-78 | over every sequence of adds and fires, groups added are groups attempted plus groups pending |
| OutgoingQueue.LastInFirstOut | src/queue.rs:49-59 | an entry is handed out whole by the fire that follows any balanced stretch after it, and the rest is untouched |
| Provenance.StepUsersVouched | src/smtp/server.rs:956-973 | every step keeps it so that any user in the state had a password accepted in this session and acts as itself |
| Provenance.MailFromChecksSender | src/smtp/server.rs:384-400 | after EHLO a sender accepted as local is the authorized user, by the verdict that is cached even if the database would now answer otherwise |
| Provenance.HeloSenderUnchecked | src/smtp/server.rs:384-394 | after HELO any well-formed sender is accepted without a user, local or not |
| Provenance.HeloSenderExample | src/smtp/server.rs:384-394 | an input of that kind |
| Provenance.LocalSenderAuthenticated | src/smtp/server.rs:384-416 | in every reachable MAIL, RCPT or DATA state of a session opened with EHLO a local sender is a user whose password the database accepted in this session |
| Provenance.AuthStateUnfinished | src/smtp/server.rs:281-292 | in every reachable AUTH state the SASL session is unfinished and has no user |
| Provenance.FailedAuthRestores | src/smtp/server.rs:960-973 | failed authentication returns to exactly the EHLO state it came from, including an earlier user; success always leaves a user |
| RelaySafety.HandedRightly | src/smtp/server.rs:677-704 | a mail with permitted recipients is stored for the own domain only and queued for other domains only, and queued only if there is an authorized user |
| RelaySafety.StepRelaySafe | src/smtp/server.rs:862-948 | every input keeps the recipients permitted, the hostname, and what was queued and stored for the right domains |
| RelaySafety.StepQueuesFor | src/smtp/server.rs:677-704 | whatever an input makes a session queue is queued for the user it holds then, whose password was accepted in it, and a local sender is that user |
| RelaySafety.QueuedOnlyForUsers | src/smtp/server.rs:452-536 | over every run, each queued mail was queued by a turn at which the session held such a user |
| RelaySafety.RelayOnlyForUsers | src/smtp/server.rs:452-536 | in every reachable session recipients are in the own domain or there is an authorized user; whatever was queued has foreign domains only and was queued for a user; whatever was stored is for the own domain |
| Transcript.DispatchTold | src/smtp/server.rs:862-948 | how sender and recipients can change with one input and its reply |
| Transcript.RecipientsAreTheAccepted | src/smtp/server.rs:452-523 | in every reachable session at most one MAIL line was accepted; in RCPT and DATA states the recipients are in order the addresses of exactly the RCPT lines accepted, at least one, and the sender that of the MAIL line |
| Transcript.SessionOrder | src/net.rs:57-87 | in every run a live state is the one the transcript tells, the milestones greeting, MAIL, RCPT, DATA, accepted body lie in order before it, and a session that is over handles nothing |
| Transcript.PhasesMoveForward | src/net.rs:57-87 | every turn of every run leads a live session forward, AUTH to EHLO and DATA to RCPT being the only ways back (HELO never becomes EHLO), and changes nothing once the session is over |
| Transcript.OneBodyAccepted | src/net.rs:57-87 | in no run are two bodies answered 250 |
| Completion.AcceptedAreCovered | src/smtp/server.rs:594-704 | in every run that completes a mail, each recipient answered 250 has its copy of the decoded mail in storage or is in its group of a queued entry; the last things stored are one copy per local recipient in order |
| Completion.RetryQueuesAgainIff | src/smtp/server.rs:624-701 | a mail sent twice is queued twice for its remote recipients if and only if a lookup or a store failed for a local one in the first sending, and once otherwise |
| RetryRun.QueuedTwice | src/smtp/server.rs:624-701 | a whole session, greeting to retry, that leaves the same mail in the queue twice |
| Bodies.PiecesAccumulate | src/smtp/server.rs:604-608 | pieces in which no end is seen are taken in silence and only grow the body |
| Bodies.BodyPipeline | src/smtp/server.rs:594-635 | a dot-stuffed message cut safely into pieces of any kind: silence up to the last piece, then the mail handed over has exactly the original lines as its body, and the one reply and next state tell whether delivery succeeded |
| Bodies.BrokenPipeline | src/smtp/server.rs:594-635 | a message not safely cut: the session waits in silence for ever, or the pieces up to the first false end are handed over as a mail; the next piece is then handled in DATACOMPLETE or RCPT state, stores nothing, and ends the session unless it begins with a verb that state expects |
| Bodies.EndMissed | src/smtp/server.rs:604-608 | a cut that hides the end |
| Bodies.LineTakenForEnd | src/smtp/server.rs:585-611 | a cut that makes a line ending in a dot look like the end |
| Bodies.StuffingTakenForEnd | src/smtp/server.rs:585-611 | a cut that makes a stuffed dot look like the end |
| Bodies.CommandDelivered | src/smtp/server.rs:594-635 | a QUIT in the piece that ends an empty message is delivered with the mail |
| Bodies.DataRollsBack | src/smtp/server.rs:612-633 | after any pieces and rejected bodies the session is in the same transaction's DATA, or back in exactly its RCPT state, or complete, or gone |
| Bodies.DataTransaction | src/smtp/server.rs:528-566 | the same from the RCPT state that issued DATA |
| Bodies.DataStep | src/smtp/server.rs:624-634 | one piece leads back to the RCPT state exactly with the reply MailboxUnavailable, and completes exactly with Okay; their texts are in `OnTheWire.BodyReads` |
| Replies.OneReplyPerInput | src/smtp/server.rs:862-948 | with working I/O an input gets at most one reply, and none exactly for a body piece without an end or an AUTH exchange without a challenge |
| Replies.OneReplyInRuns | src/net.rs:57-87 | the same after any run |
| Replies.CutOffIff | src/smtp/server.rs:932-953 | with working I/O a session is cut off exactly on a verb its state does not expect, with 503 for a verb and 500 otherwise, and quits exactly on QUIT after a complete mail |
| Replies.ChallengeIsWhatWasWritten | src/auth.rs:129-165 | the challenge sent is all the library wrote in that step; the text read is in `AuthExchange.ReachableStepOutcome` |
| Replies.FailedSend | src/smtp/server.rs:854-954 | any input under any pattern of failing sends: what happens is what would happen with working ones, up to the first send that fails; then the session is gone with an error, or, on QUIT after a complete mail, without one; storage, queue and logins are the same |
| AuthExchange.ReachableStepOutcome | src/smtp/server.rs:299-316 | in every reachable AUTH state, by the library's answer and the database's verdicts since the AUTH command: running, the exchange goes on and the client reads 334 with all that was written; finished silently with some login accepted, the session holds the user accepted last and the client reads 235; everything else gives 535 and the EHLO state the command was given in |
| AuthExchange.CommandOutcome | src/smtp/server.rs:245-293 | an AUTH command by what the pattern captures and whether the library starts the mechanism: 535 for a bad mechanism, an exchange for LOGIN or for PLAIN without an argument, and for PLAIN with one the outcome of that step |
| AuthExchange.SlotInRuns | src/auth.rs:246-287 | in every reachable AUTH state the validation slot holds the login accepted last since the AUTH command, none of an earlier one |
| LoginRun.LoginLeads | src/smtp/server.rs:245-316 | a whole AUTH LOGIN: both prompts are read, and the session has the user exactly if the password was accepted |
| OnTheWire.FirstDigit | src/smtp/server.rs:862-948 | in every reachable session, for any input: what the client reads begins with 2 exactly if the session got on (a new phase, a recipient more, an accepted login, a complete mail, its end), with 3 exactly if it is to go on with the body or the authentication, else with 4 or 5 |
| OnTheWire.GreetingReads | src/smtp/server.rs:862-872 | HELO reads 250 OK and EHLO the two lines with the server's name and its mechanisms |
| OnTheWire.MailReads | src/smtp/server.rs:357-401 | a MAIL line from its text: 500 exactly if it does not match the pattern, 450 Invalid host exactly if its text does not hold one `@`, in both cases with the state kept; else 530 for the mailbox of another than the authorized user of an EHLO session, or 250 and that sender |
| OnTheWire.RcptReads | src/smtp/server.rs:452-523 | an RCPT line from its text: 500, 450 Invalid mailbox, 530 for a foreign domain without a user, each with the state kept, or 250 and the address behind the other recipients |
| OnTheWire.DataReads | src/smtp/server.rs:528-566 | DATA after a recipient reads 354, with the transaction taken over and an empty body |
| OnTheWire.BodyReads | src/smtp/server.rs:594-635 | a piece of the body from the lines so far: nothing without an end, 500 for a stray dot line, 450 and the RCPT state exactly if a lookup or a store fails for a local recipient, else 250 |
| OnTheWire.CutOffReads | src/smtp/server.rs:932-953 | any other verb reads 503, no verb 500, and the session is over |
| OnTheWire.FarewellReads | src/smtp/server.rs:925-930 | QUIT after a complete mail reads 221 and ends the session |
| OnTheWire.LineInAnyCase | src/smtp/server.rs:118-122 | a MAIL or RCPT line is recognized however its keyword is spelled in upper and lower case |
| OnTheWire.MixedMail | src/smtp/server.rs:85-96 | such a MAIL line, accepted |
| OnTheWire.SmallHelo | src/smtp/server.rs:85-96 | HELO in small letters opens a HELO session |
| Server.SmtpServer.TakeMail | src/smtp/server.rs:357-401 | the object's whole new state and reply are those of `Protocol.MailFrom`, whose outcomes `OnTheWire.MailReads` states from the text of the line |
| Server.SmtpServer.PushRcpt | src/smtp/server.rs:504-523 | a recipient is pushed and acknowledged, or the state is left and the reason returned |
| Server.SmtpServer.TakeFirstRcpt | src/smtp/server.rs:452-481 | the first RCPT makes an RCPT state or gives the MAIL state back unchanged |
| Server.SmtpServer.BeginAuth | src/smtp/server.rs:245-293 | AUTH handled on the object as specified |
| Server.SmtpServer.ContinueAuth | src/smtp/server.rs:299-316 | the object's whole new state and reply are those of `Protocol.HandleAuthStep`, whose outcomes `AuthExchange.ReachableStepOutcome` states |
| Server.SmtpServer.DeliverLocalMail | src/smtp/server.rs:642-671 | two loops: all lookups, then stores until one fails |
| Server.SmtpServer.Partition | src/smtp/server.rs:683-693 | the loop yields the local recipients in order and the others grouped by domain |
| Server.SmtpServer.DeliverToAll | src/smtp/server.rs:677-704 | storage, queue and result after delivering are as specified, the queue first |
| Server.SmtpServer.TakeBody | src/smtp/server.rs:594-635 | a piece of the body handled on the object as specified |
| Server.SmtpServer.HandleInput | src/smtp/server.rs:854-954 | the whole new state, replies, storage, queue and outcome of one input |
| Server.SmtpServer.SocketLoop | src/net.rs:57-87 | the loop's result and final session are those of the run, and the queue got exactly the session's mails |
| Process.Serve | src/main.rs:143-153 | over any sequence of clients the queue's history is, client by client, one entry for each mail of its session in order and then exactly one fire if its connection ended without an error, none otherwise; so every entry and attempt stems from a mail some session queued for a user it held then, of all mails every group was attempted exactly once or is still pending, and the number of entries left is known |
| Process.ServedAtOnce | src/main.rs:143-153 | if every session queues at most one mail, and every connection that queued one ends without an error, the queue is empty in the end and every group was attempted exactly once |
| Process.AttemptsAreAuthorized | src/main.rs:143-153 | every delivery ever attempted is for recipients of one foreign domain, of a mail queued by a turn at which the session held an authorized user with an accepted password; a local sender is that user |
| MxHosts.MxTable.PopHost | src/smtp/client.rs:126-146 | never fails, keeps buckets non-empty, and returns the first host of the order, leaving the rest of it |
| MxHosts.OrderIsSorted | src/smtp/client.rs:123-146 | hosts come in non-decreasing preference |
| MxHosts.OrderIsComplete | src/smtp/client.rs:123-146 | every host comes exactly as often as it was looked up, under its preference |
| MxHosts.MxTable.DiscoverConnection | src/smtp/client.rs:89-100 | a failed lookup gives its own error; else the first reachable host of the order is returned, or NoSmtpHostError exactly when none is reachable |
| Client.Connection.Next | src/smtp/client.rs:266-276 | a message and the answer it needs: with the expected prefix the dialogue goes on, else it ends with the kind of error |
| Client.Deliver | src/smtp/client.rs:75-100 | the domain of the first recipient is looked up; the outcome is that of the dialogue with the host found, or the error of the search |
| Client.RunClient | src/smtp/client.rs:278-299 | against any peer the client sends exactly its script up to the first wrong answer, and QUIT only after all of it, whose fate is ignored |
| Client.DialogueEnds | src/smtp/client.rs:266-299 | why a dialogue with any peer ended, after what: all answers had the prefix waited for; or a send failed or reading did (IoError), no answer came (Timeout), or another one did (SmtpError with its text), and all before went well |
| EndToEnd.RcptsAnswered | src/smtp/client.rs:285-288 | all recipients of the other server's domain are accepted, in order |
| EndToEnd.DialogueWithServer | src/smtp/client.rs:278-299 | for any body the dialogue with a server session ends in a timeout if no end is seen, in the reply 500 if the body is refused, with nothing stored in both cases; in SmtpError with the 450 line exactly if a lookup or a store fails there, some of the first recipients having the mail; and else with the decoded mail stored once per recipient |
| EndToEnd.Delivered | src/smtp/client.rs:278-299 | in lock step with a server session the dialogue succeeds, and the other server stores once per recipient, in order, the mail with the same sender, recipients and the decoded body, and queues nothing |
| EndToEnd.LinesDelivered | src/smtp/client.rs:278-299 | for a message given by its lines and dot-stuffed, what is stored is exactly those lines |
| EndToEnd.RelayedBody | src/smtp/client.rs:290-293 | any body sent on, told from its lines: a timeout, the reply 500, or the mail stored with one more leading dot gone from each line; and when it arrives as it was sent |
| EndToEnd.RelayMail | src/smtp/client.rs:278-299 | the same for the client object, whose farewell ends the session |
| AddressLines.QueuedIsRecognized | src/smtp/server.rs:118-122 | sender and recipients of everything a run queued are addresses to any server that gets their lines in one read each |
| AddressLines.AcceptedLineIff | src/smtp/server.rs:118-122 | an accepted MAIL or RCPT input is a single line exactly if its address has no CRLF |
| AddressLines.ScriptOnLinesIff | src/smtp/client.rs:278-293 | every message the client sends before the body is a single line exactly if neither its own name nor an address has a CRLF |
| AddressLines.QueuedOnOneLine | src/smtp/client.rs:278-293 | that is so for all a run queued if its MAIL and RCPT inputs were single lines |
| AddressLines.BrokenAddressExample | src/smtp/server.rs:118-122 | an accepted address with a CRLF, whose line is two lines, the second one a command |
| Journey.BodyTravels | src/queue.rs:55-78 | from any pieces received to the other server: the mail is queued for a user, each group meets its server as the lines of the stored body demand, and it is lost in silence exactly under the condition on the text received |
| Journey.MailLost | src/queue.rs:55-78 | an accepted and queued mail to which the other server never answers |
| Journey.NoRecipientLost | src/main.rs:143-153 | over any sequence of clients, whenever a session completed, every recipient it answered 250 has its copy, or the delivery to its group was attempted, or the group is still in the queue |
| Journey.AttemptReachesPeer | src/queue.rs:55-78 | every delivery the process ever attempts, if the search leads to the server of that domain: sender and recipients are taken, and the dialogue ends as the lines of the body demand |
| Journey.FireReports | src/queue.rs:55-78 | what a fire learns of each group of a queued mail, if the search leads to the server of its domain: a timeout, the refusal as it was read, or success, by the lines of the body |
| Journey.LinesTravel | src/queue.rs:55-78 | from the author to the other server: a message submitted in safe pieces is queued for a user, and each group is stored at its server once per recipient with a leading dot gone from each line, or refused exactly for a single dot line, not the first, before an undotted line |

## Left out

- Sockets, TLS, DNS, timeouts, configuration: the result of each is an arbitrary answer; reads of 4096 bytes are the pieces of an input, cut anywhere.
- The SASL library, base64 (`try_base64_plain_credentials`) and the database: arbitrary answers at every call. The first LOGIN step is assumed not to fail, where the program would panic.
- The AUTH command pattern: what it captures is an arbitrary answer.
- Text is ASCII: Unicode trimming and case folding, and the byte offset at which `Command::new` cuts a word, are not modelled.
- Maildir paths, file names and UUIDs: storage is a log of mails written, each write with an arbitrary outcome.
- Shuffling of hosts within a preference: the buckets come in any order.
- `SmtpClient::connect`, the greeting pattern and `SmtpClient::lookup`: one arbitrary answer per attempt; `lookup` only gives buckets without an empty one.
- MailAddress and the session states are values, as the structs the program moves: `CachedIsLocal` returns the address with its cache filled instead of filling it in place.
- `Command::new`'s message stripping (`msg_strip_lf`) only feeds the SASL library and is not modelled.
- A partial write counts as a failed send.
- EndToEnd.Delivered: the body is one message; a body cut into pieces is the subject of `Bodies.BodyPipeline`.
- EndToEnd.DialogueWithServer: each message reaches the server in one read, the sends succeed, and the sender has no mailbox there. `Delivered`, `RelayedBody` and `Journey` also assume that lookups and stores succeed there.
- AuthExchange.CommandOutcome: the library wrote nothing when it says that it finished without sending; so in OnTheWire.FirstDigit.
- Concurrency: connections are served one after the other, as the accept loop does, so the mutexes around database and queue are not modelled.
