# A verified model of the Fabric SDK core

This project models, in Dafny 4.11, the parts of the Go SDK in which most can go
wrong, and proves what they promise.

- **Endorsement policies.** `PolicyText` is the fragment of expression syntax the
  policy compiler uses (calls, decimal numbers, quoted strings, names, and a backslash
  before any character of these) with a lexer, a parser and a printer. `PolicyDsl` states the three passes as functions, with the
  identity table threaded through the last one; `PolicyCompiler` runs them the way the
  program does, with loops and a shared mutable context; `PolicyGates` is the policy
  language as its users read it; `PolicyTokens` follows the printed text token by
  token for any input whose strings leave no quote open, gate expression or not;
  `PolicyProofs` shows that the composition of the passes preserves the meaning of the
  AND / OR / OutOf expression, numbers the identities one to one, and accepts nothing
  but gate expressions unless a string holds a quote; `PolicyEscapes` shows what
  happens then. `PolicyMeaning` states the same with the language's own names spelled
  out, and what is refused with which error.
- **Invocation.** `FanOut` (the concurrent calls to the endorsers) and `DeliverGroup`
  (the two-phase wait group over the peers' event streams) are small-step systems with
  a program counter per goroutine, channels, wait groups, `select` and timeouts.
  `DeliverErrors` says which error the group keeps and `DeliverBound` how long it can
  run. `Invoke` puts both into one system with the broadcast; `Submission` says when an
  envelope is sent, what a nil error means and how the envelope reads, `Arrival` what
  the order of the endorsers' answers can change, and `Returning` that the call
  returns, in every interleaving, if nobody it waits for keeps silent. `Counting` holds the sums over goroutines they need.
- **Transactions.** `TxBuilder` builds the proposal, the endorser's response and the
  signed envelope; `TxParser` reads the envelope back. Protobuf messages (`Messages`)
  go through codecs (`Codec`) of which only two laws are used: decoding undoes
  encoding, and exactly the zero message is encoded as no bytes. What a failed
  decoding leaves of a chaincode action is an arbitrary function of the bytes. Hashes
  and signing functions are arbitrary functions.
- **Encodings.** `VarUint` and `Height` cover the order-preserving integers and the
  heights made of them; `RwSets` the nested read-write sets.
- **Package layout.** `Paths` is Go's path cleaning, joining and climbing on all
  strings; `Vendoring` the parallel in-place renaming; `Directories` the early-stopping
  search for ancestors and the two sorted listings.
- **Signatures.** `LowS` is low-S normalisation with the verification equation of
  section 4.1.4 of SEC 1 version 2.0 on scalars modulo the group order; `Signatures` is
  the collection of co-signatures and the checked update.

Code that works by changing state is modelled by methods and classes proved against
the functions the theorems are about; goroutines are modelled by step relations, and
the theorems quantify over every finite schedule.

## What the source does differently from what one expects

The model follows the code. Where that differs from a comment or from the natural
property, a lemma says exactly when.

- `setError` overwrites, although the comment on the deliver group says only the first
  error is set: the error is always the last one written
  (`DeliverErrors.ErrorIsTheLastSet`), each failing peer's can be the one returned
  (`DeliverErrors.AnyFailureCanBeKept`), and the schedule cannot change the result
  exactly when all failing streams fail alike
  (`DeliverErrors.ResultIgnoresScheduleExactlyWhen`, `DeliverErrors.TwoPeersTwoErrors`).
- Whether an invocation stops at an error response depends on which endorser answers
  first: with statuses on both sides of 400 the same call may return a nil error or an
  error (`Arrival.MixedStatusesRace`, `Arrival.DecisionIgnoresOrderExactlyWhenUnmixed`).
- `Height.Compare` subtracts on 64-bit words. It agrees with byte order exactly when the
  larger of the deciding fields exceeds the smaller by less than 2^63 if it stands on
  the left, and by at most 2^63 if it stands on the right
  (`Height.CompareAgreesExactlyWhenNear`).
- A proposal payload that holds nothing but transient data has a first hash but no
  second one (`TxParser.HashesAgreeWhenSomethingIsLeft`).
- Three rejections in `sanityCheckAndSignConfigTx` wrap an error that is nil there and
  so return no envelope and no error (`Signatures.SilentRejections`).
- Thresholds up to one more than the number of operands compile
  (`PolicyProofs.CompilesExactly`); a gate with that threshold never holds
  (`PolicyGates.OverfullNeverHolds`), and a compiled policy can be met at all exactly
  when enough operands can in every gate that is needed
  (`PolicyProofs.CompiledPolicyCanBeMet`).
- String operands that are not principals are pasted into the next pass's text without
  quotes. For strings that hold no quotes nothing comes of it: only gate expressions
  compile (`PolicyProofs.OnlyGatesCompile`). A string may hold quotes behind a backslash,
  as the expression library documents, and then any operands can be pasted from it:
  `or('\'A.member\', \'B.member\'')` is not a gate expression and compiles as one of two
  (`PolicyEscapes.EscapedOperandsCompile`, `PolicyEscapes.EscapedQuotesCompile`). Which
  policies compile is stated for all of them (`PolicyProofs.CompilesExactly`,
  `PolicyProofs.LastTextDecides`). A quoted threshold with blanks, escapes or leading
  zeros does compile, and is the one thing a second translation rewrites
  (`PolicyProofs.TranslationSettles`).
- The endorsers are called and the envelope is broadcast without a deadline, whatever
  the timeout of the call: a silent endorser or orderer keeps it for ever
  (`Returning.SilenceBlocks`).
- Exclusions from vendoring are string prefixes, so a neighbouring package whose name
  extends the package's own is left alone (`Vendoring.NeighbourIsLeftAlone`); for packages
  named without dot-dot a second run changes every moved file whose name did not begin
  with "src" (`Vendoring.SecondRunExactly`).
- The block parser drops the error of decoding a chaincode action and reads whatever
  decoding had filled in before it failed. An envelope with such an action is accepted
  exactly when the results in that part are readable
  (`TxParser.EnvelopeAcceptedExactlyWhen`, `TxParser.UndecodableActionAcceptedExactlyWhen`,
  `TxParser.SomeUndecodableActionIsAccepted`).

## Model

| member | source | states |
|---|---|---|
| PolicyText.ParsePrint | internal/chaincode/policy/policydsl.go:60-75 | Text printed for any printable expression parses back to that expression, so the boundary between two passes loses nothing |
| PolicyText.LexPrint | internal/chaincode/policy/policydsl.go:60-75 | Printed text splits into the expression's own tokens whatever delimited text follows |
| PolicyText.ParseTokens | internal/chaincode/policy/policydsl.go:245-295 | The parser takes exactly an expression's tokens off the front and leaves the rest |
| PolicyText.ParseItoa | internal/chaincode/policy/policydsl.go:50-53 | Decimal thresholds survive being printed and read again |
| PolicyText.LexPasted | internal/chaincode/policy/policydsl.go:65-70 | Pasted text that can be read, or holds no quotes, is read in front of whatever delimited text follows as it reads on its own; text that does not read on its own makes the whole unfit for the next pass |
| PolicyText.LexEscaped | internal/chaincode/policy/policydsl.go:240-262 | Every text at all, quotes included, can be written as a quoted string that reads as it |
| PolicyCompiler.OutOf | internal/chaincode/policy/policydsl.go:41-76 | The loop of the stub builds the text the specification gives, with every type and arity error |
| PolicyCompiler.FirstPass | internal/chaincode/policy/policydsl.go:88-109 | The same for the pass that adds the context argument |
| PolicyCompiler.Context.SecondPass | internal/chaincode/policy/policydsl.go:111-211 | Updating the counter and the table in place gives the specified rule and table, on success and on failure, and the counter stays the table's length |
| PolicyCompiler.Context.Evaluate | internal/chaincode/policy/policydsl.go:305-345 | Evaluating operands innermost first and left to right on the shared context is the threaded specification |
| PolicyCompiler.FromString | internal/chaincode/policy/policydsl.go:240-346 | The three passes with their parses and errors are the function the theorems are about |
| PolicyProofs.SubmatchSound | internal/chaincode/policy/policydsl.go:31-36 | A text that matches as a principal is exactly its MSP, a dot and its role |
| PolicyProofs.SubmatchComplete | internal/chaincode/policy/policydsl.go:31-36 | Every MSP of the allowed characters, dots included, with a role is split back into that MSP and role |
| PolicyProofs.GateTextIsNotPrincipal | internal/chaincode/policy/policydsl.go:60-75 | No printed gate can be mistaken for a principal, so it is never quoted |
| PolicyProofs.Translates | internal/chaincode/policy/policydsl.go:41-86 | The text of the first pass reads as nested outof calls with the gates' thresholds, however these were written, and there is none, for too few arguments, exactly when some gate is empty |
| PolicyProofs.AddsContext | internal/chaincode/policy/policydsl.go:88-109 | The second evaluation gives the same tree with the context as first argument of every gate |
| PolicyProofs.AllocatesGate | internal/chaincode/policy/policydsl.go:111-211 | The last evaluation appends to any table exactly the gate's principals, nested gates first, and returns the rule that refers to them |
| PolicyProofs.RejectsThreshold | internal/chaincode/policy/policydsl.go:136-145 | A threshold more than one above the number of operands, at any depth, stops the compilation, and the error names the threshold and operands of such a gate |
| PolicyProofs.RepresentedRuleMeansGate | internal/chaincode/policy/policydsl.go:351-380 | A rule that represents a gate through the table holds for the same sets of principals |
| PolicyProofs.OrderIsATraversal | internal/chaincode/policy/policydsl.go:147-210 | Reading a rule nested gates first visits every leaf once |
| PolicyProofs.CompilesExactlyValidGates | internal/chaincode/policy/policydsl.go:240-346 | A gate expression compiles if and only if it is a gate, no gate in it is empty and every threshold is at most one above its operands; the envelope is then determined, and otherwise the error is the one of that case |
| PolicyProofs.OnlyGatesCompile | internal/chaincode/policy/policydsl.go:60-75 | Among the texts that compile, those that read as gate expressions are exactly those none of whose strings holds a quote: text pasted from such a string cannot change the structure of a policy that compiles |
| PolicyProofs.CompilesExactly | internal/chaincode/policy/policydsl.go:240-346 | For every text: without quotes in its strings it compiles if and only if it reads as a gate expression other than a bare principal, with no empty gate and no threshold more than one above its operands; with quotes, if and only if the last pasted text reads as such a tree |
| PolicyProofs.LastTextDecides | internal/chaincode/policy/policydsl.go:240-346 | For every text, whatever its strings hold: it compiles if and only if the text the passes have pasted together reads as a valid tree with the context in every gate, and the envelope is that tree's |
| PolicyProofs.FirstTextDecides | internal/chaincode/policy/policydsl.go:240-346 | When the first pass's text has no strings but principals, the policy compiles if and only if that text reads as a tree of gates with fitting thresholds, and the text is then itself a policy that compiles alike |
| PolicyEscapes.EscapedOperandsCompile | internal/chaincode/policy/policydsl.go:65-70 | Any operands can stand in one string with their quotes escaped: the policy is no gate expression and compiles exactly as if they stood there without it |
| PolicyEscapes.EscapedQuotesCompile | internal/chaincode/policy/policydsl.go:65-70 | One such policy: a string that names two principals compiles to one of two |
| PolicyTokens.LexOfText | internal/chaincode/policy/policydsl.go:60-75 | For every expression whose strings hold no quotes or can be read on their own, the printed text, within any longer text, reads as the specified tokens, pasted strings included; where these do not read at all, the whole text is one that the next pass cannot evaluate |
| PolicyTokens.OnlyGatesBalanceCall | internal/chaincode/policy/policydsl.go:60-75 | In a text that reads as a tree of gates, anything but gates, principals and numbers would leave a bracket open, as long as no string holds a quote |
| PolicyTokens.AllocatesOnlyTrees | internal/chaincode/policy/policydsl.go:111-211 | For every expression and table the last evaluation makes a rule only of a tree of numbers, gates and principals with the context in every gate |
| PolicyProofs.CompilationPreservesMeaning | internal/chaincode/policy/policydsl.go:240-346 | For every set of satisfied principals the compiled rule, resolved through the identity table, holds exactly when the policy expression holds |
| PolicyMeaning.PolicyMeansWhatItSays | internal/chaincode/policy/policydsl.go:240-346 | For every policy without quotes in its strings that compiles and every set of principals: the compiled rule holds exactly when the expression, read by its literal names, is satisfied |
| PolicyMeaning.CallMeans | internal/chaincode/policy/policydsl.go:240-252 | And, and, AND ask for all operands, Or, or, OR for some, OutOf, outof, OUTOF for as many as the threshold says, and nothing else compiles |
| PolicyMeaning.CompilesExactlyWellMade | internal/chaincode/policy/policydsl.go:240-346 | For every text without quotes in its strings: it compiles if and only if it is a call by one of the nine names, with operands, with a fitting threshold, and so on down to principals |
| PolicyMeaning.MatchesExactly | internal/chaincode/policy/policydsl.go:31-36 | A text is a principal if and only if it is an MSP of letters, digits, dots and dashes followed by .admin, .member, .client, .peer or .orderer, and of that role |
| PolicyMeaning.UnknownNamesAreRefused | internal/chaincode/policy/policydsl.go:242-262 | A policy that calls anything by another name, at any depth, fails in the first pass |
| PolicyMeaning.OnlyCallsCompile | internal/chaincode/policy/policydsl.go:255-275 | Unreadable text is a syntax error, a number an invalid policy and a bare name a missing parameter; a string without quotes fails |
| PolicyMeaning.MissingOperandsAreRefused | internal/chaincode/policy/policydsl.go:44-46 | An OutOf with fewer than two arguments is refused with their number |
| PolicyMeaning.EitherQuoteReads | internal/chaincode/policy/policydsl.go:242-262 | Either quote opens a string and either closes it |
| PolicyMeaning.BlanksAreSkipped | internal/chaincode/policy/policydsl.go:242-262 | Blanks, tabs and line ends between tokens do not matter |
| PolicyMeaning.NumeralsAreDecimal | internal/chaincode/policy/policydsl.go:50-53 | Numerals are read to the base ten |
| PolicyProofs.IdentitiesAreABijection | internal/chaincode/policy/policydsl.go:147-220 | Every index of the identity table, and no other, occurs in exactly one leaf, and each leaf names the principal the policy names in its place |
| PolicyProofs.NestedGatesAreNumberedFirst | internal/chaincode/policy/policydsl.go:147-210 | The table lists the principals, and the leaves their indices, in evaluation order, those of nested gates before a gate's own |
| PolicyProofs.TranslatedTextCompilesAlike | internal/chaincode/policy/policydsl.go:240-346 | For every valid policy the text of the first pass is itself a policy and compiles to the same envelope |
| PolicyProofs.TranslationSettles | internal/chaincode/policy/policydsl.go:240-275 | The first pass leaves its own output unchanged if and only if every quoted threshold was a plain numeral, and from the second translation on nothing changes |
| PolicyProofs.DottedTextDoesNotLex | internal/chaincode/policy/policydsl.go:240-262 | Bare dotted text is not an expression, so an unquoted principal is rejected |
| PolicyProofs.CompiledPolicyCanBeMet | internal/chaincode/policy/policydsl.go:139-142 | Some set of principals satisfies a compiled policy if and only if, gate by gate, enough operands can be satisfied |
| PolicyGates.OverfullNeverHolds | internal/chaincode/policy/policydsl.go:139-142 | A gate whose threshold is one above its operands holds for no set of principals |
| PolicyGates.HoldsIsMonotone | internal/chaincode/policy/policydsl.go:351-380 | Further signatures never make a policy fail |
| FanOut.RunKeepsInv | internal/chaincode/invoke.go:92-122 | In every reachable state the wait group counts the running goroutines and the channels hold exactly what the finished ones were answered |
| FanOut.SendNeverBlocks | internal/chaincode/invoke.go:93-107 | With channels as long as the list of endorsers a goroutine can always send |
| FanOut.NeverDeadlocks | internal/chaincode/invoke.go:92-122 | Until the call returns some step is possible, if every endorser answers |
| FanOut.SilenceBlocks | internal/chaincode/invoke.go:92-122 | With an endorser that never answers no schedule returns, as the calls have no deadline |
| FanOut.EveryScheduleEnds | internal/chaincode/invoke.go:92-122 | A schedule has returned if and only if it has 4n+2 steps, and none is longer |
| FanOut.ReturnsEveryAnswer | internal/chaincode/invoke.go:109-122 | The call fails exactly when an endorser failed, with an error an endorser gave; otherwise it returns a permutation of all responses |
| FanOut.ReturnsInOrderOfArrival | internal/chaincode/invoke.go:109-122 | For every schedule the result is the error sent first, if there was one, and otherwise the responses in the order in which they were sent |
| FanOut.AnyoneCanBeFirst | internal/chaincode/invoke.go:92-122 | For every endorser there is a schedule in which its response is returned first |
| DeliverGroup.Group.ClientWait | internal/client/delivegroup/client.go:147-179 | The receive loop ends exactly when the stream decides and sets the error exactly when it decides against the transaction |
| DeliverGroup.RunKeepsInv | internal/client/delivegroup/client.go:73-186 | The invariant of the two phases holds in every reachable state |
| DeliverGroup.WaitGroupInvariant | internal/client/delivegroup/client.go:73-186 | The counter is the number of client goroutines not yet finished, the ready channel closes only at zero and once a phase, nothing panics, a nil Connect has every connection set, and no client receives without one |
| DeliverGroup.ConnectOutcome | internal/client/delivegroup/client.go:73-116 | A failed Connect timed out or reports some peer's failure; after a nil one every peer connected |
| DeliverErrors.ConnectReturnsTheLastError | internal/client/delivegroup/client.go:73-116 | Without a timeout step a failed Connect reports the client whose setError came last, and whether that client could not be dialled or not be sent to |
| DeliverErrors.TimedOutOnlyByTimeOut | internal/client/delivegroup/client.go:82-143 | Connect and Wait report a timeout, or leave the ready branch, only in runs in which the context expired |
| DeliverErrors.FailingStreamsMean | internal/client/delivegroup/client.go:147-179 | A stream gives an error exactly when blocks without the transaction are followed by the event which that error stands for: a failed receive, a block with an invalid first entry, a status or an unknown message |
| DeliverGroup.WaitOutcome | internal/client/delivegroup/client.go:121-143 | Once the ready branch is taken Wait returns nil if and only if every stream delivered the transaction as valid first, whatever the schedule; otherwise the error is some stream's |
| DeliverGroup.ValidStreamsMeanCommitted | internal/client/delivegroup/client.go:147-179 | A stream counts as valid exactly when blocks without the transaction are followed by one whose first entry for it is valid |
| DeliverErrors.ErrorIsTheLastSet | internal/client/delivegroup/client.go:189-193 | For every run the error is the one the last setError of the schedule wrote, and it is what that client's connection or stream gave |
| DeliverErrors.ReturnsTheLastError | internal/client/delivegroup/client.go:121-143 | Through the ready branch Wait returns the error of the client that wrote last, and nil if none wrote |
| DeliverErrors.AnyFailureCanBeKept | internal/client/delivegroup/client.go:73-193 | For every client whose stream fails there is a run in which Wait returns that client's error |
| DeliverErrors.ResultIgnoresScheduleExactlyWhen | internal/client/delivegroup/client.go:121-193 | With all peers connecting and all streams deciding, every completed Wait returns the same if and only if all failing streams fail alike |
| DeliverErrors.TwoPeersTwoErrors | internal/client/delivegroup/client.go:189-193 | Two peers for which the same call may return either of two errors |
| DeliverGroup.NeverStuck | internal/client/delivegroup/client.go:73-186 | If no connection hangs and every stream eventually decides, some step other than a timeout is always possible until the caller has returned |
| DeliverBound.RunsAreBounded | internal/client/delivegroup/client.go:73-186 | Every step brings the group closer to its end, so no schedule is longer than a bound given by the number of peers and the longest stream |
| Invoke.Projects | internal/chaincode/invoke.go:57-122 | Every run of the whole call contains a run of the fan-out and a run of the deliver group that lead to the same states |
| Invoke.RunKeepsInv | internal/chaincode/invoke.go:57-90 | The invariant of the call holds in every reachable state |
| Submission.SendSafety | internal/chaincode/config.go:55-189 | In every interleaving an envelope is sent only by an invocation, only if every endorser answered with a status in [200,400) and the same payload bytes, and only if the signer created the proposal; it is signed and built from all responses, each once |
| Submission.NilMeansCommitted | internal/chaincode/invoke.go:57-90 | A nil error with a status below 400 means the envelope was sent and acknowledged and, with a timeout set, every peer connected and reported the transaction valid; with a higher status nothing was sent |
| Submission.NilMeansSuccess | internal/chaincode/invoke.go:57-90 | A nil error means success in full: proposal made, all endorsers answered and, past the first status, agreement, acknowledgement and commitment |
| Submission.SuccessReturnsNil | internal/chaincode/invoke.go:57-90 | When every stage succeeds the call reports an error only if its context expired while it waited, and then a timeout |
| Submission.TimedOutOnlyByTimeOut | internal/chaincode/invoke.go:57-90 | A call reports a timeout only if its context expired while it was waiting |
| Submission.ProposesTheRequest | internal/chaincode/invoke.go:31-66 | The call stops before the endorsers exactly when the signer has no identity or does not sign the proposal; what endorsers are shown decodes to the caller's channel, type, time, nonce, spec with its arguments and transient map, under the signer's identity and the id hashed from nonce and identity |
| Submission.SentEnvelopeCarriesTheRequest | internal/utils/txutil.go:182-231 | In every run that sends, with lawful codecs: the envelope decodes, part by part, to the caller's headers and spec, no transient data, the first response's payload and every endorsement in order |
| Submission.NothingSentWithoutInvoking | internal/chaincode/invoke.go:77-82 | A query, or a call whose first response is an error, never builds or sends an envelope or opens a stream, in any reachable state |
| Submission.SentEnvelopeReadsBack | internal/chaincode/config.go:55-149 | The envelope of any sending run reads back through the block parser as this call's txid, headers, spec and endorsements, one per endorser in order, without transient data |
| Arrival.MixedStatusesRace | internal/chaincode/invoke.go:77-80 | With statuses on both sides of 400 there is a run returning a nil error and a run returning an error for the same answers |
| Arrival.DecisionIgnoresOrderExactlyWhenUnmixed | internal/chaincode/invoke.go:77-80 | The decision at the first response is independent of arrival order if and only if all statuses lie on one side of 400 |
| Returning.NeverStuck | internal/chaincode/invoke.go:57-122 | If endorsers and orderer answer, no connection hangs and every stream decides, some step other than a timeout is possible until the call returns |
| Returning.SilenceBlocks | internal/chaincode/invoke.go:92-122 | A call that returns either made no proposal or had every endorser answer, and returns after sending only if the orderer is not silent |
| Returning.CallsAreBounded | internal/chaincode/invoke.go:57-122 | No schedule of the whole call, goroutines left behind included, is longer than a bound given by endorsers, peers and streams |
| Returning.CallReturns | internal/chaincode/invoke.go:57-122 | If nobody keeps silent, every run can be continued without timeouts to the return of the call |
| TxBuilder.CheckResponses | internal/utils/txutil.go:165-180 | The loop reports nothing exactly when all responses succeeded with equal payloads, and otherwise the first offending position and its kind |
| TxBuilder.CreateSignedTx | internal/utils/txutil.go:128-231 | An envelope is returned if and only if every check holds, and it is then the signed payload determined by the proposal and the responses |
| TxParser.UnmarshalEndorsements | internal/blockutil/block/block.go:203-229 | Filling the array gives every endorsement parsed in order, or fails if one identity does not decode |
| TxParser.UnmarshalTransactionAction | internal/blockutil/block/block.go:162-244 | The step-by-step assignments compute the specified typed action, with the partly decoded chaincode action and the nil dereference |
| TxParser.UnmarshalEnvelope | internal/blockutil/block/block.go:99-142 | The parser of a whole envelope computes the specified typed view |
| TxParser.AcceptsBuiltProposal | internal/utils/txutil.go:128-181 | For a proposal built here the checks reduce to agreeing responses, the right signer and a signature |
| TxParser.ActionPayloadOf | internal/utils/txutil.go:182-231 | What a committer finds in the built transaction: the header, the stripped payload, the agreed response and all endorsements |
| TxParser.ParserUndoesBuilder | internal/blockutil/block/block.go:99-244 | Parsing a built envelope succeeds exactly when its opaque parts can be read, and gives back channel header, creator, nonce, spec, endorsements in order, hash and action, with an empty transient map |
| TxParser.BuiltProposalSays | internal/utils/protoutil.go:55-111 | A built proposal decodes, field by field, to the request: channel, type, time, id, epoch zero, chaincode id, creator, nonce, spec and transient map |
| TxParser.EnvelopeAcceptedExactlyWhen | internal/blockutil/block/block.go:99-244 | Which envelopes the parser accepts at all: everything but the chaincode action must decode, and of that only the results left behind must be readable |
| TxParser.EnvelopePanicsExactlyWhen | internal/blockutil/block/block.go:99-199 | A nil submessage is followed exactly when the payload header is missing or the first action that is not accepted lacks its endorsed action |
| TxParser.ActionsParseInOrder | internal/blockutil/block/block.go:112-119 | Any number of actions come back parsed in order |
| TxParser.UndecodableActionAcceptedExactlyWhen | internal/blockutil/block/block.go:231-244 | An endorsed action that does not decode is accepted if and only if the results decoded before the failure are readable, and is then read as that part |
| TxParser.SomeUndecodableActionIsAccepted | internal/blockutil/block/block.go:233-236 | Beside any lawful codecs there are ones under which a built envelope with an undecodable action is accepted, whatever readable part was left |
| TxParser.ActionRoundTrip | internal/utils/protoutil.go:205-222 | The chaincode action an endorser signed comes back out of the envelope, except an empty one, which is reported as missing |
| TxParser.ActionOfEnvelope | internal/utils/txutil.go:14-40 | From any envelope the action read is that of its first transaction action, and there is one exactly when every message on the way is there |
| TxParser.TxIDRoundTrip | internal/utils/txutil.go:479-510 | A proposal for which no id was asked gets the hexadecimal hash over nonce and creator, the id is read back from the envelope, and the computed one passes the check |
| TxParser.TxIDOfEnvelope | internal/utils/txutil.go:479-510 | The id read from the envelope is the one in its channel header, or the hash over nonce and creator if there is none |
| TxBuilder.HexIsInjective | internal/utils/protoutil.go:350-357 | Different digests give different ids |
| TxParser.InvokedNameRoundTrip | internal/utils/protoutil.go:375-403 | From the bytes of a built proposal the invoked chaincode's name is found exactly when the spec names one |
| TxParser.HashesAgreeWhenSomethingIsLeft | internal/utils/txutil.go:403-474 | The second hash of the stripped payload equals the first hash of the original if and only if the payload carries an input; stripping twice changes nothing |
| TxParser.TransientOnlyPayloadDisagrees | internal/utils/txutil.go:425-474 | A payload of transient data alone has a first hash and no second one |
| TxParser.HashIgnoresTransientMap | internal/utils/txutil.go:446-474 | Replacing the transient map of a built proposal does not change its hash, which exists exactly with both headers present and is then taken over both headers and the payload without the map |
| TxParser.EndorserSigns | internal/utils/txutil.go:234-287 | An endorser's response carries the proposal's hash and the action, and its signature covers the response payload followed by its identity |
| TxParser.EndorsersOfOneActionAgree | internal/utils/txutil.go:163-178 | Endorsers that found the same action for the same proposal pass the client's check, whoever they are |
| TxParser.CommitterRecomputesEndorsedHash | internal/utils/txutil.go:403-442 | From the transaction alone the committer computes the very hash the endorser put into its response, for every proposal and transient map |
| VarUint.EncodeOrderPreservingVarUint64 | internal/utils/util.go:34-54 | The loops over the buffer produce the size byte followed by the shortest big-endian form |
| VarUint.DecodeOrderPreservingVarUint64 | internal/utils/util.go:58-76 | The decoder's loop and its three errors are the specified ones |
| VarUint.DecodesExactlyWhen | internal/utils/util.go:58-76 | By the first byte alone: up to eight and enough bytes after it gives their number; too few, a size above eight, or no single-byte size each give their own error |
| VarUint.VarintConsumes | internal/utils/util.go:58-62 | The size is read as a varint, which ends at the first byte below 128 among the first ten or is not read at all |
| VarUint.EncodedForm | internal/utils/util.go:34-54 | An encoding is the number of bytes that follow and these bytes, at most eight, without a leading zero |
| VarUint.EncodingPreservesOrder | internal/utils/util.go:29-54 | For all 64-bit numbers and all suffixes byte order is numeric order, equal numbers being decided by the suffixes; so the code is prefix-free |
| VarUint.DecodeEncode | internal/utils/util.go:34-76 | Decoding an encoding followed by anything gives the number and consumes exactly the encoding |
| VarUint.EncodeDecode | internal/utils/util.go:56-76 | What a successful decoding consumed is never shorter than the canonical encoding, and equals it exactly when no leading zero byte was there |
| Height.FromBytesToBytes | internal/rwsetutil/version.go:20-37 | A height is read back from its bytes with the exact length, whatever follows |
| Height.BytesRefineOrder | internal/rwsetutil/version.go:33-37 | Byte order is lexicographic order on block and transaction number |
| Height.CompareIsZeroOnEqualsOnly | internal/rwsetutil/version.go:41-73 | AreSame holds exactly for equal or equally absent heights |
| Height.CompareAgreesExactlyWhenNear | internal/rwsetutil/version.go:41-57 | Compare agrees with byte order if and only if the deciding fields are near enough for the wrapped difference to keep its sign |
| Height.CompareWrapsFarApart | internal/rwsetutil/version.go:41-57 | Block 2^63 compares below block 0 |
| LowS.IsLowS | internal/cryptoutil/ecdsa.go:133-139 | Yes exactly for the numbers that normalising leaves alone, and for exactly one of a number and its mirror image; an error for an unknown curve |
| LowS.ToLowS | internal/cryptoutil/ecdsa.go:141-153 | The big integer is replaced in place by its low form and the flag tells whether it changed; nothing is touched on error |
| LowS.SupportedOrdersAreOdd | internal/cryptoutil/ecdsa.go:126-131 | The orders of the supported curves are odd, so no s is its own mirror image |
| LowS.OrdersInDecimal | internal/cryptoutil/ecdsa.go:126-131 | The orders are those of FIPS 186-4, section D.1.2, in the decimal form printed there |
| LowS.LowSIsCanonical | internal/cryptoutil/ecdsa.go:133-153 | The low form lies in 1..n/2, is idempotent, and two values share it exactly when they are equal or mirror images |
| LowS.LowSPreservesValidity | internal/cryptoutil/ecdsa.go:103-120 | A signature verifies exactly when its normalised form verifies |
| RwSets.PublicRoundTrip | internal/rwsetutil/rw_util.go:86-216 | A public read-write set of any nesting survives serialisation unchanged |
| RwSets.PrivateRoundTrip | internal/rwsetutil/rw_util.go:111-302 | The same for a private set |
| RwSets.PublicMessageSays | internal/rwsetutil/rw_util.go:86-146 | The message a public set is written as, namespace by namespace and collection by collection, with the key-value data model |
| RwSets.PrivateMessageSays | internal/rwsetutil/rw_util.go:111-302 | The same for a private set |
| RwSets.NamespacesFromMsgs | internal/rwsetutil/rw_util.go:148-192 | The nested conversion loops give every namespace in order, or fail if any part does |
| RwSets.TxRwSet.FromProtoBytes | internal/rwsetutil/rw_util.go:96-108 | The receiver is replaced on success and unchanged on failure |
| RwSets.TxPvtRwSet.FromProtoBytes | internal/rwsetutil/rw_util.go:121-133 | The same for the receiver of a private set |
| RwSets.PvtNamespacesFromMsgs | internal/rwsetutil/rw_util.go:248-285 | The private conversion loops give every namespace in order, or fail if any part does |
| RwSets.TxRwSet.GetPvtDataHash | internal/rwsetutil/rw_util.go:34-57 | The hash of the first such collection in the first such namespace, or none |
| RwSets.TxRwSet.NumCollections | internal/rwsetutil/rw_util.go:218-229 | The number of collections over all namespaces |
| RwSets.CountIsNumberOfCollections | internal/rwsetutil/rw_util.go:218-229 | That number is the number of pairs of a namespace and a collection in it |
| Signatures.ConcatenateBytes | internal/utils/util.go:13-27 | Filling a buffer measured beforehand, byte by byte, gives the parts one after another |
| Signatures.Append | internal/channel/util.go:35-41 | Appending part by part gives the same bytes |
| Signatures.SignUpdateConfig | internal/channel/util.go:11-32 | The signature is over the fresh header followed by the update, and no signature comes back without a header |
| Signatures.CollectSignatures | gateway/proposal.go:119-130 | The map after the loop is the last-wins fold over sponsor and matching signers |
| Signatures.OneSignaturePerCreator | gateway/proposal.go:119-130 | A creator has an entry if and only if it is the sponsor or a matching signer, and the entry is its last matching signature, otherwise the sponsor's own |
| Signatures.WalkOrderIsIrrelevant | internal/channel/channel.go:198-204 | Any two iterations over the map give the same values as a multiset, one per key |
| Signatures.UpdateEnvelope.SignBy | internal/channel/channel.go:186-196 | An organisation signs at most once, and a refused or failed signature changes nothing |
| Signatures.UpdateEnvelope.SignatureList | internal/channel/channel.go:198-204 | The list handed on is the map's values in the order of some iteration |
| Signatures.CreateUpdateEnvelope | internal/channel/util.go:51-62 | Every collected signature is decoded under its creator, or the call fails |
| Signatures.SanityCheckAndSignConfigTx | internal/channel/update.go:41-95 | The checks in order and the appended signature are the specified ones |
| Signatures.SilentRejections | internal/channel/update.go:47-62 | Neither envelope nor error comes back exactly for a missing header, another type or an empty channel name |
| Signatures.SignedExactlyWhen | internal/channel/update.go:41-95 | An envelope comes back exactly for a configuration update of a named channel that the argument repeats or leaves open, with one signature more, over its header and the update; a different name is the one mismatch |
| Signatures.SubmissionConservesSignatures | internal/channel/update.go:56-95 | Whether the channel argument is empty or repeats the header's name, the submitted list has one position for each creator among the sponsor and the matching signers, holding the decoded last matching signature of that creator, otherwise the sponsor's own, and then the submitter's over its header and the update |
| Signatures.SubmissionIgnoresWalkOrder | internal/channel/channel.go:198-204 | As a multiset the submitted list is the same for every iteration order |
| Paths.CleanIsIdempotent | internal/ccplatform/golang/platform.go:184-189 | Cleaning any path twice is cleaning it once |
| Paths.JoinOfClean | internal/ccplatform/golang/platform.go:186-195 | Joining any part to a clean path appends its elements, resolving empty, dot and dot-dot ones |
| Paths.DirOfClean | internal/ccplatform/golang/platform.go:246-250 | The directory of a clean path drops its last element; the root and the dot stay |
| Paths.JoinByRules | internal/ccplatform/golang/platform.go:184-189 | On strings: joining nothing or a dot to a clean path leaves it, a plain element is appended, and dot-dot or taking the directory removes it again |
| Paths.JoinDotDotByRules | internal/ccplatform/golang/platform.go:184-189 | Where nothing plain can be removed, dot-dot leaves the root and climbs from a relative path |
| Paths.CleanByElements | internal/ccplatform/golang/platform.go:184-189 | Cleaning a path is joining its last element to the cleaned rest, so these rules decide every path |
| Vendoring.ExclusionsOf | internal/ccplatform/golang/platform.go:172-195 | The loop builds the vendor directory under every ancestor of the package, then the package itself |
| Vendoring.ExclusionsExactly | internal/ccplatform/golang/platform.go:172-195 | A name is an exclusion if and only if it is the cleaned src/pkg or, for some leading pieces of the package's name, the cleaned path of src, these pieces and vendor |
| Vendoring.AncestorsVendorStays | internal/ccplatform/golang/platform.go:184-215 | For a package below another, a file whose name begins with the upper one's vendor directory keeps its name |
| Vendoring.VendoredAboveStays | internal/ccplatform/golang/platform.go:184-215 | The same for the vendor directory under any leading pieces of the package's name, its own included |
| Vendoring.VendorOne | internal/ccplatform/golang/platform.go:207-224 | One goroutine's loop and rename compute the specified name |
| Vendoring.VendorPathIsExcluded | internal/ccplatform/golang/platform.go:184-205 | The directory files are moved to is itself among the exclusions, for every package name |
| Vendoring.UnchangedExactlyWhen | internal/ccplatform/golang/platform.go:208-221 | A file keeps its name if and only if some exclusion is a string prefix of it or it does not contain "src" |
| Vendoring.MovedTo | internal/ccplatform/golang/platform.go:205-223 | In a file that moves, the first "src" gives way to the cleaned src/pkg/vendor; path and metadata flag stay |
| Vendoring.SecondRunChangesNothing | internal/ccplatform/golang/platform.go:170-231 | For names under src/ a second run is the identity |
| Vendoring.SecondRunExactly | internal/ccplatform/golang/platform.go:170-231 | Which files a second run leaves unchanged, for every package name; without dot-dot elements these are the files left alone and those that began with "src" |
| Vendoring.CollideExactlyWhen | internal/ccplatform/golang/platform.go:205-223 | Two files under src/ end up with one name only if they had it or one stayed where the other was put |
| Vendoring.DistinctNamesStayDistinct | internal/ccplatform/golang/platform.go:205-223 | Distinct names stay distinct when nothing lies under the vendor directory yet |
| Vendoring.NeighbourIsLeftAlone | internal/ccplatform/golang/platform.go:208-215 | A file outside the package whose path continues the package's name is not vendored |
| Vendoring.PassIsTheSequentialMap | internal/ccplatform/golang/platform.go:197-231 | In every schedule each slot ends as the renamed original, every goroutine has finished and every token is taken |
| Vendoring.SlotsAreOwned | internal/ccplatform/golang/platform.go:206-225 | In every reachable state a slot changes only by its own goroutine, which works on the original entry |
| Vendoring.SendNeverBlocks | internal/ccplatform/golang/platform.go:197-224 | A goroutine can always send its token |
| Vendoring.NeverDeadlocks | internal/ccplatform/golang/platform.go:197-231 | Until the pass returns some step is possible |
| Vendoring.EveryScheduleEnds | internal/ccplatform/golang/platform.go:197-231 | A schedule has returned if and only if it has 4n+2 steps, and none is longer |
| Directories.Directories | internal/ccplatform/golang/platform.go:243-260 | For every set of paths, clean or not, the early-stopping climb ends and returns exactly the directories above the entries except the dot, ascending, each once, every parent before its children |
| Directories.DirGetsShorter | internal/ccplatform/golang/platform.go:246-250 | Climbing from a directory gives a proper prefix until it reaches the root or the dot, which is why the loop ends on absolute paths too |
| Directories.AncestorsAreLeadingElements | internal/ccplatform/golang/platform.go:246-250 | Above a clean path lie exactly the paths its leading elements spell |
| Directories.DirectoriesIgnoreIterationOrder | internal/ccplatform/golang/platform.go:243-260 | Only one listing meets the contract, so the map's iteration order does not matter |
| Directories.Sources | internal/ccplatform/golang/platform.go:233-241 | The listing is sorted by name and holds each value as often as the map does |
| Directories.LessByFirstDifference | internal/ccplatform/golang/platform.go:233-260 | Names are ordered by the first character in which they differ |
| Directories.SourcesIgnoreIterationOrder | internal/ccplatform/golang/platform.go:233-241 | When entries are filed under their names the listing is the same for every iteration order |

## Left out

- Expression syntax beyond calls, decimal integers, quoted strings, names and the backslash in the last three: operators, dates and hexadecimal numbers are syntax errors in the model, also where a string operand brings them into the text of a later pass, and so is a backslash with nothing after it. The expression library is not part of the repository; the backslash is modelled as its documentation describes it.
- PolicyTokens.LexOfText: leaves out strings with an unclosed quote, since such a quote may swallow the text printed after them.
- PolicyTokens.OnlyGatesBalanceCall: leaves out strings with quotes, for which it is false (`PolicyEscapes.EscapedOperandsCompile`).
- Characters beyond ASCII in policies: letters, digits and blanks are the ASCII ones.
- Turning the caller's JSON transient string and language name into the request's map and type: the request has them already.
- Narrowing of thresholds and identity indices to 32 bits, which needs more than 2^31 operands or principals.
- Bare principals as a whole policy, and the free `And` and `Or` helpers on rules.
- Protobuf wire format, failures of marshalling, and the difference between nil and empty bytes after construction: codecs are abstract, and bytes read back are nil exactly when empty.
- Nil `Response` and `Endorsement` pointers in a proposal response, and nil entries in lists; the nil dereference of an action without endorsements is modelled.
- The results of block.go that are filled before a later part fails to decode: the model returns the error alone.
- `CreateProposalResponseFailure`, mock helpers, lifecycle queries and install counting: they would only add easy members.
- Wall clock, nonces and timeouts: the first two are parameters of a request, a timeout is a step that is always possible while waiting.
- What a peer's stream does is fixed before the run, so a receive error caused by the expiring context appears as one of the possible streams rather than as a consequence of the timeout.
- Data races on the deliver group's error field: reads and writes are single steps.
- SHA-256, elliptic-curve points, ASN.1 and X.509: uninterpreted, except for scalars modulo the group order.
- Error texts and the messages wrapped around them: errors are constructors, and inside `Invoke` every refusal to assemble the envelope is one of them.
- The envelope library behind `CreateEnvelope` is not part of this model; the signature list handed to it is.
- gRPC, TLS, file walking, archives, and the regular expressions that check metadata and code packages: input and output, or single checks.
- Directories.Sort: stands for the library's sort; any sorting method meets its contract.
- Returning.NeverStuck: assumes that nobody keeps silent; a silent endorser or orderer blocks the call for ever, and a silent peer a wait whose context never expires. Obtaining the broadcast client and sending on a stream are taken to end, with an error or without.
