# Verified model of the yunohost-mcp protocol kernels

yunohost-mcp is an administration server whose safety rests on a few small protocols. This project models
them in Dafny and proves what they promise over whole runs and whole inputs:

- **Confirmations and owner co-signing.** A ticket is created, approved by a signed event, peeked at by the
  frontend, claimed by a broker thread, and finalized or released. `Confirmations` is the contract of a store as
  one atomic step, `ConfirmationStores` holds the dict-based and the SQLite-based store as classes that both
  implement it. `Operations` are the operations with the tables that name them, `BrokerSteps` the atomic steps of the
  broker thread and the frontend wrapper, `Broker` the two as methods over a store, `BrokerRuns` every interleaving of any
  number of broker threads, frontend calls, approvals and clock changes, `TicketRuns` what can be run on a ticket, and
  `PolicyTables` which operations the tables of the code tell apart.
- **The Concord control plane.** `EditionHash`, `Editions` and `Channels` model hash-chained versions of an
  entity and the channel fold; `Roster`, `RosterFold`, `RosterMeaning`, `RosterProofs` and `RosterOrder` the authority fixpoint
  over Role and Grant editions; `Transport` the bounded fetch; `ControlPlane` puts them together as the callers do.
  `RosterExamples`, `RosterRevisions` and `ChannelExamples` build concrete rumors, over the library of `Samples`, for which the folds do
  something their callers might not expect.
- **The guestbook and the join envelope.** `Guestbook` is the last-writer-wins fold, `Membership` the three-layer
  envelope that must decode back to its rumor.
- **NIP-98 freshness and replay.** `Replay` compares the pruning cache with one that never forgets, under two clocks;
  `ReplayRaces` is the cache shared by threads.
- **The audit log.** `HashChain` and `Audit` prove what the chain detects and what it does not.
- **Invite decoding.** `Padding` is the NIP-44 version 2 padding; `Base64Url`, `Repetition` and `InviteFragment` are
  the fragment and its offset-driven parser.
- **Delegation.** `Delegation` decides one delegated request; `DelegationRuns` is a state machine in which the identity
  file, the revocation file and the clock change between the three lookups of any number of requests.

Code that updates state in place is modelled by classes and methods with loops (`ReplayCache`, both confirmation
stores, `AuditLog`, the folds, the parser loop); each is proved equal to a function, and the theorems are about these
functions. Pure code is modelled by functions. Digests, signatures, encryption, JSON, UTF-8, hexadecimal and number
parsing, where they are library calls, are function-valued parameters; injectivity, soundness of signatures and
inversion of encryption are stated as requirements where a theorem needs them, injectivity standing for collision
resistance. Every type that is digested has no more values than there are texts, so such digests exist.

## Results that differ from what the code's own comments suggest

- `PolicyTables.SignedRebootShutsDown` and `PolicyTables.SignedGrantRevokes`: a confirmation, and the owner's signature on
  it, bind the policy key and the bound arguments, not the operation. A ticket for a reboot is good for a shutdown, and
  one for granting a permission for revoking it. `PolicyTables.OnlyTwoPairsAreConfused` shows that the tables of the code
  hold no other such pair, and `TicketRuns.RunsWhatWasAskedIff` is the exact condition for any tables.
- `TicketRuns.AtMostOnceIffOneMode`: at-most-once execution holds exactly when no ticket is good both for the broker and
  for the frontend, because a non-deferred consume ignores the in-flight mark.
- `ConfirmationStores.StoresInterchangeableIff`: the two stores answer alike exactly when the owner TTL is not an
  explicit 0 beside a non-zero ordinary TTL. `ConfirmationStores.InterruptedPeekIsAtomicIff`: a peek in the SQLite store
  can show a ticket as live that was claimed all the time and is used up (`ConfirmationStores.UsedUpIsShown`).
- `ChannelExamples.DeletionIsUndone`: the comment on `fold_channel_metadata` calls a deletion terminal, but a further
  version that links to it lists the channel again. `Channels.DeletedStaysUnlistedIff` gives the exact case.
- `RosterExamples.SharedMemberOrderMatters`: if two Grant entities name one member, the order of arrival decides;
  `RosterOrder.MembersOrderFreeIff` says exactly when it does not.
- `RosterExamples.GranterIsOvertaken` and `RosterRevisions.RevisionOvertakesGranter`: a member can come to stand above the
  manager who granted the Roles, because a Role that has no head yet is not compared, and because a new version of a Role
  is only compared with its own author. `RosterProofs.GrantStaysBelowIff` is the exact condition on the editions that may
  become heads; `RosterProofs.GranteeStaysBelow` is one that can be seen in a batch.
- `Audit.TruncationIsNotReported`: the class comment in `audit/log.py` lists truncation among what `verify` detects;
  dropping entries from the end is never reported. `Audit.HeadRemovalIsReportedIff` gives the exact case for the other
  end, `Audit.InsertedLineIsNotReported` shows that a line that does not parse can be inserted anywhere, and
  `Audit.IntactLogVerifiesIff` that an untouched log that outgrows the read limit is reported.
- `Replay.ReplaySafeIffTtlCoversWindow`: the cache is safe exactly when its TTL is at least `2 * skew + 1` and the slack,
  that is, by how much the wall clock is set back and one verification takes longer than an earlier one, together. The
  defaults, 300 and 60 seconds, leave a slack of 179 seconds. `ReplayRaces.AcceptedTwiceIffRaced`: the threads of the
  broker share the cache without a lock, and accept an identifier twice exactly if two look it up before one records it.
- `Replay.SameEventAdmitsIff`: the module comment says that the event binds one exact request; the payload tag is only
  compared when there is a body, so the same event also passes without one.
- `DelegationRuns.InFlightIsServedIff`: a revocation does not reach a request whose event has already been checked;
  removing the delegator does (`DelegationRuns.RemovalEndsDelegation`).
- `Delegation.HonouredAgainIff`: the 30-day cap counts back from the declared expiry, not from the signature.

## Model

| member | source | states |
|---|---|---|
| Nostr.IdBindsBody | src/yunohost_mcp/auth/nostr.py:83-115 | two verified events with one identifier agree on author, time, kind, tags and content |
| Confirmations.OperationHashBinds | src/yunohost_mcp/policy/confirmation.py:140-154 | the operation hash determines the ticket, the requester, the tool and the arguments |
| Confirmations.ConsumeSucceedsIff | src/yunohost_mcp/policy/confirmation.py:268-296 | consume succeeds if and only if the ticket is live, its identity, tool and exact arguments match, a required owner approval is present, and (deferred only) nobody has claimed it |
| Confirmations.ApprovalSucceedsIff | src/yunohost_mcp/policy/confirmation.py:218-234 | an approval is accepted if and only if the ticket is live and held by nobody, and the event is a kind-24243 event signed by the owner over this ticket and its operation hash |
| Confirmations.TicketStaysIff | src/yunohost_mcp/policy/confirmation.py:258-296 | a call leaves its ticket in the store if and only if it is a revert, or the ticket is live and the call is no finalize and, if it is a consume, identity, tool and exact arguments match and it is deferred or only lacks the owner approval it requires |
| Confirmations.TicketStaysAs | src/yunohost_mcp/policy/confirmation.py:232-310 | what a call changes about a ticket it leaves: a successful consume claims it, a revert releases it, an accepted approval records the owner, and nothing else |
| Confirmations.OthersAreKept | src/yunohost_mcp/policy/confirmation.py:179-310 | no call touches another ticket |
| Confirmations.RefusalIsExplained | src/yunohost_mcp/policy/confirmation.py:95-296 | the error of a refused call names its reason: unknown, late, another identity, tool or arguments, approval missing or faulty, or held by another consume |
| Confirmations.RetrySucceeds | src/yunohost_mcp/policy/confirmation.py:262-266 | a consume refused only for missing approval leaves the ticket as it was, the owner can then approve it, and the same request then succeeds in time, whatever is done with other tickets before and after the approval |
| Confirmations.RevertUndoesClaim | src/yunohost_mcp/policy/confirmation.py:305-310 | releasing a deferred claim restores the store exactly |
| Confirmations.GoneForGood | src/yunohost_mcp/policy/confirmation.py:218-310 | a ticket that has left the store never comes back in any later sequence of calls: every call on it answers "unknown" |
| Confirmations.ConsumedOrMismatchedIsSpent | src/yunohost_mcp/policy/confirmation.py:262-288 | after a successful non-deferred consume, or any consume with the wrong identity, tool or arguments or too late, every later call on the ticket answers "unknown" |
| Confirmations.TermsAreFixed | src/yunohost_mcp/policy/confirmation.py:206-310 | whatever calls follow, a ticket that is still in the store has the terms it was created with |
| Confirmations.RedeemedAsIssued | src/yunohost_mcp/policy/confirmation.py:188-204 | across any sequence of calls, a consume succeeds only for the requester, the tool and the arguments the ticket was created for, and only within its (ordinary or owner) time to live |
| Confirmations.CreatedIsGoodIff | src/yunohost_mcp/policy/confirmation.py:188-204 | conversely, a new ticket that only other calls pass by is good for exactly the request it was created for, until exactly its time to live is over, and comes back with the plan and the operation hash it was created with |
| ConfirmationStores.CreateIsUnclaimedIff | src/yunohost_mcp/policy/confirmation.py:274-282 | a created ticket starts unclaimed in the dict store if and only if no stale in-flight mark carries its identifier, which is why identifiers must be fresh |
| ConfirmationStores.ConfirmationStore.Create | src/yunohost_mcp/policy/confirmation.py:179-204 | the whole new state and answer of the dict store equal one step of the contract |
| ConfirmationStores.ConfirmationStore.Approve | src/yunohost_mcp/policy/confirmation.py:206-234 | as above, with expiry, in-flight and every signature check in order |
| ConfirmationStores.ConfirmationStore.Peek | src/yunohost_mcp/policy/confirmation.py:236-246 | as above; an expired ticket is deleted |
| ConfirmationStores.ConfirmationStore.Consume | src/yunohost_mcp/policy/confirmation.py:248-296 | as above, although the in-flight mark of a deleted ticket stays behind |
| ConfirmationStores.ConfirmationStore.Finalize | src/yunohost_mcp/policy/confirmation.py:298-303 | as above |
| ConfirmationStores.ConfirmationStore.Revert | src/yunohost_mcp/policy/confirmation.py:305-310 | as above |
| ConfirmationStores.SqliteConfirmationStore.Create | src/yunohost_mcp/policy/confirmation.py:348-359 | the whole new table and answer of the SQLite store equal one step of the same contract |
| ConfirmationStores.SqliteConfirmationStore.Approve | src/yunohost_mcp/policy/confirmation.py:361-377 | as above |
| ConfirmationStores.SqliteConfirmationStore.Peek | src/yunohost_mcp/policy/confirmation.py:379-385 | as above, for a peek that nothing interrupts |
| ConfirmationStores.SqliteConfirmationStore.Consume | src/yunohost_mcp/policy/confirmation.py:387-417 | as above; the conditional update of `consumed_at` is the claim |
| ConfirmationStores.SqliteConfirmationStore.Finalize | src/yunohost_mcp/policy/confirmation.py:419-426 | as above |
| ConfirmationStores.SqliteConfirmationStore.Revert | src/yunohost_mcp/policy/confirmation.py:428-438 | as above |
| ConfirmationStores.CallBoth | src/yunohost_mcp/policy/confirmation.py:316-324 | from stores with equal contents any call gives the same answer and equal contents again |
| ConfirmationStores.CallAllOnMemory | src/yunohost_mcp/policy/confirmation.py:164-172 | for every sequence of calls with fresh identifiers, a new dict store with any TTLs answers as the contract under its effective settings says |
| ConfirmationStores.CallAllOnSqlite | src/yunohost_mcp/policy/confirmation.py:326-329 | the same for a new SQLite store |
| ConfirmationStores.StoresAnswerAlikeIff | src/yunohost_mcp/policy/confirmation.py:320-323 | the two answer a sequence of calls alike if and only if it creates no ticket for co-signing or the owner TTL is not an explicit 0 beside a non-zero ordinary TTL |
| ConfirmationStores.StoresInterchangeableIff | src/yunohost_mcp/policy/confirmation.py:320-323 | the two answer all sequences of calls alike if and only if the owner TTL is not an explicit 0 beside a non-zero ordinary TTL |
| ConfirmationStores.InterruptedPeekIsAtomicIff | src/yunohost_mcp/policy/confirmation.py:379-385 | whatever calls come between the statements of a peek, it changes what an atomic one would, and its answer is one that an atomic one gives in between, if and only if the ticket was not claimed throughout and used up |
| ConfirmationStores.PeekWhile | src/yunohost_mcp/policy/confirmation.py:379-385 | the statements of a peek with any calls of the store in between: read from the old table, the mark or the deletion from the new one |
| ConfirmationStores.UsedUpIsShown | src/yunohost_mcp/policy/confirmation.py:379-385 | a claimed live ticket that is finalized between the statements is shown as live |
| Broker.CheckOperationPolicy | src/yunohost_mcp/broker/helper.py:327-370 | the root-side check derives policy key and bound arguments from the operation, and refuses, lets through or claims exactly as the first step of a broker thread |
| Broker.CheckPolicy | src/yunohost_mcp/broker/helper.py:334-358 | refuses if and only if free space is below the minimum of the rule, or no archive is recent enough where the rule asks for one and this is no safe upgrade, or a confirmation is asked for and its identifier or the argument table is missing; free if and only if there is no rule, or nothing is wanting and no confirmation is asked for |
| Operations.HardPolicyFailsIff | src/yunohost_mcp/policy/rules.py:301-334 | the hard checks fail if and only if free space is below the minimum, or, unless this is a safe upgrade, the rule asks for a backup and every archive there is, if any, is too old |
| BrokerSteps.GateRefusesIff | src/yunohost_mcp/broker/helper.py:334-357 | the gate of a broker thread refuses, or lets through without a ticket, under the same exact conditions |
| BrokerSteps.GateClaims | src/yunohost_mcp/broker/helper.py:352-370 | the gate claims the presented confirmation, for exactly the listed arguments as they are in the request, with the owner approval that the rule asks for |
| Broker.Handle | src/yunohost_mcp/broker/helper.py:238-295 | the request handler run without interruption is exactly its atomic steps in order |
| BrokerSteps.HandledAlone | src/yunohost_mcp/broker/helper.py:263-295 | with an accepted claim the ticket is used up exactly when session check and invocation succeed, otherwise the store is left as it was |
| Broker.RequireConfirmation | src/yunohost_mcp/policy/enforcement.py:153-228 | the wrapper's decision and its whole effect on the store |
| BrokerSteps.ConfirmedCallProceedsIff | src/yunohost_mcp/policy/enforcement.py:162-187 | a call that presents a confirmation proceeds if and only if the ticket is live and was issued for this caller, tool and arguments and is approved where required (and unclaimed, if deferred to the broker); a deferred call leaves the ticket, any other uses it up |
| BrokerSteps.UnconfirmedCallIsAsked | src/yunohost_mcp/policy/enforcement.py:153-195 | a call without a confirmation violates the policy, needs none, or gets a new ticket for its caller, tool, arguments and plan, to be co-signed if the rule says so |
| BrokerRuns.StepKeepsInv | src/yunohost_mcp/broker/helper.py:263-370 | every enabled step of any thread keeps the run invariant |
| BrokerRuns.EachTicketRunsAtMostOnce | src/yunohost_mcp/broker/helper.py:263-295 | in every interleaving each ticket has at most one successful invocation, at most one holder, and no orphaned mark |
| BrokerRuns.OnlyTheHolderReleases | src/yunohost_mcp/broker/helper.py:316-325 | a mark is only ever cleared by the thread that holds the claim, before anything ran on the ticket |
| BrokerRuns.CosignedRunsWereSigned | src/yunohost_mcp/policy/confirmation.py:95-120 | an operation run under owner co-signature has the policy key, the requester and the bound arguments hashed into an owner-signed approval accepted before the run |
| BrokerRuns.SuccessNeedsATicket | src/yunohost_mcp/broker/helper.py:263-277 | in every run, a thread that reports success where the rule asks for a confirmation has run its own operation, on a ticket issued for its requester, policy key and bound arguments, and nothing else ran on that ticket |
| BrokerRuns.HardPolicyIsEnforced | src/yunohost_mcp/broker/helper.py:334-351 | in every interleaving, whatever the broker ran on a ticket, and whatever a thread reports as a success with or without one, was checked against free space and archives that are what the rule asks for |
| TicketRuns.TicketCanBeReady | src/yunohost_mcp/policy/enforcement.py:172-195 | whatever the time to live, every operation that needs a confirmation can get a live ticket, approved if need be |
| TicketRuns.MixedModesRunTwice | src/yunohost_mcp/policy/confirmation.py:287-295 | a ticket that is good both for the broker and for the frontend has a run that executes it twice |
| TicketRuns.AtMostOnceIffOneMode | src/yunohost_mcp/policy/enforcement.py:164-179 | at-most-once holds over all runs if and only if no ticket is good in both places |
| TicketRuns.RunsAreTakenFor | src/yunohost_mcp/broker/helper.py:334-370 | in every run, what is carried out on a ticket has the policy key and the bound arguments of the operation the ticket was asked for, and its effect is that of the operation carried out |
| TicketRuns.HelperRunsAnother | src/yunohost_mcp/broker/helper.py:358-370 | if two operations share key and bound arguments, there is a run in which the broker carries out the second on a ticket asked, and signed, for the first, and reports success |
| TicketRuns.RunsWhatWasAskedIff | src/yunohost_mcp/policy/confirmation.py:140-154 | where no ticket is good in both places and the owner can sign, all runs do what their tickets were asked for if and only if no two operations with different effects share a policy key that needs a confirmation and the bound arguments |
| PolicyTables.EveryOperationIsRecognized | src/yunohost_mcp/broker/helper.py:55-175 | policy key and names of bound arguments determine the operation, up to reboot and shutdown, and granting and revoking a permission |
| PolicyTables.OnlyTwoPairsAreConfused | src/yunohost_mcp/broker/helper.py:55-175 | with the tables of the code, what runs on a ticket bears the name of what was asked for, or of the other member of one of these two pairs |
| PolicyTables.SignedRebootShutsDown | src/yunohost_mcp/broker/helper.py:139-140 | there is a run in which the owner signs a reboot and the broker shuts the machine down, as co-signed, and reports success |
| PolicyTables.SignedGrantRevokes | src/yunohost_mcp/broker/helper.py:127-128 | there is a run in which the owner signs the grant of a permission and the broker revokes it |
| Sorting.SortedByIsSorted | src/yunohost_mcp/concord_control.py:92 | sorting by a string key yields an ordered permutation |
| EditionHash.PreimageInjective | src/yunohost_mcp/concord_control.py:226-239 | the hashed bytes determine entity, version, predecessor and content |
| EditionHash.PreimageLayout | src/yunohost_mcp/concord_control.py:226-239 | where each part is in the hashed bytes: label, entity, big-endian version, predecessor flag and hash or zeros, and content, with 8-byte lengths |
| EditionHash.HashBinds | src/yunohost_mcp/concord_control.py:215-240 | with an injective digest, equal edition hashes mean equal entity, version, predecessor bytes and content |
| EditionHash.HexRoundTrip | src/yunohost_mcp/concord_control.py:219-233 | parsing printed hexadecimal gives the bytes back |
| EditionHash.CanonicalHex | src/yunohost_mcp/concord_control.py:222-223 | lower-case hexadecimal of full length is the printed form of what it parses to |
| EditionHash.IdentifierBinds | src/yunohost_mcp/concord_control.py:219-223 | two accepted identifiers with the same bytes are the same text |
| EditionHash.QuotedDigestBinds | src/yunohost_mcp/concord_control.py:229-240 | a quoted predecessor hash determines the digest it quotes |
| Editions.ChainIsSelected | src/yunohost_mcp/concord_control.py:317-329 | the chain built version by version is the only one whose steps each take the lowest-id eligible edition and which cannot be extended |
| Editions.ChainOfSet | src/yunohost_mcp/concord_control.py:317-329 | the chain depends only on the set of editions, not on their order or repetition |
| Channels.SelectHead | src/yunohost_mcp/concord_control.py:319-329 | the loop over sorted versions, trying only the lowest-id candidate, computes the head of that chain |
| Channels.ListLive | src/yunohost_mcp/concord_control.py:331-342 | the listing holds exactly the live heads, strictly ordered by channel |
| Channels.FoldChannelMetadata | src/yunohost_mcp/concord_control.py:295-342 | the fold lists exactly the channels whose selected head is not a deletion, ordered by channel, and each as an admitted rumor says: identifier, name, privacy, version and edition hash |
| Channels.ParsesIff | src/yunohost_mcp/concord_control.py:252-292 | a rumor is read as a channel edition if and only if its kind, tags and content say one, and then name, privacy and deletion are the members of the content |
| Channels.ListedIsSaid | src/yunohost_mcp/concord_control.py:331-342 | every listed channel is what some admitted rumor says, which does not call it deleted |
| Channels.ListedMeaning | src/yunohost_mcp/concord_control.py:300-306 | a channel is listed if and only if its declaratively selected chain ends in a live edition, and that edition is what is listed |
| Channels.DeletedStaysUnlistedIff | src/yunohost_mcp/concord_control.py:302-304 | a channel whose chain holds a deletion is unlisted if and only if, from there on, the chain holds a deletion whose hash no lowest-id edition of the next version names |
| ChannelExamples.DeletionIsUndone | src/yunohost_mcp/concord_control.py:319-342 | for any 32-byte digest there are two rumors after which a channel is deleted and unlisted, and a third after which it is listed again |
| Channels.FoldDependsOnSet | src/yunohost_mcp/concord_control.py:309-342 | two folds of event lists with the same elements give the same listing |
| Channels.SameHashSameContent | src/yunohost_mcp/concord_control.py:280-292 | two parsed editions with one hash agree on channel, version, metadata and predecessor bytes |
| Channels.SameHeadSameHistory | src/yunohost_mcp/concord_control.py:317-329 | any two folds that select the same head hash agree on the channel, and on content and version at every step of the chain |
| RosterFold.TryCandidates | src/yunohost_mcp/concord_control.py:91-100 | the inner loop chooses the first linking candidate of a version |
| RosterFold.ChooseHead | src/yunohost_mcp/concord_control.py:89-102 | trying all candidates, the loop computes the head of the chain |
| RosterFold.SelectRosterHeads | src/yunohost_mcp/concord_control.py:83-103 | the nested dictionaries yield the head of every entity, in dictionary order |
| RosterFold.RosterMembers | src/yunohost_mcp/concord_control.py:106-130 | the standing of every member, the last Grant in dictionary order winning |
| RosterFold.IsAddition | src/yunohost_mcp/concord_control.py:168-192 | the branches of one round decide admissibility |
| RosterFold.RoundAdditions | src/yunohost_mcp/concord_control.py:163-192 | one round adds exactly the editions admissible under what is accepted |
| RosterFold.Accept | src/yunohost_mcp/concord_control.py:161-195 | the loop with its early exit equals the full number of rounds |
| RosterFold.BuildRosterAuthorizer | src/yunohost_mcp/concord_control.py:146-212 | the returned predicate is the authority decided by the accepted editions: it holds if and only if the rumor is a channel edition by the owner, whatever the batch, or by a member who manages channels and cites its own selected Grant; a malformed owner key is refused |
| RosterMeaning.AuthorizedIff | src/yunohost_mcp/concord_control.py:201-210 | a rumor is authorized if and only if it is an edition of a channel, and its author is the owner, or is named by the selected Grant that its tags cite and stands where channels are managed |
| RosterMeaning.MembersAreThoseStanding | src/yunohost_mcp/concord_control.py:106-130 | a member stands where the last selected Grant to it puts it: at the least position of the listed Roles with heads, with every permission one of them has; the owner stands at 0 with all unless a Grant names it |
| RosterMeaning.ConferredIff | src/yunohost_mcp/concord_control.py:109-129 | the standing that one Grant confers, in terms of its member, its list and the heads of the listed Roles |
| RosterMeaning.AcceptedIff | src/yunohost_mcp/concord_control.py:162-195 | what is accepted after any number of rounds: at first exactly the owner's Roles and Grants, then in each round exactly the Roles and Grants that stay below an author who manages Roles and cites the selected Grant to itself, unless it is the owner |
| RosterMeaning.StaysBelowIff | src/yunohost_mcp/concord_control.py:176-192 | a Role has a greater position than its author; a Grant lists Roles of which at least one has a head and all heads lie above the author, or lists none and its member does |
| RosterMeaning.KeysInOrder | src/yunohost_mcp/concord_control.py:84-101 | the dictionary order is that of first appearance |
| RosterMeaning.ParsesIff | src/yunohost_mcp/concord_control.py:56-80 | when a rumor is a roster edition, and which of its fields and tags become which parts of it |
| RosterMeaning.StateIsOfContent | src/yunohost_mcp/concord_control.py:112-128 | member, position, Role list and the two permission bits are read from the content, ill-typed ones as missing |
| RosterMeaning.CitationIff | src/yunohost_mcp/concord_control.py:47-53 | a citation is what the first `vac` tag says |
| RosterProofs.FixpointReached | src/yunohost_mcp/concord_control.py:163-195 | with no more distinct non-owner Role and Grant editions than rounds, one more round adds nothing and further rounds change nothing |
| RosterProofs.SmallBatchReachesFixpoint | src/yunohost_mcp/concord_control.py:161-195 | as many rounds as there are events suffice for the fixpoint |
| RosterProofs.CitesEarlierGrant | src/yunohost_mcp/concord_control.py:133-143 | every accepted non-owner edition cites a Grant to its author, accepted in a strictly earlier round |
| RosterProofs.AuthorityIsRooted | src/yunohost_mcp/concord_control.py:154-157 | following citations from any accepted edition ends at an owner-signed edition |
| RosterProofs.RolesBelowOwner | src/yunohost_mcp/concord_control.py:176-180 | every accepted non-owner Role lies strictly above some position in the owner's own Roles |
| RosterProofs.GrantStaysBelowIff | src/yunohost_mcp/concord_control.py:176-187 | the Roles a Grant lists confer a position above a bound, whatever heads they come to have, if and only if every edition that may become the head of one of them lies above it |
| RosterProofs.GranteeStaysBelow | src/yunohost_mcp/concord_control.py:176-187 | if every edition of a Role that some Grant to a member lists lies above a position, the member stays below it whatever is accepted |
| RosterProofs.UnrevisedGrantStaysBelowIff | src/yunohost_mcp/concord_control.py:184-187 | as long as no Role is revised, a Grant whose known Roles lie above its granter stays there whatever is accepted later, if and only if every Role it lists is known |
| RosterExamples.GranterIsOvertaken | src/yunohost_mcp/concord_control.py:181-187 | for any digest and any positive number of rounds there are seven rumors after which a member stands above the manager whose accepted Grant names them |
| RosterRevisions.RevisionOvertakesGranter | src/yunohost_mcp/concord_control.py:176-180 | for any 32-byte digest there are seven rumors after which a member stands above the manager whose Grant lists one Role, known and below the manager when the Grant was accepted: a new version of the Role lifted it |
| RosterProofs.EditIsRooted | src/yunohost_mcp/concord_control.py:201-210 | a non-owner who may edit channels cites an accepted Grant whose citations lead back to the owner, and is empowered by an accepted Grant and an accepted Role with the channel permission |
| RosterOrder.MembersMeaning | src/yunohost_mcp/concord_control.py:106-130 | while the selected Grants to one member agree, the members are exactly what these Grants confer, plus the owner |
| RosterOrder.MembersOrderFreeIff | src/yunohost_mcp/concord_control.py:129 | every order of the dictionary gives the same members if and only if the selected Grants to one member agree |
| RosterOrder.AuthorizerDependsOnSet | src/yunohost_mcp/concord_control.py:146-212 | the verdicts depend only on the set of events, provided that in every round the selected Grants to one member agree |
| RosterOrder.DistinctMembersDecide | src/yunohost_mcp/concord_control.py:146-212 | the same if no two Grant entities in the batch name one member |
| RosterExamples.SharedMemberOrderMatters | src/yunohost_mcp/concord_control.py:129 | for any digest and any number of rounds there are four rumors that authorize an edit when they arrive in one order and not in another |
| Transport.MergeReply | src/yunohost_mcp/concord_transport.py:149-157 | the merge loop keeps the first of each identifier and stops at the limit |
| Transport.FetchEvents | src/yunohost_mcp/concord_transport.py:115-169 | the loop over relays, with failures counted, equals its specification |
| Transport.FetchIsBounded | src/yunohost_mcp/concord_transport.py:149-169 | a result has at most the limit of events, no identifier twice, only events that arrived, and below the limit every identifier that arrived |
| Transport.FetchFailsIff | src/yunohost_mcp/concord_transport.py:115-169 | a fetch fails if and only if the limit is not positive, the deadline passes before there are enough events, or no relay has anything and one fails; a relay that fails beside others does no harm |
| Transport.ArrivedIff | src/yunohost_mcp/concord_transport.py:133-163 | an event arrives if and only if a relay replies with it before the deadline passes |
| ControlPlane.LoadControlRumors | src/yunohost_mcp/concord_control_reader.py:36-55 | the loop over fetched events yields their rumors in order, and fails as soon as one wrap is malformed |
| ControlPlane.FetchedRumorsReachFixpoint | src/yunohost_mcp/concord_transport.py:172-176 | whatever the relays reply, the rumors of a default fetch of at most 64 events bring the default 128 rounds to the fixpoint |
| ControlPlane.ListChannels | src/yunohost_mcp/concord_announcement_publish.py:61-62 | fold and authority over one batch of rumors: the listing is that of the editions the roster among the same rumors authorizes |
| ControlPlane.OwnersEditionEnters | src/yunohost_mcp/concord_control.py:205-206 | every channel edition of the owner enters the fold, whatever else is in the batch |
| ControlPlane.ListingDependsOnSet | src/yunohost_mcp/concord_announcement_publish.py:61-62 | that listing depends only on the set of rumors, provided that in every round the selected Grants to one member agree |
| ControlPlane.SelectedIsJustified | src/yunohost_mcp/concord_announcement_publish.py:61-62 | every edition in a selected channel chain was read from a rumor that is the owner's or cites an accepted Grant leading back to the owner, its author being empowered by an accepted Grant and Role |
| ControlPlane.AuthorizedIsJustified | src/yunohost_mcp/concord_control.py:201-210 | the same for every rumor that the roster authorizes |
| Guestbook.ReadRumor | src/yunohost_mcp/concord_guestbook.py:89-158 | the guard checks of one rumor yield exactly what its fields say about members, or fail where a kind or content that cannot be hashed makes the program raise |
| Guestbook.ContributionsIff | src/yunohost_mcp/concord_guestbook.py:90-155 | a rumor says a status of a member if and only if its id and timestamp are well formed and not too far ahead, and it is the member's own join or leave, an authorized empty kick whose only target is the member, or an authorized numbered snapshot that lists it |
| Guestbook.Store | src/yunohost_mcp/concord_guestbook.py:149-158 | the comparison and update loop puts the later state of each member |
| Guestbook.FoldGuestbook | src/yunohost_mcp/concord_guestbook.py:67-160 | on every input, the fold holds exactly the members that some rumor speaks of and that are not banned, each with something said about it than which nothing is later; a negative skew, and a rumor that makes the program raise, are reported |
| Guestbook.FoldIsMaximum | src/yunohost_mcp/concord_guestbook.py:145-158 | a member has a state if and only if some rumor says something about it, and that state is one that is said and none is later |
| Guestbook.LastWordDecides | src/yunohost_mcp/concord_guestbook.py:145-158 | a join, leave, authorized kick or authorized snapshot with a later time than all else that is said about the member, or the same time and a greater identifier, is the state of the member |
| Prelude.LessIff | src/yunohost_mcp/concord_guestbook.py:152 | strings are compared where they first differ, a prefix being smaller |
| Guestbook.StatesAreWarranted | src/yunohost_mcp/concord_guestbook.py:78-81 | every status in the fold rests on the member's own join or leave, an authorized kick of that member, or an authorized snapshot listing it |
| Guestbook.FoldDependsOnSet | src/yunohost_mcp/concord_guestbook.py:88-158 | order and repetition of rumors do not matter, provided that no two that say anything share an identifier |
| Guestbook.FoldOfConcatenation | src/yunohost_mcp/concord_guestbook.py:149-158 | folding a concatenation is the pointwise later of the two folds |
| Membership.FinishedEnvelopeDecodes | src/yunohost_mcp/concord_membership.py:73-101 | whoever signs the seal, a finished envelope decodes to the rumor it was built for |
| Membership.DecodesIff | src/yunohost_mcp/concord_guestbook.py:33-51 | a wrap decodes to a rumor if and only if the stream key signed it, the seal inside is signed by the author of the rumor and binds it, and the rumor is of a guestbook kind |
| Membership.SigningSucceedsIff | src/yunohost_mcp/auth/nostr.py:118-149 | signing with the key's own public key succeeds if and only if the timestamp is in range, and the result verifies |
| Membership.FinishSucceedsIff | src/yunohost_mcp/concord_membership.py:88-101 | an envelope can be finished if and only if the seal is the one asked for and verifies, encryption succeeds and the timestamp is in range |
| Membership.JoinSucceedsIff | src/yunohost_mcp/concord_membership.py:126-151 | the one-shot envelope is built if and only if the join is well formed, its timestamp in range, and key derivation and both encryptions succeed |
| Membership.JoinRoundTrip | src/yunohost_mcp/concord_membership.py:104-151 | whatever it builds decodes to the rumor of that join |
| Membership.JoinMillisecond | src/yunohost_mcp/concord_guestbook.py:54-64 | the millisecond tag of a join reads back as written |
| Membership.JoinFoldsToJoin | src/yunohost_mcp/concord_guestbook.py:145-158 | folding the decoded rumor alone gives "join" at created_at * 1000 + millisecond, unless that is too far in the future |
| Replay.ReplayCache.Prune | src/yunohost_mcp/auth/replay.py:32-35 | exactly the expired entries are removed |
| Replay.ReplayCache.CheckAndRecord | src/yunohost_mcp/auth/replay.py:24-30 | the verdict and the whole new cache |
| Replay.VerifyRequest | src/yunohost_mcp/auth/nip98.py:49-113 | every check in order, with the cache touched only after all others pass; freshness is judged by the wall clock and expiry by the monotonic one |
| Replay.AcceptedIff | src/yunohost_mcp/auth/nip98.py:79-113 | a request is accepted if and only if it carries a signed kind-27235 event within the clock skew that names its URL and method and the digest of any body, and no live cache entry has its identifier; the identity is that of the event, which is cached for the TTL |
| Replay.RefusalIsExplained | src/yunohost_mcp/auth/nip98.py:65-111 | the error of a refused request names its reason |
| Replay.SameEventAdmitsIff | src/yunohost_mcp/auth/nip98.py:89-101 | an event accepted for a request with a body is accepted for another one at that moment if and only if URL, method and body are the same, or the body is missing |
| Replay.PruningIsInvisible | src/yunohost_mcp/auth/nip98.py:82-87 | with a TTL of at least 2 * skew + 1 and the slack, in runs within that slack, the pruning cache gives every verdict that a cache that never forgets would give |
| Replay.IdealNeverRepeats | src/yunohost_mcp/auth/replay.py:24-30 | a cache that never forgets accepts no identifier twice |
| Replay.ReplaySafeIffTtlCoversWindow | src/yunohost_mcp/auth/replay.py:20-30 | for every slack, no run within it accepts an event twice if and only if the TTL is at least 2 * skew + 1 and the slack |
| Replay.ShortTtlReplays | src/yunohost_mcp/auth/nip98.py:82-87 | below that bound there is a run within the slack that accepts one event twice |
| ReplayRaces.AcceptedTwiceIffRaced | src/yunohost_mcp/auth/replay.py:26-30 | when all threads are done, an identifier has been accepted twice if and only if at some moment two threads had looked it up and neither had recorded it |
| ReplayRaces.TwoThreadsRace | src/yunohost_mcp/broker/helper.py:204-215 | two threads can do so with any identifier |
| HashChain.SameEndSameChain | src/yunohost_mcp/audit/log.py:42-48 | two intact chains that end in one hash are the same chain |
| Audit.AuditLog.Append | src/yunohost_mcp/audit/log.py:66-103 | `record` appends one entry that names the hash it looked up and carries its own, or raises and appends nothing if it meets JSON that is no object |
| Audit.EntryHolds | src/yunohost_mcp/audit/log.py:66-93 | the recorded entry holds every argument of the record under its own name |
| Audit.AuditLog.LastEntryHash | src/yunohost_mcp/audit/log.py:164-187 | the backward search finds the last hash in the look-back window, or raises at JSON that is no object |
| Audit.AuditLog.ReadValues | src/yunohost_mcp/audit/log.py:142-161 | the JSON values of the last 64 MiB, skipping what does not parse |
| Audit.AuditLog.Verify | src/yunohost_mcp/audit/log.py:117-140 | the walk reports exactly the specified problems, line by line, and raises at JSON that is no object |
| Audit.NoProblemsIffIntact | src/yunohost_mcp/audit/log.py:120-123 | nothing is reported if and only if every entry carries its own digest and names that of its predecessor |
| Audit.ReportedIff | src/yunohost_mcp/audit/log.py:124-139 | each entry that does not name the last stored hash before it, has no hash, or carries one that is not its digest is reported as such, on its own line, and nothing else is |
| Audit.PrevHashOfVerifying | src/yunohost_mcp/audit/log.py:164-187 | on a log that verifies, the predecessor hash found is the digest of its last entry if one is in the look-back window, and the genesis value otherwise |
| Audit.RecordKeepsVerifyingIff | src/yunohost_mcp/audit/log.py:91-93 | recording on a log that verifies keeps it verifying if and only if the new line is over the read limit, or beside it every entry stays in view and the log is empty or has an entry in the look-back window, or no entry stays in view and none is in that window |
| Audit.RecordedLogVerifies | src/yunohost_mcp/audit/log.py:42-48 | every run of records, none over 1 MiB and together within 64 MiB, leaves a verifying log |
| Audit.SameFinalHashSameLog | src/yunohost_mcp/audit/log.py:91-92 | two verifying logs with the same final hash are equal entry for entry |
| Audit.SameLastEntryIff | src/yunohost_mcp/audit/log.py:120-123 | a list of entries with the last entry of a verifying log verifies if and only if it is that log: any edit, swap, interior removal or insertion of entries is reported |
| Audit.ChangedFileVerifiesIff | src/yunohost_mcp/audit/log.py:117-161 | a changed file that keeps the last entry in view verifies if and only if it can be read and its entries in view are unchanged |
| Audit.InsertedLineIsNotReported | src/yunohost_mcp/audit/log.py:153-160 | a line that does not parse can be inserted anywhere, within the read limit, without being reported |
| Audit.TruncationIsNotReported | src/yunohost_mcp/audit/log.py:122-123 | dropping entries from the end is never reported |
| Audit.HeadRemovalIsReportedIff | src/yunohost_mcp/audit/log.py:126-130 | dropping entries from the front is reported if and only if something is left |
| Audit.IntactLogVerifiesIff | src/yunohost_mcp/audit/log.py:146-151 | a readable file with an intact chain verifies if and only if the read limit cuts off none or all of its entries |
| Padding.PaddedLenBounds | src/yunohost_mcp/concord_invites.py:172-177 | the padded length is large enough, a multiple of 32, at most the next power of two (or 32), and wastes less than 32 bytes or a quarter |
| Padding.PaddedLenIsLeast | src/yunohost_mcp/concord_invites.py:172-177 | the padded length is 32 up to 32 bytes, and beyond that the least sufficient multiple of 32, or of an eighth of the next power of two if that is over 256 |
| Padding.NextPowerIsLeast | src/yunohost_mcp/concord_invites.py:175 | the shifted bit length is the least power of two not below the length |
| Padding.PaddedLenMonotone | src/yunohost_mcp/concord_invites.py:172-177 | longer messages are never padded shorter |
| Padding.PaddedLenIdempotent | src/yunohost_mcp/concord_invites.py:172-177 | a padded length needs no more padding |
| Padding.UnpadsIff | src/yunohost_mcp/concord_invites.py:167-180 | a payload unpads to a message if and only if it is that non-empty message behind its length and before exactly the missing bytes, whatever they are |
| Padding.PadRoundTrip | src/yunohost_mcp/concord_invites.py:167-180 | every message of 1 to 65535 bytes survives padding |
| Repetition.ReadsWritten | src/yunohost_mcp/concord_invites.py:104-128 | a counted list is read back, and exactly its bytes are consumed |
| Repetition.WritesRead | src/yunohost_mcp/concord_invites.py:104-128 | whatever counted list is read was written there |
| Base64Url.RoundTrip | src/yunohost_mcp/concord_invites.py:83-88 | unpadded URL-safe base64 of any bytes is read back |
| InviteFragment.DecodeInviteFragment | src/yunohost_mcp/concord_invites.py:80-131 | the parser from the text on, with its offset, on every text: every index in bounds and each error in order |
| InviteFragment.RoundTrip | src/yunohost_mcp/concord_invites.py:83-131 | any list of dictionary, host-only and full-URL relays and a 16-byte token, laid out and put into base64, are decoded back if and only if the maximum is positive and not exceeded; the errors are given |
| InviteFragment.RelaysStandForEntries | src/yunohost_mcp/concord_invites.py:104-128 | each decoded relay is what its entry stands for: one of the four dictionary URLs, the host behind "wss://", or the URL |
| InviteFragment.PieceIs | src/yunohost_mcp/concord_invites.py:107-120 | the bytes of an entry: its number, or 0 or 255, a length and so many bytes of text |
| InviteFragment.AcceptedIsEncoded | src/yunohost_mcp/concord_invites.py:97-131 | all decoded bytes that are accepted without stock relays are such an encoding: consumed exactly, with a 16-byte token left |
| InviteFragment.StockIff | src/yunohost_mcp/concord_invites.py:96-98 | with the stock flag the decoded bytes are accepted if and only if just the token follows; the maximum is not applied to the stock relays |
| Delegation.DelegatedIff | src/yunohost_mcp/auth/delegation.py:79-169 | the exact condition under which a delegation is honoured |
| Delegation.DelegationAttenuates | src/yunohost_mcp/auth/delegation.py:151-169 | delegated scopes are the non-empty intersection of those signed for and those the delegator holds now, and the expiry is bounded by event, 30 days and the delegator's own expiry (to the second before 1970) |
| Delegation.DelegatedRecordIs | src/yunohost_mcp/auth/delegation.py:151-169 | the identity a delegation confers, exactly: the requester's key, the delegator's name, no roles, the common scopes, and the earlier of the declared expiry and the delegator's own |
| Delegation.HonouredAgainIff | src/yunohost_mcp/auth/delegation.py:109-120 | a delegation once honoured is honoured at another time if and only if that time lies within 30 days before its expiry and not before its signature, up to the clock skew |
| DelegationRuns.StepKeepsInv | src/yunohost_mcp/auth/middleware.py:139-160 | every edit of the files and every step of any request keeps the invariant: an identity given under a delegation answers a request whose own lookup, event check and delegator lookup were read at three moments of the run, in this order |
| DelegationRuns.NothingIsAmplified | src/yunohost_mcp/auth/middleware.py:139-160 | in every run, each scope given under a delegation was held by the delegator's own entry at the moment it was given |
| DelegationRuns.RevocationEndsDelegation | src/yunohost_mcp/auth/revocation.py:75-85 | once an event is revoked and stays so, it serves only requests whose event had been checked before |
| DelegationRuns.InFlightIsServedIff | src/yunohost_mcp/auth/middleware.py:151-157 | such a request is served whatever is revoked, if and only if its delegator still stands and holds one of the scopes |
| DelegationRuns.RemovalEndsDelegation | src/yunohost_mcp/auth/delegation.py:145-149 | once a key loses its entry and stays out, nothing more is given on its events, not even to requests in flight |
| DelegationRuns.NothingChains | src/yunohost_mcp/auth/delegation.py:140-149 | in a run in which a key never has an entry of its own, nothing is given on its events, however many delegations name that key |
| DelegationRuns.UsesAreClose | src/yunohost_mcp/auth/delegation.py:109-120 | two uses of one delegation in a run are less than 30 days apart, by one delegate, over the same requested scopes |

## Left out

Behaviour that is not modelled:

- Real cryptography: SHA-256, Schnorr, HKDF, ChaCha20 and NIP-44 encryption are parameters.
- JSON, TOML and URL parsing, and the base64 of HTTP headers, are parameters or inputs; hexadecimal, UTF-8 and the base64
  of invite fragments appear as far as the theorems need them.
- SQLite faults: every transaction is atomic and succeeds. A database error in `finalize` after a successful invocation
  would let the following `revert` reopen the ticket; that run is outside the model. A broker thread that dies between
  two steps keeps its mark, which the runs do include. The JSON round trip of the stored plan is taken as exact.
- The outcomes of the adapter call, the package-test session check, the caller's authentication and the reply are inputs
  of a broker request; what the tool and the helper do with an operation (`Effect`), and the rules, are parameters.
- Socket, relay, HTTP and NIP-46 plumbing, the server's tool wrappers, argument validators, configuration, and the
  client side: I/O or long and shallow.
- `concord_pending_signature.py`: only a sequential single-use claim holds there, which adds little.
- Two processes appending to the audit log at once, file permissions and symbolic links. A line cut by the read window
  counts as unparsable. `list` and `get` of the audit log: a reversal and a linear search.
- Floats that are not finite, and the overflow errors they cause in `int()`.
- Decimal digits outside ASCII, which `isdigit` and `int` accept.
- Permissions as an integer are projected to the two bits that are used.
- An unhashable `member` in a Grant with no roles, where the program raises `TypeError`.
- A new version of a Role or a Grant may demote a member above its author, since only the new position is compared; no
  theorem bounds that.

Contracts that are weaker than they might be:

- ConfirmationStores.SqliteConfirmationStore.Peek: is stated as one atomic step; `ConfirmationStores.PeekWhile` is the
  same with other calls between its statements, and `ConfirmationStores.InterruptedPeekIsAtomicIff` says exactly what
  that changes. In `BrokerRuns` a peek is one step too: its effect on the store is that of the atomic one, and no
  execution depends on its answer.
- RosterOrder.AuthorizerDependsOnSet: the condition that selected Grants agree in every round is exact for the members
  of one dictionary (`RosterOrder.MembersOrderFreeIff`) but only sufficient for the final verdict, which may come out
  the same by accident.
- ControlPlane.ListingDependsOnSet: the same.
- RosterProofs.GranteeStaysBelow: looks at all editions of a batch, also at those that are never accepted.
- PolicyTables.OnlyTwoPairsAreConfused: is about the names of operations. That arguments which are not bound, such as the
  source of a catalog publication, can differ from those asked for is part of `TicketRuns.RunsWhatWasAskedIff` alone.
- ReplayRaces.AcceptedTwiceIffRaced: takes a lookup and a recording as atomic and leaves expiry out; errors that pruning
  meets when another thread prunes too are not part of this model.
