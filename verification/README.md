# Verification of the xSOM AI Guard decision core

xSOM AI Guard sits between AI agents and their tools: it decides whether a call may happen, holds the dangerous ones for
people, writes every decision to a hash-chained journal, signs witnesses of that journal, and cleans what leaves the
workstation. This project is a Dafny model of that core with proofs of what it promises. `dafny verify dfyconfig.toml`
checks all of it.

The parts, by file:

- **Journal and witnesses.** `JsonText` is the canonical text that every chain hashes (sorted compact `json.dumps`,
  strings escaped as in section 7 of RFC 8259) and its injectivity over whole trees; `Timestamps` the frozen text of an
  instant; `Formats` that text spelled out; `HashChain` the chain shared by every table; `Journal` the audit log, in
  which the chains of all tenants are interleaved; `Checkpoints` the signed witnesses and what they pin; `WitnessRuns`
  honest concurrent runs, where writes land between the single reads of `record` and of `verify`; `WitnessDesk` the
  uninterrupted `record`; `TamperEvidence` what the verification of any later table says of an honest run;
  `ExtensionEvents` the idempotent chained ingestion of workstation events.
- **Decisions and approvals.** `PolicyEngine` is the severity lattice and `evaluate`; `Guards` the judge, graduated
  autonomy and the plan ceiling in the order in which `authorize` folds them; `Approvals` the approval rows;
  `ApprovalRuns` the whole decision cycle as a state machine of interleaved calls, people, clocks and faults;
  `ApprovalVerdicts` each verdict of such a run with its exact condition; `ApprovalHistory` what it makes of one
  approval; `ApprovalCases` the runs in which an expected property fails; `HoldDesk` the hold, the poll and the decision
  as they run when nobody interrupts, each proved to be one of those runs; `DeveloperRuns`, `DeveloperAnswers` and
  `DeveloperDesk` the same for the request and the consumption of workstation approvals.
- **Redaction.** `Spans` merges and replaces the spans that arbitrary detectors find; `Dlp` chooses among overlapping
  findings and gives the verdict on a request; `Cleaning` and `Cleaner` are the recursive JSON cleaner, as a
  specification and as the object whose counters every visit updates; `CleanedTrees` and `CleanedBodies` say without
  them which trees can be cleaned, what each becomes and why it is refused, and `PrintedTrees` what is measured;
  `PromptLeak` is the longest common run of words; `CheckDigits` the Luhn, IBAN and social-security checks.
- **Bounded relaxations and runners.** `Quota` is the metered counter under concurrent callers; `ObservationWindows` and
  `ProxyReplies` the observation windows and what the model proxy relays under them; `Migrations` the schema runner
  under interleaving and crashes.

Modelling conventions. A table is a sequence of rows and each statement, or each locked transaction, is one step: the
reads and the writes of one call are separate steps wherever calls interleave. A write takes effect at its commit, and
one that is rolled back takes no step. Clock readings, generated identifiers, faults, the judge's answers and the
detectors' findings are parameters of the steps, hence arbitrary. SHA-256 is any function from texts to digests, and the
binding theorems take the hypothesis that no two of the finitely many texts hashed in the case at hand collide; Ed25519
is any check of signatures, and they assume of it only that the one signature which the last witness presents is no
forgery. Fields such as the time of each signature, the call that consumed an approval, or the last opening of a window
are history kept in the rows so that the theorems can speak of it.

## Results that differ from the documentation

- One approval can let two overlapping calls of `authorize` through: both look it up, both resolve it, and the one whose
  `consume` answers False is allowed all the same (`core/decision.py:524-545`). `ApprovalCases.TwoCallsOneApproval`
  exhibits the run; `ApprovalRuns.RepeatIffConsumedMeanwhile` and `ApprovalRuns.SharedApprovalsNeedOverlap` say exactly
  when: another call consumed the approval between the lookup of this call and its answer.
- `find_active` matches tenant, tool and arguments only, so the quorum is the one of the call that created the approval:
  a call that demands two people is served by one signature if an earlier call demanded one
  (`ApprovalCases.QuorumIsThatOfTheRow`). A call is let through by as many people as it demands exactly if the record
  that `find_active` returned requires as many (`ApprovalRuns.DemandedQuorumIff`), that is, exactly if the approval was
  inserted with as many, by the call or the other door that created it (`ApprovalHistory.QuorumIsTheCreators`).
- `decide` writes on the row without a guard, from a copy that it read before (`core/approvals.py:195-217`), and
  decisions come over concurrent connections (`api/approvals.py:57-68`). So a refusal can be overwritten and the call
  allowed (`ApprovalCases.RefusalIsOverwritten`), an expired approval can be approved
  (`ApprovalCases.ExpiredApprovalRevives`), a spent one can become pending again and lose its signatures
  (`ApprovalCases.SpentApprovalReopens`), and a signature given after the window closed can then count
  (`ApprovalCases.LateSignatureCounts`). An approval only moves forward exactly if every decision that writes on it is
  clean: its write repeats what is there, or the row is still pending and unconsumed and nobody else signed since the
  read (`ApprovalHistory.RowOnlyAdvancesIff`). That is so whenever the row is still as the decision read it
  (`ApprovalHistory.UndisturbedIsClean`), and then the status is what the decisions say in the order in which they are
  written (`ApprovalHistory.StatusIsThatOfTheDecisions`). The signatures are all in time exactly if each was checked
  before the window closed (`ApprovalHistory.TimelyIff`), which clean writes ensure. In every run, clean or not, an
  allowance rests on a version of the approval that was approved by exactly as many distinct people as it requires, each
  of whom had decided so (`ApprovalHistory.HumanAllowsRestOnSignatures`).
- A window that expired without being closed makes the next `open_window` fail on the unique index instead of opening a
  new window (`supabase/migrations/0017_monitor_windows.sql:29-31`); `ObservationWindows.WindowTable.OpenWindow` states
  exactly when, and `ObservationWindows.ExpiredWindowBlocksReopening` gives the table.
- `signature_valide` checks a witness under the public key that the witness itself carries
  (`core/checkpoints.py:318-330`). So for every intact journal and every key pair there are witnesses that pass
  (`TamperEvidence.AnyKeyPasses`): verification pins what was signed only for a reader who checks that the key is the
  one that he trusts, which is what `Checkpoints.WitnessBinding` and `TamperEvidence.HonestHistoryIsPinned` name.

## Model

| member | source | states |
|---|---|---|
| JsonText.TextSplit | core/audit.py:181-210 | A value followed by a delimiter is read back in one way only: null, booleans, integers, strings, lists and objects stay apart at any depth. |
| JsonText.TextInjective | core/audit.py:181-210 | Two trees with the same canonical text are the same tree. |
| JsonText.RecordInjective | core/audit.py:181-210 | Two objects over the same fixed keys with the same text agree value by value. |
| Timestamps.CanonicalTsInjective | core/audit.py:160-178 | Two instants with the same canonical text are the same instant, with and without microseconds. |
| Formats.TextIsCompact | core/audit.py:181-210 | The text spelled out: objects and lists without spaces, keys and strings between quotation marks, literals as JSON has them. |
| Formats.EscapeIsExact | core/audit.py:181-210 | Seven short escapes, the rest of printable ASCII as it is, and every other character as the hexadecimal of its UTF-16 code units, two of them outside the basic plane. |
| Formats.CanonicalTsFormat | core/audit.py:160-178 | The instant as year, month, day, hour, minute and second, with six digits of microseconds only when there are any, and `+00:00`. |
| Formats.PayloadFormat | core/audit.py:181-210 | The hashed text of an event is its twelve columns under their own names, in the order of the names. |
| Formats.ClaimFormat | core/checkpoints.py:156-193 | The hashed text of a witness is its eight signed fields under their own names. |
| Formats.EventFormat | core/extension_devices.py:126-133 | The hashed text of a workstation event is its identity and source, and its payload with the time of reception. |
| HashChain.SplitInput | core/audit.py:228-229 | `prev_hash + payload` splits in one way only, because the payload starts with a brace and no previous hash contains one. |
| HashChain.Binding | core/audit.py:228-229 | Two valid chains that end in the same hash are the same chain, link for link, when no two of their hashed texts collide. |
| HashChain.ChainedIff | core/audit.py:395-412 | A chain is valid exactly if every link names the hash of the one before, or `GENESIS`, and carries the hash of that name followed by its body. |
| Journal.PayloadInjective | core/audit.py:181-210 | Two events with the same hashed payload agree on all twelve columns. |
| Journal.Bounded | core/audit.py:116-136 | A declared field is bounded to 200 characters and absent exactly when it was not given; nothing raises. |
| Journal.BoundedIsExact | core/audit.py:116-136 | A missing field is absent; a text of at most 200 characters is kept; of a longer one its first 199 characters and an ellipsis are. |
| Journal.VerifyChain | core/audit.py:379-413 | The loop over the dictionary of last hashes answers ok exactly when every row follows the last row of its tenant, and names the first row that does not. |
| Journal.FirstBrokenIsFirst | core/audit.py:379-413 | No id is reported exactly if every row names the hash of the last row of its tenant and carries the hash of that name and its payload; otherwise it is the id of the first row that does not. |
| Journal.IntactIsChained | core/audit.py:379-413 | On one tenant's rows the verification is exactly the hash chain of the payloads. |
| Journal.VerificationDecomposes | core/audit.py:379-413 | Verifying all tenants at once is ok exactly when each tenant's own rows verify, and the reported id is the smallest of the tenants' own reports. |
| Journal.AppendKeepsChains | core/audit.py:283-345 | A write extends its tenant's chain by one valid link and leaves every other tenant's chain alone. |
| Journal.AuditLog.LogEvent | core/audit.py:232-345 | One row is appended, each of its columns that of the request, the declared ones bounded before hashing; every chain that verified still verifies and other tenants' rows are unchanged. |
| Checkpoints.ClaimInjective | core/checkpoints.py:156-193 | The signed text of a witness determines its eight fields. |
| Checkpoints.Verify | core/checkpoints.py:354-436 | The loop and the confrontation give the answer of the specification: the first fault in the order of the code, or `truncated`, or a differing hash, or ok. |
| Checkpoints.WitnessesPassIff | core/checkpoints.py:354-402 | The witnesses pass exactly if each names the hash of the one before, or `GENESIS`, carries the hash of that name and its digest, the digest of its own claim, a valid signature, and counts no fewer entries; otherwise the first that does not is named, with the first of these that fails. |
| Checkpoints.VerdictIff | core/checkpoints.py:403-436 | Once they pass: `truncated` exactly if fewer rows than attested stand up to the attested id, or none has that id; ok exactly if enough do and the one with that id has the attested hash. |
| Checkpoints.VerdictOtherwise | core/checkpoints.py:354-410 | No witness, or a last one of an empty chain, is ok whatever the journal holds; a fault of the witnesses is the answer whatever it holds. |
| Checkpoints.SameHashSameWitness | core/checkpoints.py:376-398 | Two passing witnesses with the same chained hash make the same claim after the same witness. |
| Checkpoints.WitnessListBinding | core/checkpoints.py:354-402 | Two lists of witnesses that both pass and end in the same hash make the same claims, one by one and in the same order, when no two of their hashed texts collide. |
| Checkpoints.OtherWitnessesFail | core/checkpoints.py:354-402 | With any witnesses before the last deleted, replaced or put in another order, verification fails. |
| Checkpoints.SignedClaim | core/checkpoints.py:318-330 | A witness that passes verification, and whose signature is no forgery, repeats, field for field, a claim that was signed. |
| Checkpoints.WitnessBinding | core/checkpoints.py:354-436 | When the chain and the witnesses both verify, and the signature of the last witness is no forgery, the journal starts with exactly the entries that were signed, and the id that the witness names is the id of the last of them. |
| Checkpoints.TamperingIsSeen | core/checkpoints.py:354-436 | If the journal no longer starts with the attested entries, at least one of the two verifications fails. |
| Checkpoints.RemovalIsTruncation | core/checkpoints.py:403-436 | Removing any attested entries, and adding any others after them, makes verification answer `truncated` with the number of missing entries. |
| WitnessRuns.NoFalseAlarm | core/checkpoints.py:196-271 | In every honest interleaving every chain verifies, no `record` is refused, every answer of `verify` is ok and the counts of a tenant's witnesses never decrease. |
| WitnessRuns.HonestWitnessesAttest | core/checkpoints.py:212-271 | Every witness of an honest run attests a verified prefix of its tenant's chain at every later moment, although `record` does not take the writers' lock. |
| WitnessRuns.LastHashRead | core/checkpoints.py:196-209 | The hash read by id is the hash of the counted prefix whatever was written between the two reads. |
| WitnessDesk.CountAndLast | core/checkpoints.py:196-204 | The count and the greatest id are those of the tenant's chain. |
| WitnessDesk.WitnessTable.Record | core/checkpoints.py:212-271 | A broken chain is refused with its first broken id and nothing is written; a verified one is attested whole by one witness under the key of the signer, chained to the one before, and verification passes right after. |
| TamperEvidence.SigningsAreGenuine | core/checkpoints.py:212-271 | Every use of the key in an honest run signs a claim about rows with which the tenant's chain starts for ever after. |
| TamperEvidence.HonestHistoryIsPinned | core/checkpoints.py:212-436 | After an honest run, for any tables whatever: if the last witness names the run's key and its signature is no forgery, a verification fails or the table still starts with the very rows that the run counted in that witness. |
| TamperEvidence.HonestWitnessesPass | core/checkpoints.py:212-436 | On the witnesses and rows of any honest run those hypotheses hold and both verifications pass. |
| TamperEvidence.RecordIsARun | core/checkpoints.py:212-271 | A `record` that nothing interrupts is a run that adds one witness of the whole chain, and one use of the key. |
| TamperEvidence.VerifyIsARun | core/checkpoints.py:354-436 | A `verify` that nothing interrupts is a run that answers what the specification says of the tables, and changes neither. |
| TamperEvidence.HypothesesAreMet | core/checkpoints.py:212-436 | A run, a hash and a key pair for which all those hypotheses hold together, with a row, a use of the key and witnesses that pass. |
| TamperEvidence.AnyKeyPasses | core/checkpoints.py:318-330 | Under any key pair some witnesses of any intact journal pass verification, so the key itself has to be checked. |
| ExtensionEvents.EventTextInjective | core/extension_devices.py:126-133 | Tenant, device, event, source, payload and reception time are determined by the hashed text. |
| ExtensionEvents.EventStore.Record | core/extension_devices.py:136-171 | A known event with the same content changes nothing, with other content is a conflict, and a new one is chained. |
| ExtensionEvents.EventStore.IngestBatch | api/extension_ingest.py:52-73 | A batch is stored whole or leaves no trace. |
| ExtensionEvents.EventStore.Verify | core/extension_devices.py:174-188 | The loop answers whether the stored events form a hash chain. |
| ExtensionEvents.RecordedIff | core/extension_devices.py:136-171 | A delivery is refused exactly when a stored event has its device and identifier and another source or payload, whenever each was received. |
| ExtensionEvents.BatchAcceptedIff | api/extension_ingest.py:52-73 | A batch is accepted exactly when no event of it has the key and other content of a stored one or of an earlier one of the batch. |
| ExtensionEvents.DeliveryIsExactlyOnce | core/extension_devices.py:136-188 | For every schedule of retried, overlapping and conflicting batches the table holds each accepted event once, as it was first accepted, and its chain verifies. |
| ExtensionEvents.RetryChangesNothing | core/extension_devices.py:136-171 | Delivering again what was accepted, at any time and in any grouping, is accepted and changes nothing. |
| PolicyEngine.RaiseTo | core/policy.py:481-495 | The result is the least verdict that is at least as strict as both. |
| PolicyEngine.RaiseToLattice | core/policy.py:392-495 | Guards may be folded in any order, and a guard changes a verdict only when it is stricter. |
| PolicyEngine.SeverityOrder | core/policy.py:392-400 | The order of the verdicts: auto, notify, one person, two people, denial. |
| PolicyEngine.ConstraintsOk | core/policy.py:460-468 | The loop answers whether every declared constraint holds; one that cannot be enforced does not. |
| PolicyEngine.RaiseByConstraints | core/policy.py:471-478 | The loop raises to human review exactly when a dry run is declared. |
| PolicyEngine.RuleIsHonoured | core/policy.py:544-580 | A violated constraint denies; otherwise the verdict is at least the rule's, at least human review under a dry run, and at least human review when the arguments resolve to a dangerous class. |
| PolicyEngine.RuleIsExact | core/policy.py:544-580 | A tool with a rule, exactly: a violated constraint denies with the declared class; otherwise the verdict is the least that is at least the rule's own, a human under a dry run and a human when the arguments resolve to a dangerous class; the class is what they resolve to, none while ambiguous, or the declared one. |
| PolicyEngine.UnknownToolIsExact | core/policy.py:544-558 | A tool without a rule, exactly: recognized under automatic classification, the class recognized and the approval that the tenant declares for it, or else auto for reads and writes and a human for the others; otherwise no class and what the tenant declares for unknown tools. |
| PolicyEngine.RuleForIsFirst | core/policy.py:295-299 | The rule of a tool is the first one that bears its name, and there is none exactly when none does. |
| PolicyEngine.UnknownToolsAreHeld | core/policy.py:544-558 | A tool without a rule is held or denied unless automatic classification is on and its name is recognized. |
| PolicyEngine.FirstRuleDecides | core/policy.py:334-344 | The class is that of the first argument rule that holds. |
| PolicyEngine.NoRuleTakesTheCeiling | core/policy.py:334-344 | When no argument rule holds, the class is the declared ceiling. |
| Guards.Judge.Classify | core/judge.py:82-121 | The counters and the class are those of the specification: over budget the model is not asked, and a failed or unusable answer is irreversible and credited to nobody. |
| Guards.Judge.Narrate | core/judge.py:123-131 | A narrative spends the same budget, is refused over it, and is credited with nothing. |
| Guards.ResolveAmbiguous | core/judge.py:172-219 | The outcome and the judge's counters are those of the specification, the three reasons kept apart. |
| Guards.ResolvedIsExact | core/judge.py:172-219 | A call that is not ambiguous is left alone; without a judge, over its budget, or when it fails, the class is irreversible, for three different reasons; otherwise it is the model's; a dangerous class raises the verdict to a human. |
| Guards.JudgeBudget | core/judge.py:49-131 | Over any run of classifications and narratives the model is asked once per question until the budget is spent, and credited with exactly the classes that it gave within it. |
| Guards.BlastRadius | core/risk.py:50-63 | The loop with its early return gives 15 exactly when some text names everyone, else the points of the widest fan-out. |
| Guards.WorstFinding | core/risk.py:66-75 | The loop that stops at the first secret gives 25 with a secret anywhere, else 15 with personal data, else 0. |
| Guards.RiskScoreIsExact | core/risk.py:25-86 | The score: the weight of the class, the widest fan-out over distinct addresses and lists, the worst finding anywhere, and ten points for a pair not seen before, capped at 100. |
| Guards.RiskScoreIsMonotone | core/risk.py:50-86 | A riskier class, more argument texts or longer lists, or a pair not seen before never lower the score, which stays within 100. |
| Guards.TrustNeverTightens | core/risk.py:93-136 | More earned trust never raises the tier, and no trust lets an irreversible action that is scored run unattended. |
| Guards.EscalationIsExact | core/risk.py:93-136 | Only an unattended verdict under declared bands is scored, less 30 points after five clean approvals; it gets the tier of its band, and at least a human for an irreversible action. |
| Guards.ExternalSendsEarnTheirWay | core/risk.py:25-136 | Under the default bands an external send stays unattended exactly when trust was earned, the pair was seen, and nothing is a recipient or sensitive; a first one that carries a secret is denied. |
| Guards.TightenIsExact | core/entitlements.py:424-484 | It denies exactly the outcomes left to auto or notify whose class is neither read nor write, with the reason of the meter, and leaves every other outcome as it is. |
| Guards.ApplyGuards | core/decision.py:153-256 | The guarded outcome of `authorize`, as it reassigns it, is that of the specification under every failure of its reads. |
| Guards.ReadingIsExact | core/decision.py:153-256 | The judge is asked only about an ambiguous call, and only if it was sold, its own meter is not capped and the entitlement was loaded; the decision meter counts exactly if the reading was not cut short by the load or by the commit that follows the question. |
| Guards.ScoringIsExact | core/decision.py:188-235 | The score is taken of the verdict after the judge; a trust lookup that fails counts as a new pair without a streak. |
| Guards.GuardsOnlyTighten | core/decision.py:153-256 | Whatever the judge, the trust history and the meters answer or fail to answer, the final verdict is at least as strict as the policy's. |
| Guards.DangerousIsHeld | core/judge.py:172-219 | A call that needed a classification and ends up external or irreversible ends at a human or stricter. |
| Guards.UnattendedNeedsTheJudge | core/judge.py:172-219 | An ambiguous call runs unattended only if the model itself, within its budget, classified it as read or write. |
| Guards.ClosedPlanClosesRisk | core/decision.py:236-256 | When the meter was read and is capped or unknown, exactly the external, irreversible and unclassified actions left to run unattended are denied; an open or unread meter leaves the verdict of the earlier guards. |
| Approvals.ApprovalStore.FindActive | core/approvals.py:102-112 | The latest unconsumed row of the action, or none when there is none. |
| Approvals.ApprovalStore.ExpireIfNeeded | core/approvals.py:161-174 | The new table and the record read again: only an unconsumed pending or approved row expires. |
| Approvals.ApprovalStore.ConsumeOnce | core/approvals.py:177-184 | True exactly on the first call; the row keeps its first consumer. |
| Approvals.ApprovalStore.Sign | core/approvals.py:187-219 | When nothing interrupts it: a refusal, or one more distinct signer and approval exactly at the quorum; a decided, expired or absent row is left as it is. |
| Approvals.WriteAdvancesIff | core/approvals.py:202-216 | The unguarded write of a decision, from any copy, changes the row as it is meant to change exactly when it repeats what is there, or the row is still pending and unconsumed and nobody else signed since the copy was read. |
| Approvals.OverwriteOk | core/approvals.py:202-216 | However old the copy, the row keeps its action and its consumption, carries no more signatures than required, and is approved with exactly that many. |
| Approvals.DecideIsVoteOn | core/approvals.py:187-219 | A decision that nothing interrupts changes its own row only, as the decision on that row says. |
| Approvals.DecideIsExact | core/approvals.py:187-219 | Column by column: another tenant's approval and a settled one stay as they are, one whose window closed unconsumed expires, a refusal denies, and a signature joins those of other people and approves exactly when there are then as many as required. |
| Approvals.PendingWhileUndecided | core/approvals.py:198-217 | After any decisions given in time one after another a row is pending exactly while nobody refused and fewer distinct people signed than required, and its signers are then exactly those who signed. |
| Approvals.FirstSettlingVoteDecides | core/approvals.py:198-217 | Among such decisions the first that settles the row gives its status: a refusal denies it at once, the signature that completes the quorum approves it, and signing twice counts once. |
| Approvals.DecideKeeps | core/approvals.py:187-219 | A decision that nothing interrupts keeps every row sound, and only advances every row that is not both pending and consumed, with its signatures in time. |
| Approvals.ConsumeKeeps | core/approvals.py:177-184 | Consuming keeps every row sound, and only advances the row consumed. |
| ApprovalRuns.ApprovalsAreSound | core/decision.py:507-545 | Whatever decisions overwrite: no approval carries more signatures than it requires, an approved one carries exactly that many; its terminal audit row is attempted at most once, and only after it was consumed. |
| ApprovalRuns.AllowIsJustified | core/decision.py:258-468 | Every `allow` under every schedule of faults and overlapping decisions: auto or notify with its audit row written, or an approval of the same tenant, tool and arguments read as approved by exactly the people it requires, or a read or write while the approval service is down and the tenant declared so. |
| ApprovalVerdicts.VerdictsAreExact | core/decision.py:258-545 | Every answer of every run, both ways: hold exactly when the refreshed record was pending or one was just inserted; after resolving, allow exactly when the record is approved, and deny otherwise; unattended, allow exactly for auto or notify with the row written; in an outage exactly for a read or a write of a tenant that declared so. |
| ApprovalVerdicts.HeldAfterInserting | core/decision.py:402-440 | A call that holds without a record had found no unconsumed one, and inserted one for as many people as its verdict demands. |
| ApprovalVerdicts.ResolvedAfterCheck | core/approvals.py:161-174 | A record is resolved only after its expiry check, and is then as the check left it. |
| ApprovalVerdicts.FirstAllowanceIsInTime | core/decision.py:507-545 | The first call that an approval lets through checked its window before it closed, if every decision written until then was clean. |
| ApprovalRuns.HumanVerdictsNeedHumans | core/decision.py:129-399 | From the policy to the verdict: what the policy or the classification sends to a human is allowed only through such an approval or that declared outage. |
| ApprovalRuns.DemandedQuorumIff | core/approvals.py:102-112 | Every call allowed through an approval is allowed by as many people as it demands exactly if the record found requires as many. |
| ApprovalRuns.RepeatIffConsumedMeanwhile | core/decision.py:507-545 | The approval that lets a call through was consumed between the lookup of that call and its answer, by another call exactly when this one was not its first consumer. |
| ApprovalRuns.SharedApprovalsNeedOverlap | core/decision.py:402-468 | Two calls that one approval lets through overlap in time, and at most one of them consumed it. |
| ApprovalHistory.ApprovalsDescend | core/approvals.py:161-219 | Over any stretch of any run no approval is removed, changes its action, its quorum or its window, or loses its first consumer. |
| ApprovalHistory.CopiesAreVersions | core/approvals.py:102-174 | Every record that a call holds is the row as it was at one named moment of the run. |
| ApprovalHistory.RowOnlyAdvancesIff | core/approvals.py:187-219 | Over any stretch of any run: the status of an approval only moves forward, signatures are only added while it is pending, and it never changes once consumed, exactly if every decision that writes on it is clean. |
| ApprovalHistory.CleanRowIsTidy | core/approvals.py:161-219 | If every write so far was clean, a pending row is not consumed and every signature is in time. |
| ApprovalHistory.SignersDecided | core/approvals.py:195-216 | Every signer of every version of an approval had decided to approve it; a late signature came after a write that was not clean. |
| ApprovalHistory.TimelyIff | core/approvals.py:161-216 | Every version of an approval carries only signatures in time exactly if each of them was checked before the window closed. |
| ApprovalHistory.HumanAllowsRestOnSignatures | core/decision.py:402-545 | Every allowance through people rests on a version of the approval that was approved, with exactly the required number of distinct signers, each of whom had decided so; all in time when the writes until then were clean. |
| ApprovalHistory.RowsAreInserted | core/decision.py:402-440 | Every approval was inserted by a held call, whose verdict fixed how many people it requires, or by another door to the same table. |
| ApprovalHistory.QuorumIsTheCreators | core/approvals.py:102-112 | A call was allowed by as many people as it demands exactly if the approval, for the same tenant, tool and arguments, was inserted with as many: by a held call that demanded as many, or by another door. |
| ApprovalHistory.UndisturbedIsClean | core/approvals.py:187-219 | If the row is still as it was read whenever a decision writes on it, every write is clean. |
| ApprovalHistory.DecisionsAreVotes | core/approvals.py:187-219 | Then the row has expired, or is what its decisions make of it in the order in which they were written, each given in time. |
| ApprovalHistory.StatusIsThatOfTheDecisions | core/approvals.py:187-219 | Then, unless it expired, it is pending exactly while nobody refused and too few distinct people signed, and the first decision that settles it gives its status. |
| ApprovalCases.TwoCallsOneApproval | core/decision.py:524-545 | A run in which one signature lets two overlapping calls through. |
| ApprovalCases.QuorumIsThatOfTheRow | core/approvals.py:102-112 | A run in which a call that demands two people is let through by one signature, because an earlier call for the action had demanded one. |
| ApprovalCases.RefusalIsOverwritten | core/approvals.py:202-216 | A run in which an approval is refused, then approved by a decision that had read it pending, and the call is allowed. |
| ApprovalCases.ExpiredApprovalRevives | core/approvals.py:208-216 | A run in which an approval expires between the read and the write of a decision, and is then approved. |
| ApprovalCases.SpentApprovalReopens | core/approvals.py:208-216 | A run in which an approval signed by two people and consumed becomes pending again with the signature of a third alone. |
| ApprovalCases.LateSignatureCounts | core/approvals.py:161-216 | A run that goes on with a signature after the window closed, on which `poll` answers allow. |
| HoldDesk.Desk.HoldForHumans | core/decision.py:402-468 | The table and the answer are those of the specification: a new hold, the standing hold, or the resolution of the settled record. |
| HoldDesk.Desk.PollOnce | core/decision.py:471-493 | An unknown approval is absent and changes nothing; otherwise expiry, then the hold or the resolution. |
| HoldDesk.Desk.ResolveTerminal | core/decision.py:507-545 | Allow exactly when the record is approved and deny otherwise, whoever consumed it; only the first consumer audits. |
| HoldDesk.SettleIsExact | core/decision.py:441-545 | A record found by a call or a poll, column by column: an unconsumed one past its window expires; pending is hold, approved allow, denied and expired deny; what is settled is consumed unless it was. |
| HoldDesk.HoldIsExact | core/decision.py:402-468 | A held call that nobody interrupts inserts an approval for as many people as its verdict demands exactly when there is no unconsumed one for the action, and otherwise settles the latest. |
| HoldDesk.PollIsExact | core/decision.py:471-493 | A poll that nobody interrupts is absent exactly for an approval that the tenant does not have, and otherwise settles it. |
| HoldDesk.HoldIsARun | core/decision.py:402-468 | A call that nobody interrupts is a run of the machine with the same table and the same answer. |
| HoldDesk.PollIsARun | core/decision.py:471-493 | So is a poll that nobody interrupts. |
| HoldDesk.SignIsARun | core/approvals.py:187-219 | So is a decision that nobody interrupts; it is a conflict exactly when the refreshed row is not pending. |
| DeveloperRuns.ConsumedExactlyOnce | core/developer_approvals.py:96-140 | With lookup, expiry, second read and guarded update interleaved, `consumed` is answered at most once per approval, only for the same tenant, device, policy, version and action, and only if at that moment it stood approved by the one person it requires, unconsumed, requested less than five minutes before. |
| DeveloperRuns.RequestsAreIdempotent | core/developer_approvals.py:39-93 | Two answers to one request of a device name the same approval, and both requests carried the same binding. |
| DeveloperAnswers.RepliesAreExact | core/developer_approvals.py:39-140 | Every reply of every run, both ways: a request is refused exactly because the policy was not in force, its row carries another binding, or another call inserted it since the lookup; a consumption is refused exactly when no such approval is bound to the caller, and consumed exactly when the refreshed record was approved and the row still stands approved, unexpired and unconsumed; what is shown otherwise is the status read. |
| DeveloperDesk.Desk.Ask | core/developer_approvals.py:39-93 | The table and the answer of `request` are those of the specification, refusals included. |
| DeveloperDesk.Desk.Spend | core/developer_approvals.py:96-140 | The table and the answer of `consume_if_approved` are those of the specification. |
| DeveloperDesk.AskIsExact | core/developer_approvals.py:39-93 | A first request inserts an approval for one person and five minutes; a repetition under the same policy, version and action is shown its status; another binding is a conflict and changes nothing. |
| DeveloperDesk.SpendIsExact | core/developer_approvals.py:96-140 | Consumed exactly for an approval bound to the caller that is approved, unconsumed, and unexpired at both clock readings; not bound to the caller is not found; of any other the status after the expiry check is shown. |
| DeveloperDesk.RetryFindsTheSameApproval | core/developer_approvals.py:39-93 | Whatever was decided since, the same request is answered with the same approval, and a changed binding is refused and changes nothing. |
| DeveloperDesk.SpentOnce | core/developer_approvals.py:96-140 | What was consumed was approved, bound and unexpired at both clock readings, and is never consumed again, whatever is decided later. |
| DeveloperDesk.AskIsARun | core/developer_approvals.py:39-93 | A request that nobody interrupts is a run of the machine with the same table and the same answer. |
| DeveloperDesk.SpendIsARun | core/developer_approvals.py:96-140 | So is a consumption that nobody interrupts. |
| Spans.MergeSpans | core/extension_redaction.py:63-71 | The loop gives the merge of the sorted spans. |
| Spans.MergeIsExact | core/extension_redaction.py:63-71 | The merged spans are in order, disjoint, cover exactly the union of the found spans, and each carries the rule of a found span that starts there. |
| Spans.MergeJoinsOverlaps | core/extension_redaction.py:65-71 | Merged spans part between two positions exactly if no found span reaches across: overlapping spans are one and touching ones stay two. |
| Spans.MergedRulesAreLeast | core/extension_redaction.py:65-71 | A merged span is counted under the rule of the least found tuple that starts there. |
| Spans.TupleOrder | core/extension_redaction.py:65-69 | The order in which the found spans are sorted: by start, then by end, then by rule, character by character. |
| Spans.ReplaceSpans | core/extension_redaction.py:81-91 | The text, the count and the kinds are those of the pieces kept and the masks written. |
| Spans.PiecesExact | core/extension_redaction.py:81-91 | On disjoint spans no span is skipped: one mask per span, and exactly the uncovered characters survive, in order. |
| Spans.RedactionIsExact | core/extension_redaction.py:63-91 | After merging and replacing, a character survives, in its place, exactly when no found span covered it. |
| Dlp.DedupeOverlaps | core/dlp.py:277-293 | The loop keeps the findings of the specification, sorted by start. |
| Dlp.OverlapIff | core/dlp.py:259-260 | Two findings overlap exactly when they share a position. |
| Dlp.DroppedOverlapsEarlier | core/dlp.py:277-293 | Every dropped finding overlaps a kept one that comes earlier in the catalogue order. |
| Dlp.DedupedRedactionIsExact | core/dlp.py:277-321 | Replacing the kept findings masks each once and keeps exactly the characters that none of them covers. |
| Dlp.ScanRequest | core/dlp.py:365-391 | Block wins over redact, which wins over flag; a body is rebuilt exactly when something is to be redacted, with exactly those findings masked, every other character kept, and the unscanned rest after it. |
| Cleaning.CleanedTextIsExact | core/extension_redaction.py:73-94 | Cleaning one text keeps every character outside the found spans, counts one replacement per merged span, and leaves nothing to find. |
| CleanedTrees.VisitIsExact | core/extension_redaction.py:73-138 | `visit` succeeds exactly on the trees that can be cleaned within the budget; the result is related to the tree node by node: lists of the same length, objects with the same keys in order, inspected texts masked, sensitive scalars replaced, protocol values and other scalars equal, an attachment one text block of its cleaned heading, metadata and text; and the counters grow by what there was to count. |
| CleanedTrees.RenditionIsRead | core/extension_redaction.py:97-121 | The text of an attachment: its heading, then the title and the context if they are texts, each on its line, then what was extracted; none beyond four attachments, for bad metadata or a failed extraction. |
| CleanedBodies.VisitFailsExactly | core/extension_redaction.py:73-138 | A refused visit names the fault of the first thing, in the order of the visit, that cannot be cleaned. |
| CleanedBodies.CleanIsExact | core/extension_redaction.py:33-150 | `clean` refuses a body for its size, its syntax or its messages, and any other exactly if its inspected fields cannot be cleaned within the budget or the result is too large; otherwise these become what the relation says, every other field is untouched, and the count is that of the masks and of the sensitive values replaced. |
| PrintedTrees.DumpSizeIsExact | core/extension_redaction.py:139-150 | The size compared with the limit is the number of UTF-8 bytes of the printed tree. |
| Cleaning.VisitSettles | core/extension_redaction.py:73-138 | A successful visit leaves a tree with no finding in any inspected string, no attachment, no hidden reasoning, and no scalar under a sensitive key but the replacement. |
| Cleaning.FixedIffSettled | core/extension_redaction.py:73-138 | Within the budgets, the trees that a visit leaves alone are exactly those. |
| Cleaning.ChargedFitsDump | core/extension_redaction.py:77-79 | The inspected text of a tree is no longer than its printed form. |
| Cleaning.SourceNamesAreNeutral | core/extension_redaction.py:96-137 | The names that the cleaner writes are neutral for the protocol keys and block types of the source, given that the detectors find nothing in `text`. |
| Cleaning.CleanSettles | core/extension_redaction.py:33-150 | A successful `clean` returns an object with settled inspected fields, within the size limit. |
| Cleaning.CleanIsIdempotent | core/extension_redaction.py:33-150 | Cleaning the result of `clean` succeeds with the same tree, nothing counted and no attachment read, for any detectors and whatever the attachment reader would answer. |
| Cleaning.SourceCleanIsIdempotent | core/extension_redaction.py:33-150 | The same with the protocol keys, block types and inspected fields of the source, given that the detectors find nothing in `type` and `text`. |
| Cleaner.Run.VisitValue | core/extension_redaction.py:73-138 | `visit` with its shared counters gives the outcome and the counters of the specification, every refusal included. |
| Cleaner.Run.VisitObject | core/extension_redaction.py:97-137 | Attachments become text, hidden reasoning is refused, signed thinking is kept or refused, and other objects are visited entry by entry. |
| Cleaner.Clean | core/extension_redaction.py:33-150 | `clean` gives the result of the specification on every body. |
| PromptLeak.LeakedSpan | core/prompt_leak.py:109-135 | It returns `k` exactly when `k` is the greatest length of a contiguous run common to both texts, of at most 4000 words or cut there, and reaches the threshold; it returns nothing exactly when every common run is shorter. |
| PromptLeak.CellIsCommon | core/prompt_leak.py:126-134 | A cell of the table is the length of a common run that ends there. |
| PromptLeak.CommonFitsCell | core/prompt_leak.py:126-134 | No common run that ends there is longer than the cell. |
| PromptLeak.LongestIsSymmetric | core/prompt_leak.py:109-135 | The measure does not depend on which text is the prompt. |
| CheckDigits.LuhnOk | core/dlp.py:96-107 | The two loops accept exactly the numbers of 13 to 19 digits whose weighted sum is a multiple of ten. |
| CheckDigits.LuhnSumByPlace | core/dlp.py:96-107 | The sum place by place from the right, every second digit doubled and reduced by nine. |
| CheckDigits.LuhnCheckDigit | core/dlp.py:96-107 | Of the ten completions of a number exactly one is accepted, the digit that brings the sum to a multiple of ten. |
| CheckDigits.LuhnDetectsOneCharacter | core/dlp.py:96-107 | Another digit in the place of one digit of an accepted text is never accepted. |
| CheckDigits.LuhnDetectsSwaps | core/dlp.py:96-107 | An accepted number survives the swap of two neighbours exactly when they are equal or are 0 and 9. |
| CheckDigits.IbanDetectsOneCharacter | core/dlp.py:110-117 | On the text as found, with any spacing and in either case, an accepted IBAN is refused after any digit-for-digit or letter-for-letter substitution. |
| CheckDigits.NumberIsDecimal | core/dlp.py:110-117 | The number taken modulo 97 is the decimal value of the text with A to Z written as 10 to 35. |
| CheckDigits.IbanCheckDigits | core/dlp.py:110-117 | A country, two digits and an account are accepted exactly if the digits are congruent to 98 less the remainder of the number with zeros in their place. |
| CheckDigits.NirDetectsOneDigit | core/dlp.py:120-132 | On the text as found, an accepted social-security number, Corsican or not, is refused after any change of one digit, of the body or of the key. |
| CheckDigits.NirKey | core/dlp.py:120-132 | A body and a key are accepted exactly if the body counts as digits and the key, between 1 and 97, completes its number to a multiple of 97. |
| CheckDigits.NirBodyAt | core/dlp.py:128-129 | The two replacements, position by position: 2A counts as 19, 2B as 18, everything else as itself. |
| Quota.OpenBelowCeiling | core/entitlements.py:279-296 | Ok exactly below the limit, grace exactly from there to below the ceiling, unknown exactly without a limit or a count; open exactly below the ceiling. |
| Quota.Ceiling | core/entitlements.py:139-148 | The ceiling is the greatest whole number that exceeds the limit by no more than the percentage of grace. |
| Quota.Counter.Debit | core/entitlements.py:316-350 | The new total, or nothing changed when the statement fails. |
| Quota.Counter.FluxAllows | core/entitlements.py:391-421 | Alone, it debits one exactly when it answers that the meter was open, and never passes the ceiling. |
| Quota.OvershootIsBounded | core/entitlements.py:391-421 | In every interleaving the counter grows by exactly the granted acts, and passes the ceiling by at most the number of concurrent callers less one. |
| Quota.BoundIsReached | core/entitlements.py:391-421 | For every limit and every number of callers some run reaches that bound. |
| ObservationWindows.WindowTable.ActiveWindow | core/monitor.py:125-133 | An active window of the agent, or none when there is none. |
| ObservationWindows.WindowTable.OpenWindow | core/monitor.py:71-110 | Refused, extended, opened or stopped by the index, each exactly when; it stops on the index exactly when the agent has an unclosed window that has expired. |
| ObservationWindows.WindowTable.CloseWindow | core/monitor.py:113-122 | It closes the window, and changes nothing else of it, exactly when it is the tenant's and still unclosed. |
| ObservationWindows.ExpiredWindowBlocksReopening | supabase/migrations/0017_monitor_windows.sql:29-31 | A table in which an agent cannot be observed again before its expired window is closed. |
| ObservationWindows.TouchedBy | core/monitor.py:71-110 | The last opening or extension of every window is a step of the run by its own agent, with the clock reading that the window carries. |
| ObservationWindows.ObservationIsBounded | core/monitor.py:71-133 | In every interleaving of openings, extensions and closings, whatever the clocks, an agent that is observed had a window opened or extended by an earlier step, less than the configured hours before. |
| ObservationWindows.OpeningObserves | core/monitor.py:71-133 | A new window observes its agent until its hours are over; so does an extension exactly when the window was not closed meanwhile. |
| ObservationWindows.OpeningTakesEffect | core/monitor.py:71-110 | In every interleaving an opening writes for the agent, the hours and the clock with which it was called: the window found gets the new end, or one is added unless an unclosed one is there; then the agent is observed until that end, unless the window found was closed meanwhile. |
| ObservationWindows.ClosingEnds | core/monitor.py:113-133 | After its unclosed window is closed the agent is observed at no clock. |
| ObservationWindows.ClosingEndsObservation | core/monitor.py:71-133 | In every interleaving it stays so until a later step opens or extends a window of that agent. |
| ProxyReplies.Proxy.Drop | api/llm_proxy.py:222-234 | The row appended, the judge after it, and whether the call is removed. |
| ProxyReplies.Proxy.Process | api/llm_proxy.py:210-269 | The relayed reply and the audit rows of both provider styles are those of the specification. |
| ProxyReplies.SieveIsExact | api/llm_proxy.py:222-260 | The rows are the named calls in order, the survivors are exactly those whose row stands, and everything else is untouched. |
| ProxyReplies.RelayIsExact | api/llm_proxy.py:210-269 | The same for whole replies of either style, and a call that the policy did not allow stands only under observation as a read or a write. |
| ProxyReplies.RowsSayWhatWasDecided | api/llm_proxy.py:184-234 | The k-th row says allow, notify, hold or deny exactly as the policy, and the judge as earlier calls left it, decide of the k-th named call, with its class. |
| ProxyReplies.PolicyDecides | api/llm_proxy.py:184-234 | Of a call that is not ambiguous the row says allow exactly if `evaluate` gives auto, and without observation it is relayed exactly then. |
| ProxyReplies.SieveKeepsOrder | api/llm_proxy.py:222-260 | What is kept of a list is the list without the calls whose row does not stand, everything else in its place. |
| ProxyReplies.RewritingIsExact | api/llm_proxy.py:236-269 | Message by message and block by block: a message left without calls and text gets the note, a reply that announced a tool use and carries none ends its turn with it, all else is untouched. |
| ProxyReplies.ToolUseIsNotAnnouncedInVain | api/llm_proxy.py:250-268 | A reply left with stop reason `tool_use` still carries a tool use. |
| ProxyReplies.RelaxationIsBounded | api/llm_proxy.py:361-382 | Over every run of the windows, a call that the policy did not allow is relayed only if it is a read or a write and an earlier step opened or extended a window of its agent, less than the configured hours before. |
| Migrations.PendingIsExact | core/migrate.py:291-294 | The plan is exactly the files that the ledger does not record, in order. |
| Migrations.PlanIsExact | core/migrate.py:291-352 | A directory that no longer matches the ledger ends the run with nothing applied; otherwise the plan is the pending files. |
| Migrations.ContiguousPrefix | core/migrate.py:411-418 | The length of the prefix of present sentinels, or nothing exactly when one is missing before one that is present. |
| Migrations.Runner.ApplyPlan | core/migrate.py:316-352 | The files before the first one that raises are recorded and each run once more for every time it stands in the plan; nothing else changes, and the one that raised is named. |
| Migrations.LedgerIsTheHistory | core/migrate.py:247-426 | Under every interleaving of runners, failures and crashes no file runs twice, the ledger records a file exactly when it was run or adopted, and it records the first files of the directory, as far as the runners came, and the adopted ones. |
| Migrations.NoHoleIff | core/migrate.py:291-426 | The recorded files are the first ones of the directory without a hole exactly when no file that precedes an adopted one is pending. |
| Migrations.RecordedIsNotRun | core/migrate.py:291-352 | What the ledger records, by adoption or by a run, is never executed again. |
| Migrations.RunnersExclude | core/migrate.py:247-267 | Two runners never work together. |
| Migrations.CompletionIsFinal | core/migrate.py:331-352 | Once a runner has completed, nothing is pending and every later plan is empty. |
| Migrations.AdoptionIsExact | core/migrate.py:383-426 | Adopting succeeds exactly when the present sentinels form a prefix of the baseline, then records exactly the files of those sentinels and runs nothing. |
| Migrations.FullAdoption | core/migrate.py:383-426 | A run for any baseline: adopting a database that shows every sentinel records the whole baseline and leaves everything else pending. |
| Migrations.FullAdoptionLeavesAHole | core/migrate.py:129-180 | With the baseline that ships, 0016 is then pending although 0034 is recorded. |

## Left out

- Text: lone surrogates, naive datetimes and the conversion to UTC, floats inside hashed payloads, and Unicode digits;
  `char` ranges over Unicode scalar values and digits are the ASCII ones.
- SHA-256, Ed25519, base64 and key decoding: a parameter each, with the hypotheses named above.
- SQL, row-level security, connection pools and lock queues: only the row effects, the guards in `where` clauses, the
  unique indexes, the advisory locks and the commit points are represented. Identity columns only promise that a
  tenant's ids grow.
- The unhashed columns of the audit log, the debit in the audit transaction, metrics, durations and log lines.
- The decision of a person enters with one clock reading, that of its expiry check; the entry in the approval chain that
  the route adds after it, and the earlier check of the route, are not modelled.
- What the MCP gateway and the workstations answer: on the table of approvals their calls insert, expire and consume in
  any interleaving (`Outside` in `ApprovalRuns`), and only the cooperative door's answers and audit rows are represented
  there.
- The redacted summaries and dry runs of approvals, and the notifier: no verdict depends on them.
- The hash of the arguments: an approval is bound to the hash, not to the arguments behind it.
- Parsing of policies, the name heuristics, the operators of argument predicates and the address matching of
  `allowed_domains`: arbitrary functions of the value; the parser's guarantees appear as `Parsed`.
- Guards.RiskScore: the address pattern, the wildcard test and the detectors are arbitrary functions of a text.
- Cleaning.CleanIsIdempotent: on decoded trees; that `json.loads` reads back what `json.dumps` printed, the regular
  expressions and the extraction of attachments are not modelled, nor are the formats that the result lists. Protocol
  keys, block types and the heading above an attachment are parameters.
- CheckDigits.IbanDetectsOneCharacter: which characters are dropped and how letters outside ASCII are raised is a
  parameter.
- Dlp.ScanRequest: on the decoded text; the replacement of undecodable bytes, the digests of the findings and the
  inactive policy, which returns an empty result, are not modelled.
- PromptLeak.LeakedSpan: lower-casing and cutting into words happen before it.
- ProxyReplies.RelayIsExact: replies whose choices or blocks are not objects, usage and billing records, and streaming
  are not modelled.
- Quota: one tenant, metric and period with a fixed limit; overrides and plan changes are not modelled, nor are
  `stock_allows` and the loading of entitlements.
- Migrations: checksums and the manifest are one nondeterministic refusal, file contents are not modelled, and the
  statement that creates the ledger table if it is missing changes nothing that is represented.
- Registration and disconnection of workstations, whose tables no theorem here mentions.
- The MCP gateway apart from its use of the approvals table, the other hash chains (approval chain, control plane, plan
  changes), reporting, pricing, telemetry, profiles, role maps, the command line and the user interface.
