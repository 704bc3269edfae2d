# Verification of QM's text editing, protocols and aggregations

The model covers sixteen pieces of the repository whose correctness is not visible in any single
function. Each is written in the form the source has: scanners, stores and protocol participants are
loops and classes, proved equal to specification functions; pure recursions stay functions; protocols
are step relations over which every interleaving is quantified.

| group | modules | source |
|---|---|---|
| Editing a commented configuration file in place | `JsonText`, `JsonRoundTrip`, `JsoncBlanking`, `JsoncDocument`, `ConfigScan`, `TextEdits`, `ConfigUpdate`, `ConfigRoundTrip`, `ConfigTheorems`, `ConfigResults`, `ConfigInsertion`, `ConfigAnyText` | `cli/src/config.ts` |
| Static analysis of approval patterns | `ApprovalSyntax`, `ApprovalScan`, `ApprovalWalk`, `ApprovalFlat`, `ApprovalMatching`, `ApprovalProbe`, `ApprovalNeighbours`, `ApprovalBounds`, `ApprovalTargets`, `ApprovalAnchoring`, `ApprovalCommands`, `ApprovalShapes`, `ApprovalFactor`, `ApprovalUncounted`, `ApprovalRejection` | `cli/src/sandbox-layer.ts` |
| Steering a run while it ends | `SteerProtocol`, `SteerOutcomes` | `src/api/app-turn.ts`, `src/api/app-helpers.ts`, `src/wiring.ts` |
| The deploy lease | `DeployLease` | `cli/src/aws-lease.ts` |
| The buffered audit relay | `AuditRelay` | `src/egress-authz-main.ts` |
| Compare-and-replace of grants | `GrantStore` | `src/acl/acl-store.ts` |
| The ambient cursor | `AmbientCursor` | `src/api/app-ambient.ts` |
| Canonical JSON | `CanonicalJson` | `cli/src/util.ts` |
| `.env` files and the secret template | `TextLines`, `EnvFile`, `SecretTemplate` | `cli/src/util.ts`, `cli/src/secrets.ts` |
| Terraform variables and their drift | `HclText`, `TerraformVars`, `TerraformBlocks`, `TerraformLines`, `TerraformPreserved`, `TerraformTheorems`, `TerraformStrings`, `TerraformDrift`, `TerraformIntrusions`, `TerraformReading` | `cli/src/terraform.ts` |
| Secret routing | `SecretRouting`, `SecretSources`, `SecretOrder` | `cli/src/secrets.ts` |
| SMTP replies in chunks | `SmtpReplies` | `cli/src/preflight.ts` |
| Retention figures | `Retention`, `RetentionFigures` | `src/admin/retention.ts`, `src/admin/attribution.ts` |

Where their characters matter, texts are sequences of UTF-16 code units; session and principal ids
are opaque. Clocks, random holders, deliveries of requests, the judge,
the person who decides, locale order and the results of probing a character class are parameters
that range over everything.

How the configuration proof is built: a document is a syntax tree that keeps every gap (white space
and comments) and prints to its exact text. The two blanking passes are shown to act on the tree
(`StripsDocument`, `ParsesConfig`), the scanner to find the offsets that the tree predicts
(`FindsObject`), sorted edits applied from the right to be a splice (`ApplySplices`), and the splice
to print an edited tree, which then denotes the edited value.

## What the code does where a stated property stops holding

Each of these is proved, with the exact condition where there is one.

- Inserting an absent top-level object yields text that parses if and only if the root object has no
  trailing comma (`InsertionParses`).
- A key that is repeated in the file keeps its old value: the first occurrence is edited and the
  last one counts (`UpdateSets`, `CoreEnvSets`).
- `stripTrailingCommas` is idempotent if and only if no comma stands in front of a trailing comma
  (`CommaProperties`, `StackedExample`).
- `canonicalJson` prints an undefined array element like null; otherwise it is unambiguous
  (`CanonicalIsUnambiguous`, `UndefinedElementLooksLikeNull`).
- Rendering Terraform variables again changes nothing if and only if no preserved assignment lacks
  its value (`RenderAgain`, `EmptyValueGrows`). A string with U+2028 or U+2029 can start a line as the
  search sees it; strings read back if and only if none of them assigns a later one that way
  (`StringsReadBack`, `SeparatorDrifts`).
- `sameGrantSet` decides equality of multisets if and only if the current grants have no repetition
  (`SameSetIsMultisetEquality`), which replacements with distinct keys guarantee (`KeysStayDistinct`).
- The state behind an SMTP reply is the same for every way to cut the data if and only if nothing
  complete follows the reply. A further reply that arrives in a piece of its own while nobody reads is
  taken off the buffer and lost; in one piece with the first it stays in the buffer (`ChunkingMatters`,
  `FurtherReplyIsLost`).
- All orders of a list of declarations give a secret the same routes if and only if nothing declares
  the secret, or what only joins it adds nothing (`OrdersAgree`). A plugin listed in front of the one
  that declares `CORE_SIGNING_SECRET` loses it where no first-party service declares it
  (`PluginOrderMatters`). Loading a configuration demands the core (`cli/src/config.ts:543`), which
  declares it, so among loaded configurations order is irrelevant (`LoadedConfigsAgree`).
- The judge is given a message as new again if and only if no stamped message of others has been read;
  the cache takes no message without a stamp (`src/surface-cache/surface-cache.ts:114` and `353`), so this
  does not happen (`NewAgainExactly`, `StampedIsNeverNewAgain`).
- A steer that carries its request comes to nothing if and only if the process that holds it crashes or
  its re-issued turn throws or answers without a run; the replay loop goes on over both
  (`src/api/app-helpers.ts:495-501`). One that waits on an ended run whose keeper crashed is found by the
  sweeper (`LostExactly`, `LostInCrash`, `LostInTurn`, `StrandedInCrash`). A process crashes in this
  sense also when its own `send`, its read of the run or its `takePending` throws.
- The count of ambiguous alternatives misses pairs that match the same text when a quantified atom
  stands among the compared ones: `(?:a*b|b)` in a row of n keeps the factor at one and matches a text
  of n letters in 2^n ways (`FactorMissesWays`). Where no quantified atom comes before the last
  compared one, and that one must match, no pair is missed (`MatchesAreAmbiguous`), and the factor
  bounds the matches (`WithinBudget`).
- Which patterns are rejected is said of their syntax alone (`TooSlowExactly`). Of a group with
  alternatives only the first that ends with a quantified item is compared with what follows, so
  `(?:x+|y+)y+` is accepted (`SecondEndEscapes`).
- The probe for an atom's characters takes classes for ASCII that hold other characters, so a class of
  one such character repeated twice in a row is accepted (`ClassEscapes`); it is right if and only if no
  atom that it takes for ASCII matches another character (`SoundExactly`).

## Model

| member | source | states |
|---|---|---|
| JsonText.QuoteRoundTrip | cli/src/config.ts:342 | what `JSON.stringify` writes for any string, lone surrogates included, decodes to that string |
| JsonRoundTrip.ParsesDocument | cli/src/config.ts:276 | `JSON.parse` of any printed strict syntax tree, with white space around it, is the value the tree denotes |
| JsoncBlanking.ScanString | cli/src/config.ts:283-289 | the loop stops behind the first unescaped quote or reports an unterminated string |
| JsoncBlanking.SkipWs | cli/src/config.ts:278-281 | the loop stops at the first character that is no white space |
| JsoncBlanking.StripJsonComments | cli/src/config.ts:240-260 | the loop computes the blanked text, or fails exactly on an unterminated literal outside comments |
| JsoncBlanking.StripProperties | cli/src/config.ts:240-260 | blanking keeps the length, changes only comment characters and these to spaces, keeps every literal at its offset, leaves no comment, and is idempotent |
| JsoncBlanking.NoNewOpener | cli/src/config.ts:249-256 | a character that opened no comment opens none once what follows it has been blanked |
| JsoncBlanking.StripTrailingCommas | cli/src/config.ts:262-274 | the in-place loop, which looks ahead in the text it is changing, computes the blanked text or reports an unterminated literal |
| JsoncBlanking.CommaProperties | cli/src/config.ts:262-274 | the pass keeps the length and all literals, changes only commas outside literals, to spaces; it is idempotent if and only if no commas are stacked |
| JsoncBlanking.StackedExample | cli/src/config.ts:262-274 | `[,,]` becomes `[, ]`, so a second pass would change it again |
| JsoncDocument.StripsDocument | cli/src/config.ts:240-260 | blanking the printed document prints the same tree with blanked gaps of equal length |
| JsoncDocument.CommasValue | cli/src/config.ts:262-274 | the second pass turns the printed tree into the printed strict tree, every piece at its offset |
| JsoncDocument.ParsesConfig | cli/src/config.ts:276 | parsing any document of the commented grammar, trailing commas included, gives the value its tree denotes |
| ConfigScan.ScanValue | cli/src/config.ts:291-307 | the loop returns the end of a literal, of a balanced group or of a scalar, or the right error |
| ConfigScan.FindsValueEnd | cli/src/config.ts:291-307 | on any printed value the scan ends exactly behind it, whatever brackets its strings hold |
| ConfigScan.ObjectProps | cli/src/config.ts:315-336 | the loop returns the spans of all properties and both braces, or the error of the first malformed place |
| ConfigScan.FindsObject | cli/src/config.ts:315-336 | on a printed object behind a gap the spans are those of its entries, with decoded keys |
| ConfigScan.FindsNoObject | cli/src/config.ts:316-317 | on any other printed value the scan reports that it is no object |
| TextEdits.SortDescends | cli/src/config.ts:362 | sorting puts edits with distinct starts in strictly descending order and keeps them all |
| TextEdits.DescendingUnique | cli/src/config.ts:362 | there is only one such order |
| TextEdits.ApplySplices | cli/src/config.ts:363-364 | applying disjoint edits from the last to the first is one splice of the original text |
| TextEdits.SpliceKeeps | cli/src/config.ts:363-364 | every character outside the edited spans is kept, moved by the edits in front of it |
| ConfigUpdate.Find | cli/src/config.ts:343 | the first property with the key is found, or none |
| ConfigUpdate.CollectEdits | cli/src/config.ts:346-356 | the loop collects one replacement for each present key and one insertion for all absent ones |
| ConfigUpdate.MakeEdits | cli/src/config.ts:362-365 | sorting and splicing in a loop computes the specified application of edits |
| ConfigUpdate.UpdateConfigStringMap | cli/src/config.ts:338-366 | the update computes the specified text or the error of the scan that failed |
| ConfigUpdate.UpdateConfigCoreEnv | cli/src/config.ts:374-402 | the same for `env.core` |
| ConfigRoundTrip.SortsEdits | cli/src/config.ts:346-362 | edits collected in the order of the updates, once sorted, are the reverse of their order in the text |
| ConfigRoundTrip.SplicesObject | cli/src/config.ts:346-364 | splicing the edits of an object prints the object with its entries set and everything around it unchanged |
| ConfigTheorems.DenotesSetObject | cli/src/config.ts:346-356 | an edited object has the new value for each updated key that is not repeated, and its old members otherwise |
| ConfigTheorems.ReplacesChild | cli/src/config.ts:363-364 | replacing an entry's value replaces exactly its text in the printed object |
| ConfigResults.UpdatesObject | cli/src/config.ts:343-366 | for every document with the property, the update succeeds and prints the edited tree as a splice of disjoint edits, or reports that the property is no object |
| ConfigResults.UpdateSets | cli/src/config.ts:338-366 | parsing the result gives the old settings with exactly the requested entries set, whenever the key is not repeated |
| ConfigResults.UpdatesCore | cli/src/config.ts:374-402 | the update of `env.core` succeeds and is a splice of disjoint edits that prints the edited tree |
| ConfigResults.CoreEnvSets | cli/src/config.ts:374-402 | parsing the result changes exactly the requested entries of `env.core` and nothing beside it; where `env` or `core` is repeated, the settings stay as they were |
| ConfigResults.CoreEnvErrors | cli/src/config.ts:376-384 | a root or `env` that is no object, a missing `env` and a missing `core` are reported as such |
| ConfigAnyText.UpdateSplices | cli/src/config.ts:338-366 | whatever text the update accepts, malformed ones included, its result is the text with the collected edits spliced in, none overlapping another |
| ConfigAnyText.CoreUpdateSplices | cli/src/config.ts:374-402 | the same for `env.core` |
| ConfigInsertion.InsertsText | cli/src/config.ts:357-361 | for an absent key, the text is the old one with the new property spliced in before the root's closing brace |
| ConfigInsertion.InsertionSets | cli/src/config.ts:357-365 | without a trailing comma at the root, parsing the result gives the old settings and a new object with exactly the requested entries |
| ConfigInsertion.InsertionFails | cli/src/config.ts:358-361 | with one, the result does not parse |
| ConfigInsertion.InsertionParses | cli/src/config.ts:338-366 | for an absent key, the result parses if and only if the root has no trailing comma |
| ApprovalScan.FindReference | cli/src/sandbox-layer.ts:326 | the search reports a numbered or named backreference if and only if one stands somewhere |
| ApprovalScan.ScanClass | cli/src/sandbox-layer.ts:497-504 | the inner loop ends behind the first unescaped closing bracket |
| ApprovalScan.SplitAlternatives | cli/src/sandbox-layer.ts:352-374 | the loop cuts the text at every bar at depth zero outside classes |
| ApprovalScan.BranchShape | cli/src/sandbox-layer.ts:375-416 | the loop computes a branch's character domains and whether it may be empty |
| ApprovalScan.CountAlternatives | cli/src/sandbox-layer.ts:423-430 | the double loop counts the pairs of branches of which one seems skippable or all compared atoms overlap |
| ApprovalScan.MarkAtomOn | cli/src/sandbox-layer.ts:467-480 | marking an atom updates the top frame and, if it is quantified, all open frames, or rejects |
| ApprovalScan.ApprovalPatternTooSlow | cli/src/sandbox-layer.ts:325-588 | the loop over a stack of frames decides the specified scan |
| ApprovalWalk.ScanIs | cli/src/sandbox-layer.ts:481-587 | on any printed piece, the scan of the characters rejects or arrives behind the piece exactly as a walk over its syntax does, with the same frames and budget |
| ApprovalWalk.TooSlowIsWalk | cli/src/sandbox-layer.ts:325-588 | a printed pattern is rejected if and only if it holds a reference or the walk over its syntax rejects it |
| ApprovalFlat.AcceptedIsFlat | cli/src/sandbox-layer.ts:549-558 | an accepted pattern has no quantifier and no choice inside a quantified group, and its groups' ambiguity factors multiply to at most 1024 |
| ApprovalRejection.TooSlowExactly | cli/src/sandbox-layer.ts:325-588 | a printed pattern is rejected if and only if it shows a backreference, or a quantified group holds a quantifier or a choice, or one more than the number of its alternatives' ambiguous pairs, multiplied over all groups, exceeds 1024, or a quantified item follows another one with only anchors, assertions and group borders between them and may take a character of its end; of a group with alternatives the first that starts or ends with a quantified item counts |
| ApprovalRejection.FactorIsPairs | cli/src/sandbox-layer.ts:352-430 | the factor of a group is one more than the number of pairs of its alternatives of which one holds a group or shows no atom that must match, or whose atoms may all take common characters |
| ApprovalRejection.NeighboursShareNothing | cli/src/sandbox-layer.ts:467-480 | where the probe is right, no character is matched by both such neighbours |
| ApprovalRejection.SecondEndEscapes | cli/src/sandbox-layer.ts:544-569 | behind a group of two quantified alternatives only the end of the first is compared, so the second one's atom, quantified again behind the group, is accepted |
| ApprovalProbe.SoundExactly | cli/src/sandbox-layer.ts:332-346 | the probe names every character an atom matches if and only if no atom that it takes for ASCII matches another character |
| ApprovalProbe.SaysExactly | cli/src/sandbox-layer.ts:341-344 | an atom is taken for ASCII if and only if it is an ASCII character but the dot, one of the listed escapes, or a class of characters and such escapes that is not negated |
| ApprovalProbe.ClassEscapes | cli/src/sandbox-layer.ts:341-344 | a class of one character beyond ASCII counts as ASCII, and two repetitions of it in a row are accepted |
| ApprovalShapes.ShapeOfBranch | cli/src/sandbox-layer.ts:375-416 | the scan of a printed branch collects the domains of the atoms in front of its first group |
| ApprovalShapes.MatchesAreAmbiguous | cli/src/sandbox-layer.ts:417-422 | two alternatives that match from one start are counted as ambiguous, if no compared atom but the last is quantified and the last must match |
| ApprovalFactor.MatchingAlternatives | cli/src/sandbox-layer.ts:423-430 | of alternatives comparable in this sense, at most as many match from one start as the group's factor says |
| ApprovalFactor.WithinBudget | cli/src/sandbox-layer.ts:549-554 | an accepted pattern that is no choice at its top, where the code charges no bars, and whose groups have comparable alternatives matches from any start of a text of length n in at most F(n+1)^q ways, F at most 1024 |
| ApprovalUncounted.FactorMissesWays | cli/src/sandbox-layer.ts:417-430 | n groups in a row, each of a starred letter in front of a second letter or the second letter alone, are accepted with factor one and match a text of n second letters in 2^n ways |
| ApprovalBounds.OneTry | cli/src/sandbox-layer.ts:558 | a piece without quantifier and choice has exactly one match path |
| ApprovalBounds.RepeatsBound | cli/src/sandbox-layer.ts:558 | repeating such a piece has at most one path for each number of repetitions that make progress |
| ApprovalBounds.AcceptedIsPolynomial | cli/src/sandbox-layer.ts:325-588 | an accepted pattern with q quantifiers and B branch selections has, on any text of length n and from any start, at most B(n+2)^q paths, of which at most B(n+1)^q match |
| ApprovalTargets.RawApprovalTargetsTool | cli/src/sandbox-layer.ts:592-620 | the loop with depth, class and escape flags accepts exactly the texts that start with the tool's name between word boundaries and have no bar at depth zero |
| ApprovalTargets.TargetsExactly | cli/src/sandbox-layer.ts:592-618 | a printed pattern counts as targeting its tool if and only if it starts with `\b`, the tool's escaped name and `\b` and is no choice at its top |
| ApprovalTargets.SplitsAlternatives | cli/src/sandbox-layer.ts:352-374 | splitting a printed pattern gives the source texts of its alternatives |
| ApprovalTargets.BarMeansChoice | cli/src/sandbox-layer.ts:594-618 | the scan sees a bar at depth zero if and only if the pattern is a choice at its top |
| ApprovalAnchoring.TargetedMatchesTool | cli/src/sandbox-layer.ts:592-620 | every match of a pattern accepted as targeting its tool begins with the tool's name, up to case, between word boundaries |
| ApprovalAnchoring.SpelledMatches | cli/src/sandbox-layer.ts:590 | the escaped text matches exactly its own characters, up to case, in exactly one way |
| ApprovalAnchoring.CompiledPrints | cli/src/sandbox-layer.ts:622-628 | the compiled text is the source text of a pattern of the modelled syntax |
| ApprovalCommands.CompiledMatchesExactly | cli/src/sandbox-layer.ts:622-628 | a compiled command matches from i to j if and only if a word boundary stands at i, the tool's name and the command's words stand between with white space between them, and a word boundary, white space or the end follows at j |
| ApprovalCommands.WordsAreRead | cli/src/sandbox-layer.ts:623 | a command of words with white space in front, between and behind has exactly these words |
| SteerProtocol.SignalStore.Send | src/runs/run-signal-store.ts:25-30 | sending appends one pending signal |
| SteerProtocol.SignalStore.TakePending | src/runs/run-signal-store.ts:31-35 | taking returns the run's pending signals in order and leaves exactly the other runs' |
| SteerProtocol.ReplayOrphanedRunSignals | src/api/app-helpers.ts:483-504 | the loop takes all of the run's signals, issues exactly the requests of those that carry one, in order, and reports each that is no abort |
| SteerProtocol.TakenAt | src/runs/run-signal-store.ts:25-35 | what is taken at each place is the run's row with as many of the run's rows in front of it: exactly the run's signals, in the order in which they were sent |
| SteerProtocol.KeptAt | src/runs/run-signal-store.ts:25-35 | the rows of other runs stay, in their order |
| SteerProtocol.AllTaken | src/runs/run-signal-store.ts:25-35 | as many signals are taken as the run has rows, and all others are kept |
| SteerProtocol.IssuedAt | src/api/app-helpers.ts:486-496 | the requests that are issued are exactly those of the steers that carry one, in the order of the signals |
| SteerProtocol.AllIssued | src/api/app-helpers.ts:486-496 | as many requests are issued as steers carry one |
| SteerProtocol.ListedAt | src/api/app-helpers.ts:485-503 | the result has one entry for each signal but the aborts, in their order, with the run that its turn gave, if any |
| SteerProtocol.AllListed | src/api/app-helpers.ts:485-503 | as many entries are listed as there are signals but aborts |
| SteerProtocol.ReplaysInOrder | src/api/app-helpers.ts:483-504 | signals that wait in the order in which they were begun are taken, issued and listed in that order |
| SteerProtocol.KeepsInvariant | src/api/app-turn.ts:326-349 | every step of senders, consumers, terminations, hooks and sweeps keeps the protocol's invariant |
| SteerProtocol.ExactlyOnePlace | src/api/app-turn.ts:326-349 | in every interleaving a begun signal is in exactly one place: in hand, stored, consumed, issued again, issued in vain, dropped or lost; one that carries its request is never dropped |
| SteerProtocol.NoLostWakeup | src/wiring.ts:1172-1174 | without crashes, once all senders, hooks and sweeps have finished, nothing waits on an ended run and every steer with a request was consumed, issued again or in vain, or waits on a live run; in vain only if a turn threw or gave no run |
| SteerOutcomes.LostExactly | src/api/app-helpers.ts:486-502 | in every finished run, a steer with a request that waits on no live run was neither consumed nor issued again if and only if its holder crashed, its turn threw or gave no run, or it is stranded on an ended run whose keeper crashed |
| SteerOutcomes.LostInCrash | src/api/app-helpers.ts:486 | a run in which the process that has taken the steer crashes |
| SteerOutcomes.LostInTurn | src/api/app-helpers.ts:495-501 | a run without crashes in which the turn throws or gives no run |
| SteerOutcomes.StrandedInCrash | src/api/app-turn.ts:328-340 | a run in which the sender crashes between its send and its second look |
| SteerProtocol.OnlyItsConsumer | src/api/app-turn.ts:492-508 | a signal that waits on a live run is taken by that run's consumer and by nobody else |
| SteerProtocol.SweepRecovers | src/wiring.ts:1214-1228 | after any crash, one look of the sweeper at an ended run takes all that waits on it |
| SteerProtocol.ReplaysAll | src/api/app-helpers.ts:486-502 | the protocol's replay steps sort what was taken by the answers of its turns |
| SteerProtocol.ResultsTell | src/api/app-helpers.ts:485-503 | what the loop returns lists with a run exactly the signals issued again, and without one those issued in vain and those without a request |
| DeployLease.Table.PutItem | cli/src/aws-lease.ts:29-40 | the conditional put changes the item if and only if it reaches the table and the item is absent or expired |
| DeployLease.Table.UpdateItem | cli/src/aws-lease.ts:71-84 | the conditional update extends the item if and only if it reaches the table and the item names the holder |
| DeployLease.Table.DeleteItem | cli/src/aws-lease.ts:104-115 | the conditional delete removes the item if and only if it reaches the table and the item names the holder |
| DeployLease.AcquireAwsLease | cli/src/aws-lease.ts:24-66 | a lease is returned if and only if the put was confirmed, and then renews |
| DeployLease.RenewAwsLease | cli/src/aws-lease.ts:68-96 | the timer is cleared if and only if the table answered that somebody else is named |
| DeployLease.ReleaseAwsLease | cli/src/aws-lease.ts:98-119 | the timer is cleared, and the item deleted if it still names the holder |
| DeployLease.OneHolder | cli/src/aws-lease.ts:24-119 | in every interleaving, with requests and answers lost at will, the item names the process inside its window, so no two processes are inside theirs at once |
| DeployLease.OthersCannotTake | cli/src/aws-lease.ts:37 | no step of another process, and no expiry, changes the item of the process inside its window |
| DeployLease.SuccessorKeepsItem | cli/src/aws-lease.ts:24-119 | in every run, until an item's time has passed or its own holder writes, no renewal or release of former holders, no acquire and no expiry changes it |
| DeployLease.FreeUntilTaken | cli/src/aws-lease.ts:36-49 | once there is no item, whatever comes in between, the first put that arrives takes it, and its process holds if and only if it is answered |
| DeployLease.LeftLeaseIsTaken | cli/src/aws-lease.ts:24-47 | over every run in which its holder writes no more, a lease lasts no longer than its time: the next process that asks behind it takes the item if its put arrives, and holds if it is answered |
| DeployLease.HolderRenews | cli/src/aws-lease.ts:67-99 | in every reachable state, a renewal by a process inside its window extends the item if it arrives, and the process goes on holding, from the new stamp if it is answered |
| DeployLease.ReleaseFrees | cli/src/aws-lease.ts:101-124 | a release that arrives frees an item that names the process for the first put behind it, and changes no other item |
| AuditRelay.RelaySink.Record | src/egress-authz-main.ts:213-220 | a record is buffered if there is room and counted as dropped otherwise |
| AuditRelay.RelaySink.BeginFlush | src/egress-authz-main.ts:185-190 | the part of the flush before its await takes no records out and lets no second flush start |
| AuditRelay.RelaySink.EndFlush | src/egress-authz-main.ts:199-209 | the part behind the await removes the acknowledged records, resets the counter, or keeps everything after a failure |
| AuditRelay.NothingMislaid | src/egress-authz-main.ts:182-222 | in every interleaving, accepted records are the acknowledged and then the buffered ones, a batch under way is the front of the buffer, the buffer holds at most 5000, and calls are acknowledged, buffered, dropped or reported |
| AuditRelay.OrderKept | src/egress-authz-main.ts:213-220 | acknowledged and buffered records come in the order of the calls |
| AuditRelay.KeepsWhatHasRoom | src/egress-authz-main.ts:184-219 | in every interleaving, exactly the records given while fewer than 5000 are buffered are acknowledged or buffered, in order, and exactly the others are counted as dropped |
| AuditRelay.FlushRemovesItsBatch | src/egress-authz-main.ts:189-204 | whatever is recorded during the await, a good answer removes exactly the batch that was sent, and a failure nothing |
| GrantStore.IsSameGrantSet | src/acl/acl-store.ts:101-103 | the loops decide equal length and inclusion |
| GrantStore.SameSetIsMultisetEquality | src/acl/acl-store.ts:101-103 | this decides equality of multisets for every expectation if and only if the current grants have no repetition |
| GrantStore.Persistence.Put | src/acl/acl-store.ts:116-118 | a grant is added unless one with its key is there |
| GrantStore.Persistence.Remove | src/acl/acl-store.ts:119-123 | splicing from the back removes exactly the grants with the key and keeps the order of the rest |
| GrantStore.KeptAt | src/acl/acl-store.ts:119-123 | the grants that stay are exactly those without the four parts of the key, in their order |
| GrantStore.AllKept | src/acl/acl-store.ts:119-123 | none of them is removed |
| GrantStore.Persistence.ReplaceForResourceIfCurrent | src/acl/acl-store.ts:124-132 | compare, splice out, append, or leave the array alone |
| GrantStore.ReplaceGrantsIfCurrent | src/acl/acl-store.ts:162-173 | refuses non-managers and grants of other resources without effect, and otherwise is the store's replacement |
| GrantStore.ReplaceIfCurrent | src/acl/acl-store.ts:124-132 | succeeds if and only if the resource's grants are the expected multiset, then leaves exactly the replacement there; other resources keep their grants |
| GrantStore.SecondWriterLoses | src/acl/acl-store.ts:124-132 | of two calls with one snapshot, a first success that changes the set makes the second fail without effect |
| GrantStore.ReplaceKeepsKeys | src/acl/acl-store.ts:124-132 | a replacement with distinct keys keeps the keys of the whole store distinct |
| GrantStore.KeysStayDistinct | src/acl/acl-store.ts:116-132 | any sequence of puts, removals and such replacements keeps all keys distinct |
| AmbientCursor.Container.AdvanceCursor | src/api/app-ambient.ts:65-71 | the cursor moves to the latest stamp that was read, unless nothing was, the stamp is empty or the write fails |
| AmbientCursor.Container.JudgeAmbientContainer | src/api/app-ambient.ts:43-178 | one call moves the cursor and asks the judge as specified |
| AmbientCursor.GivenExactly | src/api/app-ambient.ts:55-64 | unless the batch is held or ambient is off, the judge is given exactly the new messages of others that are not handled, not of an ignored bot and no mention |
| AmbientCursor.GivenInOrder | src/api/app-ambient.ts:58-69 | they are given in the order in which they are read, each once, bots that count as users shown as such |
| AmbientCursor.HeldExactly | src/api/app-ambient.ts:73-84 | a batch is held if and only if there are new messages and each is of a rollup bot whose hours, 24 if none are set, have not passed since the last judgment |
| AmbientCursor.CursorExactly | src/api/app-ambient.ts:66-84 | unless the batch is held or the write fails, the cursor moves to the latest stamp that is read of others, if there is one; otherwise it stays |
| AmbientCursor.GivenIsNew | src/api/app-ambient.ts:55-64 | what the judge is given as new stands behind the old cursor, is from others, and after a good write is not behind the new cursor |
| AmbientCursor.CursorAdvances | src/api/app-ambient.ts:65-71 | the cursor never moves back |
| AmbientCursor.HeldStaysNew | src/api/app-ambient.ts:76-85 | a held rollup batch leaves the cursor alone, and all its messages behind it |
| AmbientCursor.NothingLeftBehind | src/api/app-ambient.ts:65-71 | a call that is not held leaves no message of others behind the cursor |
| AmbientCursor.NeverJudgedTwice | src/api/app-ambient.ts:113-177 | over any sequence of calls with good writes, later new messages have later stamps than earlier ones |
| AmbientCursor.NewAgainExactly | src/api/app-ambient.ts:53-71 | from an unset cursor and with good writes, a given message is new again if and only if no stamped message of others has been read |
| AmbientCursor.StampedIsNeverNewAgain | src/surface-cache/surface-cache.ts:353 | as the cache takes only messages with a stamp, nothing that was given is new again |
| CanonicalJson.ParsesCanonical | cli/src/util.ts:170-180 | parsing the canonical text gives the value with sorted keys, without undefined members and with null for undefined elements |
| CanonicalJson.NormalIsSame | cli/src/util.ts:170-180 | two values have the same parsed form if and only if they are equal up to key order and undefined members |
| CanonicalJson.LessExactly | cli/src/util.ts:176 | keys are sorted by the first code unit in which they differ, a prefix in front |
| CanonicalJson.CanonicalIsUnambiguous | cli/src/util.ts:170-180 | canonical texts are equal if and only if the values are, in this sense |
| CanonicalJson.UndefinedElementLooksLikeNull | cli/src/util.ts:172 | an undefined element and null are not told apart |
| EnvFile.File.ReadEnvFile | cli/src/util.ts:216-228 | the loop gives each variable the value of its last line |
| EnvFile.RewriteLoop | cli/src/util.ts:244-254 | the loop replaces the variable's first line, drops its others and appends if there was none |
| EnvFile.File.WriteEnvValue | cli/src/util.ts:230-257 | bad names and values with line breaks change nothing; otherwise the content is the rewritten one and the permissions are kept, private for a new file |
| EnvFile.EntryReads | cli/src/util.ts:220-225 | the written line is read as the variable with the value less its trailing white space |
| EnvFile.AssignsExactly | cli/src/util.ts:219-225 | any line assigns a variable if and only if it has white space, the name, white space and `=`, and its value is what stands behind, trimmed at the end |
| EnvFile.NameExactly | cli/src/util.ts:187 | a name is not empty, starts with no digit, and has ASCII letters, digits and underscores only |
| EnvFile.WriteThenRead | cli/src/util.ts:216-257 | reading after a write gives the old map with the variable set to the value less its trailing white space |
| EnvFile.WriteKeepsLines | cli/src/util.ts:237-254 | lines of other variables keep text and order; exactly one line for the variable remains |
| EnvFile.WritePlaces | cli/src/util.ts:244-254 | the new line stands where the variable's first one stood, or comes last if there was none |
| EnvFile.WriteTwice | cli/src/util.ts:230-257 | writing twice is writing once |
| SecretTemplate.RenderEnvExample | cli/src/secrets.ts:574-616 | the loops render the specified template |
| SecretTemplate.TrimmedReads | cli/src/secrets.ts:615 | trimming the end of a file does not change what is read from it |
| SecretTemplate.TemplateNamesRequired | cli/src/secrets.ts:574-616 | reading the rendered template gives exactly the required secrets that an operator manages, each with an empty value |
| SecretTemplate.TemplateShows | cli/src/secrets.ts:579-614 | the lines of the template are its opening remarks, the lines about the listed secrets, and those about each first entry of a name that is not listed and needs no other mail transport |
| SecretTemplate.TemplateOfConfiguration | cli/src/secrets.ts:405-616 | so the template of a configuration names exactly the secrets that one of its entries requires, but for those of which the first entry that names them is Terraform's |
| HclText.ScanBrackets | cli/src/terraform.ts:48-59 | the loop with depth and string flag finds the bracket's partner or none |
| HclText.FindHclAssignment | cli/src/terraform.ts:38-61 | the first assignment of the name is cut out up to its bracket's partner or the end of its line |
| TerraformReading.AssignsExactly | cli/src/terraform.ts:39 | in any text, the expression matches exactly where a line has blanks, the name, white space and `=` |
| TerraformReading.PlainAssignment | cli/src/terraform.ts:39-47 | the first such place is found, and without a bracket the assignment ends with the line of its value, without the white space there |
| TerraformReading.NoAssignment | cli/src/terraform.ts:39-40 | where no such place is, nothing is found |
| TerraformReading.StringExactly | cli/src/terraform.ts:63-72 | a variable has a string value if and only if its assignment has, behind some `=`, nothing but a literal that decodes to it; the check fails on one that does not decode |
| TerraformVars.PrettyDenotes | cli/src/terraform.ts:151 | indented JSON denotes the value that was printed |
| TerraformVars.TerraformVars | cli/src/terraform.ts:138-154 | the loops render strings, preserved or default operator variables, and JSON blocks in this order |
| TerraformVars.TerraformVarsDrift | cli/src/terraform.ts:156-180 | the loops name the variables whose value in the file differs, or report an invalid string |
| TerraformBlocks.FindsBlock | cli/src/terraform.ts:39 | in joined blocks, the search finds the first block that assigns the name at its start |
| TerraformLines.PrettyQuiet | cli/src/terraform.ts:151 | no line inside printed JSON can be taken for an assignment |
| TerraformLines.LineAssigns | cli/src/terraform.ts:143-151 | a rendered line assigns its own name and no other |
| TerraformLines.StringLineReads | cli/src/terraform.ts:63-72 | reading a rendered string's line gives the string |
| TerraformLines.JsonBlockReads | cli/src/terraform.ts:166-177 | reading a rendered JSON block gives the value |
| TerraformPreserved.PreservedIs | cli/src/terraform.ts:38-61 | what is preserved assigns its name at its start and, if it has a value, is found again unchanged wherever it stands |
| TerraformPreserved.ValuelessGrows | cli/src/terraform.ts:39-46 | without a value, the block found again is longer: it takes in the line behind it |
| TerraformIntrusions.JsonDriftsExactly | cli/src/terraform.ts:166-177 | a JSON variable of a rendered text drifts if and only if some line of the operator's part assigns it and that part holds another value for it |
| TerraformIntrusions.NoDriftExactly | cli/src/terraform.ts:138-180 | what was rendered shows no drift if and only if the operator's part holds the configured value of every JSON variable that it assigns, provided no value holds U+2028 or U+2029 |
| TerraformIntrusions.JsonQuoted | cli/src/terraform.ts:171 | in any text that `JSON.parse` accepts, every `=` stands in a string, with no line break between its quote and it |
| TerraformTheorems.RenderAgain | cli/src/terraform.ts:138-154 | where no preserved block assigns another operator's variable on one of its lines and no value holds U+2028 or U+2029, rendering the rendered text returns it if and only if every preserved assignment has a value |
| TerraformTheorems.OperatorReads | cli/src/terraform.ts:146-150 | an operator's variable keeps its assignment with a value, and without one has its default in the rendered text, or is not assigned if it has none |
| TerraformTheorems.EmptyValueGrows | cli/src/terraform.ts:39-46 | a file that ends with `name=` is one whose second rendering differs |
| TerraformDrift.JsonDriftIsDifference | cli/src/terraform.ts:166-177 | comparing canonical texts tells exactly the values apart that differ by more than key order |
| TerraformDrift.DriftIsDifference | cli/src/terraform.ts:156-180 | for every file, the check fails exactly on an invalid string literal and otherwise names exactly the variables whose value in the file differs |
| TerraformReading.DriftInOrder | cli/src/terraform.ts:161-178 | the differing strings are listed in their order, and then the differing JSON variables in theirs |
| TerraformStrings.StringsReadBack | cli/src/terraform.ts:156-166 | the strings of any rendered text show no drift if and only if none of them assigns a later one on a line that starts behind U+2028 or U+2029 |
| TerraformStrings.SeparatorDrifts | cli/src/terraform.ts:38-72 | a string of U+2028, a later string's name and `=` shows up as drift |
| SecretRouting.OtherTransportNeverMatches | cli/src/secrets.ts:547-556 | a condition that needs another mail transport is unmet in every configuration with the configured one |
| SecretRouting.Declare | cli/src/secrets.ts:417-435 | a declaration extends the secret of its name in place or adds it at the end |
| SecretRouting.MergeSpecs | cli/src/secrets.ts:413-436 | the loop merges the active first-party declarations in order |
| SecretRouting.MergePlugins | cli/src/secrets.ts:437-456 | the loop joins every plugin to the signing secret and merges its declarations |
| SecretRouting.MergeSecretEnv | cli/src/secrets.ts:457-478 | the nested loops merge the declarations of enabled services |
| SecretRouting.MergeSandbox | cli/src/secrets.ts:479-493 | the loop merges the sandbox's secrets as required |
| SecretRouting.ComputedSecrets | cli/src/secrets.ts:411-507 | the four loops and the sort compute the specified list |
| SecretRouting.SecretDestinations | cli/src/secrets.ts:509-529 | a workload and variable are in the result if and only if a service, an alias or a plugin reaches them; no workload is listed without a variable |
| SecretRouting.MergedIs | cli/src/secrets.ts:411-493 | after the merge a secret has exactly the routes of the declarations that apply to it and is required if and only if one of them says so |
| SecretRouting.MergedOnce | cli/src/secrets.ts:417-493 | however often a route is declared, a secret lists it once |
| SecretRouting.SecretsAreRouted | cli/src/secrets.ts:405-529 | the result is sorted, each name once; each secret reaches exactly the union of its declarations' workloads and variables |
| SecretSources.ConditionsMean | cli/src/secrets.ts:369-389 | what each kind of condition says of the configuration: a variable's value is its text, or else its default, without the white space around it |
| SecretSources.OtherTransportMeans | cli/src/secrets.ts:547-556 | a condition asks for another transport if and only if one part of a conjunction or all of a disjunction do, or it asks for another value than the non-blank one that is set |
| SecretSources.ConfigurationIsRouted | cli/src/secrets.ts:411-529 | a secret is listed if and only if an entry of the configuration names it, is required if and only if one requires it, and reaches exactly the workloads and variables to which entries send it |
| SecretSources.FirstEntryManages | cli/src/secrets.ts:417-435 | a listed secret has the description, the generator and the manager of the first first-party entry that names it and counts; without one the operator manages it |
| SecretOrder.OrdersAgree | cli/src/secrets.ts:411-493 | all orders of the same declarations give a secret the same routes and requirement if and only if nothing declares it, or all that its joins add is declared without a join, too |
| SecretRouting.SigningDeclaredFirst | cli/src/secrets.ts:437-439 | if an enabled first-party service declares the signing secret, every plugin's join applies |
| SecretOrder.PluginOrderMatters | cli/src/secrets.ts:437-455 | in every configuration in which none does, a plugin listed in front of the one that declares the secret does not get it, and gets it listed behind |
| SecretOrder.LoadedConfigsAgree | cli/src/secrets.ts:411-507 | loaded configurations that make the same declarations, in whatever order, give every secret the same routes and requirement |
| SmtpReplies.SmtpProbe.Fail | cli/src/preflight.ts:144-149 | the first failure is kept and the waiting read rejected |
| SmtpReplies.SmtpProbe.OnData | cli/src/preflight.ts:151-171 | appending, splitting and re-joining computes the specified state |
| SmtpReplies.SmtpProbe.Read | cli/src/preflight.ts:173-178 | a read waits, or is rejected with the kept failure |
| SmtpReplies.ReadingStays | cli/src/preflight.ts:151-171 | more data never changes a reply or a failure that has been read, only what is left over |
| SmtpReplies.ReadingExactly | cli/src/preflight.ts:151-171 | behind lines with `-`, a line with a space gives the reply with its own code and all texts, a line of another form is bad, and without a further break the reply is incomplete |
| SmtpReplies.BadLineRejects | cli/src/preflight.ts:144-161 | a line that is no reply's rejects the read that waits and is the failure from then on, in whatever chunks it arrives |
| SmtpReplies.FirstFailureStays | cli/src/preflight.ts:144-176 | once there has been a failure, every later read gets the first one, whatever arrives |
| SmtpReplies.ChunkingDoesNotMatter | cli/src/preflight.ts:151-171 | a reply fed in any chunks, also cut between CR and LF, leaves the state of feeding it at once |
| SmtpReplies.ChunkingMatters | cli/src/preflight.ts:151-171 | all chunkings of the same data agree if and only if no complete reply and no bad line follows the first reply |
| SmtpReplies.FurtherReplyIsLost | cli/src/preflight.ts:162-167 | otherwise a chunking with another outcome exists |
| SmtpReplies.ReplyRoundTrip | cli/src/preflight.ts:151-171 | reading a reply as a server writes it, with `-` behind the code of every line but the last, gives its code and its lines' texts and leaves nothing |
| SmtpReplies.LockStep | cli/src/preflight.ts:151-178 | in a lock-step exchange every read gets what a reader of the whole data gets, however it was cut |
| SmtpReplies.WrittenArrives | cli/src/preflight.ts:151-178 | so the reads get exactly the codes and texts that the server wrote |
| Retention.GroupWindowsBySession | src/admin/attribution.ts:3-11 | each session is mapped to its windows in order, and no session without windows is listed |
| Retention.ForEachAttributedTurn | src/admin/attribution.ts:19-36 | the loops visit the windows of each allowed session once and then every turn whose author has one |
| Retention.CreditsAddUp | src/admin/retention.ts:44-59 | credited turns sum to those of the turns whose author has a window in an allowed session; active days are these turns' days |
| Retention.MoreDaysMoreUsers | src/admin/retention.ts:63-71 | a longer window never counts fewer users |
| Retention.NewAndReturning | src/admin/retention.ts:76-83 | new and returning users together are the users active in thirty days |
| Retention.CountNewAndReturning | src/admin/retention.ts:79-83 | the loop counts both |
| Retention.CohortMembers | src/admin/retention.ts:88-96 | the loop groups the users by their first active week, in order |
| Retention.CohortRows | src/admin/retention.ts:97-107 | the rows have the sizes and retention of the weeks they are asked for |
| Retention.CohortsPartition | src/admin/retention.ts:85-107 | before truncation the cohorts' weeks ascend, their sizes sum to the users, and all of a cohort is active in its first week |
| Retention.NearestRank | src/admin/retention.ts:31-35 | a percentile is an element that at least p percent do not exceed, and no smaller element has that property |
| Retention.PercentilesAscend | src/admin/retention.ts:31-35 | a higher percentile is no smaller |
| Retention.ComputeRetention | src/admin/retention.ts:37-120 | the loops compute the specified report |
| Retention.ReportFits | src/admin/retention.ts:61-120 | in every report, daily, weekly, monthly and all users ascend, new and returning users are the monthly ones, percentiles ascend, and credited turns add up |
| RetentionFigures.ActivityExactly | src/admin/retention.ts:44-83 | the report counts the users with a counted turn today, in the last seven and in the last thirty days, the latter by whether they had one before, and all users; the ratio is rounded half up |
| RetentionFigures.CohortsExactly | src/admin/retention.ts:85-107 | the cohorts are those of the last eight weeks in which users had their first turn, ascending, each with its size and the rounded percentages of it that were active in its first and the four following weeks |
| RetentionFigures.PerUserExactly | src/admin/retention.ts:109-117 | the percentiles are the nearest-rank elements of the users' sums of counted turns and of their numbers of sessions |

## Left out

Stated weaker than the source might be read:

- TerraformIntrusions.JsonDriftsExactly: asks for values without U+2028 and U+2029, as `NoDriftExactly` does.
- TerraformIntrusions.NoDriftExactly: asks for values without U+2028 and U+2029; for strings with them `StringsReadBack` says when they read back.
- TerraformDrift.JsonDriftIsDifference: numbers are compared by the text of their tokens; a number written in another way than JavaScript prints it (`1024.0` for `1024`) drifts here, while the source compares the parsed numbers.
- TerraformTheorems.RenderAgain: says nothing about files in which a preserved block assigns another operator's variable on one of its lines; there the search for that variable finds the inner line first.
- ApprovalShapes.MatchesAreAmbiguous: is one way; pairs that are not comparable may or may not match at one place (`a*b` and `c` do not).
- ApprovalFactor.WithinBudget: says nothing about patterns that are a choice at their top, whose alternatives the code does not count; `AcceptedIsPolynomial` bounds them by their branches.
- EnvFile.WriteThenRead: the text of the file is kept as it is; a lone surrogate, which writing as UTF-8 replaces by U+FFFD, is not modelled, and neither are permission bits beyond the nine that the source keeps.
- SteerOutcomes.LostExactly: what a run does with a signal that its consumer has taken is not part of the model.
- JsoncDocument.ParsesConfig: covers the documents of RFC 8259 with comments, white space between tokens and one trailing comma behind a last entry; texts that `JSON.parse` accepts after blanking although they are outside this grammar (`[,]`) are covered by the properties of the two passes only.
- ConfigResults.UpdateSets: members of an object are compared by key; the order in which JavaScript lists integer-like keys is not modelled.
- AmbientCursor.NeverJudgedTwice: stamps are numbers with zero for the empty text, where the source compares texts; any total order with a least element gives the same result.
- SmtpReplies.LockStep: chunks are decoded text; a UTF-8 character cut between two chunks, which the source decodes to replacement characters and which changes the text of the reply, is not modelled.
- Retention.ReportFits: the whole percentages are rounded half up on integers and the rank of a percentile is an integer quotient, where the source computes both in floating point.

Not modelled:

- The regular expression engine: what a class or an escape matches is a parameter, and so are the answers of the probe where `ProbeOf` is not named. Patterns are built from atoms, classes, groups, assertions, alternation and quantifiers; `\p`, `\c`, named modifiers, quantified assertions and backreferences (which the source rejects first) are not part of the syntax.
- Names of Terraform variables that are special inside a regular expression, and how `derivedValues` computes the values from the configuration, with its errors.
- `localeCompare`: the order of secrets is a parameter that must be a strict total order; the order of services and aliases inside one secret is left out, they are sets of routes.
- The wording of the template's comments and of its conditions, which is a parameter without line breaks; target defaults of the environment are resolved into the configuration.
- The stores behind the protocols: taking pending signals is one atomic step (a single UPDATE statement in `src/runs/postgres-run-signal-store.ts`), and so is each conditional write of the lease table; deleting the lease item by hand and pruning consumed signals are left out.
- Routing of turns other than the send, the second look at the run and the replay; a replayed request's own turn is its answer, given as a parameter.
- Judgments that the ambient judge records, the backdrop it sees, and its decision; the cursor store is present.
- Who manages a scope is a boolean; listing, granting handles and the sorting in `all()` are left out, as is `grantedBy` when a grant is put again under an existing key, where the two stores differ.
- Sockets, TLS, timeouts, files other than one `.env` file, HTTP and AWS calls beyond their effects.
- `forEachAttributedTurn` without a session list, which the retention report never uses.
- `withDeploymentLock` in `cli/src/state.ts`: its removal of stale locks is not atomic with its test for staleness, so mutual exclusion is not an invariant of that code.
- Validators, command dispatch, scaffolds and manifests: long lists of cases without an invariant.
