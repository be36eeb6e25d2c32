# Virmill effects, proved

Virmill drives libvirt and firewalld through effects that cannot be taken back, and surrounds each with durable
records, so that after any failure or crash the next call knows what may have happened. This project models the parts
where that is hardest and proves, for all inputs and all runs, what those records are for. It also models the two
pure pieces with the most intricate text handling: the firewall policy and the relocation of Markdown links.

How the model is set up:

- A failed or interrupted step is a method that returns early. Unless a call is `quiet`, every step may fail, with or
  without its effect, and every class keeps its `Valid()` at each such exit. A `Run` or `Drive` method performs any
  sequence of calls, so what `Valid()` says holds in every reachable state.
- The network helper is `calm` when nobody else changes the firewall. Calls may still be cut short anywhere, so crashes
  and a firewall that stays put can be assumed separately from a call that runs undisturbed.
- `ComparePut` is an atomic compare-and-swap on a store record, where nothing stands for an absent record.
- Commands to libvirt, the kernel and the file system are recorded in a ghost log when they are issued; backend answers
  are arbitrary values within their interface comments.
- What a check showed is recorded in a ghost list of looks, or in a field that holds the last answer, so that a durable
  claim can be traced to the look it rests on.
- SHA-256, JSON and the header of an archive member are uninterpreted functions.
- Job serialisation is the engine's: only the last job of a recovery line acts, and only while it runs or, to reconcile,
  while it is uncertain (`internal/operations/engine.go:207-336`, `internal/store/recovery_accept.go:12-114`).

| Files | What they model |
|---|---|
| `Text`, `Sets`, `Address` | text fields, decimal numbers, IPv4 text, finite sets |
| `FirewallPolicy`, `FirewallCheck`, `FirewallMeaning`, `FirewallTheorem`, `FirewallGrowth` | the protected firewall policy, the checks on it, and what an accepted state does to packets |
| `NetworkJournal`, `NetworkExecutor`, `NetworkRecovery` | the network helper's journal, its add-only apply, and completion after crashes |
| `Archive`, `Delivery`, `Transfer` | the auxiliary archive and the capture, acknowledge, deliver, observe protocol |
| `CodeMask`, `CodeLiteral`, `LinkSyntax`, `LinkRewrite`, `LinkMeaning` | code masking and link relocation in Markdown (CommonMark sections 4.5, 6.1, 6.3) |
| `CreationRecords`, `CreationEvidence`, `CreationLifecycle` | VM creation, definition resume, device acceptance, cleanup |
| `SpaceBudget`, `HandOver` | space accounting and hand-over of a prepared copy |
| `ColdTree`, `ColdStore`, `ColdPublish` | recovery sets: tree, order, copying, publication, inspection |
| `DiskRemoval`, `DiskMove`, `GuestStages`, `Subnets` | selected-disk removal, disk move, guest recipe stages, subnet reservations |

What the proofs turned up:

- The job limit is one too high. A network with 64 jobs still admits an apply call, which writes a 65th job; from then on
  every call refuses. A completed apply leaves a history that reads back if and only if there were fewer than 64 jobs and
  the directory is within its bound (`ReadableBelowTheLimit`); `OneJobTooMany` reaches the state from an unowned network.
  The 4096-entry bound on the journal counts the whole directory, not one network.
- A creation that keeps its prepared copy can pass its first source check, after which another creation may take the same
  copy over and release it, so that its upload reads released bytes (`KeptCopyMayBeFreed`). The hand-over record divides
  the cases: while there is none the upload has the original bytes (`UploadKeeping`), and once there is one the closing
  source check refuses. `CreateVolumes` therefore ends with the original bytes in both modes.
- Planning adds volume sizes without a check for wrapping. `PlannedIsAccepted` shows that lawful sizes never come near
  64 bits, and `CreationSpaceBudget` refuses every recipe outside them.
- A relocated link can lose part of its fragment. The fragment is unescaped when the destination is read and written
  back as it is, so `[a](b.md#x\)y)` comes out as `[a](b.md#x)y)`, which reads as `b.md#x`. `InstalledLinkIsRelocated`
  gives the exact condition on the new destination, and `PlainIsReadable` shows that quoted paths always meet it.
- A disk move that finds the definition already changed leaves its receipt at an earlier stage; the receipt may lag behind the
  world, but it is never ahead of it.

## Model

| member | source | states |
|---|---|---|
| `FirewallPolicy.NetworkPolicyRules` | internal/helper/protected_network_rules_linux.go:19-50 | the ordered rules of a definition: run-time half, then the same rules as permanent ones |
| `Address.ParseHostIff` | internal/helper/protected_network_rules_linux.go:111-133 | a text reads as a single-address block exactly when it is that block's text |
| `Address.FirstHostIsPrivate` | internal/helper/protected_network_rules_linux.go:19-50 | the gateway of a private subnet is private, so its service rules can be recognised |
| `FirewallCheck.SelectedNetworkPolicy` | internal/helper/protected_network_rules_linux.go:65-87 | true exactly when every inventory line that speaks of the bridge is one of the policy's rules |
| `FirewallCheck.ProtectedKernelExpected` | internal/helper/protected_network_rules_linux.go:137-171 | answers exactly for comparable inventories, and then with exactly the run-time rules of all managed bridges by body |
| `FirewallCheck.MatchProtectedKernelBody` | internal/helper/protected_network_rules_linux.go:193-213 | accepts exactly the chains that hold each expected rule once, in priority order, and nothing else |
| `FirewallMeaning.ProtectedKernel` | internal/helper/protected_network_rules_linux.go:236-276 | accepts exactly when two passes show the same acceptable chains, direct or behind the trampoline |
| `FirewallMeaning.RecognisedEffect` | internal/helper/protected_network_rules_linux.go:94-135 | a recognised rule skips packets of every other interface, and for its own accepts, skips or is the final drop |
| `FirewallMeaning.VerdictOfDirectRules` | internal/helper/protected_network_rules_linux.go:236-276 | the kernel's verdict is that of the direct rules, whether or not the trampoline chain is used |
| `FirewallMeaning.UnnamedInterfacePasses` | internal/helper/protected_network_rules_linux.go:94-135 | packets from an interface that no rule names always pass |
| `FirewallMeaning.MirrorKernel` | internal/helper/protected_network_rules_linux.go:137-276 | every comparable inventory has a kernel listing that the checks accept, so the acceptance conditions can always be met |
| `FirewallTheorem.GeneratedRulesAreRecognised` | internal/helper/protected_network_rules_linux.go:19-50 | every generated service rule is recognised with its own priority and body |
| `FirewallTheorem.ServicesCoverDeclared` | internal/helper/protected_network_rules_linux.go:19-50 | on the bridge, the accepting rules together cover exactly the declared DHCP and DNS packets |
| `FirewallTheorem.BridgeRulesMeanTheirDefinition` | internal/helper/protected_network_rules_linux.go:19-50 | the bridge rules of a definition drop exactly IPv6 on its bridge, and between a guest-only bridge and the host IPv4 and ARP as well |
| `FirewallTheorem.OpenDefinitionHasNoInputRule` | internal/domain/network_creation.go:24-37 | a definition whose host access is "allow" generates no mangle INPUT rule |
| `FirewallTheorem.OpenBridgePasses` | internal/domain/network_creation.go:24-37 | and in every accepted state all packets of its bridge pass, whatever other bridges do |
| `FirewallTheorem.GuestOnlyMeetsNoInputRule` | internal/helper/protected_network_rules_linux.go:19-50 | packets of a guest-only bridge are skipped by every rule of the chain, and so pass |
| `FirewallTheorem.PriorityOrdersTheChain` | internal/helper/protected_network_rules_linux.go:193-213 | in an accepted chain a rule of smaller priority stands first, however other bridges' rules interleave |
| `FirewallTheorem.AcceptedPolicyMeansItsDefinition` | internal/helper/protected_network_rules_linux.go:19-289 | for a nat or lab network with host access "services-only": in every accepted state with all policy rules present, a packet from its bridge passes exactly if the definition declares its service |
| `FirewallTheorem.AcceptedKernelEnforces` | internal/helper/protected_network_rules_linux.go:19-289 | what the kernel printed, once accepted for an inventory with all rules of a protected definition ("services-only", or guest-only with "deny"), gives every packet of the bridge its intended verdict |
| `FirewallGrowth.PolicyLinesDistinct` | internal/helper/protected_network_rules_linux.go:19-50 | no rule of a definition repeats another |
| `FirewallGrowth.BodyDecidesOnTheBridge` | internal/helper/protected_network_rules_linux.go:137-171 | a run-time rule with the body of a policy rule is that policy rule |
| `FirewallGrowth.GrowthKeepsChecks` | internal/helper/network_executor_linux.go:729-799 | adding a definition's own rules one at a time never spoils a state the checks accept |
| `NetworkJournal.CollectJobs` | internal/helper/network_executor_linux.go:493-570 | the first loop gathers, for each job, exactly what its records say, and refuses a foreign or torn record |
| `NetworkJournal.CheckJobs` | internal/helper/network_executor_linux.go:571-586 | the second loop accepts exactly the jobs whose rules and completion stand behind what must precede them |
| `NetworkJournal.History` | internal/helper/network_executor_linux.go:493-586 | answers exactly for well-formed journals within the bounds, with each job's state and the rules some job owns |
| `NetworkJournal.ConsistentIsAccepted` | internal/helper/network_executor_linux.go:493-586 | a journal that crashes can leave behind is accepted if and only if no record is torn and both bounds hold |
| `NetworkJournal.WriteKeepsConsistent` | internal/helper/network_executor_linux.go:405-444 | one more record, whole or torn, keeps every record behind the records that must precede it |
| `NetworkExecutor.Helper.Write` | internal/helper/network_executor_linux.go:405-444 | a record is created exclusively and never replaced; a failed write leaves nothing, a torn or a whole record |
| `NetworkExecutor.Helper.QueryAll` | internal/helper/network_executor_linux.go:293-306 | each rule's presence, only if it agrees with the inventory |
| `NetworkExecutor.Helper.IntendRule` | internal/helper/network_executor_linux.go:729-770 | the durable intent of one rule, with its very arguments, behind its job's intent |
| `NetworkExecutor.Helper.AddRule` | internal/helper/network_executor_linux.go:729-799 | the add-only command is issued only behind its durable intent and adds at most this rule |
| `NetworkExecutor.Helper.ApplyRule` | internal/helper/network_executor_linux.go:729-780 | a rule's intent is recorded, and so its command issued, only right after a listing as expected and an accepted kernel; success means the command was acknowledged |
| `NetworkExecutor.Helper.ApplyRules` | internal/helper/network_executor_linux.go:729-799 | the rule loop of a quiet call keeps the inventory equal to the earlier one with the first rules united, and issues one command for each absent rule; cut short in calm times it only adds rules of the definition |
| `NetworkExecutor.Helper.Open` | internal/helper/network_executor_linux.go:623-670 | nothing happens before the owner record and the whole history read back |
| `NetworkExecutor.Helper.Look` | internal/helper/network_executor_linux.go:595-674 | what precedes every answer and effect: a readable journal, a fresh job, and a listing with only the policy's rules on the bridge, each behind an earlier job's intent |
| `NetworkExecutor.Helper.Execute` | internal/helper/network_executor_linux.go:595-799 | every call keeps the journal safe; a torn record or a reused job identifier refuses without effect; whatever is answered is true of the inventory listed last, half by half; a quiet check, a quiet observation of a complete job and a quiet fresh apply below the limit are answered, the apply with exactly the policy's rules added; nothing is done unless the first listing has only the policy's rules on the bridge, each behind an earlier job's intent; a call that completes had every command acknowledged; a completed protected policy is enforced by the kernel listing it ended with |
| `NetworkExecutor.AnswerIsTrue` | internal/helper/network_executor_linux.go:675-688 | the two flags say whether every rule of the definition is in the run-time half and in the permanent half |
| `NetworkExecutor.Helper.Run` | internal/helper/network_executor_linux.go:595-799 | over any sequence of calls, each cut short anywhere, the journal stays safe and nothing durable is lost; in calm times every policy rule present stands behind a durable intent and the inventory only grew by the definition's rules |
| `NetworkExecutor.PutIsUnion` | internal/helper/network_executor_linux.go:729-799 | a completed job unites each half of the inventory with its rules and changes nothing else |
| `NetworkExecutor.CommandsAreTheAbsentRules` | internal/helper/network_executor_linux.go:729-799 | the commands of a quiet job are the absent rules, each once, and no other |
| `NetworkExecutor.ReadableBelowTheLimit` | internal/helper/network_executor_linux.go:493-674 | the journal a completed apply leaves reads back if and only if it is within the entry bound and there were fewer jobs than the limit |
| `NetworkRecovery.OneJobTooMany` | internal/helper/network_executor_linux.go:641-674 | from a network nobody owns, whose acceptable firewall lacks the policy rules, undisturbed applies reach one job more than the limit, after which every call refuses |
| `NetworkRecovery.Fill` | internal/helper/network_executor_linux.go:595-799 | any number of undisturbed applies up to one more than the limit complete, and each adds one job |
| `NetworkRecovery.GrowthEndsUnited` | internal/helper/network_executor_linux.go:729-799 | whatever part of the policy earlier calls added, adding all of it ends in the same inventory |
| `NetworkRecovery.ApplyAfterCrashes` | internal/helper/network_executor_linux.go:595-799 | after any sequence of calls cut short anywhere, a fresh apply completes on whatever untorn remains are within the bounds, with the first inventory united with the policy and the protected policy enforced |
| `Archive.ScanIsArchive` | internal/helper/auxiliary_transfer_linux.go:183-235 | scanning a byte string by the validator's rule succeeds exactly on the archives of payloads with the declared sizes and digests |
| `Archive.ArtifactSize` | internal/helper/auxiliary_transfer_linux.go:118-154 | the size loop computes the size of every archive of such members |
| `Archive.BoundsSuffice` | internal/helper/auxiliary.go:197-223 | within the member and payload bounds an archive always fits the snapshot bound |
| `Archive.ValidateMember` | internal/helper/auxiliary_transfer_linux.go:183-235 | one member passes exactly when its header, content digest and padding are the writer's |
| `Archive.ValidateArchive` | internal/helper/auxiliary_transfer_linux.go:97-235 | accepts exactly the writer's encodings of payloads with the declared sizes and digests, for a nonempty, named and bounded inventory with one digest for each member |
| `Archive.WriteArchive` | internal/helper/auxiliary_capture_linux.go:215-245 | succeeds exactly for numbered members within the bounds whose declared bytes are all held, and then the archive encodes exactly those, with their sizes and digests |
| `Archive.EncodeInjective` | internal/helper/auxiliary_capture_linux.go:215-245 | an archive determines the payloads it holds |
| `Archive.RoundTrip` | internal/helper/auxiliary_transfer_linux.go:97-235 | for every reviewed inventory, what the writer makes the validator accepts, and the positional reader gets back exactly the bytes that were held |
| `Archive.ReadMembers` | internal/coldcapture/execute_linux.go:294-367 | the offset walk yields the one payload sequence that encodes to the archive, by position alone |
| `Delivery.StepFrame` | internal/helper/auxiliary_transfer_linux.go:459-587 | a step touches no other connection, and captures only behind its own durable intent |
| `Delivery.RunInv` | internal/helper/auxiliary_transfer_linux.go:459-587 | the protocol invariant holds in every reachable state, with dropped connections and crashes anywhere |
| `Delivery.DeliveryIsSafe` | internal/helper/auxiliary_transfer_linux.go:370-587 | at most one capture; a delivered record has a prior intent and an acknowledgement of that artifact; a successful commit, and an answered observation, has the same artifact durably delivered under the binding asked for |
| `Delivery.RunAsks` | internal/helper/auxiliary_transfer_linux.go:370-587 | over every run neither end of a connection holds, and no frame to the client carries, another binding than was asked for |
| `Delivery.NeverCapturesAgain` | internal/helper/auxiliary_transfer_linux.go:610-701 | once the intent name exists and its author is gone, no run ever captures again |
| `Delivery.ObservationOnlyReads` | internal/helper/auxiliary_transfer_linux.go:459-587 | a connection opened to observe never captures or writes |
| `Delivery.UndisturbedDeliveryCommits` | internal/helper/auxiliary_transfer_linux.go:459-587 | an undisturbed exchange on a fresh job commits its artifact |
| `Delivery.ObservationFindsDelivery` | internal/helper/auxiliary_transfer_linux.go:459-587 | whatever was lost before, an observation of a delivered artifact under its binding shows it |
| `Transfer.AuxiliaryTransfer.Commit` | internal/helper/auxiliary_transfer_linux.go:370-417 | committing is single-use, acknowledges the held artifact at most once, and succeeds only on a matching delivered answer |
| `Transfer.AuxiliaryTransfer.Close` | internal/helper/auxiliary_transfer_linux.go:419-444 | a closed transfer stays closed and acknowledges nothing more |
| `CodeMask.PairRuns` | scripts/package_docs.py:72-86 | the one right-to-left pass gives every run the opener and closer of the naive left-to-right rule |
| `CodeMask.MaskParagraph` | scripts/package_docs.py:65-98 | a paragraph is masked by the naive rule, or refused exactly at the run limit |
| `CodeMask.BreakIff` | scripts/package_docs.py:69 | a paragraph break is a line end, blanks and another line end |
| `CodeMask.MaskInline` | scripts/package_docs.py:65-98 | paragraphs are masked on their own, the breaks between them kept |
| `CodeMask.MaskCode` | scripts/package_docs.py:101-121 | fences and inline code are blanked; position by position the result shows the text or its blank |
| `CodeMask.FenceIff` | scripts/package_docs.py:101-105 | at least three backticks or tildes behind at most three spaces open a fence, with their length and the rest of the line |
| `CodeMask.FenceHasShape` | scripts/package_docs.py:101-105 | and nothing else does |
| `CodeMask.ClosesIff` | scripts/package_docs.py:106-108 | a fence is closed exactly by the same mark, at least as long, with only blanks behind it |
| `CodeMask.LineEndIs` | scripts/package_docs.py:103 | a line goes up to its first line end, and a carriage return takes a line feed with it |
| `CodeMask.CodeMasks` | scripts/package_docs.py:61-121 | masking keeps length and positions, so offsets in the masked text are offsets in the text |
| `CodeLiteral.LiteralIsOneSpan` | scripts/package_docs.py:215-219 | whatever nonempty one-line text is quoted, the quoted form is masked completely, as one code span |
| `LinkSyntax.LabelEnds` | scripts/package_docs.py:124-137 | one pass with a stack finds, for every unescaped opening bracket, the end that the naive scan finds for it alone |
| `LinkSyntax.TokenShape` | scripts/package_docs.py:140-179 | a destination stays on its line and outside angle brackets its parentheses balance |
| `LinkSyntax.ReadDestination` | scripts/package_docs.py:140-179 | the destination scanner agrees with its recursive definition, refusals included |
| `LinkMeaning.UnescapeEscape` | scripts/package_docs.py:178 | unescaping a destination undoes the escaping of its punctuation |
| `LinkRewrite.ScanOrdered` | scripts/package_docs.py:246-288 | link spans never overlap or go backwards, also for an image directly behind a link |
| `LinkRewrite.CountIsMarks` | scripts/package_docs.py:289-290 | counting without overlap counts every visible link mark |
| `LinkRewrite.LinksAreTheMarks` | scripts/package_docs.py:244-291 | in an accepted document the rewritten links are exactly the visible marks, one to one |
| `LinkRewrite.RestIsKept` | scripts/package_docs.py:287-292 | every character outside the links is kept, in order, moved by what the links before it grew or shrank |
| `LinkRewrite.OutsideDocumentUnchanged` | scripts/package_docs.py:246-291 | a document that refers to nothing in the inventory comes out as it went in |
| `LinkMeaning.NewDestination` | scripts/package_docs.py:140-179 | a text put in the place of a destination is read back there, as one destination, exactly if it is readable on its own before the same delimiter |
| `LinkMeaning.PlainIsReadable` | scripts/package_docs.py:276-282 | every nonempty text without blanks, parentheses, angle brackets and backslashes is, and means itself |
| `LinkMeaning.LooseParenthesisIsCut` | scripts/package_docs.py:276-282 | a text with an unmatched closing parenthesis is not |
| `LinkMeaning.InstalledLinkIsRelocated` | scripts/package_docs.py:272-284 | in the output, behind the unchanged label and mark, an installed link reads with its new destination exactly if that is readable there; then follows its line |
| `LinkMeaning.SourceLinkIsQuoted` | scripts/package_docs.py:285-287 | in the output, a link outside the installation is its label, which shows no mark, and its reference quoted as one code span |
| `LinkMeaning.ElsewhereLinkIsKept` | scripts/package_docs.py:274-275 | a link to elsewhere stands in the output as it was |
| `LinkMeaning.OneMarkPerLink` | scripts/package_docs.py:289-290 | the only visible mark of a link is the one behind its label |
| `LinkMeaning.ImageMarks` | scripts/package_docs.py:273-274 | exactly the mark of an image belongs to its link with the bracket |
| `LinkRewrite.RewriteMarkdown` | scripts/package_docs.py:222-295 | the loop over pieces computes the spliced document of exactly those links, or refuses |
| `LinkRewrite.RewriteLinks` | scripts/package_docs.py:245-291 | the main loop joins the text between links and each replacement, or refuses where a link is refused or the counts differ |
| `CreationRecords.ReceiptStep` | internal/creating/service_linux.go:546-553 | a receipt that only goes on from the durable one keeps all records in agreement |
| `CreationRecords.TakeOverStep` | internal/store/recovery_accept.go:12-114 | passing the locks to a recovery keeps the line of jobs in which only the last may act |
| `CreationRecords.DisposeStep` | internal/creating/cleanup_linux.go:476-491 | a disposition of an undefined creation keeps it apart from definition and ownership |
| `CreationLifecycle.Service.ExecuteCreation` | internal/creating/service_linux.go:584-774 | the VM is defined once, only from a durable receipt with every recipe volume allocated and read back, and is seen as declared before success |
| `CreationLifecycle.Service.ReconcileCreation` | internal/creating/service_linux.go:828-881 | it issues no command, refuses a disposed creation, and records ownership only after this very call saw the VM as declared |
| `CreationLifecycle.Service.RecordOwnership` | internal/creating/ownership_linux.go:23-48 | ownership is recorded only for a defined, complete receipt and never over another record |
| `CreationLifecycle.Service.ExecuteResume` | internal/creating/recovery_linux.go:160-258 | one definition command, only behind its own durable proof and with every volume read back in this very call; nothing when the creation is disposed |
| `CreationLifecycle.Service.ReconcileResume` | internal/creating/recovery_linux.go:260-292 | nothing without the proof and the reviewed receipt, otherwise as for the creation |
| `CreationLifecycle.Service.ExecuteAcceptance` | internal/creating/acceptance_linux.go:112-258 | success adds exactly its own proof, under the inherited locks, after this very call verified the VM and all bytes, and no ownership yet |
| `CreationLifecycle.Service.ReconcileAcceptance` | internal/creating/acceptance_linux.go:290-328 | ownership only with its own proof, undisposed and undefined, after this very call verified the VM and all bytes again |
| `CreationLifecycle.Service.ExecuteCleanup` | internal/creating/cleanup_linux.go:223-475 | on success exactly one deletion for each volume not absent at review, in order; nothing is deleted unless this call saw all candidates as reviewed and none inside the preserved source; the committed disposition tells what the last inspection showed |
| `CreationLifecycle.Service.DeleteOne` | internal/creating/cleanup_linux.go:420-449 | a deletion is issued only behind its durable intent, and absence is recorded only when the last inspection showed the earlier state without that volume |
| `CreationLifecycle.Service.ReconcileCleanup` | internal/creating/cleanup_linux.go:516-572 | it never deletes; it accepts exactly its own committed disposition, or commits one that tells what its inspection showed: every candidate absent, or everything as reviewed |
| `CreationLifecycle.Service.TakeOver` | internal/operations/engine.go:120-192 | a recovery takes over only from an uncertain last job of a kind it may follow |
| `CreationLifecycle.Service.Settle` | internal/operations/engine.go:287-336 | a reconciled job leaves a disposition exactly if it is a cleanup, and ownership exactly if it is not |
| `CreationLifecycle.Service.RunJob` | internal/operations/engine.go:207-272 | a job executes, is verified and ends; it succeeds only with its disposition or ownership durable; a crash anywhere leaves the records in agreement |
| `CreationLifecycle.Service.Drive` | internal/operations/engine.go:207-351 | over all runs of creation, resume, acceptance and cleanup nothing durable is taken back, the records agree, and a succeeded job left what its kind is for |
| `CreationLifecycle.RecordIsDetermined` | internal/creating/cleanup_linux.go:476-491 | once a cleanup has its proof only one disposition record is left for it to commit, whoever commits it |
| `CreationLifecycle.WhatHoldsThroughout` | internal/creating/cleanup_linux.go:380-491 | in every reachable state: disposed means never defined or owned; each deletion once, behind its intent, for an exact reviewed generation; each definition from a complete receipt |
| `CreationLifecycle.WhatWasSeen` | internal/creating/ownership_linux.go:23-48 | in every reachable state: ownership lists one volume for each of the recipe's, in order, all read back, of a VM observed or accepted with them; nothing is defined from volumes not read back; a disposition tells what an inspection showed |
| `CreationEvidence.RecordTells` | internal/creating/cleanup_linux.go:476-487 | the disposition record tells what was seen: every candidate absent for a deletion, everything as reviewed for a retention |
| `CreationEvidence.OwnershipListsTheVolumes` | internal/creating/ownership_linux.go:23-48 | an ownership record lists exactly the receipt's volumes, one for each of the recipe's |
| `SpaceBudget.CreationSpaceBudget` | internal/creating/service_linux.go:366-448 | accepts exactly the recipes whose volumes stand one to one for lawful sources and whose total is the reserve plus all volume reserves |
| `SpaceBudget.ReadInventory` | internal/creating/service_linux.go:377-403 | both source lists are read exactly when all identifiers differ and all sizes are lawful |
| `SpaceBudget.NeverWraps` | internal/creating/service_linux.go:450-463 | a well-formed recipe never comes near the end of 64 bits |
| `SpaceBudget.DisksAreOneToOne` | internal/creating/service_linux.go:404-426 | disks map one to one to their sources |
| `SpaceBudget.MediaAreOneToOne` | internal/creating/service_linux.go:427-446 | media, the seed among them, map one to one to their sources |
| `SpaceBudget.DiskVolumesAre` | internal/creating/service_linux.go:404-426 | each disk volume has its source's identifier, sizes and digest |
| `SpaceBudget.MediumVolumesAre` | internal/creating/service_linux.go:427-446 | each medium volume has its source's identifier, exact size and digest |
| `SpaceBudget.VolumeNamesDiffer` | internal/creating/service_linux.go:404-446 | no two volumes of an accepted recipe share a name |
| `SpaceBudget.ReserveIs` | internal/creating/handover_linux.go:30-54 | the bytes reserved for each volume under each rule; for a kept copy never fewer than the upload writes |
| `SpaceBudget.RemainingBeforeVolume` | internal/creating/service_linux.go:503-518 | before volume i the requirement is the reserve plus what volumes i onward need (at least that under the older rule), and the fallback is never taken |
| `SpaceBudget.EnoughForTheRest` | internal/creating/service_linux.go:503-518 | before volume i the check demands all that volumes i onward take from the pool, and the reserve |
| `SpaceBudget.EveryCheckPasses` | internal/creating/service_linux.go:503-518 | a pool that had the total and serves nobody else passes every later check and ends with the reserve |
| `SpaceBudget.TotalRequired` | internal/creating/service_linux.go:182-230 | the total covers the reserve and all file bytes of a kept copy; under the file-size rule it is the reserve, 16 MiB a disk and the bytes not handed over |
| `SpaceBudget.PlanVolumes` | internal/creating/service_linux.go:174-230 | planning succeeds exactly on complete, unrepeated selections and lists each volume with the wrapped total |
| `SpaceBudget.PlannedIsAccepted` | internal/creating/service_linux.go:174-230 | a planned recipe of lawful sources is accepted at review, at the very total planning arrived at |
| `HandOver.ReleasingReader.Read` | internal/creating/handover_linux.go:135-162 | the bytes read are the original ones in order, only bytes of earlier reads are released, and file plus upload never exceed the size and one read |
| `HandOver.UploadReleasing` | internal/creating/service_linux.go:673-713 | whatever others do meanwhile, the upload receives the original bytes and in the end the file is released |
| `HandOver.Prepared.RecordHandOver` | internal/importing/handover_linux.go:24-29 | a preparation is handed over at most once |
| `HandOver.Prepared.Approved` | internal/importing/approved_linux.go:17-24 | a copy is offered only while it is not handed over and every file is unchanged |
| `HandOver.Prepared.CheckSource` | internal/creating/service_linux.go:465-489 | after a hand-over only the plan that took the copy may rely on it |
| `HandOver.CreateVolumes` | internal/creating/service_linux.go:625-734 | kept or handed over, verified volumes are the original bytes; a creation that kept the copy found it never handed over, and no second creation gets the copy |
| `HandOver.UploadKeeping` | internal/creating/service_linux.go:673-713 | an upload from a kept copy has the original bytes whenever no hand-over is recorded at its end |
| `HandOver.KeptCopyMayBeFreed` | internal/importing/approved_linux.go:17-24 | two creations are offered the same copy; once the other took it over and freed a byte, the keeper reads other bytes and is refused at its next check |
| `ColdTree.ExpectedTree` | internal/coldstore/store.go:106-130 | exactly the declared directories and names, or a refusal exactly for a metadata collision or a path of two types |
| `ColdStore.ParentsComeFirst` | internal/coldstore/store_linux.go:204-229 | in sorted order a directory's parent comes before it |
| `ColdStore.SortPaths` | internal/coldstore/store_linux.go:205-211 | the directory names in order, each once |
| `ColdStore.CopyExact` | internal/coldstore/store.go:134-179 | succeeds only for a source of exactly the declared bytes, and then has written them |
| `ColdStore.DirectoryMatches` | internal/coldstore/store_linux.go:471-482 | reading one name more than declared, the count and membership test accepts exactly the declared names |
| `ColdStore.MatchingIsTheTree` | internal/coldstore/store_linux.go:449-498 | directory listings and declared files decide exactly whether a set is the declared tree |
| `ColdStore.CompleteForOne` | internal/coldstore/store_linux.go:398-448 | a set is complete for one receipt only |
| `ColdPublish.Order` | internal/coldstore/store.go:69-93 | sources are accepted exactly when there is one for each member, and are put into member order |
| `ColdPublish.Catalog.MakeDirectories` | internal/coldstore/store_linux.go:204-229 | sorted creation always finds the parent made, and ends with exactly the declared directories |
| `ColdPublish.Catalog.WriteMember` | internal/coldstore/store_linux.go:300-323 | a member file is new, exactly filled, then sealed |
| `ColdPublish.Catalog.Inspect` | internal/coldstore/store_linux.go:398-575 | accepts exactly the complete sets and changes nothing |
| `ColdPublish.Catalog.Publish` | internal/coldstore/store_linux.go:161-286 | no set is ever replaced; after any crash the final name is absent or complete; a quiet publication of faithful sources succeeds |
| `ColdPublish.Catalog.Resume` | internal/coldstore/store_linux.go:157-344 | after a publication cut short anywhere, inspection finds the same receipt or nothing |
| `DiskRemoval.WhatAgreeMeans` | internal/app/disk_removal.go:183-269 | in every reachable state: no disk deletion before the definition's removal is recorded, none issued twice, each behind its durable intent, only the last without acknowledgement |
| `DiskRemoval.Removal.Execute` | internal/app/disk_removal.go:183-269 | nothing is issued or recorded unless its own first check showed every disk present; the receipt keeps its shape at every exit; success means every command issued once in order and acknowledged |
| `DiskRemoval.Removal.DeleteOne` | internal/app/disk_removal.go:219-268 | one round: volumes as recorded, intent, deletion, absence seen, acknowledgement |
| `DiskRemoval.Removal.Reconcile` | internal/app/disk_removal.go:270-303 | it issues nothing and is satisfied only by a fully acknowledged removal seen absent |
| `DiskRemoval.Removal.Run` | internal/app/disk_removal.go:183-303 | receipt and commands agree over every run, with outside changes; each deletion followed a check that showed exactly the disks before it absent, each acknowledgement one that showed the disk absent |
| `DiskMove.SeenIsReached` | internal/domain/disk_move.go:40-56 | a check reports exactly how far a move got, and errs exactly on an unverified copy |
| `DiskMove.Move.Execute` | internal/app/disk_move.go:213-278 | the definition always names an existing volume with the disk's content; each step is recorded before the next is issued; a finished move issued exactly the steps still to be done, and its receipt says how far it got and whether the original was kept; "not done" is returned only while the definition is unchanged |
| `DiskMove.Move.DeleteOldVolume` | internal/app/disk_move.go:263-272 | the original is deleted only while the definition names the verified copy |
| `DiskMove.Move.Reconcile` | internal/app/disk_move.go:279-313 | changes nothing, and is satisfied exactly when the definition names the verified copy |
| `DiskMove.Move.Run` | internal/app/disk_move.go:213-313 | over every run the receipt is never ahead of the world and each command is issued at most once |
| `GuestStages.ReportedIff` | internal/guestsetup/stages.go:299-310 | a user is reported exactly when the output is that user's decimal number and a line end |
| `GuestStages.ReceivedIsValid` | internal/guestsetup/stages.go:113-160 | every receipt built from an in-range result is a valid one |
| `GuestStages.CompletedIff` | internal/guestsetup/stages.go:97-112 | exactly which results complete a stage |
| `GuestStages.CheckDecides` | internal/guestsetup/stages.go:311-317 | a check that exits 0 found the guest configured, 3 asks for apply, any other fails |
| `GuestStages.ReadStages` | internal/guestsetup/stages.go:161-204 | accepts exactly the journals whose records are in order behind completed ones, and reports them |
| `GuestStages.WhatRanMayHave` | internal/guestsetup/stages.go:205-298 | each script ran at most once; apply only if the check's recorded exit was 3, and is skipped only if it was 0; verify only after applied or skipped |
| `GuestStages.Recipe.Execute` | internal/guestsetup/stages.go:205-298 | a stage with an intent is never run again; a success has a completing receipt and ran its script once, apply exactly if the check exited 3 |
| `GuestStages.Recipe.Reconcile` | internal/guestsetup/stages.go:328-357 | runs nothing and is satisfied exactly by completed receipts up to the stage |
| `GuestStages.Recipe.Run` | internal/guestsetup/stages.go:161-357 | over every run with a clock that never goes back the journal is never refused |
| `Subnets.OverlapsIffShare` | internal/app/host_inventory.go:98-115 | two blocks overlap exactly when they share an address |
| `Subnets.OverlapIsNesting` | internal/app/host_inventory.go:98-115 | and then one lies within the other |
| `Subnets.HighIsQuotient` | internal/app/host_inventory.go:44-50 | a block is one aligned run of addresses |
| `Subnets.CheckCIDR` | internal/app/network_creation.go:173-194 | finds no conflict exactly when the candidate shares no address with any reservation or observed block |
| `Subnets.ReserveKeepsDisjoint` | internal/app/network_creation.go:311-329 | a reservation of a free block keeps all reservations disjoint |
| `Subnets.Allocation.ReserveStep` | internal/app/network_creation.go:311-329 | the write adds the checked candidate where nothing was, also if it reports failure after it was durable, and disjointness survives |
| `Subnets.Allocation.Run` | internal/app/network_creation.go:298-329 | over any interleaving of jobs under the shared lock no two reservations on a connection share an address, and none is dropped |

## Left out

- Engine, SQLite store, wire decoding, schemas, libvirt backends and the network XML: only the contracts the handlers rely on.
- File ownership, modes beyond sealed or not, ACLs, SELinux, sealed memory files and descriptor passing: a held object with an identity.
- Signatures, policy files and peer credentials: a request is authorised or not.
- Archive.ValidateArchive: the 512-byte header is an uninterpreted function of member name and size, so its POSIX field layout is not checked.
- NetworkExecutor.Helper.Execute: the output parsers of firewall-cmd and of the kernel's chain listing and the systemd and namespace checks are steps that may fail.
- NetworkRecovery.ApplyAfterCrashes: a torn record refuses every later call by design, and a foreign change of the firewall is excluded by `calm`.
- LinkRewrite.RewriteMarkdown: the refusals of reference, HTML and indented links, the resolution of a destination, UTF-8 and the byte limits are parameters or omitted; what the text between and in place of the links becomes is proved.
- LinkMeaning.SourceLinkIsQuoted: the quoted reference is one code span on its own; an unclosed run of as many backticks earlier in the paragraph would pair with its delimiter.
- CreationLifecycle.Service.ExecuteCreation: the checks of source, target and space, uploads, seed staging and NVRAM binding are steps that may fail; the upload itself is modelled in HandOver.
- CreationLifecycle.Service.ExecuteCleanup: the search for references to a candidate and the extra file locks are steps that may refuse; a lineage's resource locks are one lock.
- HandOver.UploadKeeping: nothing is promised about the bytes once another creation has taken the copy over, because it may be releasing the file; the closing source check of `CreateVolumes` then refuses.
- ColdPublish.Catalog.Publish: nobody else writes to the private catalogue meanwhile, a write is durable when it returns (syncs and what a power loss takes back are not modelled), and sealing of a restored set is not modelled.
- DiskRemoval.Removal.Execute: the search for references to a selected disk is a step that may refuse.
- Subnets.CheckCIDR: host routes, native networks and planned allocations are one list of observed blocks; the exclusion of default routes and the observation limits happen before it.
- Disk grow, clone, pool operations, cold restore, disk addition and prepared-copy discard: the same receipt pattern with fewer states.
- Guest tool scripts, packaging subprocesses, review and estimate texts, TUI and CLI: no logic of this kind.
- Deadlines and cancellation beyond "the call may stop here".
