# Pi Harness: a verified model

Pi Harness puts a web console in front of the Pi coding agent. This project models the parts of it that
are algorithms or protocols, and proves what they keep. It covers the API gateway
(`packages/api-gateway`), some modules of the web client (`packages/client-web`) and the supervisor of
the command line (`packages/cli`).

* **Marketplace.** `InstallPlan` is the planner: a depth-first topological sort with an explicit stack.
  `Marketplace` gives the effect of the install, toggle and uninstall handlers on the two states they
  drive, the running loader and the profile file. `MarketplaceSafety` proves that every request leaves
  whatever is enabled with all of its dependencies enabled, `MarketplaceRuns` says exactly which runs do,
  with restarts in the middle of the writes of an install, `MarketplaceOrder` that plan order survives an
  install, `MarketplaceOutcomes` and `MarketplaceReplies` exactly when requests are accepted, refused and
  rolled back and what the replies mean, and `MarketplaceGateway` that the handlers, writing in place and
  compensating when something fails, compute those effects. `ProfileText` is the profile as text, with the
  printer, the reader and the two editors, whose scan for the end of a block need not end; `ProfileRoundTrip`, `ProfileTrim`, `ProfileReading` and `ProfileWalk` relate the
  text to the entries. `Edits` holds the edits of lines that these share.
* **Protocols between awaits.** What JavaScript runs between two awaits is one step, and the theorems
  quantify over all sequences of steps: `StatisticsLoader` (slots handed from lookup to lookup, single flight,
  back-off), `PromptProtocol` and `PromptAnswers` (request ids, receipts, two locks) and
  `SessionNavigation` and `NavigationSteps` (numbered requests, a chain of jobs).
* **State fed by events.** `EventStream` (retention, open calls, run phase), `OpenCalls` (which open calls
  are pushed out), `RunPhases` (which event a run's times and phase come from), `TrajectoryHistory` and
  `TimelineLaws` (bounded and compacted history), `ChatTurns`, `ChatTurnOrder` and `ChatTurnParts` (turns
  from messages), `RestartWindow` (a sliding window).
* **Traversals, parsers and printers.** `ImportedSession` (a forest of parent pointers checked in linear
  time), `WorkspaceWalk` (a bounded breadth-first walk), `JsonSafe` (object graphs with cycles),
  `GitStatus` and `AnnotationPrompt` (formats that must read back). `Text` and `Wrappers` hold what
  several of them share.

Each component is stated twice. A function says exactly what one call or one step does; the code that
works in place is a class or a method with loops that is proved equal to it. The theorems then say about
that function what its body does not show: invariants over runs, round trips, conservation, or the
agreement with an independent definition. Where the code meets a property only under a condition, the
condition is proved to be exact, or a lemma gives the inputs on which the property fails:

* an install writes the target before its dependencies, so a process that dies in between comes back
  incomplete unless each dependency of what was written so far was enabled before or is among it
  (`InterruptedInstall`, `RunIsSafeExactly`);
* a failed uninstall brings an entry that was switched off back switched on (`RollbackRestores`), and
  when the write that restores the profile is lost as well, dependencies may be missing
  (`LostRestoreWrite`);
* a toggle whose rejected update has nevertheless set the flag leaves it set in the loader
  (`RollbackRestores`, `RestartLeavesLoader`);
* entries that were out of plan order before an install stay so (`InstalledInPlanOrder`);
* below an entry at the left margin, a line there that is no item, a comment for example, makes toggle and
  uninstall of that entry run forever (`DivergesExactly`, `CommentBelowEntry`);
* switching an entry is not seen by the reader if its name stands elsewhere or a second `disabled` key
  remains (`ReadSwitched`), for example one on an unterminated last line (`UnterminatedKeyStays`), and
  switching off and on loses a key that was there (`OffAndOn`);
* a prompt whose receipt is lost can be accepted twice, and so can one whose receipt never reached the
  disk, as soon as its session is opened again (`RunsAgainExactly`, `KeptByPersistence`,
  `LostReceiptRunsTwice`);
* the 257th open tool call pushes out the oldest, whose end then has no duration (`ToolEndExactly`,
  `EvictedCallLosesDuration`);
* a rename that git reports only in the second status column is followed by its origin, which is read as
  one more entry if it has four characters or more (`GitStatus.RoundTripExactly`);
* a continuation line of a quote or note that looks like a numbered item is counted as an annotation
  (`AnnotationPrompt.RoundTripExactly`);
* a rejection handler that throws silences all later session navigation (`BrokenIsSilent`).

`dafny verify dfyconfig.toml` checks the project.

## Model

| member | source | states |
|---|---|---|
| InstallPlan.PlanCorrect | packages/api-gateway/src/marketplace.ts:181-202 | A plan is returned exactly when everything reachable from the target is in the catalogue and on no cycle; it is duplicate-free, exactly the reachable set, dependencies first, the target last. What is thrown names a real cycle or a really missing dependency. |
| InstallPlan.MarketplaceInstallPlan | packages/api-gateway/src/marketplace.ts:181-202 | The planner with its map, stack and growing plan meets the same specification. |
| InstallPlan.Planner.VisitEntry | packages/api-gateway/src/marketplace.ts:186-199 | The recursive visit on the shared stack and plan: on success the stack is as before and the plan has grown as specified; it terminates because the ids outside the stack shrink. |
| InstallPlan.VisitCorrect | packages/api-gateway/src/marketplace.ts:186-199 | One visit keeps the plan duplicate-free, dependency-closed and reachable, adds the visited entry, and reports only real defects. |
| InstallPlan.VisitAllCorrect | packages/api-gateway/src/marketplace.ts:191-195 | So does the loop over the dependencies, after which all of them are planned. |
| InstallPlan.RealErrorRefutes | packages/api-gateway/src/marketplace.ts:188-193 | A reported cycle or unknown dependency really rules out any plan. |
| InstallPlan.CheckConsistency | packages/api-gateway/src/marketplace.ts:234-247 | The load reports nothing exactly when ids and packages are unique and categories are labelled alike. |
| InstallPlan.LoadMarketplacePlugins | packages/api-gateway/src/marketplace.ts:234-250 | The load succeeds exactly on consistent catalogues all of whose entries can be planned. |
| InstallPlan.LoadedCatalogNeverThrows | packages/api-gateway/src/marketplace.ts:248 | Once the load has checked every entry, no later planning of a catalogue entry throws, and plans stay inside the catalogue. |
| MarketplaceRuns.RunIsSafeExactly | packages/api-gateway/src/index.ts:2003-2306 | From a safe state, a run of arriving and finishing requests, in all their outcomes, and of restarts at any moment keeps the invariant throughout if and only if no restart in it finds an incomplete part of the writes of an install. |
| MarketplaceRuns.EnabledPluginsStayComplete | packages/api-gateway/src/index.ts:2003-2306 | At the end of such a run, what is active is enabled, and everything an enabled plugin reaches through dependencies is enabled. |
| MarketplaceRuns.StepIsSafeExactly | packages/api-gateway/src/index.ts:2003-2306 | One step from a safe state: only a restart in the middle of an install can break the invariant, and exactly if the writes so far were incomplete. |
| MarketplaceRuns.CrashIsSafeExactly | packages/api-gateway/src/index.ts:2003-2306 | A restart any number of writes into a request: always safe for a toggle and an uninstall, exactly if the writes are complete for an install. |
| MarketplaceRuns.InterruptedInstall | packages/api-gateway/src/index.ts:2067-2085 | For every prefix of the writes of an install, re-enabling writes included: a restart is safe if and only if each dependency of each plugin written or re-enabled so far was enabled before or is among those. |
| MarketplaceRuns.WrittenEffect | packages/api-gateway/src/index.ts:2067-2085 | A profile written in part enables exactly what it enabled before and the plugins of the writes so far, and keeps ids unique. |
| MarketplaceRuns.TargetComesFirst | packages/api-gateway/src/index.ts:2075-2083 | Whenever the target and one of its dependencies are both missing, the profile is incomplete after the first write of the walk. |
| MarketplaceSafety.HandleKeepsSafe | packages/api-gateway/src/index.ts:2020-2299 | Every single request keeps dependency closure together with well-formed profile and loader, whatever npm, file system and loader answer, a write failing at any point included. |
| MarketplaceSafety.InstallKeepsSafe | packages/api-gateway/src/index.ts:2033-2122 | In particular an install. |
| MarketplaceSafety.ToggleKeepsSafe | packages/api-gateway/src/index.ts:2164-2198 | In particular a toggle: the checks of active dependencies and of enabled dependents suffice. |
| MarketplaceSafety.UninstallKeepsSafe | packages/api-gateway/src/index.ts:2230-2299 | In particular an uninstall, of a loaded and of a pending plugin. |
| MarketplaceSafety.RestartKeepsSafe | packages/api-gateway/src/index.ts:773-783 | Rebuilding the loader from the profile keeps the invariant. |
| MarketplaceSafety.ClosedTransitively | packages/api-gateway/src/index.ts:2169-2171 | Closure under direct dependencies gives closure under all reachable ones. |
| MarketplaceSafety.EnabledMeans | packages/api-gateway/src/index.ts:705-721 | The package sets that the handlers compute from loader and profile say what the profile says; active packages are enabled ones. |
| MarketplaceSafety.InstalledProfileEffect | packages/api-gateway/src/index.ts:2067-2085 | The writes of an install add exactly the missing plan entries and enable exactly those, the re-enabled dependencies and what was enabled before. |
| MarketplaceSafety.WalkEffect | packages/api-gateway/src/index.ts:2073-2085 | The walk loses no entry, adds one for each missing plan entry and nothing else, and keeps ids unique. |
| MarketplaceSafety.ReenableEffect | packages/api-gateway/src/index.ts:2068-2072 | Re-enabling fails exactly when a dependency has no profile entry; otherwise it switches exactly those entries on. |
| MarketplaceSafety.InstallDelivers | packages/api-gateway/src/index.ts:2033-2107 | After an accepted install every plan entry has a profile entry and is enabled, except a target that was installed and switched off before. |
| MarketplaceSafety.RollbackRestores | packages/api-gateway/src/index.ts:2108-2299 | A request that is not applied leaves the profile as it was, and the loader too if and only if it is neither a failed uninstall of an entry that was switched off nor a toggle whose rejected update left the other flag. |
| MarketplaceSafety.LostRestoreWrite | packages/api-gateway/src/index.ts:2284-2299 | If the write that restores the profile after a failed uninstall is lost too, closure survives exactly when the dependencies of the plugin are enabled. |
| MarketplaceReplies.EnableAllowedExactly | packages/api-gateway/src/index.ts:2167-2177 | Enabling is allowed exactly when every catalogue plugin that the target reaches through dependencies, itself apart, is active. |
| MarketplaceReplies.DropAllowedExactly | packages/api-gateway/src/index.ts:2178-2184 | In a safe state, disabling and uninstalling are allowed exactly when no other enabled plugin reaches the target through any number of dependencies, although only direct dependents are looked at. |
| MarketplaceReplies.RestartLeavesLoader | packages/api-gateway/src/index.ts:2052-2193 | A reply that asks for a restart leaves the running loader as it was if and only if it is not that of a toggle whose leased update left the other flag. |
| MarketplaceReplies.RestartCompletesToggle | packages/api-gateway/src/index.ts:2185-2195 | Whichever flag a leased update left, after an accepted toggle and a restart the loader carries the requested flag for the id and no other. |
| MarketplaceReplies.SwitchedOffIsInactive | packages/api-gateway/src/index.ts:705-2195 | Before any restart, and whichever flag was left, a plugin that was switched off is not active. |
| MarketplaceReplies.ToggleShows | packages/api-gateway/src/index.ts:2185-2189 | After a toggle without restart, loader and profile both carry the requested flag for the id, and no entry carries the other. |
| MarketplaceReplies.UninstallShows | packages/api-gateway/src/index.ts:2230-2283 | After an uninstall neither loader nor profile has an entry with the id. |
| MarketplaceReplies.InstallShows | packages/api-gateway/src/index.ts:2087-2107 | After an install without restart the whole plan is loaded, except a target that was installed and switched off. |
| MarketplaceOutcomes.InstallAnswers | packages/api-gateway/src/index.ts:2033-2121 | What an install of a catalogue plugin answers, by the entries, what the plugin reaches and the environment: 409 if and only if nothing it reaches is missing, switched off or waiting and it is loaded; accepted without restart if and only if something is missing, no dependency is switched off or waiting, and npm, every write and every creation succeed; accepted with restart if and only if all is written but not all loaded, or all gets written and cannot be activated now; rolled back if and only if not all gets written, or a creation fails for another reason than the lease. |
| MarketplaceOutcomes.UnknownInstall | packages/api-gateway/src/index.ts:2028-2032 | 404 if and only if the catalogue has no plugin with the id. |
| MarketplaceOutcomes.InstallGrowsLoader | packages/api-gateway/src/index.ts:2091-2107 | An install without restart adds to the loader exactly one enabled entry for each missing plugin, dependencies first, directly in front of the first runtime entry or else at the end, and leaves all others in their order; every other install leaves the loader alone. |
| MarketplaceOutcomes.ToggleAnswers | packages/api-gateway/src/index.ts:2164-2198 | What a toggle of a catalogue plugin's entry answers: 409 if and only if a plugin it reaches is not active, or one that is enabled depends on it; 400 if and only if allowed and not written; otherwise accepted, accepted with restart or rolled back exactly as the loader took the update. |
| MarketplaceOutcomes.UnknownToggle | packages/api-gateway/src/index.ts:2154-2163 | 404 if and only if no loader entry has the id, 403 if and only if the first one that has it is of no catalogue plugin. |
| MarketplaceOutcomes.ToggleChangesFlags | packages/api-gateway/src/index.ts:2185-2198 | A toggle changes at most the flag of the one loader entry and of the one profile entry: the profile's exactly if it is accepted, the loader's to what the loader made of it. |
| MarketplaceOutcomes.UninstallAnswers | packages/api-gateway/src/index.ts:2230-2299 | What an uninstall answers, loaded or pending: 409 if and only if an enabled plugin depends on it, accepted if and only if allowed, in the profile, written and uninstalled by npm, rolled back otherwise. |
| MarketplaceOutcomes.UnknownUninstall | packages/api-gateway/src/index.ts:2233-2263 | 404 and 403 if and only if no catalogue plugin is meant, by a pending or by a loaded entry. |
| MarketplaceOutcomes.UninstallRemoves | packages/api-gateway/src/index.ts:2280-2283 | An accepted uninstall takes out the one entry with the id of loader and profile and leaves all others in place. |
| MarketplaceOutcomes.EnabledByEntries | packages/api-gateway/src/index.ts:707-714 | A package counts as enabled if and only if a profile entry of it is switched on, or only the loader knows it and has it switched on, in any state. |
| MarketplaceOutcomes.ActiveByEntries | packages/api-gateway/src/index.ts:716-721 | A package counts as active if and only if a loader entry of it is switched on and its last profile entry, if any, does not switch it off. |
| MarketplaceOrder.WalkKeepsOrder | packages/api-gateway/src/index.ts:2074-2085 | The walk leaves the plan entries in plan order in front of its first anchor exactly when the configured ones were. |
| MarketplaceOrder.InstalledInPlanOrder | packages/api-gateway/src/index.ts:2061-2085 | After the writes of an install the plan entries stand in plan order ahead of the entry of the first runtime in the loader if and only if those configured before did. |
| MarketplaceOrder.InstalledInPlanOrderAtEnd | packages/api-gateway/src/index.ts:2061-2085 | Without a runtime in the loader, where new entries go to the end, they stand in plan order if and only if those configured before did. |
| MarketplaceGateway.Gateway.InstallPlugin | packages/api-gateway/src/index.ts:2003-2129 | The install handler with its mutation flag: refused while a change runs; otherwise loader, profile and reply are those of the specification, and the flag is released on every path. |
| MarketplaceGateway.Gateway.WriteAndActivate | packages/api-gateway/src/index.ts:2064-2122 | The inner try block: writes one by one, any of which may fail, creations one by one, and on failure removal in reverse order and restoration, end in the specified state. |
| MarketplaceGateway.Gateway.WriteProfile | packages/api-gateway/src/index.ts:2067-2085 | Both passes over the profile: on success the installed profile, and when a write fails or an entry is missing, exactly the profile of the writes before it. |
| MarketplaceGateway.Gateway.WriteMissing | packages/api-gateway/src/index.ts:2073-2085 | The second pass alone, from a profile with the dependencies switched on. |
| MarketplaceGateway.Gateway.ReenableDependencies | packages/api-gateway/src/index.ts:2068-2072 | The loop of writes re-enables as specified, or stops where the specification throws or a write fails, with the writes before that done. |
| MarketplaceGateway.Gateway.WritePlan | packages/api-gateway/src/index.ts:2073-2085 | The loop from the last plan entry to the first, with its moving anchor, writes the specified profile, or the walk over the last entries when a write fails. |
| MarketplaceGateway.Gateway.CreateMissing | packages/api-gateway/src/index.ts:2091-2107 | Creating the missing entries one after another ahead of the runtime, up to the first failure. |
| MarketplaceGateway.Gateway.RemoveCreated | packages/api-gateway/src/index.ts:2109 | Removing what was created, newest first, gives back the loader from before. |
| MarketplaceGateway.Gateway.TogglePlugin | packages/api-gateway/src/index.ts:2130-2205 | The toggle handler with its flag refines the specification, with rollback and lease error. |
| MarketplaceGateway.Gateway.UninstallPlugin | packages/api-gateway/src/index.ts:2206-2306 | The uninstall handler refines the specification, for loaded and pending plugins. |
| ProfileText.ScanExactly | packages/api-gateway/src/index.ts:1008-1017 | The loop that looks for the end of a block, round by round with the search position of its pattern: it ends if and only if nothing but blank lines stands at the left margin inside the block, and what it finds is the first line that ends the block. |
| ProfileText.EndsUnlessAtMargin | packages/api-gateway/src/index.ts:1008-1017 | Equivalently, it ends if and only if the entry is indented or every line at the left margin up to the next item or the end of the text is blank. |
| ProfileText.DivergesExactly | packages/api-gateway/src/index.ts:999-1022 | Switching and removing an entry that is in the text fail to return on exactly the texts in which that loop does not end. |
| ProfileText.CommentBelowEntry | packages/api-gateway/src/index.ts:1008-1017 | A comment at the left margin below an entry there is such a text. |
| ProfileText.IdExactly | packages/api-gateway/src/index.ts:1002 | A line has an id if and only if it is an item with that id, which is not empty and holds no blank, followed by blanks. |
| ProfileText.NameExactly | packages/api-gateway/src/index.ts:773 | A line has a package name if and only if it is indented and holds the quoted name, which is not empty, after its key; it is closed if nothing follows. |
| ProfileRoundTrip.AppendThenRemove | packages/api-gateway/src/index.ts:985-1022 | Appending a printed entry ahead of an anchor and removing it comes to an end and gives back the text exactly. |
| ProfileRoundTrip.AppendAtEndThenRemove | packages/api-gateway/src/index.ts:990-1022 | Without an anchor, the removal comes to an end too, and what remains is the text with its trailing white space reduced to one line feed. |
| ProfileTrim.TrimEndExactly | packages/api-gateway/src/index.ts:991 | What an append at the end trims off the text is white space, and it trims all of it. |
| ProfileRoundTrip.OffAndOn | packages/api-gateway/src/index.ts:1008-1030 | For every entry in the text: switching it off and on returns and gives back the text if and only if nothing in its block stands at the left margin and the block carried no disabled key. |
| ProfileRoundTrip.OffTwice | packages/api-gateway/src/index.ts:1008-1030 | Switching off twice returns and is switching off once if and only if nothing in the block stands at the left margin and no disabled key is left that stands above the name. |
| ProfileReading.ReadAppended | packages/api-gateway/src/index.ts:773-997 | The reader sees an anchored append as the insertion of the one entry ahead of the anchor entry. |
| ProfileReading.ReadRemoved | packages/api-gateway/src/index.ts:773-1022 | A removal returns if and only if nothing in the block stands at the left margin, and then the reader sees it as the removal of the one entry if and only if the block holds no other. |
| ProfileReading.ReadSwitched | packages/api-gateway/src/index.ts:773-1032 | A switch returns if and only if nothing in the block stands at the left margin. Then the reader sees the entry switched on if and only if, with the first terminated disabled key dropped, the line below the name is not `disabled: true`; and switched off if and only if the name line is terminated, ends at its quote and stands at the indent where the editor looks, or that line still is `disabled: true`. All other entries read the same. |
| ProfileReading.ManagedIsSwitched | packages/api-gateway/src/index.ts:1023-1030 | Both conditions hold for an entry in the form the gateway writes and keeps. |
| ProfileReading.AppendedCanBeSwitched | packages/api-gateway/src/index.ts:985-1032 | An entry that an install has put in front of its anchor can be switched in either direction, and the reader sees it. |
| ProfileReading.AppendedHoldsConfig | packages/api-gateway/src/index.ts:985-997 | The block of an appended entry, in front of an anchor or at the end, holds exactly one line with the printed configuration, and exactly one group line for a group and none otherwise. |
| ProfileReading.UnterminatedKeyStays | packages/api-gateway/src/index.ts:1024-1025 | In any text that ends in the id, the name and the disabled key of an entry, the last without a line feed, the key is read but switching on changes nothing. |
| ProfileWalk.TextWalkRefines | packages/api-gateway/src/index.ts:2073-2085 | The install walk over the text, read back, is the walk over the entries. |
| ProfileWalk.TextReenableRefines | packages/api-gateway/src/index.ts:2068-2072 | The re-enabling writes over the text, read back, are those over the entries. |
| ProfileWalk.TextInstallRefines | packages/api-gateway/src/index.ts:2067-2085 | Everything an install writes into the text, read back, is the profile that the specification of the install gives. |
| StatisticsLoader.SlotsAndFlights | packages/api-gateway/src/marketplace.ts:384-426 | In every interleaving the count of slots is the number of lookups holding one and at most the limit; someone waits only when all slots are held; waiting is first come, first served; at most one lookup per package is outstanding; when all are done no slot is held and nobody waits. |
| StatisticsLoader.HandOff | packages/api-gateway/src/marketplace.ts:396-400 | A released slot goes straight to the lookup that has waited longest, without passing through the counter. |
| StatisticsLoader.BackOffHolds | packages/api-gateway/src/marketplace.ts:401-426 | In every interleaving the cached failure count is the number of consecutive failures in the history of the package, the cached answer is the last one reported, and no lookup starts before the window set by the one before has passed: ttlMs after an answer, and after failures a window that begins with failureTtlMs and doubles up to the 21st, never above failureMaxTtlMs. |
| StatisticsLoader.WindowLaw | packages/api-gateway/src/marketplace.ts:401 | The formula of the source obeys that law: the first window is the lesser of failureTtlMs and failureMaxTtlMs, each further one up to the 21st the lesser of twice the one before and failureMaxTtlMs, and from there on it stays the same. |
| StatisticsLoader.StartsExactly | packages/api-gateway/src/marketplace.ts:402-417 | In every interleaving a call starts a lookup if and only if none is outstanding for the package and the window of the last one has passed. |
| StatisticsLoader.OutcomeIsReported | packages/api-gateway/src/marketplace.ts:409-425 | Whatever happens between the end of a fetch and the resumption of its owner, the owner reports and caches what the fetch brought. |
| StatisticsLoader.WindowMonotone | packages/api-gateway/src/marketplace.ts:377-401 | The retry window grows with the failures and is capped. |
| StatisticsLoader.ReadyStays | packages/api-gateway/src/marketplace.ts:433-449 | Readiness is never lost in any run, for a fixed list of packages. |
| StatisticsLoader.RunKeepsConsistent | packages/api-gateway/src/marketplace.ts:384-426 | Slots in order, single flight and a cache that matches the history are kept by all runs. |
| StatisticsLoader.StatisticsLoaderState.LoadPackage | packages/api-gateway/src/marketplace.ts:402-417 | A call up to its first await: answered from the cache, joined to the lookup in flight, or a new lookup that holds a slot or waits. |
| StatisticsLoader.StatisticsLoaderState.AcquireSlot | packages/api-gateway/src/marketplace.ts:389-395 | Takes a free slot or joins the waiters at the end. |
| StatisticsLoader.StatisticsLoaderState.ReleaseSlot | packages/api-gateway/src/marketplace.ts:396-400 | Hands the slot to the first waiter or gives it back. |
| StatisticsLoader.FetchSettles | packages/api-gateway/src/marketplace.ts:411-415 | The end of a fetch settles the lookup that holds the slot with what the fetch brought. |
| StatisticsLoader.StatisticsLoaderState.FetchSettled | packages/api-gateway/src/marketplace.ts:411-415 | The end of a fetch releases the slot of its lookup. |
| StatisticsLoader.StatisticsLoaderState.ResumeOwner | packages/api-gateway/src/marketplace.ts:418-425 | The owner of a lookup writes the cache and ends the flight. |
| StatisticsLoader.StatisticsLoaderState.ReadCached | packages/api-gateway/src/marketplace.ts:433-449 | Reports readiness for exactly the packages ever looked up, the fresh statistics, and starts a lookup for every stale package. |
| PromptProtocol.AcceptedAtMostOnce | packages/api-gateway/src/index.ts:2704-2815 | In every interleaving, across session changes and restarts, a submission accepted in the active session with a receipt that reached the file never runs or is accepted again, whatever digest a retry carries. |
| PromptProtocol.RunsExactly | packages/api-gateway/src/index.ts:2704-2788 | In every reachable state a submission with an id for the active session runs if and only if its key is not claimed, no receipt of it is kept, and the gate is free. |
| PromptProtocol.RunsAgainExactly | packages/api-gateway/src/index.ts:2712-2815 | After a request has settled, accepted or not, its key runs again if and only if no receipt of it is kept and the gate is free. |
| PromptProtocol.KeptByPersistence | packages/api-gateway/src/index.ts:2712-2756 | When the receipt of an acceptance is kept: one in the file, if its session was active then or has been opened since; one with an error, only until a session is opened or the process restarts; a lost one, never. |
| PromptProtocol.UnkeptRunsTwice | packages/api-gateway/src/index.ts:2712-2815 | Whenever it is not kept and the gate is free, the same submission runs and can be accepted a second time. |
| PromptAnswers.AnswersExactly | packages/api-gateway/src/index.ts:2704-2788 | What a submission with an id to the active session is told in every reachable state: received if and only if the first kept receipt has its digest and was stored, its error if and only if it was not, a different prompt if and only if receipt or else claim has another digest, still checking if and only if it is claimed with this digest and no receipt is kept, and otherwise each answer of the gate exactly for its flags. |
| PromptAnswers.OtherAnswers | packages/api-gateway/src/index.ts:2690-2788 | Malformed and changed-session answers, and those to submissions without an id, each exactly for its condition, in any state. |
| PromptAnswers.AcceptedHasRun | packages/api-gateway/src/index.ts:2736-2762 | In every interleaving whatever is accepted had run before under the same number, key and digest. |
| PromptAnswers.OperationsExactly | packages/api-gateway/src/index.ts:1474-1489 | In every reachable state an operation takes its lock if and only if no prompt runs and the session is idle; its end changes the lock and the session it opened, which brings in exactly the receipts ever stored for it; a restart leaves nothing claimed, locked or running. |
| PromptProtocol.LocksReleased | packages/api-gateway/src/index.ts:2757-2815 | The prompt lock and the session-operation lock are never held together; each claimed key has exactly one running owner; all is released when the last request has settled. |
| PromptProtocol.RetryIsRefused | packages/api-gateway/src/index.ts:2704-2735 | While a key is claimed or has a kept receipt a retry changes nothing, and is told of a different prompt if and only if the digest of the receipt, or else of the claim, differs. |
| PromptProtocol.RejectedMayRetry | packages/api-gateway/src/index.ts:2757-2815 | A submission to the session still active that settles unaccepted leaves no trace: its id runs again if and only if the gate is free. |
| PromptProtocol.LostReceiptRunsTwice | packages/api-gateway/src/index.ts:2736-2756 | It does happen: a run in which a lost receipt lets the same submission be accepted twice. |
| PromptProtocol.RunKeepsInv | packages/api-gateway/src/index.ts:2704-2815 | Lock exclusion, ownership of claims and of receipts, and the agreement of the receipts in memory and in the files with the log are kept by all runs. |
| PromptProtocol.PromptGate.HandlePrompt | packages/api-gateway/src/index.ts:2704-2762 | The handler up to the runtime call decides and claims as specified. |
| PromptProtocol.PromptGate.PreflightResult | packages/api-gateway/src/index.ts:2736-2756 | The acceptance callback records at most one receipt per request. |
| PromptProtocol.PromptGate.Release | packages/api-gateway/src/index.ts:2811-2815 | The finally clause releases what this request claimed and no more. |
| PromptProtocol.PromptGate.BeginSessionOperation | packages/api-gateway/src/index.ts:1474-1483 | An operation is admitted exactly when neither lock is held and the session is idle. |
| PromptProtocol.PromptGate.EndSessionOperation | packages/api-gateway/src/index.ts:1484-1488 | Its end releases the lock; a session that was opened brings in the receipts of its file and no others. |
| SessionNavigation.JobsRunInOrder | packages/client-web/src/session-navigation.ts:34-46 | In every interleaving jobs begin in the order of their requests, and each only after the one before is over. |
| SessionNavigation.ReportsIncrease | packages/client-web/src/session-navigation.ts:29-45 | Requests are accepted in strictly increasing order, and so are rejections. |
| SessionNavigation.SupersededIsSilent | packages/client-web/src/session-navigation.ts:37-44 | From the moment a newer request exists, an older one is neither accepted nor rejected, at whichever await its job stands. |
| SessionNavigation.LastRequestIsAnswered | packages/client-web/src/session-navigation.ts:29-46 | If no rejection handler throws, the last request has been accepted or rejected when the queue has drained. |
| SessionNavigation.AcceptedSessionIsActive | packages/client-web/src/session-navigation.ts:38-41 | If the newest request has been accepted, the session it was accepted with is the last requested path and is active. |
| SessionNavigation.BrokenIsSilent | packages/client-web/src/session-navigation.ts:31-45 | Once a rejection handler has thrown, nothing is ever accepted or rejected again. |
| NavigationSteps.ReadOutcome | packages/client-web/src/session-navigation.ts:34-40 | With the answer about the active session, in every reachable state: the job of an older request ends without a word; that of the newest is rejected if the question failed, accepted if its path is active, and opens it otherwise. |
| NavigationSteps.OpenOutcome | packages/client-web/src/session-navigation.ts:37-44 | When the opening is over: an older job ends without a word, the newest one is accepted with its path or rejected. |
| NavigationSteps.HandledOutcome | packages/client-web/src/session-navigation.ts:39-45 | When the acceptance handler is over the job ends, rejected after all if and only if the handler failed and nothing newer has taken its place. |
| NavigationSteps.BetweenJobs | packages/client-web/src/session-navigation.ts:31-33 | The next job begins, or is skipped once the chain is rejected; a refresh forgets only an accepted request. |
| NavigationSteps.UndisturbedJobIsAccepted | packages/client-web/src/session-navigation.ts:29-46 | A request that nothing disturbs and nothing fails for ends accepted, with its path active. |
| SessionNavigation.RunKeepsInv | packages/client-web/src/session-navigation.ts:20-47 | Numbering, order, the pending request and the reports agree after every run. |
| SessionNavigation.NavigationRefs.Enqueue | packages/client-web/src/session-navigation.ts:29-31 | A request takes the next number, replaces what is pending and joins the chain. |
| SessionNavigation.NavigationRefs.BeginJob | packages/client-web/src/session-navigation.ts:31-34 | The next job of the chain begins, or is skipped once the chain is rejected. |
| SessionNavigation.NavigationRefs.SessionIsRead | packages/client-web/src/session-navigation.ts:34-40 | The part of a job between its first and its second await. |
| SessionNavigation.NavigationRefs.SessionIsOpened | packages/client-web/src/session-navigation.ts:37-41 | The part after the opening. |
| SessionNavigation.NavigationRefs.AcceptanceIsHandled | packages/client-web/src/session-navigation.ts:39-41 | When the acceptance handler is done the job ends, or its error goes to the catch clause. |
| SessionNavigation.NavigationRefs.CatchInJob | packages/client-web/src/session-navigation.ts:41-45 | The catch clause reports and clears only for the newest request. |
| ImportedSession.ValidateImportedSession | packages/api-gateway/src/index.ts:120-183 | Accepts exactly the bodies with one leading supported header, good entries, and from version 2 on unique ids and parent chains that all reach null; of any other it reports the first defect, with its line and its reason. |
| ImportedSession.ReadHeader | packages/api-gateway/src/index.ts:139-146 | The first line is taken exactly if it is a supported header, and otherwise the reason is the one that holds of it. |
| ImportedSession.CheckChains | packages/api-gateway/src/index.ts:170-182 | The memoised second pass finds no fault exactly when all chains reach null, then takes one step per node in total; otherwise it names the line of the first node whose chain does not, and whether that chain leads to a missing record or never ends. |
| ImportedSession.WalkChain | packages/api-gateway/src/index.ts:172-181 | One walk succeeds exactly when the chain reaches null, counts only nodes not checked before, adds only good ones to the memo, and tells a missing parent from a cycle. |
| ImportedSession.ReadEntry | packages/api-gateway/src/index.ts:127-168 | A line behind the header is taken exactly when all lines so far are good, and an error names that line and the reason that holds of it. |
| ImportedSession.CycleNotRooted | packages/api-gateway/src/index.ts:175 | A node that is met twice on a walk has no chain that reaches null. |
| EventStream.RetainsTheLatest | packages/api-gateway/src/index.ts:1570-1574 | The retained events are exactly the last at most 2,000 durable ones since the last reset. |
| EventStream.OpenCallsBounded | packages/api-gateway/src/index.ts:1519-1536 | At most 256 calls are open, none twice. |
| EventStream.OpenCallsExact | packages/api-gateway/src/index.ts:1519-1554 | While no call starts with 256 open, the map is exactly the calls started and not ended since the last agent start or settle, with their start times. |
| EventStream.ToolEndIsAuthoritative | packages/api-gateway/src/index.ts:1531-1567 | A tool end then carries the time since its start exactly when its call was open, and sets the tool phase exactly when another call is. |
| OpenCalls.PlacesExact | packages/api-gateway/src/index.ts:1519-1554 | In every history, overflow included, the map holds a call with its start time exactly if counting finds it in place: started, not ended or cleared since, and not pushed out by a start that found 255 open calls behind it. |
| OpenCalls.ToolEndExactly | packages/api-gateway/src/index.ts:1531-1567 | In every history, a tool end carries the time since its start exactly if its call is in place, and when it updates the run sets the tool phase exactly if another call is. |
| OpenCalls.InPlaceIsOpen | packages/api-gateway/src/index.ts:1519-1554 | A call in place was started at that time and has not ended since. |
| OpenCalls.EvictedCallLosesDuration | packages/api-gateway/src/index.ts:1525-1528 | A history of 257 starts: before the last of them the end of the first call carries its duration, after it none, although the call has not ended. |
| RunPhases.RunExactly | packages/api-gateway/src/index.ts:1538-1569 | In every history the run that is shown is the one that the last beginning event began: it started then, its last activity is the last event of its session since, and its phase is that of the last event since that sets one. |
| RunPhases.PhaseOnEvent | packages/api-gateway/src/index.ts:1541-1567 | The phase written onto an event is that of the run, and only events of compactions and the ends of tools in a run carry one. |
| EventStream.Gateway.StampEvent | packages/api-gateway/src/index.ts:1520-1537 | Updates the map of open calls and computes the duration as specified. |
| EventStream.Gateway.HandleEvent | packages/api-gateway/src/index.ts:1538-1574 | Updates run, open calls and retained events as specified, and stamps the event. |
| EventStream.Gateway.ResetEvents | packages/api-gateway/src/index.ts:2899-2903 | A change of session forgets the retained events and nothing else. |
| TrajectoryHistory.BoundedInStages | packages/client-web/src/runtime-events.ts:19-38 | Bounding to N and then to M is bounding to M, for all events, markers included, and 1 <= M <= N. |
| TrajectoryHistory.BoundedConserves | packages/client-web/src/runtime-events.ts:19-38 | Nothing is left out that fits; otherwise the last events of the limit are kept without the tool ends they would start with, behind a marker that counts all others and carries the clock of the first one kept. |
| TrajectoryHistory.BoundedHistoricalEvents | packages/client-web/src/runtime-events.ts:19-38 | The code with its loop and its case for a limit of one computes the bounded history. |
| TrajectoryHistory.HistoricalTrajectoryEvents | packages/client-web/src/runtime-events.ts:41-98 | The single pass with its map computes the bounded timeline of the entries. |
| TimelineLaws.TimelineExactly | packages/client-web/src/runtime-events.ts:46-97 | The timeline is exactly the entries one behind the other: the start of each call of an assistant entry at its clock, the end of each result with id, clock, error flag and a timing that is unknown if and only if nobody asked for the call before, the duration since the last entry that asked if it asked for that call alone, and that of the batch with its size otherwise. |
| TrajectoryHistory.DurationsAreProven | packages/client-web/src/runtime-events.ts:60-95 | A duration is shown only for a call alone in its entry, and is the time from the last entry that asked for it. |
| TrajectoryHistory.MergeBounded | packages/client-web/src/runtime-events.ts:101-114 | The merged timeline stays within the limit and ends in the live events. |
| TrajectoryHistory.MergeSeparates | packages/client-web/src/runtime-events.ts:104-113 | What stands before the live events comes from history, belongs to no live call and is earlier than all of them. |
| TimelineLaws.MergeExactly | packages/client-web/src/runtime-events.ts:101-114 | A merge is the history that is earlier than the feed and of no call of it, all of it in order if the bound leaves room and shortened otherwise, followed by the latest events of the feed. |
| TimelineLaws.EarlierIsKept | packages/client-web/src/runtime-events.ts:106-113 | A historical event of no live call and earlier than the whole feed is kept whenever the bound leaves room. |
| TrajectoryHistory.CompactThinkingEvents | packages/client-web/src/runtime-events.ts:123-142 | The loop that overwrites its last event computes the compaction. |
| TrajectoryHistory.CompactConserves | packages/client-web/src/runtime-events.ts:123-142 | Compaction keeps all reasoning text and all other events in order and leaves no two thinking deltas side by side. |
| TrajectoryHistory.CompactIdempotent | packages/client-web/src/runtime-events.ts:123-142 | Compacting what is compact changes nothing. |
| TrajectoryHistory.CompactInPieces | packages/client-web/src/runtime-events.ts:123-142 | Compacting piece by piece is compacting the whole. |
| ChatTurns.TurnsAreRuns | packages/client-web/src/message-content.ts:128-180 | There is one turn for each maximal run of visible messages, holding its merged parts, and it is stopped exactly when one of its messages was aborted. |
| ChatTurns.NoAdjacentAssistants | packages/client-web/src/message-content.ts:162-177 | No two assistant turns stand side by side. |
| ChatTurns.ContentConserved | packages/client-web/src/message-content.ts:128-180 | The assistant turns hold every assistant tool call in order with the last result for its id, and all assistant text in order. |
| ChatTurnOrder.SpokenConserved | packages/client-web/src/message-content.ts:80-180 | Reasoning left aside, the parts of the assistant turns, end to end, are the parts of the assistant messages: calls and pieces of text in the same order and cut at the same places. |
| ChatTurnParts.AssistantTurnExactly | packages/client-web/src/message-content.ts:40-180 | The parts of an assistant turn, from the contents of its messages alone: every piece that is not empty, in order; neighbouring reasoning is one part, also across messages, neighbouring text one part within a message, every call a part. |
| ChatTurnParts.GroupsExactly | packages/client-web/src/message-content.ts:40-104 | The grouping is the pieces, in order, cut exactly where neighbours do not belong together. |
| ChatTurnParts.JoinedExactly | packages/client-web/src/message-content.ts:40-45 | A part of several pieces is their values, with blank lines between them if and only if they are reasoning. |
| ChatTurnParts.FillExactly | packages/client-web/src/message-content.ts:129-134 | A call is shown with the text and error flag of the last tool result for its id, wherever it stands, and everything else as it was written. |
| ChatTurnParts.TurnTextExactly | packages/client-web/src/message-content.ts:90-93 | The text of a turn is the texts of its parts with blank lines between them. |
| ChatTurnParts.UserShows | packages/client-web/src/message-content.ts:150-157 | A user message shows its text parts, which are all of its text, and nothing of reasoning or calls. |
| ChatTurnParts.OtherTurnExactly | packages/client-web/src/message-content.ts:104-126 | A turn that is not the assistant's shows exactly one message: a user's text parts, a displayed custom message's text, or a compaction's summary with its token count. |
| ChatTurnParts.VisibleExactly | packages/client-web/src/message-content.ts:136-170 | A message is shown if and only if it is an assistant's with some piece or interrupted, a user's or displayed custom one with text, or a compaction. |
| ChatTurnParts.RunsAreAll | packages/client-web/src/message-content.ts:135-180 | The groups of messages that become turns are all visible messages, in order. |
| ChatTurns.ProjectChatTurns | packages/client-web/src/message-content.ts:128-180 | The two passes, overwriting the last turn, compute the projection. |
| ChatTurns.ComputeMessageParts | packages/client-web/src/message-content.ts:48-78 | The loop over the content computes the parts with adjacent prose joined. |
| WorkspaceWalk.WalkedWorkspaceFiles | packages/api-gateway/src/index.ts:1310-1354 | On any finite tree: listed paths are different regular files not below an ignored or linked directory, at most 5,000; an unmarked listing is complete; a marked one has a reason; the walk ends. |
| WorkspaceWalk.ScanDirectory | packages/api-gateway/src/index.ts:1325-1350 | One directory: what is found is there, nothing is left out unless flagged, and the flag has a reason. |
| WorkspaceWalk.WalkGoesOn | packages/api-gateway/src/index.ts:1317-1351 | Taking one directory off the queue keeps every file listed or below a queued directory, and every directory queued at most once. |
| JsonSafe.Marks.JsonSafe | packages/api-gateway/src/index.ts:236-252 | The walk with its one shared set of marks: it ends on every finite graph, computes the specified value, and leaves the marks as before when it returns and when it throws. |
| JsonSafe.CircularExactly | packages/api-gateway/src/index.ts:243-248 | Positions of the result are those whose way enters no object twice; "[Circular]" stands exactly where a reference points at an ancestor; everything else is written out. |
| JsonSafe.PlainExactlyWithoutCycles | packages/api-gateway/src/index.ts:243-248 | The result is the plain unfolding exactly when the graph has no cycle, sharing or not, and the unfolding is unique. |
| JsonSafe.ThrowsExactly | packages/api-gateway/src/index.ts:241 | It throws exactly when an invalid date stands where it would be written. |
| GitStatus.ParseGitStatus | packages/api-gateway/src/index.ts:1066-1078 | The loop with its extra step for renames computes the entries of the specification. |
| GitStatus.PrintThenParse | packages/api-gateway/src/index.ts:1066-1078 | Parsing printed changes, whatever follows and under any prefix, gives each its path seen from the prefix and its status, when every origin is announced in the first column or short. |
| GitStatus.StatusExactly | packages/api-gateway/src/index.ts:1070-1076 | A status is its two characters without blanks at the ends, and two question marks for nothing but blanks. |
| GitStatus.RoundTripExactly | packages/api-gateway/src/index.ts:1069-1075 | All first stretches of a list of changes read back exactly when no change has an origin of four characters or more announced only in the second column. |
| GitStatus.CutOutputYieldsPrefix | packages/api-gateway/src/index.ts:1092-1095 | Any output cut anywhere and kept up to its last NUL yields a first part of the entries of the whole. |
| GitStatus.CutOutputYieldsArrived | packages/api-gateway/src/index.ts:1092-1095 | For printed changes, these are exactly the changes whose own field arrived in full. |
| AnnotationPrompt.RoundTripExactly | packages/client-web/src/annotation-ui.ts:201-219 | For non-negative ids and quotes and notes without header and footer, parsing a formatted prompt returns the trimmed question and the number of annotations exactly when the trimmed question holds no marker and no continuation line looks like a numbered item. |
| AnnotationPrompt.FormatThenParse | packages/client-web/src/annotation-ui.ts:201-219 | For all ids: the question is found exactly when it holds no marker, and the count is then the sum over annotations of one per non-negative id and one per numbered continuation line. |
| AnnotationPrompt.ParseExactly | packages/client-web/src/annotation-ui.ts:210-219 | Any text, printed by the client or not, is split at its last marker and its numbered lines are counted between the last header up to there and the first footer behind it if all three are there; all of it is the question if and only if they are not. |
| AnnotationPrompt.MarkerFound | packages/client-web/src/annotation-ui.ts:211 | The last marker is the one in front of the question exactly when the question holds none. |
| AnnotationPrompt.MentionsRead | packages/client-web/src/annotation-ui.ts:206-207 | Between instruction and question the prompt names the annotations one by one, in order, each by its id in decimal. |
| AnnotationPrompt.IdExactly | packages/client-web/src/annotation-ui.ts:203 | An id is printed as the decimal numeral that stands for it, without leading zeros. |
| Text.TrimExactly | packages/client-web/src/annotation-ui.ts:207 | Trimming takes away what is white at both ends, all of it and nothing else. |
| RestartWindow.GivesUpExactly | packages/cli/src/relaunch.ts:17-54 | With a clock that does not run backwards the supervisor gives up exactly at the first restart whose fifth predecessor is at most 10,000 ms older. |
| RestartWindow.QueueIsWindow | packages/cli/src/relaunch.ts:47-49 | Until then its short queue is exactly the part of the whole history within the window. |
| RestartWindow.AtMostFiveInAnyWindow | packages/cli/src/relaunch.ts:50-53 | No window of 10,000 ms holds more than five restarts after which it went on. |
| RestartWindow.Supervise | packages/cli/src/relaunch.ts:17-54 | The endless loop with its inner shifting loop computes the specified outcome. |

## Left out

- MarketplaceRuns.RunIsSafeExactly: starts from profiles in which a `marketplace-*` entry belongs to the plugin of that name; the development profile bundles some under other ids, which the reader does not see.
- MarketplaceRuns.EnabledPluginsStayComplete: asks that no restart finds an incomplete part of the writes of an install, which `RunIsSafeExactly` shows to be the exact condition. Each write of the profile either happens or does not; a file cut in the middle of a write is not modelled.
- A toggle or uninstall whose scan never ends keeps the mutation flag set until the process restarts; the machine of `MarketplaceRuns` has it as a request that does not finish.
- MarketplaceGateway.Gateway.InstallPlugin: asks that no loader entry of another package carries an id that the install would give, on which `loader.create` would decide; creating that fails leaves nothing behind.
- Compensating writes and removals of the marketplace handlers succeed, except in `LostRestoreWrite`; a profile that an install wrote in part and could not restore is that of `InterruptedInstall`. The restoration of `package.json` and its lock file, version lookups and the text of replies are not part of the model.
- A rejected `entry.update` leaves the flag or does not, with no other trace in the loader; Cordis itself is not part of this model.
- The loader is an ordered flat list with a disabled flag; groups, qualified ids, fibers and the failure of a removal during an uninstall are not part of it.
- The text of the profile uses LF, blanks are spaces and tabs, and a package name is one quoted word on its line; of other white space nothing is said.
- ProfileReading.ReadRemoved: asks that what ends the block is no line that could be the name or flag of an entry in front of it.
- ProfileReading.ReadSwitched: asks that in an entry that holds other entries the two lines below each of their ids do not stand at the indent of its own keys, where dropping or adding a line could join or part them.
- ProfileWalk.TextWalkRefines: asks for an anchor, as there is whenever the loader has a runtime entry; that configured plan entries are found under their ids and missing ones are named nowhere; and that no printed configuration contains the name line of a plan entry.
- ProfileWalk.TextInstallRefines: asks for the same after the re-enabling writes, and that each re-enabled entry meets the conditions of `ReadSwitched` when its turn comes.
- PromptProtocol.AcceptedAtMostOnce: speaks of receipts that reached the file while their session was active; `RunsAgainExactly` and `KeptByPersistence` cover all others. A receipt with an error is taken never to reach the file, and the file of a session to hold what was appended to it. The checks answered with 400 are one flag, and reply bodies are verdicts.
- PromptProtocol.RejectedMayRetry: asks that the session has not been opened again meanwhile; `RunsAgainExactly` is the general case. Opening a session makes a new one active; the gateway without a session runtime, which clears the open session in place, is left out.
- The statistics of a package are one token; HTTP, timeouts and the reading of the registry's answer are outcomes of a lookup.
- SessionNavigation: the other users of the three references, creating a session and restoring the first one, are not modelled; only this client changes the active session, and an opening that succeeds makes its path active.
- EventStream: broadcasting to connected clients, and the correction of the run by the status endpoint, are not modelled.
- ChatTurnOrder.SpokenConserved: says nothing about the reasoning parts; `ChatTurnParts.AssistantTurnExactly` fixes them.
- WorkspaceWalk.WalkedWorkspaceFiles: the final sorting, the case folding of ignored names on some systems, link races and the path through `git ls-files` are not part of it; a directory may fail at any entry.
- JsonSafe: getters, sparse arrays and the renderings of numbers, dates and function tags are taken as given.
- GitStatus: rebasing a path onto a prefix is a parameter; strings are sequences of characters rather than of UTF-16 units.
- AnnotationPrompt.RoundTripExactly: quotes and notes that hold the header or the footer are excluded, in one direction only; ids are printed in decimal.
- RestartWindow: how the child is spawned, signals and the pause before a restart are left out; an exit is either a restart request with its time or a final code.
- Search, facets, pagination, recommendation scores, settings validation, provider and model routes, panel validators, localisation and user interface helpers would only add easy members.
