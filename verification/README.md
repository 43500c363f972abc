# What is proved about the quoting system

This project models the parts of the repository that decide what a client is asked, what a quote costs,
what the audit trail proves and what survives an automatic re-reading of a document, and proves laws
about them over every input, every state and every run.

- **Gathering** (`Chase`, `Engine`, `EngineLaws`, `Bodies`, `Validator`, `ValidatorLaws`, `Preview`,
  `PreviewLaws`, `Gathering`, `CursorMeaning`, `SessionLaws`, `Progress`, `ClientRuns`, `Stuck`,
  `Removal`, `RemovalScope`, `CursorWalk`). A questionnaire graph is walked again from its root after
  every write, over answers keyed by node and iteration and one cursor per loop. All walkers are one
  notion, following a partial successor map (`Chase.Follow`). The main results: an accepted answer
  strictly extends the trail and keeps every earlier decision; a client who never adds an iteration
  reaches the end within a known number of steps; removing an iteration is deletion from a sequence,
  keeps the cursor under an exact condition and takes just that iteration out of the quote; the
  validator reports exactly what is wrong, and what it accepts never leads a walker to a missing node;
  without loops the cursor refines the preview walker.
- **Pricing** (`Pricing`, `PricingLaws`, `TierLaws`, `Permutations`, `Normalise`, `NormaliseLaws`,
  `NormaliseMeaning`, `Adjustment`, `AdjustmentMeaning`). Answers become priceable entities, entities
  become lines, lines become a prediction with a band. The main results: a pooled group pays what one
  combined entity pays, up to half a cent a member; the order of the entities changes no line of the
  quote, under an exact condition; the output of the first stage discharges what the second needs; the
  scope vector holds exactly the counted answers, at the numbers given; with contiguous bands every
  whole scope is quoted by the band that holds it; the drivers explain the whole adjustment.
- **Audit chain** (`Texts`, `CanonicalJson`, `JsonForms`, `AuditChain`, `AuditLaws`, `AuditMeaning`,
  `AuditHead`, `AuditRuns`). The canonical printer is unambiguous for all nested values; two logs that
  verify against the same links agree in every sealed window, and two chains of one length that verify
  and end in the same root have the same history, or the texts hashed hold a collision; over every run
  of appends and builds `verify` fails exactly when an append landed inside a sealed window.
- **Promotion and extraction** (`Promotion`, `PromotionLaws`, `PromotionMeaning`, `Extraction`,
  `ExtractionLaws`). The planner fills exactly the free slots its entities aim at and is idempotent; a
  file row's retries are bounded and it settles on every diligent schedule, its overrides outlive every
  re-inference and its cache never keeps a failed answer.
- **Scope summary and taxonomy** (`ScopeSummary`, `ScopeSummaryLaws`, `SummaryMeaning`, `Categories`,
  `CategoryMeaning`, `CategoryLaws`). Entities are conserved through the nested maps; mutations keep two
  levels and the tree complete.

Classes and loops of the program are classes and loops here (`Session`, `Trail`, `Row`, `Taxonomy` and
the methods of the other modules), proved against functions of their inputs; the laws are lemmas about
those functions. The modules named for a meaning, and the laws of the engine, the session, the tiers and
the validator, say what those functions compute in terms of the inputs alone, with every comparison,
rounding and order written out. Each transaction is one atomic step, and an error inside it leaves the
state as it was. Prices, percentages, scopes and confidences are reals; `Math.round(x)` is `floor(x +
0.5)`. In templates an absent node id or slug (null, undefined or empty, which the program does not tell
apart there) is the empty string. The conversions `Number(x)` and `String(x)`, the hash, the locale
comparison of application ids, the mapper's answers and the clock are parameters.

## Where the code does not keep what it promises

Each of these is proved, with the exact condition where one is known.

- The progress of a session relies on top-level rules never entering a loop body. Validation does not
  ask for that; `Stuck` has a template without issues whose client is shown the same question for ever,
  and `Stuck.OutsideLoopStep` says when the cursor moves on. `Removal.EnteredBodyReopens` is the same
  cause at work in a removal, and `Removal.RemovalKeepsCursor` has the exact condition.
- A missing and an empty methodology share a pool, and the first entity of the group decides its tier:
  the order of the entities can change the total (`PricingLaws.BlankMethodologyOrder`), and
  `PricingLaws.QuotesOrderFreeIff` says exactly when it changes a line.
- An event recorded in the same millisecond as the last sealed one makes `verify` report tampering
  (`AuditRuns.SealedMillisecond`); the source puts such a mismatch down to a backdated row.
- The comment on the inference cache counts a legitimately empty result as cached; it is inferred again
  every time (`ExtractionLaws.CacheIsStable`). Overriding one of several entities of a service line
  drops its siblings at the next inference (`ExtractionLaws.InferenceLeaves`). A file that has used up
  its retries gets no retry after a manual re-extraction (`ExtractionLaws.SixRunsAtMost`), although a
  kickoff of a failed file is documented to reset it.
- In a scope summary an entity with an empty application id can hide entities without one
  (`ScopeSummaryLaws.VisibleIffNoClash`).
- A category created under the empty parent is in no tree (`CategoryLaws.EmptyParentVanishes`), and a
  child of a category called `constructor` makes the tree unreadable
  (`CategoryLaws.ConstructorBreaksTheTree`).

## Model

| member | source | states |
|---|---|---|
| Engine.ReachableFrom | packages/shared/src/engine.ts:275-307 | the worklist terminates and returns exactly the ids at the end of a path from the root over rules and loop containment |
| Engine.GroupChildren | packages/shared/src/engine.ts:279-285 | every node with a parent is listed under that parent and nowhere else |
| Engine.PushGotos | packages/shared/src/engine.ts:295-299 | pushes exactly the unseen rule targets other than END |
| Engine.PushChildren | packages/shared/src/engine.ts:300-304 | pushes exactly the unseen children |
| Engine.FrontierStep | packages/shared/src/engine.ts:289-305 | one turn of the worklist keeps its invariant: all of it is reachable and no successor of a seen node is forgotten |
| Engine.ClosedHoldsPath | packages/shared/src/engine.ts:275-307 | a set that holds the root and is closed under edges holds the end of every path |
| Engine.LastWins | packages/shared/src/engine.ts:166-166 | what is found under an id is the last node that carries it |
| EngineLaws.ResolveMeans | packages/shared/src/engine.ts:36-78 | a node is left along its first rule that speaks for the answer, to the id it names or to the end, and stays unresolved exactly when none speaks; what each comparison says is written out |
| EngineLaws.RuleBeforeFallback | packages/shared/src/engine.ts:36-78 | a rule in front of an always rule decides by its own comparison alone: equal text, number or null, its negation, an item of the list, a choice, a larger or smaller number |
| Validator.CheckRules | packages/shared/src/engine.ts:175-206 | the option, empty-rule and dangling-goto issues of one node, no more and no fewer |
| Validator.CheckCollisions | packages/shared/src/engine.ts:214-233 | a collision issue for exactly the body nodes that repeat their loop's service line |
| Validator.CheckToggles | packages/shared/src/engine.ts:242-257 | an issue for exactly the nodes bound to a binary service line whose value map gives no positive yes |
| Validator.CheckReachable | packages/shared/src/engine.ts:259-270 | an unreachable-node issue for exactly the nodes no path from a known root leads to |
| Validator.ValidateTemplate | packages/shared/src/engine.ts:154-273 | an issue is returned exactly when the template has it, for all nine codes, with the early return on an empty template |
| Validator.CleanIsClosed | packages/shared/src/engine.ts:154-206 | no root and no dangling-goto issue: the root and every rule lead to a node or to the end |
| Validator.CleanIsConnected | packages/shared/src/engine.ts:259-270 | no unreachable-node issue: every node is at the end of a path from the root |
| ValidatorLaws.RootIssues | packages/shared/src/engine.ts:154-173 | an empty template has that one issue; otherwise a root issue says that no root is named, or one that is no node |
| ValidatorLaws.RuleIssues | packages/shared/src/engine.ts:175-206 | the issues of a node: a select without options, no rules, a rule to an id that is neither END nor a node |
| ValidatorLaws.CollisionIssues | packages/shared/src/engine.ts:208-233 | reported for exactly the body nodes that name their own loop's service line |
| ValidatorLaws.ToggleIssues | packages/shared/src/engine.ts:235-257 | reported for exactly the nodes bound to a slug ending in _ids, _ips, _dlp or _iam whose value map has no yes that counts as positive |
| ValidatorLaws.UnreachableIssues | packages/shared/src/engine.ts:259-307 | reported for exactly the nodes that no chain of rules and loop containment leads to from the root, where the root is a node |
| Preview.Walk | packages/shared/src/engine.ts:317-342 | the loop returns the steps of the specified walk, or the cycle or the missing node it stops at |
| Preview.WalkStaysReachable | packages/shared/src/engine.ts:317-342 | every node the preview walker steps on is reachable in the validator's sense |
| Preview.ClosedWalkNeverMisses | packages/shared/src/engine.ts:317-342 | on a template without root or dangling issues the walker can only fail on a cycle, never on a missing node |
| PreviewLaws.WalkMeans | packages/shared/src/engine.ts:317-342 | the walker returns the chain of steps from the root, each left along the first rule that speaks for its answer or for null, or the cycle or the missing node the chain comes to |
| Chase.TrailIsChain | apps/api/src/gathering/gathering.service.ts:1062-1118 | what every walker's trail is: a duplicate-free chain of decisions that stops only at an undecided or an already visited node |
| Chase.FollowExtends | apps/api/src/gathering/gathering.service.ts:1062-1118 | if every decision on a trail is kept, the new walk is the old trail followed by the walk from where the old one stopped |
| Chase.FollowRestricted | apps/api/src/gathering/gathering.service.ts:1062-1118 | forgetting decisions cuts a walk at the first node whose decision is forgotten |
| Bodies.GroupBodiesByLoop | apps/api/src/gathering/gathering.service.ts:1128-1142 | every parent gets its children sorted by position, and only parents with children are listed |
| Bodies.EntryIsLowest | apps/api/src/gathering/gathering.service.ts:1136-1140 | the node an iteration is entered at is a child of the loop with the lowest position |
| Bodies.SortIsSorted | apps/api/src/gathering/gathering.service.ts:1137-1140 | the body is in order of position |
| Bodies.SortPermutes | apps/api/src/gathering/gathering.service.ts:1137-1140 | sorting a body loses and repeats no node |
| Bodies.BodyIsStable | apps/api/src/gathering/gathering.service.ts:1128-1142 | children at one position stay in template order |
| Bodies.BodyHead | apps/api/src/gathering/gathering.service.ts:1136-1140 | a body starts at the first child of lowest position |
| Gathering.WalkBody | apps/api/src/gathering/gathering.service.ts:1158-1188 | the body loop terminates and returns the outcome of following the body's decisions at that iteration |
| Gathering.Visit | apps/api/src/gathering/gathering.service.ts:1071-1117 | one turn of the cursor's loop takes the branch the specified decision of that node says |
| Gathering.FindCursor | apps/api/src/gathering/gathering.service.ts:1053-1120 | the nested walks terminate and return what the first node that does not pass has to show |
| Gathering.Session.constructor | apps/api/src/gathering/gathering.service.ts:492-598 | a session starts issued, without answers or loop cursors |
| Gathering.Session.SubmitAnswer | apps/api/src/gathering/gathering.service.ts:492-598 | the new answer, loop state and status, the error cases in the program's order with nothing written, and the cursor shown next |
| Gathering.Session.SubmitLoopStep | apps/api/src/gathering/gathering.service.ts:680-720 | continue raises the loop's iteration, done ends the loop, errors change nothing, and the cursor shown next |
| Gathering.Session.RemoveLoopIteration | apps/api/src/gathering/gathering.service.ts:733-805 | the rows of one iteration go, later ones move down, the loop cursor follows, errors change nothing |
| CursorMeaning.BodyMeans | apps/api/src/gathering/gathering.service.ts:1158-1188 | from the first child a body is walked along the first speaking rules: it asks the first unanswered child, runs out, or dead-ends at a child met again or one whose rules are silent |
| CursorMeaning.NodeMeans | apps/api/src/gathering/gathering.service.ts:1071-1117 | what sends the walk on from a node and what stops it there, for questions, finished loops and loops under way |
| CursorMeaning.CursorMeans | apps/api/src/gathering/gathering.service.ts:1053-1120 | the cursor is what the chain from the root comes to: the end, an unanswered or silent question, a question of a loop iteration, or a loop step |
| SessionLaws.SubmitWrites | apps/api/src/gathering/gathering.service.ts:492-598 | an accepted answer sets the one row at its loop's iteration, or at 0, to the answer itself, or to the empty text for a divider, a loop or a skipped optional question; it opens the loop's cursor and moves an issued session to in progress, and changes nothing else |
| SessionLaws.AnswerIsKept | apps/api/src/gathering/gathering.service.ts:522-553 | a question that is answered and not skipped holds that very answer afterwards |
| SessionLaws.SubmitAccepts | apps/api/src/gathering/gathering.service.ts:500-585 | an unknown node, a wrong shape for its type, and silent rules are the errors, in that order; every other answer is accepted |
| SessionLaws.StepMeans | apps/api/src/gathering/gathering.service.ts:680-720 | continue moves the loop's cursor to the next iteration, done marks it done at its own, and nothing else changes |
| SessionLaws.RemoveMeans | apps/api/src/gathering/gathering.service.ts:733-805 | the children's rows at the iteration go, their later rows move down by one, every other row stays, and the loop's cursor follows when it stood later |
| Progress.StandsAt | apps/api/src/gathering/gathering.service.ts:1053-1120 | whatever is shown is shown by the unvisited node the walk stopped at |
| Progress.ShownNode | apps/api/src/gathering/gathering.service.ts:1053-1120 | a question without loop context is the node the walk stopped at; one with context is an unanswered child of the unfinished loop it stopped at |
| Progress.ShownStep | apps/api/src/gathering/gathering.service.ts:1092-1094 | a loop step is only shown for an unfinished loop, at that loop's current iteration |
| Progress.WriteMisses | apps/api/src/gathering/gathering.service.ts:535-566 | an answer written at one place changes no decision but that of its own question or its own loop |
| Progress.AnswerKeepsTrail | apps/api/src/gathering/gathering.service.ts:492-598 | an accepted answer to the shown question leaves every decision on the walked trail as it was |
| Progress.AnswerExtends | apps/api/src/gathering/gathering.service.ts:492-598 | an accepted answer to the shown question strictly extends the trail, at the top level or inside the loop iteration, with every earlier decision kept |
| Progress.DoneExtends | apps/api/src/gathering/gathering.service.ts:680-720 | done at the shown loop step keeps the trail and, when a rule of the loop matches, strictly extends it |
| Progress.ContinueOpensIteration | apps/api/src/gathering/gathering.service.ts:680-720 | continue at the shown loop step, with the next iteration still unanswered, shows the body's first node at that iteration and keeps every earlier decision |
| ClientRuns.StepSettles | apps/api/src/gathering/gathering.service.ts:492-720 | every accepted step settles an open item (an unsettled question, an unfinished loop or an unanswered child at its current iteration) and adds none |
| ClientRuns.PassIsGoto | apps/api/src/gathering/gathering.service.ts:1071-1117 | whenever the walk moves on from a node, it moves along one of that node's own rules |
| ClientRuns.TopLevelClosedIsProper | apps/api/src/gathering/gathering.service.ts:1053-1120 | when top-level rules never enter a body, a body question is only ever shown inside its loop, whatever the session's state |
| ClientRuns.RunSettles | apps/api/src/gathering/gathering.service.ts:492-720 | the steps of a run plus the open items left never exceed the open items at its start |
| ClientRuns.RunReachesEnd | apps/api/src/gathering/gathering.service.ts:492-720 | a client who never picks continue is at the end of the template within as many steps as there were open items |
| ClientRuns.NeverStuck | apps/api/src/gathering/gathering.service.ts:492-720 | short of the end some step is accepted, when every loop has a rule for its blank answer and every question accepts something |
| Stuck.OutsideLoopStep | apps/api/src/gathering/gathering.service.ts:517-585 | a body question shown outside its loop: if the answer reopens the dead-ended loop, the loop is shown; otherwise the cursor moves on exactly when that loop's iteration is 0, and at any other iteration the same question is shown again |
| Stuck.UnreadStaysPassed | apps/api/src/gathering/gathering.service.ts:1084-1101 | a dead-ended loop whose body walk does not meet the question is not reopened by its answer |
| Stuck.DeadEndGoesOn | apps/api/src/gathering/gathering.service.ts:1084-1101 | a dead-ended body walk that stopped at the question is taken past it by the accepted answer |
| Stuck.TrapIsClean | packages/shared/src/engine.ts:154-273 | the template below has no validation issue |
| Stuck.TrappedForever | apps/api/src/gathering/gathering.service.ts:492-598 | a concrete state of that template in which every accepted answer leads back to the same question |
| Stuck.ClientIsTrapped | apps/api/src/gathering/gathering.service.ts:492-720 | a client reaches that state from a fresh session by answering what is shown |
| Stuck.ClientProgresses | apps/api/src/gathering/gathering.service.ts:492-720 | the progress laws apply along that client's way: its first answer and its final done both take the walk further |
| Removal.RemovedAt | apps/api/src/gathering/gathering.service.ts:754-774 | row by row: other nodes and lower iterations stay, later iterations move down by one, the removed one is gone |
| Removal.RemovalIsDeletion | apps/api/src/gathering/gathering.service.ts:733-805 | the loop's iterations, as a sequence, lose exactly the k-th; gap-free stays gap-free; no other node's answers and no other loop's cursor change |
| Removal.RemovalBeyondEnd | apps/api/src/gathering/gathering.service.ts:733-805 | removing an iteration past the last one changes no answer |
| Removal.RemovalKeepsCursor | apps/api/src/gathering/gathering.service.ts:733-805 | afterwards the template is walked the same way and the same thing is shown with only the iteration number adjusted, or the following iteration when the loop stood at the removed one: always for k > 0, and for k = 0 exactly when every question of that loop's body which the template's own walk meets leads on alike by its answers at iterations 0 and 1 |
| Removal.TopLevelRereadsAlike | apps/api/src/gathering/gathering.service.ts:1053-1120 | when top-level rules never enter a body the walk meets no question of it, and that condition holds |
| Removal.EnteredBodyReopens | apps/api/src/gathering/gathering.service.ts:733-805 | where it fails: removing iteration 0 reopens a finished session although its loop cursor stood elsewhere |
| RemovalScope.RemovalDropsIteration | packages/shared/src/pricing.ts:594-692 | the scope vector after a removal is the one before without that iteration's entities, those of the loop's later iterations renumbered and all others as they were |
| CursorWalk.CursorStaysReachable | apps/api/src/gathering/gathering.service.ts:1053-1120 | the cursor's walk only meets nodes the validator counts as reachable |
| CursorWalk.BodyStaysReachable | apps/api/src/gathering/gathering.service.ts:1158-1188 | so does the walk inside a reachable loop, at every iteration |
| CursorWalk.ShownIsReachable | apps/api/src/gathering/gathering.service.ts:1053-1188 | every question shown is a node of the template on a path from the root |
| CursorWalk.ClosedCursorNeverMisses | apps/api/src/gathering/gathering.service.ts:1053-1120 | without root or dangling issues the cursor's walk never meets a missing node |
| CursorWalk.CursorRefinesWalk | apps/api/src/gathering/gathering.service.ts:1053-1120 | without loops the cursor is the first unanswered step of the preview walk, its last step if no rule matches there, and otherwise the end |
| Pricing.PickTier | packages/shared/src/pricing.ts:457-472 | the first tier that fits the scope, methodology and customer, and none only when none fits |
| Pricing.GroupEntities | packages/shared/src/pricing.ts:317-325 | poolable entities grouped by slug, methodology and customer, groups in order of first appearance, members in input order |
| Pricing.SumScopes | packages/shared/src/pricing.ts:329-329 | the sum of the group's safe scopes |
| Pricing.PoolPrePass | packages/shared/src/pricing.ts:315-338 | the pooled tier and count of every entity, as the specified pools say |
| Pricing.ComputeBasePrice | packages/shared/src/pricing.ts:295-438 | one line per entity in input order, the total is the sum of their prices, and both flags say whether such a line exists |
| Pricing.OneMoreLine | packages/shared/src/pricing.ts:344-438 | each line adds its price to the total and raises the flag of its kind |
| PricingLaws.LineKinds | packages/shared/src/pricing.ts:340-398 | a line is left to a manual quote exactly for open services, unknown exactly for slugs on neither list, and costs something only when priced |
| PricingLaws.OwnTierLine | packages/shared/src/pricing.ts:368-425 | an entity on its own is priced exactly when some tier of its line fits its own scope, by the first that does: its rate times the scope within half a cent, or its flat price |
| PricingLaws.PoolIsOwn | packages/shared/src/pricing.ts:315-338 | with distinct entity ids each entity ends up with the pool of its own group and no other |
| PricingLaws.PooledLine | packages/shared/src/pricing.ts:370-425 | a pooled member pays the shared unit rate times its own scope |
| PricingLaws.CombinedQuote | packages/shared/src/pricing.ts:295-438 | the one combined entity is priced by the tier its group was pooled on |
| PricingLaws.PooledGroupTotal | packages/shared/src/pricing.ts:307-425 | a pooled group of n pays rate times summed scope within n/2 cents, and exactly the price of the one combined entity when scopes are whole |
| PricingLaws.OrderFreeIff | packages/shared/src/pricing.ts:317-425 | for whatever one looks at of an entity and its pool (the pool, the line, the price): it is the same in every order of the entities exactly when it is the same whichever member of the group comes first |
| PricingLaws.QuotesOrderFreeIff | packages/shared/src/pricing.ts:295-438 | with distinct ids every order quotes every entity by the same line exactly when the lines of a group do not depend on which of its members comes first |
| PricingLaws.NoBlankMethodology | packages/shared/src/pricing.ts:321-335 | they never do when no entity has the empty methodology |
| PricingLaws.PricesPermute | packages/shared/src/pricing.ts:295-438 | with distinct ids and prices that do not depend on who comes first, every order gives the same total and the same flags |
| PricingLaws.QuotePermutes | packages/shared/src/pricing.ts:295-438 | with distinct ids and lines that do not depend on it, every order gives the same total, the same flags and the same line per entity |
| PricingLaws.BlankMethodologyOrder | packages/shared/src/pricing.ts:321-335 | two entities, one without and one with the empty methodology, whose order changes the total and the flags |
| TierLaws.TierMeans | packages/shared/src/pricing.ts:457-472 | the first tier with the customer asked for, an equal or open methodology on either side, and the scope in its range with both ends included; none only when no tier has all three |
| TierLaws.BandsQuote | packages/shared/src/pricing.ts:368-425 | with contiguous whole-number bands every whole scope from the first band on is quoted by the one band that holds it, both ends included |
| TierLaws.SomeBandHolds | packages/shared/src/pricing.ts:457-472 | no whole scope falls between two such bands |
| TierLaws.PoolMeans | packages/shared/src/pricing.ts:315-338 | an entity is pooled exactly when its line is per unit and pools, two or more share its service line, customer and methodology, and the summed volume has a tier, which is the first one for the first of them |
| TierLaws.QuoteMeans | packages/shared/src/pricing.ts:295-438 | every line of a quote in full: left to hand for an open service, unknown for a slug on neither list, and else billed at the pool's tier or at the first tier for its own count, rate times scope to the nearest cent or the flat price |
| TierLaws.VolumeGrows | packages/shared/src/pricing.ts:290-293 | a member adds its dimension in the line's unit when that is finite and positive, and nothing otherwise |
| TierLaws.LastLineWins | packages/shared/src/pricing.ts:299-299 | of several lines with one slug the last on the card counts |
| Normalise.PassTemplateDefaults | packages/shared/src/pricing.ts:541-562 | the defaults after all top-level answers, later ones overriding earlier ones |
| Normalise.PassIterationDefaults | packages/shared/src/pricing.ts:612-629 | the defaults of one iteration, overriding those of the template |
| Normalise.PassTops | packages/shared/src/pricing.ts:564-592 | one entity per bound, counted, top-level answer whose service line is on the card |
| Normalise.FindMainScope | packages/shared/src/pricing.ts:634-651 | the loop's own scope: its first child with a positive count and no service line of its own |
| Normalise.PassDrivers | packages/shared/src/pricing.ts:667-689 | one entity per counted child with its own service line |
| Normalise.CollectIters | packages/shared/src/pricing.ts:601-609 | the iterations at which some child has a row |
| Normalise.PassLoop | packages/shared/src/pricing.ts:594-690 | the entities of one loop, iteration by iteration in increasing order |
| Normalise.NormaliseScope | packages/shared/src/pricing.ts:518-693 | the three passes return the specified scope vector |
| NormaliseLaws.LastOverrideWins | packages/shared/src/pricing.ts:545-562 | each inherited value is what the last node that sets it sets it to, and inherited unchanged where none does |
| NormaliseLaws.ScopeIsWellFormed | packages/shared/src/pricing.ts:518-693 | entity ids are pairwise distinct, every slug is on the card, every scope is positive and in its line's unit, and each entity comes from a node or loop of the template |
| NormaliseLaws.ScopePricesCleanly | packages/shared/src/pricing.ts:361-408 | composition: pricing the scope vector meets no unknown service line and no empty scope, and each line has the pool of its own group |
| NormaliseLaws.NoCollisionNoDoubleBilling | packages/shared/src/engine.ts:208-233 | without a slug-collision issue no iteration emits the loop's service line both as main and as driver entity |
| NormaliseLaws.CollisionBillsTwice | packages/shared/src/pricing.ts:652-689 | with one, an iteration that answers both emits two entities for the one service line |
| NormaliseMeaning.ScopeMeans | packages/shared/src/pricing.ts:576-584 | what a node counts: a positive number that is its answer itself, or what Number makes of any other answer, after the value map when the text is a key of it |
| NormaliseMeaning.OverridesMean | packages/shared/src/pricing.ts:541-562 | methodology and customer type are what the last node that sets them says, and inherited where none does |
| NormaliseMeaning.TopsInOrder | packages/shared/src/pricing.ts:543-545 | the nodes outside loops that are neither loops nor sections, in template order |
| NormaliseMeaning.MainScopeMeans | packages/shared/src/pricing.ts:634-651 | the loop's own count is that of its first child that counts and names no service line |
| NormaliseMeaning.IterationMeans | packages/shared/src/pricing.ts:611-689 | what one iteration emits, and nothing else: the loop's own entity and one for each counting child with a service line |
| NormaliseMeaning.ScopeHolds | packages/shared/src/pricing.ts:518-693 | the scope vector holds exactly the entities of counting nodes, loops and children, at exactly the unit of the line and the number of the answer |
| NormaliseMeaning.ScopeInOrder | packages/shared/src/pricing.ts:564-690 | single occurrences in template order, then loop by loop, iteration by iteration, the loop's own entity first and then its children in body order |
| Adjustment.WinnerIsBest | packages/shared/src/pricing.ts:875-882 | no matching rule comes before the winner: none has a lower percentage, nor the same one with a higher threshold |
| Adjustment.RunRulesRegime | packages/shared/src/pricing.ts:824-873 | the loop returns the specified adjustment, and 1 + adjustment is the product of 1 + weight over the drivers it emits |
| Adjustment.DriversExplainAdjustment | packages/shared/src/pricing.ts:806-873 | in every implemented regime the drivers explain the whole adjustment; the others are errors |
| Adjustment.BandIffNonNegative | packages/shared/src/pricing.ts:926-945 | for a non-negative band the band encloses the prediction exactly when the prediction is not negative |
| Adjustment.PredictionNonNegative | packages/shared/src/pricing.ts:824-945 | discounts of at most 100%, non-negative modifiers and a non-negative base never predict a negative price |
| Adjustment.LoyaltyFactorFalls | packages/shared/src/pricing.ts:832-850 | a higher lifetime value lowers or keeps the loyalty factor exactly when a rule already matched or the new winner is no premium |
| Adjustment.LoyalClientsPayNoMore | packages/shared/src/pricing.ts:824-945 | without premium rules a higher lifetime value never raises the predicted price |
| Adjustment.PremiumRaisesPrice | packages/shared/src/pricing.ts:838-850 | a premium rule does raise it, by a concrete pair of clients |
| Adjustment.BandMeans | packages/shared/src/pricing.ts:926-945 | the prediction is the adjusted price to the nearest cent; in cold start the band is the prediction, in the rules regime a tenth of it to each side within half a cent, and with an override that share |
| AdjustmentMeaning.WinnerMeans | packages/shared/src/pricing.ts:875-882 | of the rules whose threshold is met the one with the lowest percentage applies, then the highest threshold, then the first |
| AdjustmentMeaning.DriversMean | packages/shared/src/pricing.ts:824-873 | the drivers are the rule that applies, if any, with its percentage, and then those of the modifiers |
| AdjustmentMeaning.ModifiersMean | packages/shared/src/pricing.ts:852-866 | each modifier other than 1 adds a driver of its own name, percentage and direction |
| Texts.LessIsTotal | apps/api/src/audit/audit.service.ts:216-216 | the sort order of keys is total and strict |
| Texts.LessTransitive | apps/api/src/audit/audit.service.ts:216-216 | and transitive |
| Texts.LessMeans | apps/api/src/audit/audit.service.ts:216-216 | a text is less exactly when it is a proper prefix or lower at the first unit where they differ |
| CanonicalJson.SamePrintsSame | apps/api/src/audit/audit.service.ts:212-218 | key order never matters: equal JSON values print equal texts |
| CanonicalJson.QuotedUnique | apps/api/src/audit/audit.service.ts:213-217 | a printed string can be read back from the front of a text in one way only, escapes and surrogates included |
| CanonicalJson.CanonUnique | apps/api/src/audit/audit.service.ts:212-218 | a printed value can be read back from the front of a text in one way only, up to key order |
| CanonicalJson.KeysUnique | apps/api/src/audit/audit.service.ts:215-217 | the same for the sorted entries of an object |
| CanonicalJson.CanonIffSame | apps/api/src/audit/audit.service.ts:208-218 | two values print the same exactly when they are the same JSON value, objects read as key-to-value maps |
| JsonForms.NatMeans | apps/api/src/audit/audit.service.ts:203-203 | times print in base ten without leading zeros |
| JsonForms.IntMeans | apps/api/src/audit/audit.service.ts:203-203 | earlier ones with a minus sign in front |
| JsonForms.LiteralsPrint | apps/api/src/audit/audit.service.ts:213-213 | null, true and false as those words, a number as its own text |
| JsonForms.StringPrints | apps/api/src/audit/audit.service.ts:213-217 | strings print unit by unit between quotes, each escaped as written out, surrogate pairs as they are |
| JsonForms.ArrayPrints | apps/api/src/audit/audit.service.ts:214-214 | arrays print their items in order, between brackets and separated by commas |
| JsonForms.ObjectPrints | apps/api/src/audit/audit.service.ts:215-217 | objects print their fields in the order of their keys, between braces, with a colon after the key |
| JsonForms.EventPrints | apps/api/src/audit/audit.service.ts:185-206 | the eight fields hashed of an event, in their order, the payload as the string of its own text |
| AuditChain.ComputeRoot | apps/api/src/audit/audit.service.ts:220-228 | the root is the hash of the previous root followed by the event hashes in order |
| AuditChain.Trail.Append | apps/api/src/audit/audit.service.ts:52-58 | a recorded event lands where the (createdAt, id) order puts it |
| AuditChain.Trail.Build | apps/api/src/audit/audit.service.ts:38-95 | exactly the specified link is added, or nothing when no event is newer than the last sealed time |
| AuditChain.Trail.Verify | apps/api/src/audit/audit.service.ts:102-145 | the loop returns the first link the events do not reproduce, with what differs, or none |
| AuditLaws.EventTextIffSame | apps/api/src/audit/audit.service.ts:185-206 | the hashed text of two events is equal exactly when all hashed fields agree and the payloads are the same JSON value |
| AuditLaws.VerdictIsEveryLink | apps/api/src/audit/audit.service.ts:112-143 | verify says ok exactly when every link is reproduced by the events of its window and the stored root before it |
| AuditLaws.TamperEvidence | apps/api/src/audit/audit.service.ts:102-145 | two logs that both verify against the same links hold the same events in the same order in every sealed window, or two different texts hashed on the way have one digest |
| AuditLaws.InsertionIsCaught | apps/api/src/audit/audit.service.ts:114-134 | adding one event leaves verify ok exactly when no sealed window covers its time, and otherwise verify fails at exactly the first such link, on the count |
| AuditMeaning.WindowMeans | apps/api/src/audit/audit.service.ts:114-121 | a window reads exactly the events between its two times, both included, in the order of time and id |
| AuditMeaning.RootMeans | apps/api/src/audit/audit.service.ts:220-228 | a root is the hash of the previous root followed by one digest for each event in order, and of nothing else |
| AuditMeaning.VerdictMeans | apps/api/src/audit/audit.service.ts:102-145 | verify says ok exactly when every link counts its events and its root is that of the root before it, 64 zeros at the start; otherwise it reports the first link that is not, with the count found or the root computed |
| AuditMeaning.BuildMeans | apps/api/src/audit/audit.service.ts:38-95 | a build adds one link over exactly the new events, from the first of their times to the last, numbered and chained on; without new events nothing |
| AuditHead.HeadFixesHistory | apps/api/src/audit/audit.service.ts:102-145 | two chains that verify, are equally long and end in the same root have the same root at every link and the same events in the same order in every sealed window, or the texts hashed on the way contain a collision |
| AuditRuns.InsertedOrdered | apps/api/src/audit/audit.service.ts:57-57 | recording an event with a new id keeps the order every query asks for |
| AuditRuns.NextLinkWindow | apps/api/src/audit/audit.service.ts:50-83 | the window of a new link covers exactly the unsealed events and lies strictly after the last sealed time |
| AuditRuns.BuildTwiceIsBuildOnce | apps/api/src/audit/audit.service.ts:60-69 | a second build with nothing new changes nothing |
| AuditRuns.VerifyTellsBreaches | apps/api/src/audit/audit.service.ts:38-145 | over every run of appends and builds the chain is numbered, chained, disjoint and ordered, and verify fails exactly when some append landed inside a window sealed before it |
| AuditRuns.SealedMillisecond | apps/api/src/audit/audit.service.ts:38-145 | an event recorded in the millisecond of the last sealed one, after the build, makes verify fail at the last link |
| AuditRuns.EverySealedEventIsCounted | apps/api/src/audit/audit.service.ts:38-95 | over every run the events from the epoch to the last sealed time are the link counts plus the late appends |
| AuditRuns.TimelyRunsVerify | apps/api/src/audit/audit.service.ts:38-145 | when every append is strictly later than the last sealed time, verify is ok and the link counts add up to all events up to it |
| Promotion.Route | apps/api/src/extraction/inferred-promote.ts:60-81 | every entity is bucketed by loop and application, kept for the top level, or counted as stale, loops in order of first appearance |
| Promotion.EmitGroup | apps/api/src/extraction/inferred-promote.ts:94-102 | the first entity for every free slot of one iteration is written, the others passed over |
| Promotion.EmitLoop | apps/api/src/extraction/inferred-promote.ts:88-105 | all iterations of one loop, applications in sorted order |
| Promotion.EmitTops | apps/api/src/extraction/inferred-promote.ts:107-115 | top-level entities at iteration 0, an empty node id passed over |
| Promotion.BuildPromotionPlan | apps/api/src/extraction/inferred-promote.ts:53-118 | the nested loops return the specified plan: writes, stale counts and the number of iterations that gained a write |
| PromotionLaws.RankIsIndex | apps/api/src/extraction/inferred-promote.ts:89-91 | an application's index in the sorted list is the number of applications that sort before it |
| PromotionLaws.CandidatesAreAims | apps/api/src/extraction/inferred-promote.ts:64-115 | a write is proposed exactly when some entity aims at its slot with its value, the iteration being the rank of the entity's application |
| PromotionLaws.PlanFillsFreeAims | apps/api/src/extraction/inferred-promote.ts:53-118 | the slots written are exactly the aimed-at slots that are not taken, each once, each with the value of an entity that aims there |
| PromotionLaws.ReplanningWritesNothing | apps/api/src/extraction/inferred-promote.ts:84-115 | planning again after applying a plan writes nothing |
| PromotionLaws.OrderDoesNotMoveSlots | apps/api/src/extraction/inferred-promote.ts:53-118 | any order of the input gives the same slots and every entity the same iteration |
| PromotionLaws.EveryIterationIsAnswered | apps/api/src/extraction/inferred-promote.ts:88-105 | below the number of a loop's applications every iteration ends up with an answer in the loop's body |
| PromotionLaws.FirstEntityWins | apps/api/src/extraction/inferred-promote.ts:94-115 | a written value is that of the first entity of the input that aims at the slot, when every node belongs to one loop or to the top level |
| PromotionLaws.NoEntityIsLost | apps/api/src/extraction/inferred-promote.ts:64-81 | stale counts plus routed entities equal the input size, and the stale slugs are exactly the unbound ones |
| PromotionMeaning.AimMeans | apps/api/src/extraction/inferred-promote.ts:64-115 | where an entity goes: to its bound node at the place of its application among the sorted applications of the loop, or to its top-level node at 0 |
| PromotionMeaning.PlanMeans | apps/api/src/extraction/inferred-promote.ts:53-118 | the plan fills exactly the free places that entities want, each once, each with the value of an entity that wants it |
| PromotionMeaning.SharedIteration | apps/api/src/extraction/inferred-promote.ts:67-91 | entities of one loop share an iteration exactly when their applications are the same, an absent one counting as _solo, and iterations follow the order of the applications |
| PromotionMeaning.StaleMeans | apps/api/src/extraction/inferred-promote.ts:76-79 | a slug no binding knows is reported with the number of its entities, and no other slug is |
| PromotionMeaning.IterationsMean | apps/api/src/extraction/inferred-promote.ts:88-105 | the iterations reported are those the plan's writes fall into, when every node belongs to one loop or to the top level |
| Extraction.Row.Kickoff | apps/api/src/extraction/extraction.service.ts:379-417 | nothing while processing; otherwise processing, no retry time, only manual entities, no hash |
| Extraction.Row.Sweep | apps/api/src/extraction/extraction.service.ts:361-367 | kicks the row off exactly when it is queued and due |
| Extraction.Row.RunAndCacheInference | apps/api/src/extraction/extraction.service.ts:1749-1813 | an unforced hit changes nothing; otherwise manual entities, then the inferred ones of other slugs, and the hash unless the model failed |
| Extraction.Row.PersistReady | apps/api/src/extraction/extraction.service.ts:1666-1677 | ready, no retry time, attempts back to 0 |
| Extraction.Row.QueueForRetry | apps/api/src/extraction/extraction.service.ts:2182-2221 | one more attempt and a retry time by the delay schedule, or failed when the attempts are used up |
| Extraction.Row.MarkTerminal | apps/api/src/extraction/extraction.service.ts:2230-2254 | only the status changes |
| Extraction.Row.OverrideInferredEntity | apps/api/src/extraction/extraction.service.ts:2266-2304 | the first entity of the slug is patched, made manual and certain; a missing slug is an error and changes nothing |
| ExtractionLaws.LifeIsSound | apps/api/src/extraction/extraction.service.ts:361-417 | over every life of a row a retry time is set exactly while queued, attempts are at most 5 and at least 1 while queued |
| ExtractionLaws.RunsAreBounded | apps/api/src/extraction/extraction.service.ts:361-417 | with sweeps as the only kickoffs, runs started plus runs still possible (5 minus attempts, one more while queued) never exceed those possible at the start |
| ExtractionLaws.SixRunsAtMost | apps/api/src/extraction/extraction.service.ts:379-417 | one kickoff leads to at most 6 minus attempts runs: six for a new file, one for a file whose retries are used up |
| ExtractionLaws.StormExhausts | apps/api/src/extraction/extraction.service.ts:2182-2221 | the bound is met: rate limited every time, a row runs exactly that often and then fails |
| ExtractionLaws.RetryIsScheduled | apps/api/src/extraction/extraction.service.ts:2203-2216 | a queued row is due exactly from 90 seconds to 10 minutes later, never sooner for a later attempt |
| ExtractionLaws.EveryRowSettles | apps/api/src/extraction/extraction.service.ts:361-417 | once kicked off, on every endless schedule that ends each run and sweeps each queued row some time after it is due, the row becomes ready, failed or skipped and stays so, after at most 6 minus attempts runs |
| ExtractionLaws.OverridePersists | apps/api/src/extraction/extraction.service.ts:2266-2304 | after an override the first entity of the slug keeps the overridden values through every sequence of other events until the slug is overridden again |
| ExtractionLaws.InferenceLeaves | apps/api/src/extraction/extraction.service.ts:1791-1813 | an inference that is no cache hit leaves exactly the manual entities and the inferred ones of slugs nobody set |
| ExtractionLaws.CacheIsStable | apps/api/src/extraction/extraction.service.ts:1749-1768 | unforced, equal inputs change nothing whatever the model answers exactly when something is cached; an empty result is inferred again |
| ExtractionLaws.SameInputsSameEntities | apps/api/src/extraction/extraction.service.ts:1749-1768 | any number of unforced re-inferences of the same inputs leaves the row as it is |
| ExtractionLaws.HashIsEarned | apps/api/src/extraction/extraction.service.ts:1779-1813 | over every life a stored hash certifies the row: whatever was not set by hand was inferred, for the inputs with this hash and without failure, by the last inference that was no cache hit, and no run has started since |
| ExtractionLaws.OverlayInOrder | apps/api/src/extraction/extraction.service.ts:1791-1813 | what was set by hand in its order, then what was inferred for other slugs in its order |
| ScopeSummary.Bucketise | packages/shared/src/scope-summary.ts:95-131 | surviving, known entities bucketed by domain and application in order of first appearance |
| ScopeSummary.Shelve | packages/shared/src/scope-summary.ts:133-140 | per domain the bucket names in order of first appearance, the last bucket under a name winning |
| ScopeSummary.DedupSourceFiles | packages/shared/src/scope-summary.ts:298-308 | each non-empty source file once, in order |
| ScopeSummary.ItemsOf | packages/shared/src/scope-summary.ts:148-184 | the items of one domain: one an entity for the solo bucket, one a bucket otherwise, solo last |
| ScopeSummary.BuildScopeSummary | packages/shared/src/scope-summary.ts:90-196 | the loops return the specified groups, item count and emptiness |
| ScopeSummaryLaws.CountShown | packages/shared/src/scope-summary.ts:107-191 | an entity is shown as often as it occurs if its bucket survived under its name, and otherwise not at all |
| ScopeSummaryLaws.VisibleIffNoClash | packages/shared/src/scope-summary.ts:107-140 | every bucket survives exactly when in no domain an empty application id meets an absent or reserved one |
| ScopeSummaryLaws.EveryEntityHasItsBullet | packages/shared/src/scope-summary.ts:90-196 | the number of bullets equals the number of surviving entities on the card exactly when there is no such clash, and then the bullets are theirs, with multiplicity |
| ScopeSummaryLaws.FloorAndEmptiness | packages/shared/src/scope-summary.ts:95-196 | every item has a bullet and an average confidence at or above the floor, and the summary is empty exactly when nothing on the card survives |
| ScopeSummaryLaws.EmptyIdHidesAnEntity | packages/shared/src/scope-summary.ts:107-140 | two entities of one line, one tagged with an empty application id, of which only one is shown |
| SummaryMeaning.SurvivorsInOrder | packages/shared/src/scope-summary.ts:95-114 | the entities at or above the floor whose slug is on the card, in input order |
| SummaryMeaning.CollatedMeans | packages/shared/src/scope-summary.ts:310-334 | an application's item: a bullet for each entity in order, the average confidence, the caption of the first entity with a methodology or else of the first, its source files |
| SummaryMeaning.SoloMeans | packages/shared/src/scope-summary.ts:167-178 | the item of an entity without an application: its line, its own bullet, caption, confidence and file |
| SummaryMeaning.BucketMeans | packages/shared/src/scope-summary.ts:133-184 | under an application's name its own entities in one item; under no name the entities of the absent or of the empty application, whichever appears later, one item each |
| SummaryMeaning.SortInOrder | packages/shared/src/scope-summary.ts:153-160 | applications in the order of their names, those without one last |
| SummaryMeaning.GroupMeans | packages/shared/src/scope-summary.ts:148-191 | a domain's group lists the names of its entities, each once and in order, each with its items |
| SummaryMeaning.SummaryMeans | packages/shared/src/scope-summary.ts:90-196 | a group for every domain of a surviving entity and no other, in the fixed order of domains, and the number of items |
| Categories.Taxonomy.Create | apps/api/src/classification/categories.service.ts:106-155 | the row that is added, or the first error in the program's order and no change |
| Categories.Taxonomy.Update | apps/api/src/classification/categories.service.ts:157-229 | the fields that change, or the first error in the program's order and no change |
| Categories.Taxonomy.Archive | apps/api/src/classification/categories.service.ts:237-268 | the category and the children of a top-level one are archived and their routing rules deleted |
| Categories.Taxonomy.BulkReorder | apps/api/src/classification/categories.service.ts:274-290 | positions are set item by item and nothing else changes |
| Categories.Taxonomy.ResetFromTemplate | apps/api/src/classification/categories.service.ts:301-331 | everything is archived, the template's rows are added, all rules go; an unknown template changes nothing |
| Categories.Taxonomy.GetTree | apps/api/src/classification/categories.service.ts:46-74 | fails exactly when an active parent is a name every object inherits; otherwise every list is complete and in order of position |
| CategoryMeaning.CreateMeans | apps/api/src/classification/categories.service.ts:106-155 | the errors in their order, slug format and name length written out, and the one row an accepted creation adds |
| CategoryMeaning.UpdateMeans | apps/api/src/classification/categories.service.ts:157-229 | the errors in their order, and the fields of the one row an accepted update edits |
| CategoryMeaning.ArchiveMeans | apps/api/src/classification/categories.service.ts:237-268 | exactly the rows of the category, and of its active children when it is on top, are marked, and their slugs lose their rules |
| CategoryMeaning.ReorderMeans | apps/api/src/classification/categories.service.ts:274-290 | an active row that an item names takes the position of the last such item, and every other row stays |
| CategoryMeaning.ResetMeans | apps/api/src/classification/categories.service.ts:301-331 | every row there is is archived and the template's rows are added behind them |
| CategoryMeaning.TreeShows | apps/api/src/classification/categories.service.ts:46-74 | the tree lists the active categories on top, and under every parent but the empty one its active children, each list by position |
| CategoryLaws.RunsKeepTwoLevel | apps/api/src/classification/categories.service.ts:106-331 | over every run without an empty parent and with two-level templates, active slugs stay unique and every active child's parent active and top-level |
| CategoryLaws.TreeListsEachActiveOnce | apps/api/src/classification/categories.service.ts:46-74 | when a two-level table is read, the tree lists each active category exactly once, children under a listed top-level one, and nothing archived |
| CategoryLaws.MentionsIff | apps/api/src/classification/categories.service.ts:46-74 | whatever the table, a row is in the tree exactly when it is active and its parent is not the empty slug |
| CategoryLaws.EmptyParentVanishes | apps/api/src/classification/categories.service.ts:115-146 | an accepted creation is in the tree exactly when its parent is not the empty slug |
| CategoryLaws.EmptyParentIsAccepted | apps/api/src/classification/categories.service.ts:115-146 | such a creation is accepted |
| CategoryLaws.ConstructorBreaksTheTree | apps/api/src/classification/categories.service.ts:63-68 | a legal run after which the tree cannot be read: a child under a category called constructor |

## Left out

- Stuck.OutsideLoopStep: whether an answer reopens a dead-ended loop is told where its body walk misses the question or stops at it; where the walk had passed the question on an earlier answer, it depends on where the new one leads.
- Gathering.Session.SubmitAnswer: node ids are primary keys of one table; the id of a node of another template, which the program looks up and finds, is an unknown node here.
- Gathering.Session.SubmitLoopStep: the same for a loop of another template.
- Gathering.Session.RemoveLoopIteration: the same for a loop of another template.
- Validator.ValidateTemplate: which issues are returned, not their order, their texts or how often a node with several dangling rules is reported.
- Validator.CheckRules: the same, for one node.
- ExtractionLaws.EveryRowSettles: a run that crashes before it reaches an outcome leaves its row processing, where a kickoff does nothing; such a schedule does not end each run.
- TierLaws.BandsQuote: for an entity that is billed on its own count; a pooled one is billed on the group's, as PoolMeans says.
- Extraction.Row.Sweep: one row; the limit of fifty rows a sweep, longest due first, can make a row wait longer.
- ScopeSummary.ItemsOf: titles, subtitles and bullets keep what they are worded from, not the wording.
- ScopeSummary.BuildScopeSummary: the same, and a group is its domain without the heading.
- Categories.Taxonomy.BulkReorder: items that carry a new parent, which the program writes unchecked, are not modelled.
- Categories.Taxonomy.GetTree: rows at equal positions come in any order, as the database may return them.
- ClientRuns.RunReachesEnd: counts steps for clients who never pick continue; adding iterations can go on for ever.
- PricingLaws.QuotePermutes: for distinct entity ids, which the scope normaliser guarantees; with repeated ids the later group wins the pool.
- PromotionLaws.FirstEntityWins: for bindings in which a node belongs to one loop or to the top level, as the caller builds them from the template's nodes.
- PromotionMeaning.IterationsMean: for the same bindings; the number only goes to the log.
- AuditLaws.TamperEvidence: names a collision instead of assuming there is none, since no function into 64 characters is injective.
- Questions, labels, option texts, tier labels, loop labels, issue texts and all other copy; a bullet is its label and number, a title its line or application.
- Tokens, sessions, uploads, notifications, thread events, log lines and the assembly of the gathering state with its suggestions.
- The order in which the database updates rows while iterations move down, and the uniqueness it might trip over in between.
- A value map is a map: looking up a name that every object inherits is not modelled.
- Sub-millisecond times, and JSON payloads that are not JSON values; a number is its printed text.
- Interleavings of transactions, such as two kickoffs between reading and writing a row.
- How inference inputs are hashed: the hash is given with the inference.
- Stored text, points, error texts and timestamps of a file, the promotion of points and the prediction that follows a run.
- The classification of slugs into domains, the wording of drivers and the spreadsheet and email heuristics that produce entities.
- String keys that join several parts are tuples or datatypes.
- The choice of the pricing regime, currencies and card versions.
- Trimming of category names, row ids, the flat list of categories, and which rules may be written after an archive.
- Everything that is only input and output: database and storage clients, language models, mail, the user interface and the training code.
