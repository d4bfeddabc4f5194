# FlamekeeperBot core, modelled in Dafny

FlamekeeperBot is a Discord bot for the FlameBorn donation network on Celo. Around its Discord, Express and
ethers glue sit four pieces of deterministic logic, and this project models them and proves their properties:

- **Guild structure sync** (`!syncstructure`, bot/commands/syncstructure.js).
  - It canonicalises names (`norm`) and turns capability maps into allow/deny flag lists (`flagsFromMap`).
  - It makes the declared roles exist with the declared colour, hoist and mentionable flags, then orders them (`ensureRoles`).
  - It walks the declared category → channel tree against the guild's channels. There it creates, renames, moves, sets topics and replaces permission overwrites, honouring a dry-run flag and logging one line per action.
  - It packs the log into messages of at most 1800 UTF-16 code units.
- **Guardian application store**, an in-memory `Map` from Discord id to application record.
  - http.js has apply, list, approve and reject, with the admin-key gate, the webhook signature check and the input validation of the role handlers.
  - bot/http.js has its own apply, which keeps `createdAt` while a record is pending, and its listing `toDTO`.
- **Live donation streams.** Two `impact` commands backfill the latest donations and bind live updates to the first channel that asks:
  - bot/commands/impact.js checks the binding before reading the chain;
  - commands/impact.js checks it after the backfill.
- **Bot entry point** (bot/index.js):
  - the required-environment check;
  - the command registry;
  - the `!name args…` message parse and dispatch;
  - the mapping of `runSyncStructure({dry})` onto the command.

How the model is built:

- **The guild is a value** (`GuildModel.Guild`). It holds the roles and channels by id, in the order a fetch lists them.
- **Discord calls are data.** Every call that changes the guild is a `Call` that `GuildModel.Apply` performs. An operation returns the new guild, the calls it issued and its log entries. That makes claims such as "no call in a dry run" and "an edit only on drift" statable.
- **Module state becomes classes.** The module-level state of the stores and of the impact commands is a class whose methods update its fields.
- **Loops become methods.** Each imperative loop of the source is a method with loop invariants, proved equal to a specification function. The properties are lemmas about that function.

The files:

| file | module | models |
|---|---|---|
| js.dfy | `JsSemantics` | JavaScript built-ins: truthiness, ASCII `toLowerCase`, `\s`, `.length` in UTF-16 units, `slice(-k)`, `reverse`, UTF-8 `Buffer.from` |
| guild.dfy | `GuildModel` | the guild and the Discord calls that change it |
| sync_names.dfy | `SyncNames` | `norm` |
| sync_perms.dfy | `SyncPerms` | `flagsFromMap` |
| sync_roles.dfy | `SyncRoles` | `ensureRoles` |
| sync_channels.dfy | `SyncChannels` | the category/channel loop of `execute` |
| sync_converge.dfy | `SyncConverge` | what a whole pass of that loop achieves: convergence, and a second pass changing nothing |
| sync_summary.dfy | `SyncSummary` | the summary chunker of `execute` |
| sync_command.dfy | `SyncCommand` | `execute`: its gates, the dry flag, the whole run, and a second run changing nothing |
| guardians.dfy | `Guardians` | the guardian record and the newest-first listing shared by both stores |
| http.dfy | `Http` | http.js |
| bot_http.dfy | `BotHttp` | bot/http.js |
| donations.dfy | `Donations` | what both impact commands share: events, posts, the backfill loop |
| bot_impact.dfy | `BotImpact` | bot/commands/impact.js |
| impact.dfy | `Impact` | commands/impact.js |
| bot_index.dfy | `BotIndex` | bot/index.js |

## Model

| member | source | states |
|---|---|---|
| JsSemantics.Lower | bot/commands/syncstructure.js:137 | `toLowerCase` on ASCII: the same length, and every character mapped by `LowerChar`, which turns `A`–`Z` into `a`–`z` and leaves everything else alone |
| JsSemantics.Utf16LengthAppend | bot/commands/syncstructure.js:213 | `.length` of a concatenation is the sum of the lengths, which the chunk bound relies on |
| JsSemantics.SliceFromEnd | bot/commands/impact.js:36 | `slice(-k)`: for positive `k`, the last `min(k, n)` elements; for `k <= 0`, the suffix from index `-k` (all of it for 0) |
| JsSemantics.Reverse | bot/commands/impact.js:36 | `reverse()`: element `i` of the result is element `n-1-i` of the input |
| JsSemantics.Utf8Injective | http.js:43 | `Buffer.from` (UTF-8) is injective, so comparing the buffers compares the strings |
| JsSemantics.JoinSnoc | bot/commands/syncstructure.js:217 | `join(sep)` over one more item is the earlier join, the separator and the item, which the chunker's buffer relies on |
| GuildModel.ApplyPositionsSets | bot/commands/syncstructure.js:124 | a `setPositions` list naming distinct roles leaves each of them at the position it asks for |
| GuildModel.ApplyPositionsFixed | bot/commands/syncstructure.js:124 | a `setPositions` list asking each role it names for the position it already has changes nothing |
| SyncNames.Norm | bot/commands/syncstructure.js:78-83 | the result contains only `[a-z0-9]` and is never longer than the input |
| SyncNames.NormIdempotent | bot/commands/syncstructure.js:78-83 | normalising twice is normalising once |
| SyncNames.NormFixesKeys | bot/commands/syncstructure.js:78-83 | a string is left unchanged exactly when it is already all `[a-z0-9]` |
| SyncNames.NormAppend | bot/commands/syncstructure.js:78-83 | `norm` works character by character: the norm of a concatenation is the concatenation of the norms |
| SyncNames.NormIgnoresCase | bot/commands/syncstructure.js:79 | lower-casing first does not change the key |
| SyncNames.NormDropsDecoration | bot/commands/syncstructure.js:80-81 | a leading character that does not lower-case into `[a-z0-9]` is dropped |
| SyncNames.NormMatchesDecorated | bot/commands/syncstructure.js:78-83 | `📚-resources` and `resources` have the same key, `resources` |
| SyncNames.NormMatchesSeparators | bot/commands/syncstructure.js:78-83 | `Core Team` and `core-team` have the same key, `coreteam` |
| SyncNames.JoinedKey | bot/commands/syncstructure.js:81 | two keys joined by any separator normalise to the two keys run together |
| SyncPerms.FlagsFromMap | bot/commands/syncstructure.js:85-93 | the loop's `allow` and `deny` are the flags of the true and the false known entries, in entry order |
| SyncPerms.GrantedPartition | bot/commands/syncstructure.js:88-90 | the lengths of `allow` and `deny` add up to the number of entries with a flag, at most the number of entries |
| SyncPerms.GrantedMembers | bot/commands/syncstructure.js:89-90 | a flag is in `allow` (or `deny`) exactly when some entry with a known key and value true (or false) maps to it |
| SyncPerms.GrantedAppend | bot/commands/syncstructure.js:88 | the lists of a concatenation of entries are the concatenations of the lists |
| SyncRoles.FindRole | bot/commands/syncstructure.js:102 | `existing.find` by exact name: a found role has the name and is the first listed role that has it; no role is found only when no fetched role has it |
| SyncRoles.FindRoleStable | bot/commands/syncstructure.js:102 | the lookup in the fetched list does not change while names do not change |
| SyncRoles.Drift | bot/commands/syncstructure.js:107-110 | exactly the differing fields are in the update; the update is empty exactly when the role conforms; applying it makes the role conform and keeps its name and position |
| SyncRoles.EnsureRole | bot/commands/syncstructure.js:102-113 | a missing name is created with the declared attributes; an existing role is edited with its drift and only if it drifted; the role ends with the declared name and attributes; no other role changes |
| SyncRoles.EnsureRoleCalls | bot/commands/syncstructure.js:103-111 | every call is a creation of a name no fetched role has, or a non-empty edit of a fetched role |
| SyncRoles.Positions | bot/commands/syncstructure.js:124 | one position per declared role, in declaration order, strictly increasing, the last being `size - 1`, none below `size` minus the number of declared roles |
| SyncRoles.PositionsKeep | bot/commands/syncstructure.js:124 | `setPositions` changes only positions, and only of the listed roles |
| SyncRoles.PositionsFinal | bot/commands/syncstructure.js:122-125 | ordering keeps every mapped role present, named and conforming |
| SyncRoles.PositionsSpare | bot/commands/syncstructure.js:124 | a role no declared role is named after is untouched by the ordering |
| SyncRoles.DeclareRoles | bot/commands/syncstructure.js:96-114 | the first loop maps `@everyone` and every declared name and nothing else; each mapped role carries its name; with distinct names every declared role conforms and its name is mapped to the first listed role of that name; creations only for names no fetched role has; edits only with a drift; never a position call; the default role untouched unless declared by name; when every declared role is already found and conforming, no call at all and each name mapped to the role found |
| SyncRoles.DeclaredHandles | bot/commands/syncstructure.js:117-121 | the position loop collects the mapped ids in declaration order, skipping unmapped names |
| SyncRoles.OrderRoles | bot/commands/syncstructure.js:116-125 | a position call is added, last, exactly when more than one role is declared; names, attributes and the default role are kept; the guild is the declared roles repositioned, or unchanged for at most one role |
| SyncRoles.Ordered | bot/commands/syncstructure.js:116-125 | with distinct names the ordering leaves the declared roles in place (found, conforming, at their requested positions) and pinned; over roles already in place it changes nothing |
| SyncRoles.OrderedInPlace | bot/commands/syncstructure.js:122-125 | with distinct names the position request puts each declared role at `size - (count - i)` and keeps it found, conforming and pinned |
| SyncRoles.OrderedRepeat | bot/commands/syncstructure.js:122-125 | a position request for roles already at their requested positions changes nothing |
| SyncRoles.PinnedStep | bot/commands/syncstructure.js:101-113 | each step of the first loop keeps the fetched roles first in the role list, lists only declared names after them and, with distinct names, maps each name to the first listed role of that name |
| SyncRoles.RepeatStep | bot/commands/syncstructure.js:101-113 | over roles already found and conforming, each step of the first loop makes no call and maps its name to the role found |
| SyncRoles.PinnedMapsAgree | bot/commands/syncstructure.js:97-113 | two role maps with the `@everyone` key and the declared names that both pin every declared name in one guild are equal |
| SyncRoles.EnsureRoles | bot/commands/syncstructure.js:95-128 | all of the above for the whole function: the resulting guild is the calls applied to the fetched one, channels are untouched, and `setPositions` is the last call exactly when more than one role is declared; with distinct names the declared roles end in place and each name is mapped to the first listed role of that name; over roles already in place it changes nothing, maps each name to the role found and makes no call but the position request |
| SyncChannels.FindChannel | bot/commands/syncstructure.js:142-143 | the first fetched channel of that type whose current name has the same key; none only when no fetched channel matches |
| SyncChannels.FindChannelStable | bot/commands/syncstructure.js:143 | the lookup does not change while types and name keys do not change |
| SyncChannels.Resolve | bot/commands/syncstructure.js:196 | `@everyone` resolves through the role map only; another name not in the map falls back to the first guild role with that exact name |
| SyncChannels.Contribution | bot/commands/syncstructure.js:196-199 | an entry whose role does not resolve contributes nothing; otherwise one overwrite for that role with the entry's allow and deny flags |
| SyncChannels.ResolveOverwrites | bot/commands/syncstructure.js:194-200 | the loop builds the overwrites of the resolvable entries, in entry order |
| SyncChannels.ResolvedMembers | bot/commands/syncstructure.js:195-199 | an overwrite is built exactly when some declared entry resolves to its role with its flags |
| SyncChannels.ResolvedEmpty | bot/commands/syncstructure.js:201 | no overwrite is built exactly when no declared entry resolves |
| SyncChannels.ResolvedBound | bot/commands/syncstructure.js:194-200 | at most one overwrite per declared entry |
| SyncChannels.InitialTopic | bot/commands/syncstructure.js:171 | a created channel gets a topic exactly when it is a text channel with a non-empty declared topic |
| SyncChannels.RenameStep | bot/commands/syncstructure.js:176-179 | renames only on a differing name; the channel ends with the declared name and nothing else changes; the log line names the old and the new name |
| SyncChannels.RenameLineAsWritten | bot/commands/syncstructure.js:178 | the log line as written reads the name after `setName` |
| SyncChannels.RenameLineLosesOldName | bot/commands/syncstructure.js:176-178 | for a real rename the line as written shows the new name twice and differs from the intended line |
| SyncChannels.MoveStep | bot/commands/syncstructure.js:181-184 | moves only when the parent differs; the channel ends under the category and nothing else changes |
| SyncChannels.TopicStep | bot/commands/syncstructure.js:186-189 | sets the topic only for a text channel with a non-empty declared topic that differs |
| SyncChannels.PermsStep | bot/commands/syncstructure.js:201-204 | replaces the channel's whole overwrite set with the built list, and makes no call when it is empty |
| SyncChannels.CorrectStep | bot/commands/syncstructure.js:175-189 | after rename, move and topic the channel has the declared name, category and topic, and its overwrites are untouched |
| SyncChannels.CorrectNoOp | bot/commands/syncstructure.js:175-189 | a channel already in place gets no call and no line |
| SyncChannels.TuneStep | bot/commands/syncstructure.js:175-205 | an existing channel ends settled, and with exactly the built overwrites when there are any |
| SyncChannels.RefindAfterTune | bot/commands/syncstructure.js:162 | after the correction the same channel is still the one found by name and type |
| SyncChannels.TuneRepeat | bot/commands/syncstructure.js:175-205 | on a settled channel a second pass changes nothing and re-issues only the overwrite call (when there are overwrites) |
| SyncChannels.ChildStepRepeat | bot/commands/syncstructure.js:161-205 | repeating a child's step on an existing channel leaves the guild as it is and re-issues only the overwrite call |
| SyncChannels.CreateStep | bot/commands/syncstructure.js:163-205 | a missing child is created under the category with its name, type and initial topic, then gets only overwrite calls |
| SyncChannels.ChildStep | bot/commands/syncstructure.js:161-205 | dry: no call and only a create line for a missing channel; otherwise the found or created channel ends settled under the category with the built overwrites |
| SyncChannels.Children | bot/commands/syncstructure.js:161-206 | dry: no call and only create lines; otherwise every call is narrated by the log line at the same place (what the loop achieves is stated by `SyncConverge.ChildrenPlaced` and `SyncConverge.ChildrenRepeat`) |
| SyncChannels.CategoryStep | bot/commands/syncstructure.js:148-158 | a missing category logs one create line and is created only outside a dry run; a drifted one is renamed only outside a dry run, otherwise logged OK |
| SyncChannels.RenameCategoryLineAsWritten | bot/commands/syncstructure.js:155 | the category log line as written reads the name after `setName` |
| SyncChannels.CategoryLineLosesOldName | bot/commands/syncstructure.js:153-155 | for a drifted category the line as written shows the new name twice and differs from the intended line |
| SyncChannels.BlockStep | bot/commands/syncstructure.js:146-206 | dry: no call, only create and OK lines, and a missing category gives its single create line (children skipped); otherwise calls and log actions correspond (what a block achieves is stated by `SyncConverge.BlockPlaced` and `SyncConverge.BlockRepeat`) |
| SyncChannels.Run | bot/commands/syncstructure.js:146-207 | dry: the guild is unchanged and no call is made; otherwise the calls and the actions in the log correspond one to one (what the pass achieves is stated by `SyncConverge.RunConverges` and `SyncConverge.RunTwice`) |
| SyncChannels.ActionsAppend | bot/commands/syncstructure.js:145 | the actions of a concatenated log are the concatenated actions |
| SyncChannels.Reconcile | bot/commands/syncstructure.js:146-207 | the loop computes `Run` on the fetched channel list |
| SyncChannels.SyncBlock | bot/commands/syncstructure.js:148-206 | one iteration computes `BlockStep` |
| SyncChannels.SyncChildren | bot/commands/syncstructure.js:161-206 | the inner loop computes `Children` |
| SyncConverge.FindExtended | bot/commands/syncstructure.js:143 | a lookup that finds a channel in a list finds the same channel in any extension of that list |
| SyncConverge.FindKept | bot/commands/syncstructure.js:142-143 | while every fetched channel keeps its type and name key, the lookups over the fetched list give the same answers |
| SyncConverge.FindMoved | bot/commands/syncstructure.js:142-143 | a lookup that succeeds over the whole channel list still finds the same channel after steps that keep every channel's key and only append new channels |
| SyncConverge.FindAtEnd | bot/commands/syncstructure.js:143 | when no listed channel matches, a matching channel appended at the end is the one found |
| SyncConverge.FootprintThen | bot/commands/syncstructure.js:146-206 | two steps that each keep keys, only append channels and touch only their own keys compose into one step touching the union of the keys |
| SyncConverge.NoTailKept | bot/commands/syncstructure.js:163-173 | channels created by a step carry only that step's keys, so other keys stay absent from the channels listed after the fetch |
| SyncConverge.DeclaredFrame | bot/commands/syncstructure.js:194-200 | the overwrite set a declaration resolves to depends on the roles only, so channel steps do not change it |
| SyncConverge.ChildFootprint | bot/commands/syncstructure.js:161-205 | a channel's step creates or changes only one channel, which has the declared name key and type, and keeps every other channel's key |
| SyncConverge.ChildPlaced | bot/commands/syncstructure.js:161-205 | after a channel's step a lookup over the whole channel list finds a channel with the declared name, type, category and topic and the built overwrites; a created channel is found when no channel listed after the fetch shares its key |
| SyncConverge.ChildInPlaceKept | bot/commands/syncstructure.js:161-205 | a channel in place stays in place across steps that touch only other keys |
| SyncConverge.CategoryPlaced | bot/commands/syncstructure.js:148-158 | outside a dry run a category's step yields a category, touches only the category's key, and afterwards a lookup finds that category under its declared name |
| SyncConverge.CategoryInPlaceKept | bot/commands/syncstructure.js:148-158 | a category in place stays in place, and is still the one found, across steps that touch only other keys |
| SyncConverge.PairwiseApart | bot/commands/syncstructure.js:161 | channels with pairwise distinct keys have each key apart from the keys before it |
| SyncConverge.ChildrenPlaced | bot/commands/syncstructure.js:161-206 | with distinct keys in a block and none of them among the channels listed after the fetch, the children loop leaves every declared channel of the block in place under the category, touching only the block's channel keys |
| SyncConverge.BlockPlaced | bot/commands/syncstructure.js:146-206 | one block puts its category and every one of its channels in place and touches only the block's keys |
| SyncConverge.BlockInPlaceKept | bot/commands/syncstructure.js:146-206 | a block in place stays in place across steps that touch none of its keys |
| SyncConverge.DistinctAt | bot/commands/syncstructure.js:14-72 | distinct declarations give each block keys apart from every other block's |
| SyncConverge.RunPlacedStep | bot/commands/syncstructure.js:146-207 | one more block keeps the earlier blocks in place, puts itself in place, and keeps the later blocks' keys out of the newly created channels |
| SyncConverge.RunPlacedPrefix | bot/commands/syncstructure.js:146-207 | after the first `n` blocks of a pass, those blocks are in place |
| SyncConverge.RunConverges | bot/commands/syncstructure.js:140-207 | convergence: when no two declarations share a name key and type, one non-dry pass over the channels fetched at its start leaves every declared category and channel in place |
| SyncConverge.ChildTunes | bot/commands/syncstructure.js:174-205 | outside a dry run, a declaration that is found is tuned in place rather than created |
| SyncConverge.OverwriteNoOp | bot/commands/syncstructure.js:202 | re-setting a channel's overwrite set to the one it carries changes nothing |
| SyncConverge.ChildRepeat | bot/commands/syncstructure.js:161-205 | the step of a channel already in place leaves the guild unchanged and only re-sets overwrite sets to what they are |
| SyncConverge.ChildrenRepeat | bot/commands/syncstructure.js:161-206 | the children loop over channels already in place leaves the guild unchanged and only re-sets overwrite sets to what they are |
| SyncConverge.BlockRepeat | bot/commands/syncstructure.js:146-206 | a block already in place leaves the guild unchanged and only re-sets overwrite sets to what they are |
| SyncConverge.RunRepeat | bot/commands/syncstructure.js:146-207 | a pass over a guild where every block is in place leaves it unchanged and only re-sets overwrite sets to what they are |
| SyncConverge.RunTwice | bot/commands/syncstructure.js:140-207 | the channel pass for a fixed role map: with distinct declarations, a second pass over the channels fetched after the first leaves the guild exactly as the first left it, and its only calls re-set overwrite sets to what they already are |
| SyncConverge.NoOpAppend | bot/commands/syncstructure.js:146 | calls that change nothing, concatenated, still change nothing |
| SyncSummary.Summarize | bot/commands/syncstructure.js:210-219 | the chunking loop sends `Chunks(header, lines)` |
| SyncSummary.ChunksKeepLines | bot/commands/syncstructure.js:212-218 | each message is a run of consecutive lines joined with newlines, the runs cover header and lines in order, and no line is split |
| SyncSummary.ChunksStartWithHeader | bot/commands/syncstructure.js:211 | there is at least one message and the first begins with the header |
| SyncSummary.ChunksRejoin | bot/commands/syncstructure.js:212-219 | joining the messages with newlines gives back the header and the lines joined with newlines |
| SyncSummary.ChunksBounded | bot/commands/syncstructure.js:211-216 | if the header and every line fit in 1800 units, so does every message |
| SyncCommand.DryFlagExamples | bot/commands/syncstructure.js:137 | `DRY` and `Dry later` select a dry run; no argument, `apply dry` and `dry-run` do not |
| SyncCommand.Refusal | bot/commands/syncstructure.js:131-135 | the command proceeds exactly in a server where the bot has both Manage Channels and Manage Roles |
| SyncCommand.Lines | bot/commands/syncstructure.js:150-203 | one non-empty rendered line per log entry, in order |
| SyncCommand.SummaryShape | bot/commands/syncstructure.js:209-219 | the messages start with the run's header and rejoin to header plus lines |
| SyncCommand.Sync | bot/commands/syncstructure.js:138-219 | after the role pass: the channel pass is `Run` on the fetched channels; the final guild is all calls applied in order; dry means no channel call; the messages are the chunked summary |
| SyncCommand.Execute | bot/commands/syncstructure.js:130-220 | a refusal gives its reply and nothing else; otherwise roles, then channels, then the summary; as written, a dry run with more than one role still issues role calls; the role step's map has the `@everyone` key and the declared names, with distinct names leaves the roles in place and pinned, and over roles already in place changes nothing |
| SyncCommand.ExecuteSettles | bot/commands/syncstructure.js:130-207 | one run outside a dry run, with distinct role names and distinct channel keys, leaves every declared role, category and channel in place |
| SyncCommand.ExecuteRepeat | bot/commands/syncstructure.js:130-207 | a run outside a dry run over a guild where everything is in place keeps the role map, makes at most a position request that changes nothing and only no-op overwrite calls, and leaves the guild as it was |
| SyncCommand.ExecuteTwice | bot/commands/syncstructure.js:2-207 | idempotence as the header comment promises it, for distinct role names and distinct channel keys: a second run outside a dry run on the guild the first left maps the roles as the first did and leaves the guild unchanged; its only calls are a position request that changes nothing and overwrite sets re-set to what they already are |
| SyncCommand.ExecuteCorrected | bot/commands/syncstructure.js:137-138 | the intended behaviour: a dry run issues no call at all and leaves the guild unchanged |
| Guardians.SelectedMembers | http.js:157-158 | a row is listed exactly when its record is stored under its id and passes the filter |
| Guardians.NewestFirstSorts | http.js:160 | the listing is ordered by `createdAt` (absent as 0), newest first |
| Guardians.NewestFirstPermutes | http.js:160 | sorting keeps exactly the rows it was given |
| Guardians.NewestFirstStable | http.js:160 | rows with equal `createdAt` keep their insertion order (a stable sort) |
| Guardians.PlaceSorted | http.js:160 | inserting into a newest-first list keeps it newest first |
| Guardians.List | http.js:156-160 | the loop and sort compute the newest-first listing of exactly the wanted records |
| Http.RequireAdmin | http.js:31-35 | admitted exactly when the `x-api-key` header is present and equals `ADMIN_API_KEY`, which then must be set |
| Http.TimingSafeEqual | http.js:43 | throws (None) on a length mismatch; otherwise true exactly on equal buffers |
| Http.VerifyHmac | http.js:37-47 | always passes without a secret; with one, passes exactly when the signature equals the MAC of the body, and fails on a length mismatch |
| Http.CreateRoleCode | http.js:84-98 | 400 exactly without a name; 200 exactly with a name and a successful creation |
| Http.MemberRoleReply | http.js:103-135 | 400 without user or role name; 404 when no role has that exact name; 200 exactly when the role exists and the change succeeded, acting on the first role with that name |
| Http.FirstNamed | http.js:109 | the index of the first role with exactly that name, none exactly when there is none |
| Http.GuardianRegistry.constructor | http.js:11-25 | an empty store; the decider defaults to `Core Team` |
| Http.GuardianRegistry.Apply | http.js:141-147 | 400 and no change without id or wallet; otherwise the record is replaced by a fresh pending one stamped now, even over a decided one, and only that entry changes |
| Http.GuardianRegistry.List | http.js:151-162 | 400 for a status other than pending, approved or rejected; otherwise the newest-first listing of the matching records |
| Http.GuardianRegistry.Approve | http.js:166-186 | 400 without id; 404 and no change unless pending; if the Guardian role is missing or the grant fails, 500 and still pending; otherwise approved by the core team, now, keeping the other fields |
| Http.GuardianRegistry.Reject | http.js:190-199 | 400 without id; 404 and no change unless pending; otherwise rejected by the core team, now, with the reason or `''`, keeping the other fields |
| BotHttp.RequireAdmin | bot/http.js:25-31 | admitted exactly when an admin key is configured and the header equals it |
| BotHttp.Reapplied | bot/http.js:147-153 | a pending record keeps its status, decision fields and `createdAt` (now if it had none) and takes the new wallet and note; any other case is a fresh pending record stamped now |
| BotHttp.GuardianBoard.Apply | bot/http.js:144-155 | 400 and no change without id or wallet; otherwise only that entry changes, to the re-applied record |
| BotHttp.GuardianBoard.ToDTO | bot/http.js:51-61 | exactly the records passing the filter, tagged with their id, newest first |
| Donations.LatestNewestFirst | bot/commands/impact.js:36 | with a positive limit: `min(limit, n)` events, the newest first, element `i` being event `n-1-i` |
| Donations.LatestZeroLimit | commands/impact.js:36 | a limit of 0 keeps every event, reversed |
| Donations.SendBackfill | bot/commands/impact.js:49-59 | the quiet notice when nothing was found; otherwise one embed per event in order |
| BotImpact.Window | bot/commands/impact.js:33-35 | the block range ends at the latest block and spans 5000 blocks, or starts at 0 |
| BotImpact.InRange | bot/commands/impact.js:35 | exactly the chain's events inside the block range |
| BotImpact.InRangeAppend | bot/commands/impact.js:35 | the query keeps chain order: over a concatenated chain it gives the concatenation of the two queries |
| BotImpact.RecentDonations | bot/commands/impact.js:31-37 | at most 3 events, each on the chain and inside the window; exactly `min(3, n)` of the `n` events in the window, the newest first, element `i` being the `i`-th newest |
| BotImpact.DonationStream.constructor | bot/commands/impact.js:5-6 | nothing registered, nothing bound |
| BotImpact.DonationStream.RegisterDonationListener | bot/commands/impact.js:13-29 | the first call subscribes once and binds the channel; later calls change nothing |
| BotImpact.DonationStream.Execute | bot/commands/impact.js:39-67 | another bound channel is turned away before any read; a failed read registers nothing; otherwise backfill, then the channel is bound; the binding is never reset |
| Impact.LatestDonations | commands/impact.js:32-37 | no events gives nothing, otherwise the last `limit` events newest first |
| Impact.LiveUpdates.constructor | commands/impact.js:4-5 | nothing registered, nothing bound |
| Impact.LiveUpdates.EnsureLiveUpdates | commands/impact.js:12-30 | the first call subscribes and binds; later calls change nothing and, from another channel, post the conflict notice |
| Impact.LiveUpdates.Execute | commands/impact.js:39-59 | a failed query posts the two notices and changes nothing; otherwise the backfill is posted before the binding check, so another channel gets the backfill and then the notice; a first successful call binds the asking channel and subscribes once; once bound, the channel and the subscriptions never change |
| BotIndex.TrimShape | bot/index.js:70 | `trim` leaves nothing exactly for all-whitespace input, and otherwise non-whitespace at both ends |
| BotIndex.SplitShape | bot/index.js:70 | the pieces of `split(/\s+/)` hold no whitespace; one piece exactly for input without whitespace; only the ends can be empty, and only when the input starts or ends with whitespace |
| BotIndex.SplitJoin | bot/index.js:70 | splitting words joined by whitespace gives back the words |
| BotIndex.Parse | bot/index.js:66-72 | nothing exactly for bot authors, content without the `!` prefix, or only whitespace after it; otherwise a non-empty name and non-empty arguments without whitespace |
| BotIndex.ParseWords | bot/index.js:70-71 | `!` then words separated and surrounded by whitespace parses to the lower-cased first word and the other words as written |
| BotIndex.Dispatch | bot/index.js:65-78 | a handler runs exactly when the message parses and its name is registered, with that module and the arguments |
| BotIndex.RegisteredNames | bot/index.js:46-55 | a name is registered exactly when it was already, or some `.js` file exports a module with that name and an `execute` |
| BotIndex.RegisteredLastWins | bot/index.js:55 | the last loadable file with a name decides what the name maps to |
| BotIndex.RegisteredWellFormed | bot/index.js:50-55 | every newly registered module has an `execute` and is keyed by its own name |
| BotIndex.Loaded | bot/index.js:47-50 | the files the loop gets through are a prefix of the directory listing with no failing import, followed by a failing import or the end |
| BotIndex.Client.RegisterCommands | bot/index.js:43-59 | the loop stops at the first `.js` file whose import throws, and reports failure (a failed startup at the top-level `await`) exactly then; the commands are the registrations `Registered` describes for the files it got through |
| BotIndex.MissingMembers | bot/index.js:24 | a key is missing exactly when it is required and unset or empty |
| BotIndex.MissingAppend | bot/index.js:24 | `filter` keeps the declared order: the missing keys of a concatenation are the concatenation |
| BotIndex.StartupError | bot/index.js:13-27 | startup fails exactly when a required key is unset or empty, with the message listing the missing keys in declared order |
| BotIndex.SyncArgs | bot/index.js:108 | `args[0]` selects a dry run exactly when `dry` is set |
| BotIndex.ReportChannel | bot/index.js:105 | the announce channel when set, else the donations channel, else none |
| BotIndex.RunSyncStructure | bot/index.js:99-114 | with a channel and a completed command it reports `dry-run` exactly for a dry run and `applied` otherwise; otherwise it throws |

## Left out

- Discord, Express and ethers are abstracted.
  - Discord calls are the `Call` datatype applied to a guild value. Discord's renormalisation of absolute role positions is not modelled.
  - HTTP requests are their fields.
  - The chain is a sequence of events plus its latest block.
  - Sending a message is a returned `Post` or string. Awaiting, asynchronous delivery and failed sends are not modelled.
- Http.GuardianRegistry.Approve: like `BotImpact.DonationStream.Execute` and `SyncCommand.Execute`, it models a request or command as running start to finish on its own. In the source, handlers interleave at every `await`, and that interleaving is not modelled:
  - `approve` in http.js reads the record at line 169, awaits the role grant at 173-177 and writes a copy of what it read at 179. A `reject` (190-196) or an `apply` (141-147) for the same id that finishes in between is overwritten: a rejected record ends approved with the role granted, or a new wallet is replaced by the old one. Approved and rejected are final only when requests do not interleave.
  - bot/commands/impact.js checks the binding at line 42 but registers the listener at line 61, after the awaits at 48-57. Two channels asking at once both pass the check, and the second is told the stream is activated (line 62) while it stays bound to the first.
  - Two concurrent `!syncstructure` runs, or a run and the HTTP trigger, can both create the same missing role or channel.
- SyncNames.Norm: models `toLowerCase` on ASCII only and drops every other character. Full Unicode case mapping and the `\p{…}` classes are not modelled, so the U+212A (Kelvin sign → `k`) and U+0130 (→ `i` plus a combining mark) cases, where non-ASCII input survives as ASCII, are not captured.
- BotIndex.Parse: lower-cases the command name with ASCII `toLowerCase`, for the same reason.
- The `ROLES` (bot/commands/syncstructure.js:6-10) and `STRUCTURE` (lines 14-72) tables are parameters, not data.
  - The `STRUCTURE` literal names the undeclared `EVERONE` at line 44, which would throw a `ReferenceError` when the module is evaluated.
  - Line 221 is a stray `*** End Patch` line, a syntax error, so the module cannot be imported as written. In `BotIndex.Client.RegisterCommands` such a file is one whose import fails.
  - The model takes the tables as given and models the command as its code reads.
- SyncChannels.Run: its log has the intended rename lines, naming the old and the new name. The lines as written repeat the new name; only `SyncChannels.RenameLineAsWritten` and `SyncChannels.RenameCategoryLineAsWritten` model them (see Findings).
- SyncCommand.Execute: its log comes from `SyncChannels.Run`, so it has the intended rename lines too, for the same reason.
- SyncCommand.Execute: together with SyncRoles.EnsureRoles and SyncChannels.Run, it assumes every Discord call resolves. That covers `fetchMe` (bot/commands/syncstructure.js:133), `roles.fetch`, `roles.create`, `role.edit` and `setPositions` (96-124), and `channels.fetch`, `create`, `setName`, `setParent`, `setTopic` and `permissionOverwrites.set` (140-202). A rejected call, such as Missing Permissions on a role above the bot's or a channel-limit error, is not modelled. In the source it stops the pass part-way: the calls before it have taken effect, no summary is sent, and bot/index.js:79-81 replies with the generic error. `SyncConverge.RunConverges` and `SyncCommand.ExecuteTwice` hold only when every call succeeds.
- HMAC-SHA256 is a function parameter of `Http.VerifyHmac`, and `JSON.stringify` of the body is the body string. Non-string JSON fields are not modelled.
- `Date.now()` is a parameter of every operation that stamps a record.
- bot/http.js is cut off in its list handler at line 160. Its list, approve and reject handlers are not part of this model.
- http.js's roles listing (67-78), announcement helper (54-62), sync-structure trigger (204-213) and donation webhook body (218-229) are Express and Discord plumbing around modelled checks, and are left out.
- The live-event listener callbacks of both impact commands and `postDonationToDiscord` (bot/index.js:86-96) format and send embeds; they are not modelled beyond the subscription.
- ethers block tags are non-negative here; a negative latest block is not modelled.
- Strings are sequences of Unicode scalar values, with `.length` counted in UTF-16 units by `Utf16Length`. JavaScript strings holding lone surrogates are not modelled.
- The error reply when a command throws (bot/index.js:79-81), the ready log (61-63) and the keepalive server are logging and I/O.
- The header comment of bot/commands/syncstructure.js (line 2) calls the sync idempotent, and the dry-run header (line 210) says "no changes". The model follows the code, which does less:
  - A dry run still runs `ensureRoles` and can create, edit and reorder roles (see Findings).
  - A dry run logs a drifted category as OK.
  - It omits rename, move, topic and permission lines.
  - Idempotence holds on the guild only, and needs two hypotheses:
    - no two `ROLES` entries share a name;
    - no two declarations anywhere in `STRUCTURE` (categories, or channels of one type) share a name key, and no channel is declared with the category type.
  - Under them `SyncCommand.ExecuteTwice` proves that a second run of the command leaves the guild as the first left it, with the same role map. For the role step this rests on `SyncRoles.EnsureRoles`; for the channel pass with that map, on `SyncConverge.RunConverges` and `SyncConverge.RunTwice`.
  - The second run still calls `setPositions` when more than one role is declared, and re-sets every non-empty overwrite set, so it is not idempotent on calls. That the position request changes nothing holds because positions are taken literally (Discord's renormalisation is not modelled).
  - Without the hypotheses the model claims nothing. Two `ROLES` entries named `X` with different colours give two created roles on the first run; a second run recolours the first of them and maps `X` to it. Two text channels declared as `Foo` and `foo` share a key, and a later pass renames the first one found to each name in turn. The shipped `ROLES` names (lines 6-10) are distinct.
- bot/commands/impact.js backfills again when the bound channel asks a second time (lines 42-61), and the model does too.
- `runSyncStructure` (bot/index.js:99-114) reports `applied` or `dry-run` even when the command only replied with a refusal, and the model does too.

## Findings

| source | as written | input that shows it | evidently intended | confidence | as-written member | corrected member |
|---|---|---|---|---|---|---|
| bot/commands/syncstructure.js:137-138 | `ensureRoles` runs before and regardless of the dry flag, so `!syncstructure dry` creates missing roles, edits drifted ones and calls `setPositions` | a guild missing any declared role, or any run with more than one declared role, with `args = ["dry"]` | a dry run makes no change at all, as its header "Dry-run (no changes)" says | high, not executed | SyncCommand.Execute | SyncCommand.ExecuteCorrected |
| bot/commands/syncstructure.js:155, 178 | the rename log line reads `cat.name` / `ch.name` after `setName` has resolved, and discord.js has by then updated the object, so the line shows the new name as the old one | a category `resources` declared as `Resources` (same key, different name), or a channel found by key under another spelling | the line names the old and the new name | medium, not executed | SyncChannels.RenameLineLosesOldName, SyncChannels.CategoryLineLosesOldName | SyncChannels.RenameStep, SyncChannels.CategoryStep |
