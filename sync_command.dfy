/** `execute` of the `syncstructure` command: refuse outside a server or without the Manage
    Channels and Manage Roles permissions, read the dry-run flag, ensure the declared roles,
    reconcile the declared channel tree against the channels fetched after that, and send the
    log as a header plus chunked messages. The bot's own permissions are an input. */
module SyncCommand {
  import opened JsSemantics
  import opened GuildModel
  import opened SyncPerms
  import opened SyncRoles
  import opened SyncChannels
  import opened SyncSummary
  import opened SyncConverge

  const NO_SERVER := "\U{26A0}\U{FE0F} Must be used in a server."
  const NEED_CHANNELS := "\U{274C} I need **Manage Channels**."
  const NEED_ROLES := "\U{274C} I need **Manage Roles** (to sync roles & overwrites)."
  const DRY_HEADER := "\U{1F9EA} **Dry-run** (no changes):"
  const DONE_HEADER := "\U{2705} **Sync complete.**"

  /** The permissions the bot's member holds in the server. */
  datatype Permissions = Permissions(manageChannels: bool, manageRoles: bool)

  /** What the command did: a refusal reply, or the role-map and role calls of the role step,
      then the guild, channel calls and log entries of the pass, then the messages sent. */
  datatype Outcome =
    | Refused(reply: string)
    | Synced(roleMap: map<string, Id>, roleCalls: seq<Call>, guild: Guild, channelCalls: seq<Call>,
             entries: seq<Entry>, messages: seq<string>)

  /** The dry-run flag: the first argument, or the empty string when there is none,
      lower-cased, is "dry". */
  function IsDry(args: seq<string>): bool {
    Lower(if |args| > 0 then args[0] else "") == "dry"
  }

  /** Only the first argument counts, in any letter case. */
  lemma DryFlagExamples()
    ensures IsDry(["DRY"]) && IsDry(["Dry", "later"])
    ensures !IsDry([]) && !IsDry(["apply", "dry"]) && !IsDry(["dry-run"])
  {
    assert Lower("DRY") == "dry";
    assert Lower("Dry") == "dry";
    assert |Lower("dry-run")| == 7;
    assert |Lower("apply")| == 5;
  }

  /** The refusal, if any, in the order the command checks: server, then Manage Channels,
      then Manage Roles. */
  function Refusal(server: Option<Guild>, perms: Permissions): (r: Option<string>)
    ensures r.None? <==> server.Some? && perms.manageChannels && perms.manageRoles
  {
    if server.None? then Some(NO_SERVER)
    else if !perms.manageChannels then Some(NEED_CHANNELS)
    else if !perms.manageRoles then Some(NEED_ROLES)
    else None
  }

  function Header(dry: bool): (h: string)
    ensures h != []
  {
    if dry then DRY_HEADER else DONE_HEADER
  }

  /** The log lines, one rendered line per entry. */
  function Lines(es: seq<Entry>): (ls: seq<string>)
    ensures |ls| == |es| && forall i :: 0 <= i < |es| ==> ls[i] == Render(es[i])
    ensures NoEmptyLine(ls)
  {
    seq(|es|, i requires 0 <= i < |es| => Render(es[i]))
  }

  /** The messages sent for a log: the header begins the first one, and together they are the
      header and the lines. */
  lemma SummaryShape(dry: bool, es: seq<Entry>)
    ensures var ms := Chunks(Header(dry), Lines(es));
            && |ms| > 0 && Header(dry) <= ms[0]
            && JoinLines(ms) == JoinLines([Header(dry)] + Lines(es))
  {
    ChunksStartWithHeader(Header(dry), Lines(es));
    ChunksRejoin(Header(dry), Lines(es));
  }

  /** The command as written: the role step runs before the dry-run flag is consulted, so a
      dry run with more than one declared role still makes role calls (at least the final
      position request), though it makes no channel call. */
  method Execute(server: Option<Guild>, perms: Permissions, args: seq<string>, specs: seq<RoleSpec>,
                 blocks: seq<CategorySpec>, bits: FlagTable) returns (out: Outcome)
    requires server.Some? ==> server.value.Valid()
    ensures Refusal(server, perms).Some? ==> out == Refused(Refusal(server, perms).value)
    ensures Refusal(server, perms).None? ==> out.Synced? && Passes(server.value, specs, blocks, bits, IsDry(args), out)
    ensures Refusal(server, perms).None? && IsDry(args) && |specs| > 1 ==> out.roleCalls != []
    // the role step, which runs in every case: its map, and the roles it leaves in place
    ensures Refusal(server, perms).None? ==> out.Synced? && MapShape(server.value, specs, out.roleMap)
    ensures Refusal(server, perms).None? && DistinctNames(specs) ==>
              out.Synced? && RolesInPlace(ApplyAll(server.value, out.roleCalls), specs)
              && Pinned(ApplyAll(server.value, out.roleCalls), specs, out.roleMap)
    ensures Refusal(server, perms).None? && RolesInPlace(server.value, specs) ==>
              && out.Synced? && ApplyAll(server.value, out.roleCalls) == server.value
              && Pinned(server.value, specs, out.roleMap) && forall c :: c in out.roleCalls ==> c.SetPositions?
  {
    var refusal := Refusal(server, perms);
    if refusal.Some? {
      return Refused(refusal.value);
    }
    var g0 := server.value;
    var dry := IsDry(args);
    var g1, roleMap, roleCalls := EnsureRoles(g0, specs);
    out := Sync(g0, g1, roleMap, roleCalls, blocks, bits, dry);
  }

  /** The command with the role step skipped in a dry run, which then changes nothing. */
  method ExecuteCorrected(server: Option<Guild>, perms: Permissions, args: seq<string>, specs: seq<RoleSpec>,
                          blocks: seq<CategorySpec>, bits: FlagTable) returns (out: Outcome)
    requires server.Some? ==> server.value.Valid()
    ensures Refusal(server, perms).Some? ==> out == Refused(Refusal(server, perms).value)
    ensures Refusal(server, perms).None? ==> out.Synced? && Passes(server.value, specs, blocks, bits, IsDry(args), out)
    ensures Refusal(server, perms).None? && IsDry(args) ==>
              out.roleCalls == [] && out.channelCalls == [] && out.guild == server.value
  {
    var refusal := Refusal(server, perms);
    if refusal.Some? {
      return Refused(refusal.value);
    }
    var g0 := server.value;
    var dry := IsDry(args);
    var g1, roleMap, roleCalls;
    if dry {
      g1, roleMap, roleCalls := g0, map[EVERYONE := g0.everyone], [];
    } else {
      g1, roleMap, roleCalls := EnsureRoles(g0, specs);
    }
    out := Sync(g0, g1, roleMap, roleCalls, blocks, bits, dry);
  }

  /** What both versions promise once the gates pass: the role calls leave the channels
      alone and, outside a dry run, map the default role and every declared name; the pass
      runs from the guild they produce against its channel list; its channel calls are all
      logged outside a dry run and absent in one; and the messages are the chunked log. */
  ghost predicate Passes(g0: Guild, specs: seq<RoleSpec>, blocks: seq<CategorySpec>, bits: FlagTable, dry: bool,
                         out: Outcome)
    requires g0.Valid() && out.Synced?
  {
    var g1 := ApplyAll(g0, out.roleCalls);
    && g1.channels == g0.channels && g1.channelOrder == g0.channelOrder
    && (!dry ==> EVERYONE in out.roleMap && forall i :: 0 <= i < |specs| ==> specs[i].name in out.roleMap)
    && Step(out.guild, out.channelCalls, out.entries) == Run(g1, g0.channelOrder, out.roleMap, bits, blocks, dry)
    && out.guild == ApplyAll(g0, out.roleCalls + out.channelCalls)
    && (!dry ==> Narrates(out.channelCalls, out.entries))
    && (dry ==> out.channelCalls == [] && out.guild.channels == g0.channels
                && forall e :: e in out.entries ==> DryLine(e))
    && out.messages == Chunks(Header(dry), Lines(out.entries))
    && |out.messages| > 0 && Header(dry) <= out.messages[0]
    && JoinLines(out.messages) == JoinLines([Header(dry)] + Lines(out.entries))
  }

  /** The pass and the summary, after the role step produced `g1`. */
  method Sync(g0: Guild, g1: Guild, roleMap: map<string, Id>, roleCalls: seq<Call>, blocks: seq<CategorySpec>,
              bits: FlagTable, dry: bool) returns (out: Outcome)
    requires g0.Valid() && g1.Valid() && g1 == ApplyAll(g0, roleCalls)
    requires g1.channels == g0.channels && g1.channelOrder == g0.channelOrder
    ensures out.Synced? && out.roleMap == roleMap && out.roleCalls == roleCalls
    ensures Step(out.guild, out.channelCalls, out.entries) == Run(g1, g0.channelOrder, roleMap, bits, blocks, dry)
    ensures out.guild == ApplyAll(g0, roleCalls + out.channelCalls)
    ensures !dry ==> Narrates(out.channelCalls, out.entries)
    ensures dry ==> out.channelCalls == [] && out.guild == g1 && forall e :: e in out.entries ==> DryLine(e)
    ensures out.messages == Chunks(Header(dry), Lines(out.entries))
    ensures |out.messages| > 0 && Header(dry) <= out.messages[0]
    ensures JoinLines(out.messages) == JoinLines([Header(dry)] + Lines(out.entries))
  {
    var g, channelCalls, entries := Reconcile(g1, roleMap, bits, blocks, dry);
    ApplyAllAppend(g0, roleCalls, channelCalls);
    var messages := Summarize(Header(dry), Lines(entries));
    SummaryShape(dry, entries);
    out := Synced(roleMap, roleCalls, g, channelCalls, entries, messages);
  }

  /** Everything the command declares is in place in `h` under `roleMap`: the roles found by
      name with their declared attributes and positions, the map pinning each declared name to
      the first role of that name, and every declared category and channel found and settled. */
  ghost predicate InPlace(h: Guild, specs: seq<RoleSpec>, blocks: seq<CategorySpec>, roleMap: map<string, Id>,
                          bits: FlagTable)
    requires h.Valid()
  {
    && RolesInPlace(h, specs) && Pinned(h, specs, roleMap) && MapShape(h, specs, roleMap)
    && forall i :: 0 <= i < |blocks| ==> BlockInPlace(h, h.channelOrder, blocks[i], roleMap, bits)
  }

  /** One run outside a dry run, with distinct role names and distinct channel keys, puts
      everything in place. */
  method ExecuteSettles(g0: Guild, perms: Permissions, args: seq<string>, specs: seq<RoleSpec>,
                        blocks: seq<CategorySpec>, bits: FlagTable) returns (out: Outcome)
    requires g0.Valid() && perms.manageChannels && perms.manageRoles && !IsDry(args)
    requires DistinctNames(specs) && Distinct(blocks)
    ensures out.Synced? && out.guild.Valid() && out.guild.everyone == g0.everyone
    ensures InPlace(out.guild, specs, blocks, out.roleMap, bits)
  {
    out := Execute(Some(g0), perms, args, specs, blocks, bits);
    var g1 := ApplyAll(g0, out.roleCalls);
    var r := Run(g1, g1.channelOrder, out.roleMap, bits, blocks, false);
    assert out.guild == r.guild;
    assert out.guild.roles == g1.roles && out.guild.roleOrder == g1.roleOrder && out.guild.everyone == g0.everyone;
    RunConverges(g1, out.roleMap, bits, blocks);
    RolesTransfer(g1, out.guild, specs, out.roleMap);
  }

  /** A run outside a dry run over a guild where everything is in place finds it so: it maps
      the roles as before, its role calls are at most a position request that changes
      nothing, its channel calls only re-set overwrite sets to what they already are, and the
      guild is left as it was. */
  method ExecuteRepeat(h: Guild, perms: Permissions, args: seq<string>, specs: seq<RoleSpec>,
                       blocks: seq<CategorySpec>, bits: FlagTable, roleMap: map<string, Id>) returns (out: Outcome)
    requires h.Valid() && perms.manageChannels && perms.manageRoles && !IsDry(args)
    requires InPlace(h, specs, blocks, roleMap, bits)
    ensures out.Synced? && out.guild == h && out.roleMap == roleMap
    ensures forall c :: c in out.roleCalls ==> c.SetPositions?
    ensures ApplyAll(h, out.roleCalls) == h
    ensures NoOpCalls(h, out.channelCalls)
  {
    out := Execute(Some(h), perms, args, specs, blocks, bits);
    PinnedMapsAgree(h, h, specs, roleMap, out.roleMap);
    RunRepeat(h, roleMap, bits, blocks);
  }

  /** The command run twice outside a dry run, the second time on the guild the first left:
      with distinct role names and distinct channel keys the second run maps the roles as the
      first did and leaves the guild as the first left it; its role calls are at most a
      position request that changes nothing, and its channel calls only re-set overwrite sets
      to what they already are. */
  method ExecuteTwice(g0: Guild, perms: Permissions, args: seq<string>, specs: seq<RoleSpec>,
                      blocks: seq<CategorySpec>, bits: FlagTable) returns (first: Outcome, second: Outcome)
    requires g0.Valid() && perms.manageChannels && perms.manageRoles && !IsDry(args)
    requires DistinctNames(specs) && Distinct(blocks)
    ensures first.Synced? && second.Synced? && first.guild.Valid()
    ensures second.guild == first.guild && second.roleMap == first.roleMap
    ensures forall c :: c in second.roleCalls ==> c.SetPositions?
    ensures ApplyAll(first.guild, second.roleCalls) == first.guild
    ensures NoOpCalls(first.guild, second.channelCalls)
  {
    first := ExecuteSettles(g0, perms, args, specs, blocks, bits);
    second := ExecuteRepeat(first.guild, perms, args, specs, blocks, bits, first.roleMap);
  }
}
