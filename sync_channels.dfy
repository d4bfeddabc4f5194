/** The reconciliation pass of the `syncstructure` command: walk the declared
    category -> channels tree against the channels fetched once at the start of the pass,
    creating what is missing, renaming, moving and re-topicing what drifted, replacing
    permission overwrites, and logging one line per action. With the dry-run flag no channel
    call is made and only the create and category lines are logged. */
module SyncChannels {
  import opened JsSemantics
  import opened GuildModel
  import opened SyncNames
  import opened SyncPerms
  import opened SyncRoles

  /** A declared channel. `overwrites` is the declared `{roleName: capabilityMap}` object as its
      entries, absent when the channel declares none. */
  datatype ChannelSpec = ChannelSpec(name: string, kind: int, topic: Option<string>,
                                     overwrites: Option<seq<(string, CapabilityMap)>>)

  datatype CategorySpec = CategorySpec(name: string, children: seq<ChannelSpec>)

  /** One line of the action log, before it is rendered. A rename line carries the name before
      and after the rename. */
  datatype Entry =
    | CreateCategoryLine(category: string)
    | RenameCategoryLine(from: string, to: string)
    | CategoryOkLine(category: string)
    | CreateChannelLine(kind: int, channel: string, under: string)
    | RenameChannelLine(from: string, to: string)
    | MoveLine(channel: string, under: string)
    | TopicLine(channel: string)
    | PermsLine(channel: string)

  function Bold(s: string): string { "**" + s + "**" }

  /** The text pushed to the log for each entry. */
  function Render(e: Entry): (line: string)
    ensures |line| > 0
  {
    match e
    case CreateCategoryLine(n) => "\U{1F4C1} Create category \U{2192} " + Bold(n)
    case RenameCategoryLine(a, b) => "\U{270F}\U{FE0F} Rename category " + Bold(a) + " \U{2192} " + Bold(b)
    case CategoryOkLine(n) => "\U{2705} Category OK: " + Bold(n)
    case CreateChannelLine(k, n, cat) =>
      "\U{2795} Create " + (if k == TYPE_VOICE then "voice" else "text") + " \U{2192} " + Bold(n) + " under " + Bold(cat)
    case RenameChannelLine(a, b) => "\U{270F}\U{FE0F} Rename " + Bold(a) + " \U{2192} " + Bold(b)
    case MoveLine(n, cat) => "\U{1F4E6} Move " + Bold(n) + " \U{2192} " + Bold(cat)
    case TopicLine(n) => "\U{1F9FE} Set topic for " + Bold(n)
    case PermsLine(n) => "\U{1F510} Set perms for " + Bold(n)
  }

  /** The entry reports the call: same kind of action, same object, same new value. */
  predicate Describes(c: Call, e: Entry) {
    match e
    case CreateCategoryLine(n) => c == CreateChannel(n, TYPE_CATEGORY, None, None)
    case RenameCategoryLine(_, n) => c.SetName? && c.name == n
    case CategoryOkLine(_) => false
    case CreateChannelLine(k, n, _) => c.CreateChannel? && c.kind == k && c.name == n
    case RenameChannelLine(_, n) => c.SetName? && c.name == n
    case MoveLine(_, _) => c.SetParent?
    case TopicLine(_) => c.SetTopic?
    case PermsLine(_) => c.SetOverwrites?
  }

  /** The entries that report an action (all but "Category OK"). */
  function Actions(es: seq<Entry>): (r: seq<Entry>)
    ensures |r| <= |es|
    decreases |es|
  {
    if es == [] then []
    else Actions(es[..|es| - 1]) + (if es[|es| - 1].CategoryOkLine? then [] else [es[|es| - 1]])
  }

  lemma {:induction false} ActionsAppend(a: seq<Entry>, b: seq<Entry>)
    ensures Actions(a + b) == Actions(a) + Actions(b)
    decreases |b|
  {
    if b == [] {
      assert a + b == a;
    } else {
      var b' := b[..|b| - 1];
      assert (a + b)[..|a + b| - 1] == a + b';
      assert (a + b)[|a + b| - 1] == b[|b| - 1];
      ActionsAppend(a, b');
    }
  }

  /** One log line per call: the action lines and the calls correspond one to one, in order. */
  predicate Narrates(calls: seq<Call>, es: seq<Entry>) {
    |calls| == |Actions(es)| && forall k :: 0 <= k < |calls| ==> Describes(calls[k], Actions(es)[k])
  }

  lemma NarratesAppend(c1: seq<Call>, e1: seq<Entry>, c2: seq<Call>, e2: seq<Entry>)
    requires Narrates(c1, e1) && Narrates(c2, e2)
    ensures Narrates(c1 + c2, e1 + e2)
  {
    ActionsAppend(e1, e2);
  }

  /** The result of a part of the pass: the guild after it, the calls it made and its log. */
  datatype Step = Step(guild: Guild, calls: seq<Call>, entries: seq<Entry>)

  /** A step that starts from `g` and whose calls account for its guild, touching no role. */
  ghost predicate StepFrom(g: Guild, s: Step)
    requires g.Valid()
  {
    && s.guild.Valid() && s.guild == ApplyAll(g, s.calls)
    && s.guild.roles == g.roles && s.guild.roleOrder == g.roleOrder && s.guild.everyone == g.everyone
    && g.channels.Keys <= s.guild.channels.Keys
  }

  /** `s` followed by `t`, where `t` starts from `s`'s guild. */
  function Then(s: Step, t: Step): Step {
    Step(t.guild, s.calls + t.calls, s.entries + t.entries)
  }

  lemma ThenFrom(g: Guild, s: Step, t: Step)
    requires g.Valid() && StepFrom(g, s) && StepFrom(s.guild, t)
    ensures StepFrom(g, Then(s, t))
  {
    ApplyAllAppend(g, s.calls, t.calls);
  }

  /** Every id of the fetched snapshot is a channel of `g`. */
  predicate InSnapshot(g: Guild, snap: seq<Id>) {
    forall i :: 0 <= i < |snap| ==> snap[i] in g.channels
  }

  predicate Matches(g: Guild, id: Id, name: string, kind: int) {
    id in g.channels && g.channels[id].kind == kind && Norm(g.channels[id].name) == Norm(name)
  }

  /** The first channel of the snapshot, read with its current attributes, of the given type
      whose name has the same key as `name`; categories are looked up with `TYPE_CATEGORY`. */
  function FindChannel(g: Guild, snap: seq<Id>, name: string, kind: int): (r: Option<Id>)
    ensures r.Some? ==> r.value in snap && Matches(g, r.value, name, kind)
    ensures r.None? <==> forall i :: 0 <= i < |snap| ==> !Matches(g, snap[i], name, kind)
  {
    FindFirst(snap, (id: Id) => Matches(g, id, name, kind))
  }

  /** Lookups agree on guilds whose snapshot channels have the same types and name keys; in
      particular renaming a found channel to its declared name does not change any lookup. */
  lemma FindChannelStable(g: Guild, h: Guild, snap: seq<Id>, name: string, kind: int)
    requires InSnapshot(g, snap) && InSnapshot(h, snap)
    requires forall i :: 0 <= i < |snap| ==> h.channels[snap[i]].kind == g.channels[snap[i]].kind
                                              && Norm(h.channels[snap[i]].name) == Norm(g.channels[snap[i]].name)
    ensures FindChannel(h, snap, name, kind) == FindChannel(g, snap, name, kind)
  {
    FindFirstAgrees(snap, (id: Id) => Matches(g, id, name, kind), (id: Id) => Matches(h, id, name, kind));
  }

  /** The role an overwrite entry names: the default role through the role map, any other name
      through the role map and then the role cache by exact name. */
  function Resolve(g: Guild, roleMap: map<string, Id>, name: string): (r: Option<Id>)
    ensures name != EVERYONE && name !in roleMap ==> r == FindRole(g, g.roleOrder, name)
    ensures name == EVERYONE ==> (r.Some? <==> EVERYONE in roleMap)
  {
    if name == EVERYONE then (if EVERYONE in roleMap then Some(roleMap[EVERYONE]) else None)
    else if name in roleMap then Some(roleMap[name])
    else FindRole(g, g.roleOrder, name)
  }

  /** The concatenation of what `f` gives for each element of `xs`, in order. */
  function ConcatMap<T, U>(xs: seq<T>, f: T -> seq<U>): seq<U>
    decreases |xs|
  {
    if xs == [] then [] else ConcatMap(xs[..|xs| - 1], f) + f(xs[|xs| - 1])
  }

  lemma {:induction false} ConcatMapMembers<T, U>(xs: seq<T>, f: T -> seq<U>, u: U)
    ensures u in ConcatMap(xs, f) <==> exists i :: 0 <= i < |xs| && u in f(xs[i])
    decreases |xs|
  {
    if xs != [] {
      var init := xs[..|xs| - 1];
      ConcatMapMembers(init, f, u);
      assert forall i :: 0 <= i < |init| ==> init[i] == xs[i];
    }
  }

  lemma {:induction false} ConcatMapEmpty<T, U>(xs: seq<T>, f: T -> seq<U>)
    ensures ConcatMap(xs, f) == [] <==> forall i :: 0 <= i < |xs| ==> f(xs[i]) == []
    decreases |xs|
  {
    if xs != [] {
      var init := xs[..|xs| - 1];
      ConcatMapEmpty(init, f);
      assert forall i :: 0 <= i < |init| ==> init[i] == xs[i];
    }
  }

  lemma {:induction false} ConcatMapAgrees<T, U>(xs: seq<T>, f: T -> seq<U>, f': T -> seq<U>)
    requires forall i :: 0 <= i < |xs| ==> f(xs[i]) == f'(xs[i])
    ensures ConcatMap(xs, f) == ConcatMap(xs, f')
    decreases |xs|
  {
    if xs != [] {
      ConcatMapAgrees(xs[..|xs| - 1], f, f');
    }
  }

  /** The overwrite set a declared object resolves to: one overwrite per resolvable entry, in
      entry order, with the allow and deny bits of its capability map. */
  function Resolved(g: Guild, roleMap: map<string, Id>, decl: seq<(string, CapabilityMap)>, bits: FlagTable)
    : seq<Overwrite>
  {
    ConcatMap(decl, entry => Contribution(g, roleMap, bits, entry))
  }

  /** The overwrite one declared entry contributes: none when its role does not resolve,
      otherwise one overwrite for the resolved role with the entry's allow and deny bits. */
  function Contribution(g: Guild, roleMap: map<string, Id>, bits: FlagTable, entry: (string, CapabilityMap))
    : (r: seq<Overwrite>)
    ensures |r| <= 1
    ensures r == [] <==> Resolve(g, roleMap, entry.0).None?
    ensures forall o :: o in r <==> && Resolve(g, roleMap, entry.0) == Some(o.role)
                                    && o.allow == Granted(entry.1, bits, true)
                                    && o.deny == Granted(entry.1, bits, false)
  {
    match Resolve(g, roleMap, entry.0)
    case None => []
    case Some(id) => [Overwrite(id, Granted(entry.1, bits, true), Granted(entry.1, bits, false))]
  }

  /** An overwrite is in the set exactly when some declared entry's role resolves to its role
      and the entry's capability map gives its allow and deny bits. */
  lemma ResolvedMembers(g: Guild, roleMap: map<string, Id>, decl: seq<(string, CapabilityMap)>,
                        bits: FlagTable, o: Overwrite)
    ensures o in Resolved(g, roleMap, decl, bits) <==>
              exists i :: 0 <= i < |decl| && Resolve(g, roleMap, decl[i].0) == Some(o.role)
                                          && o.allow == Granted(decl[i].1, bits, true)
                                          && o.deny == Granted(decl[i].1, bits, false)
  {
    ConcatMapMembers(decl, entry => Contribution(g, roleMap, bits, entry), o);
  }

  /** The set is empty exactly when no declared entry's role resolves. */
  lemma ResolvedEmpty(g: Guild, roleMap: map<string, Id>, decl: seq<(string, CapabilityMap)>, bits: FlagTable)
    ensures Resolved(g, roleMap, decl, bits) == [] <==>
              forall i :: 0 <= i < |decl| ==> Resolve(g, roleMap, decl[i].0).None?
  {
    ConcatMapEmpty(decl, entry => Contribution(g, roleMap, bits, entry));
  }

  /** At most one overwrite per declared entry. */
  lemma {:induction false} ResolvedBound(g: Guild, roleMap: map<string, Id>, decl: seq<(string, CapabilityMap)>,
                                         bits: FlagTable)
    ensures |Resolved(g, roleMap, decl, bits)| <= |decl|
    decreases |decl|
  {
    if decl != [] {
      ResolvedBound(g, roleMap, decl[..|decl| - 1], bits);
    }
  }

  /** The overwrite loop: skip entries whose role does not resolve, convert the others with
      `FlagsFromMap`. */
  method ResolveOverwrites(g: Guild, roleMap: map<string, Id>, decl: seq<(string, CapabilityMap)>, bits: FlagTable)
    returns (ows: seq<Overwrite>)
    ensures ows == Resolved(g, roleMap, decl, bits)
  {
    ows := [];
    for i := 0 to |decl|
      invariant ows == Resolved(g, roleMap, decl[..i], bits)
    {
      assert decl[..i + 1][..i] == decl[..i];
      var (name, caps) := decl[i];
      var role := Resolve(g, roleMap, name);
      if role.None? {
        continue;
      }
      var allow, deny := FlagsFromMap(caps, bits);
      ows := ows + [Overwrite(role.value, allow, deny)];
    }
    assert decl[..|decl|] == decl;
  }

  /** The topic a channel is created with: the declared topic of a text channel when it is
      non-empty, none otherwise. */
  function InitialTopic(c: ChannelSpec): (t: Option<string>)
    ensures t.Some? <==> c.kind == TYPE_TEXT && Truthy(c.topic)
    ensures t.Some? ==> t == c.topic
  {
    if c.kind == TYPE_TEXT && Truthy(c.topic) then c.topic else None
  }

  /** The channel conforms to its declaration under category `cat`. */
  predicate Settled(ch: Channel, c: ChannelSpec, cat: Id) {
    && ch.name == c.name && ch.kind == c.kind && ch.parent == Some(cat)
    && (c.kind == TYPE_TEXT && Truthy(c.topic) ==> ch.topic == c.topic)
  }

  /** Only channel `id` may differ between `g` and `h`, and it keeps its type. */
  predicate OnlyChannel(g: Guild, h: Guild, id: Id) {
    && id in g.channels && id in h.channels && h.channels[id].kind == g.channels[id].kind
    && h.roles == g.roles && h.roleOrder == g.roleOrder && h.everyone == g.everyone
    && h.channels.Keys == g.channels.Keys && h.channelOrder == g.channelOrder && h.nextId == g.nextId
    && forall o :: o in g.channels && o != id ==> h.channels[o] == g.channels[o]
  }

  /** `s` starts from `g`, changes only channel `id` and narrates each of its calls, all of
      which edit an existing channel. */
  ghost predicate Edits(g: Guild, s: Step, id: Id)
    requires g.Valid()
  {
    && StepFrom(g, s) && OnlyChannel(g, s.guild, id) && Narrates(s.calls, s.entries)
    && forall k :: 0 <= k < |s.calls| ==> EditsChannel(s.calls[k])
  }

  lemma EditsThen(g: Guild, s: Step, t: Step, id: Id)
    requires g.Valid() && Edits(g, s, id) && Edits(s.guild, t, id)
    ensures Edits(g, Then(s, t), id)
  {
    ThenFrom(g, s, t);
    NarratesAppend(s.calls, s.entries, t.calls, t.entries);
    AllEditAppend(s.calls, t.calls);
  }

  lemma AllEditAppend(a: seq<Call>, b: seq<Call>)
    requires forall k :: 0 <= k < |a| ==> EditsChannel(a[k])
    requires forall k :: 0 <= k < |b| ==> EditsChannel(b[k])
    ensures forall k :: 0 <= k < |a + b| ==> EditsChannel((a + b)[k])
  {
    forall k | 0 <= k < |a + b| ensures EditsChannel((a + b)[k]) {
      if k >= |a| {
        assert (a + b)[k] == b[k - |a|];
      }
    }
  }

  /** A single channel-editing call, reported by one entry, is a step that changes only that
      channel. */
  lemma EditStep(g: Guild, c: Call, e: Entry)
    requires g.Valid() && EditsChannel(c) && c.channel in g.channels && Describes(c, e)
    ensures var s := Step(Apply(g, c), [c], [e]);
            Edits(g, s, c.channel) && s.guild.channels[c.channel] == Retouch(g.channels[c.channel], c)
  {
    ApplyEditsChannel(g, c);
    assert [e][..0] == [];
  }

  /** Rename a found channel when its name differs from the declared one. */
  function RenameStep(g: Guild, id: Id, want: string): (s: Step)
    requires g.Valid() && id in g.channels
    ensures Edits(g, s, id)
    ensures s.guild.channels[id] == g.channels[id].(name := want)
    ensures s.calls == [] <==> g.channels[id].name == want
    ensures s.calls != [] ==> s.calls == [SetName(id, want)]
                              && s.entries == [RenameChannelLine(g.channels[id].name, want)]
    ensures s.calls == [] ==> s.entries == [] && s.guild == g
  {
    if g.channels[id].name != want then
      var c := SetName(id, want);
      EditStep(g, c, RenameChannelLine(g.channels[id].name, want));
      Step(Apply(g, c), [c], [RenameChannelLine(g.channels[id].name, want)])
    else
      assert g.channels[id].(name := want) == g.channels[id];
      Step(g, [], [])
  }

  /** The rename line as bot/commands/syncstructure.js:178 builds it: it reads the channel's
      name once the rename has resolved, and by then the platform client has patched the cached
      channel, so the name on the left is already the new one. */
  function RenameLineAsWritten(after: Guild, id: Id, want: string): Entry
    requires id in after.channels
  {
    RenameChannelLine(after.channels[id].name, want)
  }

  /** Whenever a rename happens, the line as written shows the new name on both sides and
      loses the old one, which the entry `RenameStep` logs keeps. */
  lemma RenameLineLosesOldName(g: Guild, id: Id, want: string)
    requires g.Valid() && id in g.channels && g.channels[id].name != want
    ensures var s := RenameStep(g, id, want);
            && RenameLineAsWritten(s.guild, id, want) == RenameChannelLine(want, want)
            && s.entries == [RenameChannelLine(g.channels[id].name, want)]
            && RenameLineAsWritten(s.guild, id, want) != s.entries[0]
  {
  }

  /** Move a found channel under the category when it has another parent (or none). */
  function MoveStep(g: Guild, id: Id, cat: Id, c: ChannelSpec, catName: string): (s: Step)
    requires g.Valid() && id in g.channels
    ensures Edits(g, s, id)
    ensures s.guild.channels[id] == g.channels[id].(parent := Some(cat))
    ensures s.calls == [] <==> g.channels[id].parent == Some(cat)
    ensures s.calls != [] ==> s.calls == [SetParent(id, cat)] && s.entries == [MoveLine(c.name, catName)]
    ensures s.calls == [] ==> s.entries == [] && s.guild == g
  {
    if g.channels[id].parent != Some(cat) then
      var call := SetParent(id, cat);
      EditStep(g, call, MoveLine(c.name, catName));
      Step(Apply(g, call), [call], [MoveLine(c.name, catName)])
    else
      assert g.channels[id].(parent := Some(cat)) == g.channels[id];
      Step(g, [], [])
  }

  /** Set the topic of a found channel only for a text declaration with a non-empty topic that
      differs from the channel's. */
  function TopicStep(g: Guild, id: Id, c: ChannelSpec): (s: Step)
    requires g.Valid() && id in g.channels
    ensures Edits(g, s, id)
    ensures s.calls == [] <==> !(c.kind == TYPE_TEXT && Truthy(c.topic)) || g.channels[id].topic == c.topic
    ensures s.calls != [] ==> s.calls == [SetTopic(id, c.topic.value)] && s.entries == [TopicLine(c.name)]
    ensures s.calls == [] ==> s.entries == [] && s.guild == g
    ensures c.kind == TYPE_TEXT && Truthy(c.topic) ==> s.guild.channels[id] == g.channels[id].(topic := c.topic)
  {
    if c.kind == TYPE_TEXT && Truthy(c.topic) && g.channels[id].topic != c.topic then
      var call := SetTopic(id, c.topic.value);
      EditStep(g, call, TopicLine(c.name));
      Step(Apply(g, call), [call], [TopicLine(c.name)])
    else
      Step(g, [], [])
  }

  /** Replace the channel's whole overwrite set by the declared set `ows`, unless it is empty
      (the channel declares none or nothing in it resolves). */
  function PermsStep(g: Guild, id: Id, c: ChannelSpec, ows: seq<Overwrite>): (s: Step)
    requires g.Valid() && id in g.channels
    ensures Edits(g, s, id)
    ensures s.calls == [] <==> ows == []
    ensures s.calls != [] ==> && s.calls == [SetOverwrites(id, ows)] && s.entries == [PermsLine(c.name)]
                              && s.guild.channels[id] == g.channels[id].(overwrites := ows)
    ensures s.calls == [] ==> s.entries == [] && s.guild == g
  {
    if ows != [] then
      var call := SetOverwrites(id, ows);
      EditStep(g, call, PermsLine(c.name));
      Step(Apply(g, call), [call], [PermsLine(c.name)])
    else
      Step(g, [], [])
  }

  /** Role resolution reads only the roles, so steps that touch channels only keep it. */
  lemma ResolvedFrame(g: Guild, h: Guild, roleMap: map<string, Id>,
                      decl: seq<(string, CapabilityMap)>, bits: FlagTable)
    requires g.Valid() && h.roles == g.roles && h.roleOrder == g.roleOrder
    ensures Resolved(h, roleMap, decl, bits) == Resolved(g, roleMap, decl, bits)
  {
    forall i | 0 <= i < |decl|
      ensures Contribution(h, roleMap, bits, decl[i]) == Contribution(g, roleMap, bits, decl[i])
    {
      FindRoleStable(g, h, g.roleOrder, decl[i].0);
    }
    ConcatMapAgrees(decl, entry => Contribution(h, roleMap, bits, entry),
                          entry => Contribution(g, roleMap, bits, entry));
  }

  /** The channel a declaration acts on: the one found, or the one it creates. */
  function Acted(g: Guild, snap: seq<Id>, c: ChannelSpec): Id {
    match FindChannel(g, snap, c.name, c.kind)
    case None => g.nextId
    case Some(id) => id
  }

  /** The overwrite set a declaration asks for: the resolved declaration, or nothing. */
  function Declared(g: Guild, roleMap: map<string, Id>, bits: FlagTable, c: ChannelSpec): seq<Overwrite> {
    if c.overwrites.Some? then Resolved(g, roleMap, c.overwrites.value, bits) else []
  }

  /** The channel carries the declared overwrite set whenever that set is not empty. */
  predicate Guarded(ch: Channel, ows: seq<Overwrite>) {
    ows != [] ==> ch.overwrites == ows
  }

  /** A found channel's name, parent and topic brought in line with its declaration. */
  function CorrectStep(g: Guild, id: Id, c: ChannelSpec, cat: Id, catName: string): (s: Step)
    requires g.Valid() && id in g.channels && g.channels[id].kind == c.kind
    ensures Edits(g, s, id)
    ensures Settled(s.guild.channels[id], c, cat)
    ensures s.guild.channels[id].overwrites == g.channels[id].overwrites
  {
    var s1 := RenameStep(g, id, c.name);
    var s2 := MoveStep(s1.guild, id, cat, c, catName);
    var s3 := TopicStep(s2.guild, id, c);
    EditsThen(g, s1, s2, id);
    EditsThen(g, Then(s1, s2), s3, id);
    Then(Then(s1, s2), s3)
  }

  /** A found channel brought in line with its declaration: rename, move, topic, then perms. */
  function TuneStep(g: Guild, id: Id, c: ChannelSpec, cat: Id, catName: string, ows: seq<Overwrite>): (s: Step)
    requires g.Valid() && id in g.channels && g.channels[id].kind == c.kind
    ensures Edits(g, s, id)
    ensures Settled(s.guild.channels[id], c, cat) && Guarded(s.guild.channels[id], ows)
  {
    var s1 := CorrectStep(g, id, c, cat, catName);
    var s2 := PermsStep(s1.guild, id, c, ows);
    EditsThen(g, s1, s2, id);
    Then(s1, s2)
  }

  /** Correcting a channel that already conforms makes no call and logs nothing. */
  lemma CorrectNoOp(g: Guild, id: Id, c: ChannelSpec, cat: Id, catName: string)
    requires g.Valid() && id in g.channels && g.channels[id].kind == c.kind
    requires Settled(g.channels[id], c, cat)
    ensures CorrectStep(g, id, c, cat, catName) == Step(g, [], [])
  {
    var s1 := RenameStep(g, id, c.name);
    var s2 := MoveStep(s1.guild, id, cat, c, catName);
    assert s1 == Step(g, [], []);
    assert s2 == Step(g, [], []);
  }

  /** After a channel is tuned, the same lookup over the same snapshot finds it again: its
      type is kept and its new name has the key of the declared name. */
  lemma RefindAfterTune(g: Guild, snap: seq<Id>, c: ChannelSpec, cat: Id, catName: string, ows: seq<Overwrite>)
    requires g.Valid() && InSnapshot(g, snap) && FindChannel(g, snap, c.name, c.kind).Some?
    ensures var id := FindChannel(g, snap, c.name, c.kind).value;
            var s := TuneStep(g, id, c, cat, catName, ows);
            InSnapshot(s.guild, snap) && FindChannel(s.guild, snap, c.name, c.kind) == Some(id)
  {
    var id := FindChannel(g, snap, c.name, c.kind).value;
    var s := TuneStep(g, id, c, cat, catName, ows);
    forall i | 0 <= i < |snap|
      ensures snap[i] in s.guild.channels && s.guild.channels[snap[i]].kind == g.channels[snap[i]].kind
      ensures Norm(s.guild.channels[snap[i]].name) == Norm(g.channels[snap[i]].name)
    {
    }
    FindChannelStable(g, s.guild, snap, c.name, c.kind);
  }

  /** Tuning a channel that conforms and already carries the overwrite set changes nothing:
      the only call left is the replacement of the overwrite set by itself. */
  lemma TuneRepeat(g: Guild, id: Id, c: ChannelSpec, cat: Id, catName: string, ows: seq<Overwrite>)
    requires g.Valid() && id in g.channels && g.channels[id].kind == c.kind
    requires Settled(g.channels[id], c, cat) && Guarded(g.channels[id], ows)
    ensures var s := TuneStep(g, id, c, cat, catName, ows);
            s.guild == g && s.calls == (if ows == [] then [] else [SetOverwrites(id, ows)])
  {
    CorrectNoOp(g, id, c, cat, catName);
    var p := PermsStep(g, id, c, ows);
    if ows != [] {
      assert g.channels[id].(overwrites := ows) == g.channels[id];
      assert g.channels[id := g.channels[id]] == g.channels;
    }
  }

  /** Running the step of a found channel a second time, with the same declaration and
      overwrite set, changes nothing more: it corrects nothing and only replaces the overwrite
      set again, by the one the channel already carries. */
  lemma ChildStepRepeat(g: Guild, snap: seq<Id>, c: ChannelSpec, cat: Id, catName: string, ows: seq<Overwrite>)
    requires g.Valid() && InSnapshot(g, snap) && FindChannel(g, snap, c.name, c.kind).Some?
    ensures var id := FindChannel(g, snap, c.name, c.kind).value;
            var r1 := ChildStep(g, snap, c, cat, catName, false, ows);
            var r2 := ChildStep(r1.guild, snap, c, cat, catName, false, ows);
            && r2.guild == r1.guild
            && r2.calls == (if ows == [] then [] else [SetOverwrites(id, ows)])
  {
    var id := FindChannel(g, snap, c.name, c.kind).value;
    var r1 := ChildStep(g, snap, c, cat, catName, false, ows);
    assert r1 == TuneStep(g, id, c, cat, catName, ows);
    RefindAfterTune(g, snap, c, cat, catName, ows);
    TuneRepeat(r1.guild, id, c, cat, catName, ows);
  }

  /** `s` starts from `g`, narrates each of its calls, and adds channel `id` (the next free
      id, listed last) while leaving every existing channel as it was. */
  ghost predicate Adds(g: Guild, s: Step, id: Id)
    requires g.Valid()
  {
    && StepFrom(g, s) && Narrates(s.calls, s.entries)
    && id == g.nextId && id !in g.channels && id in s.guild.channels
    && s.guild.channels.Keys == g.channels.Keys + {id}
    && (forall o :: o in g.channels ==> s.guild.channels[o] == g.channels[o])
    && s.guild.channelOrder == g.channelOrder + [id] && s.guild.nextId == id + 1
  }

  lemma AddsThenEdits(g: Guild, s: Step, t: Step, id: Id)
    requires g.Valid() && Adds(g, s, id) && Edits(s.guild, t, id)
    ensures Adds(g, Then(s, t), id)
  {
    ThenFrom(g, s, t);
    NarratesAppend(s.calls, s.entries, t.calls, t.entries);
  }

  /** A single create call, reported by one entry, adds the new channel under the next id. */
  lemma CreateCallStep(g: Guild, call: Call, e: Entry)
    requires g.Valid() && call.CreateChannel? && Describes(call, e)
    ensures var s := Step(Apply(g, call), [call], [e]);
            && Adds(g, s, g.nextId)
            && s.guild.channels[g.nextId] == Channel(call.name, call.kind, call.parent, call.topic, [])
  {
    ApplyAllOne(g, call);
    assert [e][..0] == [];
  }

  /** A created channel: the create call, then perms on the new channel. */
  function CreateStep(g: Guild, c: ChannelSpec, cat: Id, catName: string, ows: seq<Overwrite>): (s: Step)
    requires g.Valid()
    ensures Adds(g, s, g.nextId)
    ensures Settled(s.guild.channels[g.nextId], c, cat) && Guarded(s.guild.channels[g.nextId], ows)
    ensures |s.calls| > 0 && s.calls[0] == CreateChannel(c.name, c.kind, Some(cat), InitialTopic(c))
    ensures forall k :: 1 <= k < |s.calls| ==> s.calls[k] == SetOverwrites(g.nextId, ows)
  {
    var call := CreateChannel(c.name, c.kind, Some(cat), InitialTopic(c));
    CreateCallStep(g, call, CreateChannelLine(c.kind, c.name, catName));
    var s0 := Step(Apply(g, call), [call], [CreateChannelLine(c.kind, c.name, catName)]);
    var s1 := PermsStep(s0.guild, g.nextId, c, ows);
    AddsThenEdits(g, s0, s1, g.nextId);
    Then(s0, s1)
  }

  /** One declared channel under category `cat` (declared as `catName`), where `ows` is the
      overwrite set its declaration resolves to. Without the dry-run flag: create it when no
      snapshot channel of its type has its name key, otherwise correct the first that does;
      then replace its overwrites by `ows` unless that is empty. With the flag: only a missing
      channel is logged. */
  function ChildStep(g: Guild, snap: seq<Id>, c: ChannelSpec, cat: Id, catName: string, dry: bool,
                     ows: seq<Overwrite>): (r: Step)
    requires g.Valid()
    ensures StepFrom(g, r)
    ensures dry ==> r.guild == g && r.calls == []
                    && r.entries == (if FindChannel(g, snap, c.name, c.kind).None?
                                     then [CreateChannelLine(c.kind, c.name, catName)] else [])
    ensures !dry && FindChannel(g, snap, c.name, c.kind).None? ==>
              && Adds(g, r, g.nextId) && r.calls[0] == CreateChannel(c.name, c.kind, Some(cat), InitialTopic(c))
              && Settled(r.guild.channels[g.nextId], c, cat) && Guarded(r.guild.channels[g.nextId], ows)
    ensures !dry && FindChannel(g, snap, c.name, c.kind).Some? ==>
              var id := FindChannel(g, snap, c.name, c.kind).value;
              && Edits(g, r, id) && Settled(r.guild.channels[id], c, cat) && Guarded(r.guild.channels[id], ows)
  {
    match FindChannel(g, snap, c.name, c.kind)
    case None =>
      if dry then Step(g, [], [CreateChannelLine(c.kind, c.name, catName)])
      else CreateStep(g, c, cat, catName, ows)
    case Some(id) =>
      if dry then Step(g, [], [])
      else TuneStep(g, id, c, cat, catName, ows)
  }

  /** Only create lines and category lines are logged by a dry run. */
  predicate DryLine(e: Entry) {
    e.CreateCategoryLine? || e.CategoryOkLine? || e.CreateChannelLine?
  }

  /** The children of one category, in declaration order. */
  function Children(g: Guild, snap: seq<Id>, roleMap: map<string, Id>, bits: FlagTable, cs: seq<ChannelSpec>,
                    cat: Id, catName: string, dry: bool): (r: Step)
    requires g.Valid()
    ensures StepFrom(g, r)
    ensures dry ==> r.guild == g && r.calls == [] && forall e :: e in r.entries ==> e.CreateChannelLine?
    ensures !dry ==> Narrates(r.calls, r.entries)
    decreases |cs|
  {
    if cs == [] then Step(g, [], [])
    else
      var n := |cs| - 1;
      var p := Children(g, snap, roleMap, bits, cs[..n], cat, catName, dry);
      var s := ChildStep(p.guild, snap, cs[n], cat, catName, dry, Declared(p.guild, roleMap, bits, cs[n]));
      ThenFrom(g, p, s);
      if !dry then
        NarratesAppend(p.calls, p.entries, s.calls, s.entries);
        Then(p, s)
      else
        Then(p, s)
  }

  datatype CategoryOutcome = CategoryOutcome(step: Step, cat: Option<Id>)

  /** The category of a block: create it when no snapshot category has its name key (in a dry
      run only log that, and give no category), rename it when only its spelling drifted
      (never in a dry run), otherwise log it as OK. */
  function CategoryStep(g: Guild, snap: seq<Id>, block: CategorySpec, dry: bool): (r: CategoryOutcome)
    requires g.Valid()
    ensures StepFrom(g, r.step)
    ensures dry ==> r.step.guild == g && r.step.calls == []
    ensures !dry ==> Narrates(r.step.calls, r.step.entries)
    ensures FindChannel(g, snap, block.name, TYPE_CATEGORY).None? ==>
              r.step.entries == [CreateCategoryLine(block.name)] && (r.cat.None? <==> dry)
    ensures FindChannel(g, snap, block.name, TYPE_CATEGORY).Some? ==>
              var id := FindChannel(g, snap, block.name, TYPE_CATEGORY).value;
              && r.cat == Some(id)
              && (if !dry && g.channels[id].name != block.name
                  then r.step.calls == [SetName(id, block.name)]
                       && r.step.entries == [RenameCategoryLine(g.channels[id].name, block.name)]
                  else r.step.calls == [] && r.step.entries == [CategoryOkLine(block.name)])
    ensures r.cat.Some? ==> && r.cat.value in r.step.guild.channels
                            && r.step.guild.channels[r.cat.value].kind == TYPE_CATEGORY
                            && (!dry ==> r.step.guild.channels[r.cat.value].name == block.name)
  {
    match FindChannel(g, snap, block.name, TYPE_CATEGORY)
    case None =>
      var e := CreateCategoryLine(block.name);
      if dry then CategoryOutcome(Step(g, [], [e]), None)
      else
        var call := CreateChannel(block.name, TYPE_CATEGORY, None, None);
        CreateCallStep(g, call, e);
        CategoryOutcome(Step(Apply(g, call), [call], [e]), Some(g.nextId))
    case Some(id) =>
      if !dry && g.channels[id].name != block.name then
        var call := SetName(id, block.name);
        var e := RenameCategoryLine(g.channels[id].name, block.name);
        EditStep(g, call, e);
        CategoryOutcome(Step(Apply(g, call), [call], [e]), Some(id))
      else
        assert Actions([CategoryOkLine(block.name)]) == [] by { assert [CategoryOkLine(block.name)][..0] == []; }
        CategoryOutcome(Step(g, [], [CategoryOkLine(block.name)]), Some(id))
  }

  /** The category rename line as bot/commands/syncstructure.js:155 builds it, from the
      category's name after the rename. */
  function RenameCategoryLineAsWritten(after: Guild, id: Id, want: string): Entry
    requires id in after.channels
  {
    RenameCategoryLine(after.channels[id].name, want)
  }

  /** A drifted category is renamed outside a dry run, and the line as written then names the
      new spelling twice instead of the old spelling and the new. */
  lemma CategoryLineLosesOldName(g: Guild, snap: seq<Id>, block: CategorySpec)
    requires g.Valid() && FindChannel(g, snap, block.name, TYPE_CATEGORY).Some?
    requires g.channels[FindChannel(g, snap, block.name, TYPE_CATEGORY).value].name != block.name
    ensures var id := FindChannel(g, snap, block.name, TYPE_CATEGORY).value;
            var r := CategoryStep(g, snap, block, false);
            && RenameCategoryLineAsWritten(r.step.guild, id, block.name) == RenameCategoryLine(block.name, block.name)
            && r.step.entries == [RenameCategoryLine(g.channels[id].name, block.name)]
            && RenameCategoryLineAsWritten(r.step.guild, id, block.name) != r.step.entries[0]
  {
  }

  /** One declared block: its category, then its children; a dry run that finds no category
      skips the children. */
  function BlockStep(g: Guild, snap: seq<Id>, roleMap: map<string, Id>, bits: FlagTable, block: CategorySpec,
                     dry: bool): (r: Step)
    requires g.Valid()
    ensures StepFrom(g, r)
    ensures dry ==> r.guild == g && r.calls == [] && forall e :: e in r.entries ==> DryLine(e)
    ensures !dry ==> Narrates(r.calls, r.entries)
    ensures dry && FindChannel(g, snap, block.name, TYPE_CATEGORY).None? ==>
              r.entries == [CreateCategoryLine(block.name)]
  {
    var cs := CategoryStep(g, snap, block, dry);
    match cs.cat
    case None => cs.step
    case Some(cat) =>
      var ch := Children(cs.step.guild, snap, roleMap, bits, block.children, cat, block.name, dry);
      ThenFrom(g, cs.step, ch);
      if !dry then
        NarratesAppend(cs.step.calls, cs.step.entries, ch.calls, ch.entries);
        Then(cs.step, ch)
      else
        Then(cs.step, ch)
  }

  /** The whole pass over the declared blocks, in order, against one snapshot. */
  function Run(g: Guild, snap: seq<Id>, roleMap: map<string, Id>, bits: FlagTable, blocks: seq<CategorySpec>,
               dry: bool): (r: Step)
    requires g.Valid()
    ensures StepFrom(g, r)
    ensures dry ==> r.guild == g && r.calls == [] && forall e :: e in r.entries ==> DryLine(e)
    ensures !dry ==> Narrates(r.calls, r.entries)
    decreases |blocks|
  {
    if blocks == [] then Step(g, [], [])
    else
      var n := |blocks| - 1;
      var p := Run(g, snap, roleMap, bits, blocks[..n], dry);
      var s := BlockStep(p.guild, snap, roleMap, bits, blocks[n], dry);
      ThenFrom(g, p, s);
      if !dry then
        NarratesAppend(p.calls, p.entries, s.calls, s.entries);
        Then(p, s)
      else
        Then(p, s)
  }

  /** The reconciliation loop of the command over the channels fetched once before it. */
  method Reconcile(g0: Guild, roleMap: map<string, Id>, bits: FlagTable, blocks: seq<CategorySpec>, dry: bool)
    returns (g: Guild, calls: seq<Call>, entries: seq<Entry>)
    requires g0.Valid()
    ensures g.Valid()
    ensures Step(g, calls, entries) == Run(g0, g0.channelOrder, roleMap, bits, blocks, dry)
  {
    var snap := g0.channelOrder;
    g, calls, entries := g0, [], [];
    for i := 0 to |blocks|
      invariant g.Valid()
      invariant Step(g, calls, entries) == Run(g0, snap, roleMap, bits, blocks[..i], dry)
    {
      RunSnoc(g0, snap, roleMap, bits, blocks, i, dry);
      var bs := SyncBlock(g, snap, roleMap, bits, blocks[i], dry);
      g, calls, entries := bs.guild, calls + bs.calls, entries + bs.entries;
    }
    assert blocks[..|blocks|] == blocks;
  }

  lemma RunSnoc(g: Guild, snap: seq<Id>, roleMap: map<string, Id>, bits: FlagTable, blocks: seq<CategorySpec>,
                i: int, dry: bool)
    requires g.Valid() && 0 <= i < |blocks|
    ensures var p := Run(g, snap, roleMap, bits, blocks[..i], dry);
            Run(g, snap, roleMap, bits, blocks[..i + 1], dry)
              == Then(p, BlockStep(p.guild, snap, roleMap, bits, blocks[i], dry))
  {
    assert blocks[..i + 1][..i] == blocks[..i];
  }

  /** One block: its category, then, unless a dry run found no category, its children. */
  method SyncBlock(g: Guild, snap: seq<Id>, roleMap: map<string, Id>, bits: FlagTable, block: CategorySpec, dry: bool)
    returns (bs: Step)
    requires g.Valid()
    ensures bs == BlockStep(g, snap, roleMap, bits, block, dry)
  {
    var co := CategoryStep(g, snap, block, dry);
    bs := co.step;
    if co.cat.Some? {
      var g', calls', entries' := SyncChildren(co.step.guild, snap, roleMap, bits, block.children,
                                               co.cat.value, block.name, dry);
      bs := Then(co.step, Step(g', calls', entries'));
    }
  }

  /** The children loop of one block: each declared channel in order, its overwrite set
      resolved by the overwrite loop when it declares one. */
  method SyncChildren(g0: Guild, snap: seq<Id>, roleMap: map<string, Id>, bits: FlagTable, cs: seq<ChannelSpec>,
                      cat: Id, catName: string, dry: bool)
    returns (g: Guild, calls: seq<Call>, entries: seq<Entry>)
    requires g0.Valid()
    ensures g.Valid()
    ensures Step(g, calls, entries) == Children(g0, snap, roleMap, bits, cs, cat, catName, dry)
  {
    g, calls, entries := g0, [], [];
    for j := 0 to |cs|
      invariant g.Valid()
      invariant Step(g, calls, entries) == Children(g0, snap, roleMap, bits, cs[..j], cat, catName, dry)
    {
      ChildrenSnoc(g0, snap, roleMap, bits, cs, j, cat, catName, dry);
      var c := cs[j];
      var ows := [];
      if c.overwrites.Some? {
        ows := ResolveOverwrites(g, roleMap, c.overwrites.value, bits);
      }
      var s := ChildStep(g, snap, c, cat, catName, dry, ows);
      g, calls, entries := s.guild, calls + s.calls, entries + s.entries;
    }
    assert cs[..|cs|] == cs;
  }

  lemma ChildrenSnoc(g: Guild, snap: seq<Id>, roleMap: map<string, Id>, bits: FlagTable, cs: seq<ChannelSpec>,
                     j: int, cat: Id, catName: string, dry: bool)
    requires g.Valid() && 0 <= j < |cs|
    ensures var p := Children(g, snap, roleMap, bits, cs[..j], cat, catName, dry);
            Children(g, snap, roleMap, bits, cs[..j + 1], cat, catName, dry)
              == Then(p, ChildStep(p.guild, snap, cs[j], cat, catName, dry, Declared(p.guild, roleMap, bits, cs[j])))
  {
    assert cs[..j + 1][..j] == cs[..j];
  }
}
