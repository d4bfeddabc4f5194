/** `ensureRoles`: make every declared role exist with its declared color, hoist and
    mentionable flags, touching only what drifted, then ask for the declared roles to be
    stacked in declaration order. Returns the role-name to role handle map used later to
    resolve permission overwrites. */
module SyncRoles {
  import opened JsSemantics
  import opened GuildModel

  /** The key under which the default role is always mapped. */
  const EVERYONE := "@everyone"

  datatype RoleSpec = RoleSpec(name: string, color: int, hoist: bool, mentionable: bool)

  /** A live role carries the declared attributes. */
  predicate Conforms(r: Role, s: RoleSpec) {
    r.color == s.color && r.hoist == s.hoist && r.mentionable == s.mentionable
  }

  predicate DistinctNames(specs: seq<RoleSpec>) {
    forall i, j :: 0 <= i < j < |specs| ==> specs[i].name != specs[j].name
  }

  /** Some of the first `n` declared roles carries `name`. */
  predicate NamedBefore(specs: seq<RoleSpec>, n: int, name: string) {
    exists i :: 0 <= i < n && i < |specs| && specs[i].name == name
  }

  predicate NamedIn(specs: seq<RoleSpec>, name: string) {
    NamedBefore(specs, |specs|, name)
  }

  /** The first role among `ids` whose name is exactly `name`. */
  function FindRole(g: Guild, ids: seq<Id>, name: string): (r: Option<Id>)
    ensures r.Some? ==> r.value in g.roles && g.roles[r.value].name == name
    ensures r.None? ==> forall i :: 0 <= i < |ids| && ids[i] in g.roles ==> g.roles[ids[i]].name != name
    ensures r.Some? ==> exists i :: 0 <= i < |ids| && ids[i] == r.value
                                    && forall j :: 0 <= j < i && ids[j] in g.roles ==> g.roles[ids[j]].name != name
  {
    FindFirst(ids, id => id in g.roles && g.roles[id].name == name)
  }

  /** Role lookups over ids whose roles kept their names give the same answer. */
  lemma FindRoleStable(g: Guild, h: Guild, ids: seq<Id>, name: string)
    requires forall i :: 0 <= i < |ids| ==> ids[i] in g.roles
    requires forall id :: id in g.roles ==> id in h.roles && h.roles[id].name == g.roles[id].name
    ensures FindRole(h, ids, name) == FindRole(g, ids, name)
  {
    FindFirstAgrees(ids, id => id in g.roles && g.roles[id].name == name,
                         id => id in h.roles && h.roles[id].name == name);
  }

  /** A lookup that succeeds over `a` gives the same role over any extension of `a`. */
  lemma FindRolePrefix(g: Guild, a: seq<Id>, b: seq<Id>, name: string)
    requires a <= b && FindRole(g, a, name).Some?
    ensures FindRole(g, b, name) == FindRole(g, a, name)
  {
    FindFirstPrefix(a, b, id => id in g.roles && g.roles[id].name == name);
  }

  /** A lookup that fails over `ids` finds a role of that name listed after them. */
  lemma FindRoleSnoc(g: Guild, ids: seq<Id>, x: Id, name: string)
    requires FindRole(g, ids, name).None? && x in g.roles && g.roles[x].name == name
    ensures FindRole(g, ids + [x], name) == Some(x)
  {
    FindFirstSnoc(ids, x, id => id in g.roles && g.roles[id].name == name);
  }

  /** The edit that corrects a live role: exactly the attributes that differ, with their
      declared values. */
  function Drift(r: Role, s: RoleSpec): (e: RoleEdit)
    ensures e.color.Some? <==> r.color != s.color
    ensures e.hoist.Some? <==> r.hoist != s.hoist
    ensures e.mentionable.Some? <==> r.mentionable != s.mentionable
    ensures e.IsEmpty() <==> Conforms(r, s)
    ensures Conforms(ApplyEdit(r, e), s)
    ensures ApplyEdit(r, e).name == r.name && ApplyEdit(r, e).position == r.position
  {
    RoleEdit(if r.color != s.color then Some(s.color) else None,
             if r.hoist != s.hoist then Some(s.hoist) else None,
             if r.mentionable != s.mentionable then Some(s.mentionable) else None)
  }

  datatype RoleStep = RoleStep(guild: Guild, role: Id, calls: seq<Call>)

  /** One declared role: create it when no fetched role has its exact name, otherwise edit the
      found role only if some attribute drifted. */
  function EnsureRole(g: Guild, existing: seq<Id>, s: RoleSpec): (r: RoleStep)
    requires g.Valid()
    ensures r.guild.Valid() && r.guild == ApplyAll(g, r.calls)
    ensures r.role in r.guild.roles && r.guild.roles[r.role].name == s.name
    ensures Conforms(r.guild.roles[r.role], s)
    ensures FindRole(g, existing, s.name).None? ==>
              r.role !in g.roles && r.calls == [CreateRole(s.name, s.color, s.hoist, s.mentionable)]
    ensures FindRole(g, existing, s.name).Some? ==>
              && r.role == FindRole(g, existing, s.name).value
              && (r.calls == [] <==> Conforms(g.roles[r.role], s))
              && (r.calls == [] || r.calls == [EditRole(r.role, Drift(g.roles[r.role], s))])
    ensures r.guild.roles.Keys == g.roles.Keys + {r.role}
    ensures FindRole(g, existing, s.name).None? ==> r.guild.roleOrder == g.roleOrder + [r.role]
    ensures FindRole(g, existing, s.name).Some? ==> r.guild.roleOrder == g.roleOrder
    ensures forall id :: id in g.roles && id != r.role ==> r.guild.roles[id] == g.roles[id]
    ensures forall id :: id in g.roles ==> r.guild.roles[id].name == g.roles[id].name
    ensures r.guild.channels == g.channels && r.guild.channelOrder == g.channelOrder
    ensures r.guild.everyone == g.everyone
  {
    match FindRole(g, existing, s.name)
    case None =>
      var c := CreateRole(s.name, s.color, s.hoist, s.mentionable);
      ApplyAllOne(g, c);
      RoleStep(Apply(g, c), g.nextId, [c])
    case Some(id) =>
      var e := Drift(g.roles[id], s);
      if e.IsEmpty() then RoleStep(g, id, [])
      else
        var c := EditRole(id, e);
        ApplyAllOne(g, c);
        RoleStep(Apply(g, c), id, [c])
  }

  /** The positions requested for the declared roles: `size - (count - i)` for the i-th, so
      they rise strictly in declaration order and the last one is `size - 1`. */
  function Positions(handles: seq<Id>, size: int): (ps: seq<(Id, int)>)
    ensures |ps| == |handles|
    ensures forall i :: 0 <= i < |ps| ==> ps[i].0 == handles[i]
    ensures forall i, j :: 0 <= i < j < |ps| ==> ps[i].1 < ps[j].1
    ensures |ps| > 0 ==> ps[|ps| - 1].1 == size - 1
    ensures forall i :: 0 <= i < |ps| ==> size - |ps| <= ps[i].1
  {
    seq(|handles|, i requires 0 <= i < |handles| => (handles[i], size - (|handles| - i)))
  }


  /** Each declared name is found among the listed roles, at a role with the declared
      attributes. */
  predicate RolesFound(g: Guild, specs: seq<RoleSpec>) {
    forall i :: 0 <= i < |specs| ==>
      var r := FindRole(g, g.roleOrder, specs[i].name);
      r.Some? && Conforms(g.roles[r.value], specs[i])
  }

  /** The declared roles are in place: found and conforming and, when more than one is
      declared, each at the position the ordering request gives it. */
  predicate RolesInPlace(g: Guild, specs: seq<RoleSpec>) {
    && RolesFound(g, specs)
    && (|specs| > 1 ==>
          forall i :: 0 <= i < |specs| ==>
            g.roles[FindRole(g, g.roleOrder, specs[i].name).value].position == |g.roles| - (|specs| - i))
  }

  /** Every declared name is mapped to the first listed role of that name. */
  predicate Pinned(g: Guild, specs: seq<RoleSpec>, roleMap: map<string, Id>) {
    forall i :: 0 <= i < |specs| ==>
      specs[i].name in roleMap && FindRole(g, g.roleOrder, specs[i].name) == Some(roleMap[specs[i].name])
  }

  /** The keys of a role map: the default role, mapped to the guild's own default role unless
      a declared role carries its name, and the declared names. */
  predicate MapShape(g: Guild, specs: seq<RoleSpec>, roleMap: map<string, Id>) {
    && EVERYONE in roleMap && (forall i :: 0 <= i < |specs| ==> specs[i].name in roleMap)
    && (forall k :: k in roleMap ==> k == EVERYONE || NamedIn(specs, k))
    && (!NamedIn(specs, EVERYONE) ==> roleMap[EVERYONE] == g.everyone)
  }

  /** Whether the roles are in place and the map pinned depends on the roles and their order
      only. */
  lemma RolesTransfer(g: Guild, h: Guild, specs: seq<RoleSpec>, roleMap: map<string, Id>)
    requires h.roles == g.roles && h.roleOrder == g.roleOrder && h.everyone == g.everyone
    requires RolesInPlace(g, specs) && Pinned(g, specs, roleMap) && MapShape(g, specs, roleMap)
    ensures RolesInPlace(h, specs) && Pinned(h, specs, roleMap) && MapShape(h, specs, roleMap)
  {
    forall i | 0 <= i < |specs| ensures FindRole(h, h.roleOrder, specs[i].name) == FindRole(g, g.roleOrder, specs[i].name) {
      FindRoleSameRoles(g, h, g.roleOrder, specs[i].name);
    }
  }

  /** Lookups read the roles only. */
  lemma FindRoleSameRoles(g: Guild, h: Guild, ids: seq<Id>, name: string)
    requires h.roles == g.roles
    ensures FindRole(h, ids, name) == FindRole(g, ids, name)
  {
    FindFirstAgrees(ids, id => id in g.roles && g.roles[id].name == name, id => id in h.roles && h.roles[id].name == name);
  }

  /** Two role maps of the same shape that both pin the declared names in one guild are equal. */
  lemma PinnedMapsAgree(g: Guild, h: Guild, specs: seq<RoleSpec>, m1: map<string, Id>, m2: map<string, Id>)
    requires g.everyone == h.everyone
    requires MapShape(g, specs, m1) && MapShape(h, specs, m2)
    requires Pinned(h, specs, m1) && Pinned(h, specs, m2)
    ensures m1 == m2
  {
    forall k | k in m1 ensures k in m2 && m2[k] == m1[k] {
      if NamedIn(specs, k) {
        var i :| 0 <= i < |specs| && i < |specs| && specs[i].name == k;
      }
    }
    forall k | k in m2 ensures k in m1 {
      if k != EVERYONE {
        var i :| 0 <= i < |specs| && i < |specs| && specs[i].name == k;
      }
    }
  }

  /** The guild part of the declaration loop's invariant: the calls so far produced `g`, left
      the channels alone, renamed nothing, created only roles no fetched role is named like,
      and edited only drifted roles. */
  ghost predicate GuildSoFar(g0: Guild, g: Guild, calls: seq<Call>)
    requires g0.Valid()
  {
    && g.Valid() && g == ApplyAll(g0, calls)
    && g.channels == g0.channels && g.channelOrder == g0.channelOrder && g.everyone == g0.everyone
    && (forall id :: id in g0.roles ==> id in g.roles && g.roles[id].name == g0.roles[id].name)
    && (forall c :: c in calls ==>
          || (c.CreateRole? && FindRole(g0, g0.roleOrder, c.name).None?)
          || (c.EditRole? && c.role in g0.roles && !c.edit.IsEmpty()))
  }

  /** The map part: the default role and the first `i` declared names are mapped to live roles
      of those names, and nothing else is mapped. */
  ghost predicate MapSoFar(specs: seq<RoleSpec>, i: int, g: Guild, roleMap: map<string, Id>) {
    && 0 <= i <= |specs|
    && EVERYONE in roleMap
    && (forall k :: k in roleMap ==> roleMap[k] in g.roles)
    && (forall k :: k in roleMap ==> k == EVERYONE || NamedBefore(specs, i, k))
    && (forall j :: 0 <= j < i ==> specs[j].name in roleMap
                                   && g.roles[roleMap[specs[j].name]].name == specs[j].name)
  }

  ghost predicate ConformsSoFar(specs: seq<RoleSpec>, i: int, g: Guild, roleMap: map<string, Id>)
    requires MapSoFar(specs, i, g, roleMap)
  {
    DistinctNames(specs) ==> forall j :: 0 <= j < i ==> Conforms(g.roles[roleMap[specs[j].name]], specs[j])
  }

  /** The default role keeps its handle and its attributes while no declared role is named
      like it. */
  ghost predicate EveryoneSoFar(g0: Guild, specs: seq<RoleSpec>, i: int, g: Guild, roleMap: map<string, Id>)
    requires g0.Valid() && g.Valid() && g0.everyone == g.everyone && EVERYONE in roleMap
  {
    && (!NamedBefore(specs, i, EVERYONE) ==> roleMap[EVERYONE] == g0.everyone)
    && (!NamedBefore(specs, i, g0.roles[g0.everyone].name) ==> g.roles[g0.everyone] == g0.roles[g0.everyone])
  }

  lemma GuildStep(g0: Guild, g: Guild, calls: seq<Call>, s: RoleSpec)
    requires g0.Valid() && GuildSoFar(g0, g, calls)
    ensures var step := EnsureRole(g, g0.roleOrder, s);
            GuildSoFar(g0, step.guild, calls + step.calls)
  {
    FindRoleStable(g0, g, g0.roleOrder, s.name);
    var step := EnsureRole(g, g0.roleOrder, s);
    ApplyAllAppend(g0, calls, step.calls);
    EnsureRoleCalls(g0, g, s);
    assert forall c :: c in calls + step.calls ==> c in calls || c in step.calls;
  }

  /** A role step creates a role no fetched role is named like, or edits a fetched role that
      drifted. */
  lemma EnsureRoleCalls(g0: Guild, g: Guild, s: RoleSpec)
    requires g.Valid() && FindRole(g, g0.roleOrder, s.name) == FindRole(g0, g0.roleOrder, s.name)
    ensures forall c :: c in EnsureRole(g, g0.roleOrder, s).calls ==>
              || (c.CreateRole? && FindRole(g0, g0.roleOrder, c.name).None?)
              || (c.EditRole? && c.role in g0.roles && !c.edit.IsEmpty())
  {
    var step := EnsureRole(g, g0.roleOrder, s);
    match FindRole(g0, g0.roleOrder, s.name)
    case None =>
      assert step.calls == [CreateRole(s.name, s.color, s.hoist, s.mentionable)];
    case Some(id) =>
      if step.calls != [] {
        assert step.calls == [EditRole(id, Drift(g.roles[id], s))];
        assert !Drift(g.roles[id], s).IsEmpty();
      }
  }

  lemma MapStep(specs: seq<RoleSpec>, i: int, g: Guild, roleMap: map<string, Id>, g': Guild, role: Id)
    requires MapSoFar(specs, i, g, roleMap) && i < |specs|
    requires role in g'.roles && g'.roles[role].name == specs[i].name
    requires forall id :: id in g.roles ==> id in g'.roles && g'.roles[id].name == g.roles[id].name
    ensures MapSoFar(specs, i + 1, g', roleMap[specs[i].name := role])
  {
    var rm := roleMap[specs[i].name := role];
    forall k | k in rm ensures k == EVERYONE || NamedBefore(specs, i + 1, k) {
      if k == specs[i].name {
        assert specs[i].name == k;
      } else if k != EVERYONE {
        var j :| 0 <= j < i && j < |specs| && specs[j].name == k;
        assert 0 <= j < i + 1;
      }
    }
    forall j | 0 <= j < i + 1
      ensures specs[j].name in rm && g'.roles[rm[specs[j].name]].name == specs[j].name
    {
      if specs[j].name != specs[i].name {
        assert roleMap[specs[j].name] in g.roles;
      }
    }
  }

  lemma ConformsStep(specs: seq<RoleSpec>, i: int, g: Guild, roleMap: map<string, Id>, g': Guild, role: Id)
    requires MapSoFar(specs, i, g, roleMap) && ConformsSoFar(specs, i, g, roleMap) && i < |specs|
    requires role in g'.roles && g'.roles[role].name == specs[i].name && Conforms(g'.roles[role], specs[i])
    requires forall id :: id in g.roles ==> id in g'.roles && g'.roles[id].name == g.roles[id].name
    requires forall id :: id in g.roles && id != role ==> g'.roles[id] == g.roles[id]
    ensures MapSoFar(specs, i + 1, g', roleMap[specs[i].name := role])
    ensures ConformsSoFar(specs, i + 1, g', roleMap[specs[i].name := role])
  {
    MapStep(specs, i, g, roleMap, g', role);
    var rm := roleMap[specs[i].name := role];
    if DistinctNames(specs) {
      forall j | 0 <= j < i + 1 ensures Conforms(g'.roles[rm[specs[j].name]], specs[j]) {
        if j < i {
          assert specs[j].name != specs[i].name;
          var id := roleMap[specs[j].name];
          assert g.roles[id].name == specs[j].name;
          assert id != role;
        }
      }
    }
  }

  lemma EveryoneStep(g0: Guild, specs: seq<RoleSpec>, i: int, g: Guild, roleMap: map<string, Id>,
                     g': Guild, role: Id)
    requires g0.Valid() && g.Valid() && g'.Valid() && g0.everyone == g.everyone == g'.everyone
    requires EVERYONE in roleMap && 0 <= i < |specs|
    requires EveryoneSoFar(g0, specs, i, g, roleMap)
    requires g.roles[g.everyone].name == g0.roles[g0.everyone].name
    requires role in g'.roles && g'.roles[role].name == specs[i].name
    requires forall id :: id in g.roles ==> id in g'.roles && g'.roles[id].name == g.roles[id].name
    requires forall id :: id in g.roles && id != role ==> g'.roles[id] == g.roles[id]
    ensures EveryoneSoFar(g0, specs, i + 1, g', roleMap[specs[i].name := role])
  {
    if !NamedBefore(specs, i + 1, EVERYONE) {
      assert specs[i].name != EVERYONE;
      assert !NamedBefore(specs, i, EVERYONE);
    }
    if !NamedBefore(specs, i + 1, g0.roles[g0.everyone].name) {
      assert specs[i].name != g0.roles[g0.everyone].name;
      assert !NamedBefore(specs, i, g0.roles[g0.everyone].name);
    }
  }

  /** What the declaration loop of `EnsureRoles` has established after the first `i` roles. */
  ghost predicate RolesSoFar(g0: Guild, specs: seq<RoleSpec>, i: int, g: Guild, roleMap: map<string, Id>,
                             calls: seq<Call>)
    requires g0.Valid()
  {
    && GuildSoFar(g0, g, calls)
    && MapSoFar(specs, i, g, roleMap)
    && ConformsSoFar(specs, i, g, roleMap)
    && EveryoneSoFar(g0, specs, i, g, roleMap)
  }

  /** One iteration of the declaration loop keeps `RolesSoFar`. */
  lemma RolesStep(g0: Guild, specs: seq<RoleSpec>, i: int, g: Guild, roleMap: map<string, Id>,
                  calls: seq<Call>)
    requires g0.Valid() && RolesSoFar(g0, specs, i, g, roleMap, calls) && i < |specs|
    ensures var step := EnsureRole(g, g0.roleOrder, specs[i]);
            RolesSoFar(g0, specs, i + 1, step.guild, roleMap[specs[i].name := step.role], calls + step.calls)
  {
    var step := EnsureRole(g, g0.roleOrder, specs[i]);
    GuildStep(g0, g, calls, specs[i]);
    ConformsStep(specs, i, g, roleMap, step.guild, step.role);
    EveryoneStep(g0, specs, i, g, roleMap, step.guild, step.role);
  }

  /** The lookup part of the declaration loop's invariant: the fetched roles still lead the
      role list, each role listed after them carries one of the first `i` declared names and,
      with distinct names, those names are pinned. */
  ghost predicate PinnedSoFar(g0: Guild, specs: seq<RoleSpec>, i: int, g: Guild, roleMap: map<string, Id>)
    requires g.Valid() && 0 <= i <= |specs|
  {
    && g0.roleOrder <= g.roleOrder
    && (forall k :: |g0.roleOrder| <= k < |g.roleOrder| ==> NamedBefore(specs, i, g.roles[g.roleOrder[k]].name))
    && (DistinctNames(specs) ==>
          forall j :: 0 <= j < i ==>
            specs[j].name in roleMap && FindRole(g, g.roleOrder, specs[j].name) == Some(roleMap[specs[j].name]))
  }

  /** A role listed after the fetched ones carries a name declared before step `i + 1`. */
  lemma ListedStep(g0: Guild, specs: seq<RoleSpec>, i: int, g: Guild, roleMap: map<string, Id>,
                   calls: seq<Call>)
    requires g0.Valid() && RolesSoFar(g0, specs, i, g, roleMap, calls) && i < |specs|
    requires PinnedSoFar(g0, specs, i, g, roleMap)
    ensures var g' := EnsureRole(g, g0.roleOrder, specs[i]).guild;
            && g0.roleOrder <= g'.roleOrder
            && forall k :: |g0.roleOrder| <= k < |g'.roleOrder| ==>
                 NamedBefore(specs, i + 1, g'.roles[g'.roleOrder[k]].name)
  {
    var step := EnsureRole(g, g0.roleOrder, specs[i]);
    var g' := step.guild;
    forall k | |g0.roleOrder| <= k < |g'.roleOrder|
      ensures NamedBefore(specs, i + 1, g'.roles[g'.roleOrder[k]].name)
    {
      if k < |g.roleOrder| {
        assert g'.roleOrder[k] == g.roleOrder[k];
        var j :| 0 <= j < i && j < |specs| && specs[j].name == g.roles[g.roleOrder[k]].name;
        assert specs[j].name == g'.roles[g'.roleOrder[k]].name;
      } else {
        assert g'.roleOrder[k] == step.role;
        assert specs[i].name == g'.roles[g'.roleOrder[k]].name;
      }
    }
  }

  /** With distinct names, the name ensured at step `i` is first found at the role the step
      maps it to. */
  lemma PinnedLast(g0: Guild, specs: seq<RoleSpec>, i: int, g: Guild, roleMap: map<string, Id>,
                   calls: seq<Call>)
    requires g0.Valid() && RolesSoFar(g0, specs, i, g, roleMap, calls) && i < |specs|
    requires PinnedSoFar(g0, specs, i, g, roleMap) && DistinctNames(specs)
    ensures var step := EnsureRole(g, g0.roleOrder, specs[i]);
            FindRole(step.guild, step.guild.roleOrder, specs[i].name) == Some(step.role)
  {
    var n := specs[i].name;
    var step := EnsureRole(g, g0.roleOrder, specs[i]);
    FindRoleStable(g0, g, g0.roleOrder, n);
    match FindRole(g, g0.roleOrder, n)
    case Some(id) =>
      FindRolePrefix(g, g0.roleOrder, g.roleOrder, n);
      FindRoleStable(g, step.guild, g.roleOrder, n);
    case None =>
      forall k | 0 <= k < |g.roleOrder| ensures g.roles[g.roleOrder[k]].name != n {
        if k < |g0.roleOrder| {
          assert g.roleOrder[k] == g0.roleOrder[k];
        } else {
          var j :| 0 <= j < i && j < |specs| && specs[j].name == g.roles[g.roleOrder[k]].name;
        }
      }
      FindRoleStable(g, step.guild, g.roleOrder, n);
      FindRoleSnoc(step.guild, g.roleOrder, step.role, n);
  }

  /** Names pinned before a step that keeps every role's name and only lists more roles stay
      pinned, whatever the step maps its own, different, name to. */
  lemma PinnedEarlier(specs: seq<RoleSpec>, i: int, g: Guild, g': Guild, roleMap: map<string, Id>, role: Id)
    requires g.Valid() && 0 <= i < |specs| && DistinctNames(specs)
    requires forall id :: id in g.roles ==> id in g'.roles && g'.roles[id].name == g.roles[id].name
    requires g.roleOrder <= g'.roleOrder
    requires forall j :: 0 <= j < i ==>
               specs[j].name in roleMap && FindRole(g, g.roleOrder, specs[j].name) == Some(roleMap[specs[j].name])
    ensures var rm := roleMap[specs[i].name := role];
            forall j :: 0 <= j < i ==>
              specs[j].name in rm && FindRole(g', g'.roleOrder, specs[j].name) == Some(rm[specs[j].name])
  {
    forall j | 0 <= j < i
      ensures FindRole(g', g'.roleOrder, specs[j].name) == Some(roleMap[specs[j].name])
    {
      FindRoleStable(g, g', g.roleOrder, specs[j].name);
      FindRolePrefix(g', g.roleOrder, g'.roleOrder, specs[j].name);
    }
  }

  /** One iteration of the declaration loop keeps `PinnedSoFar`. */
  lemma PinnedStep(g0: Guild, specs: seq<RoleSpec>, i: int, g: Guild, roleMap: map<string, Id>,
                   calls: seq<Call>)
    requires g0.Valid() && RolesSoFar(g0, specs, i, g, roleMap, calls) && i < |specs|
    requires PinnedSoFar(g0, specs, i, g, roleMap)
    ensures var step := EnsureRole(g, g0.roleOrder, specs[i]);
            PinnedSoFar(g0, specs, i + 1, step.guild, roleMap[specs[i].name := step.role])
  {
    var step := EnsureRole(g, g0.roleOrder, specs[i]);
    ListedStep(g0, specs, i, g, roleMap, calls);
    if DistinctNames(specs) {
      PinnedLast(g0, specs, i, g, roleMap, calls);
      PinnedEarlier(specs, i, g, step.guild, roleMap, step.role);
    }
  }

  /** The repeat part of the declaration loop's invariant: when every declared role is already
      found and conforming, the loop has made no call and mapped each name to the role found. */
  ghost predicate RepeatSoFar(g0: Guild, specs: seq<RoleSpec>, i: int, g: Guild, roleMap: map<string, Id>,
                              calls: seq<Call>)
    requires 0 <= i <= |specs|
  {
    RolesFound(g0, specs) ==>
      && g == g0 && calls == []
      && forall j :: 0 <= j < i ==>
           specs[j].name in roleMap && FindRole(g0, g0.roleOrder, specs[j].name) == Some(roleMap[specs[j].name])
  }

  /** One iteration of the declaration loop keeps `RepeatSoFar`. */
  lemma RepeatStep(g0: Guild, specs: seq<RoleSpec>, i: int, g: Guild, roleMap: map<string, Id>,
                   calls: seq<Call>)
    requires g0.Valid() && g.Valid() && 0 <= i < |specs| && RepeatSoFar(g0, specs, i, g, roleMap, calls)
    ensures var step := EnsureRole(g, g0.roleOrder, specs[i]);
            RepeatSoFar(g0, specs, i + 1, step.guild, roleMap[specs[i].name := step.role], calls + step.calls)
  {
    if RolesFound(g0, specs) {
      var step := EnsureRole(g, g0.roleOrder, specs[i]);
      assert FindRole(g0, g0.roleOrder, specs[i].name) == Some(step.role);
      assert step.calls == [];
      assert calls + step.calls == [];
    }
  }

  method EnsureRoles(g0: Guild, specs: seq<RoleSpec>) returns (g: Guild, roleMap: map<string, Id>, calls: seq<Call>)
    requires g0.Valid()
    ensures g.Valid() && g == ApplyAll(g0, calls)
    ensures g.channels == g0.channels && g.channelOrder == g0.channelOrder && g.everyone == g0.everyone
    // the map covers the default role and every declared name, and nothing else
    ensures EVERYONE in roleMap && forall i :: 0 <= i < |specs| ==> specs[i].name in roleMap
    ensures forall k :: k in roleMap ==> k == EVERYONE || NamedIn(specs, k)
    ensures forall k :: k in roleMap ==> roleMap[k] in g.roles
    ensures forall i :: 0 <= i < |specs| ==> g.roles[roleMap[specs[i].name]].name == specs[i].name
    ensures !NamedIn(specs, EVERYONE) ==> roleMap[EVERYONE] == g0.everyone
    // convergence of the declared attributes
    ensures DistinctNames(specs) ==>
              forall i :: 0 <= i < |specs| ==> Conforms(g.roles[roleMap[specs[i].name]], specs[i])
    // a role is created only when no fetched role has its exact name; edits carry a drift
    ensures forall c :: c in calls && c.CreateRole? ==> FindRole(g0, g0.roleOrder, c.name).None?
    ensures forall c :: c in calls && c.EditRole? ==> c.role in g0.roles && !c.edit.IsEmpty()
    // positions are requested only for more than one declared role, and last
    ensures forall c :: c in calls && c.SetPositions? ==> |specs| > 1
    ensures |specs| > 1 ==>
              && |calls| > 0
              && calls[|calls| - 1] == SetPositions(Positions(Handles(specs, roleMap), |g.roles|))
    // the default role is never mutated unless a declared role carries its name
    ensures !NamedIn(specs, g0.roles[g0.everyone].name) ==> g.roles[g0.everyone] == g0.roles[g0.everyone]
    // with distinct names the declared roles end in place, each name mapped to the first
    // listed role of that name
    ensures DistinctNames(specs) ==> RolesInPlace(g, specs) && Pinned(g, specs, roleMap)
    // over roles already in place a run changes nothing, maps each name to the role found and
    // makes no call but the position request
    ensures RolesInPlace(g0, specs) ==>
              g == g0 && Pinned(g0, specs, roleMap) && forall c :: c in calls ==> c.SetPositions?
  {
    var g1, calls1;
    g1, roleMap, calls1 := DeclareRoles(g0, specs);
    g, calls := OrderRoles(g0, specs, g1, roleMap, calls1);
    Ordered(g0, specs, g1, roleMap, calls1);
    OrderedCalls(calls1, calls);
  }

  /** The ordering step adds at most a position request to the calls of the declaration loop. */
  lemma OrderedCalls(calls1: seq<Call>, calls: seq<Call>)
    requires calls == calls1 || (exists ps :: calls == calls1 + [SetPositions(ps)])
    ensures forall c :: c in calls ==> c in calls1 || c.SetPositions?
  {
  }

  /** The ordering step of `ensureRoles`: collect the handles of the declared roles and, when
      there are more than one, move them to the top of the role list in declaration order. */
  method OrderRoles(g0: Guild, specs: seq<RoleSpec>, g1: Guild, roleMap: map<string, Id>, calls1: seq<Call>)
    returns (g: Guild, calls: seq<Call>)
    requires g0.Valid() && g1.Valid() && g1 == ApplyAll(g0, calls1) && g1.everyone == g0.everyone
    requires forall i :: 0 <= i < |specs| ==> specs[i].name in roleMap
    requires forall k :: k in roleMap ==> roleMap[k] in g1.roles
    requires forall i :: 0 <= i < |specs| ==> g1.roles[roleMap[specs[i].name]].name == specs[i].name
    requires DistinctNames(specs) ==>
               forall i :: 0 <= i < |specs| ==> Conforms(g1.roles[roleMap[specs[i].name]], specs[i])
    requires !NamedIn(specs, g0.roles[g0.everyone].name) ==> g1.roles[g0.everyone] == g0.roles[g0.everyone]
    ensures g.Valid() && g == ApplyAll(g0, calls)
    ensures g.channels == g1.channels && g.channelOrder == g1.channelOrder && g.everyone == g1.everyone
    ensures forall k :: k in roleMap ==> roleMap[k] in g.roles
    ensures forall i :: 0 <= i < |specs| ==> g.roles[roleMap[specs[i].name]].name == specs[i].name
    ensures DistinctNames(specs) ==>
              forall i :: 0 <= i < |specs| ==> Conforms(g.roles[roleMap[specs[i].name]], specs[i])
    ensures !NamedIn(specs, g0.roles[g0.everyone].name) ==> g.roles[g0.everyone] == g0.roles[g0.everyone]
    ensures calls == calls1 || (|specs| > 1 && calls == calls1 + [SetPositions(Positions(Handles(specs, roleMap), |g.roles|))])
    ensures |specs| > 1 ==> calls != calls1
    ensures g == if |specs| > 1 then Reposition(g1, Positions(Handles(specs, roleMap), |g1.roles|)) else g1
  {
    g, calls := g1, calls1;
    var handles := DeclaredHandles(specs, roleMap);
    if |handles| > 1 {
      var c := SetPositions(Positions(handles, |g.roles|));
      PositionsFinal(specs, g, roleMap);
      if !NamedIn(specs, g0.roles[g0.everyone].name) {
        PositionsSpare(specs, g, roleMap, g0.everyone);
      }
      PositionsCall(g, c.positions);
      ApplyAllSnoc(g0, calls, c);
      g, calls := Apply(g, c), calls + [c];
    }
  }

  /** Pinned names whose roles conform are found. */
  lemma FoundFromPinned(g: Guild, specs: seq<RoleSpec>, roleMap: map<string, Id>)
    requires Pinned(g, specs, roleMap)
    requires forall i :: 0 <= i < |specs| ==> Conforms(g.roles[roleMap[specs[i].name]], specs[i])
    ensures RolesFound(g, specs)
  {
  }

  /** Distinct names mapped to roles of those names give distinct handles. */
  lemma HandlesDistinct(specs: seq<RoleSpec>, g: Guild, roleMap: map<string, Id>)
    requires DistinctNames(specs) && forall i :: 0 <= i < |specs| ==> specs[i].name in roleMap
    requires forall i :: 0 <= i < |specs| ==>
               roleMap[specs[i].name] in g.roles && g.roles[roleMap[specs[i].name]].name == specs[i].name
    ensures var hs := Handles(specs, roleMap); forall i, j :: 0 <= i < j < |hs| ==> hs[i] != hs[j]
  {
  }

  /** Pinned names stay pinned across a step that keeps the role list and every role's name. */
  lemma PinnedKept(specs: seq<RoleSpec>, g: Guild, h: Guild, roleMap: map<string, Id>)
    requires g.Valid() && Pinned(g, specs, roleMap) && h.roleOrder == g.roleOrder
    requires forall id :: id in g.roles ==> id in h.roles && h.roles[id].name == g.roles[id].name
    ensures Pinned(h, specs, roleMap)
  {
    forall i | 0 <= i < |specs| ensures FindRole(h, h.roleOrder, specs[i].name) == Some(roleMap[specs[i].name]) {
      FindRoleStable(g, h, g.roleOrder, specs[i].name);
    }
  }

  /** With distinct names, the position request puts the declared roles in place and keeps
      them pinned. */
  lemma OrderedInPlace(specs: seq<RoleSpec>, g: Guild, roleMap: map<string, Id>)
    requires g.Valid() && DistinctNames(specs) && Pinned(g, specs, roleMap)
    requires forall k :: k in roleMap ==> roleMap[k] in g.roles
    requires forall i :: 0 <= i < |specs| ==> Conforms(g.roles[roleMap[specs[i].name]], specs[i])
    ensures var g' := Reposition(g, Positions(Handles(specs, roleMap), |g.roles|));
            RolesInPlace(g', specs) && Pinned(g', specs, roleMap)
  {
    var hs := Handles(specs, roleMap);
    var ps := Positions(hs, |g.roles|);
    var g' := Reposition(g, ps);
    HandlesDistinct(specs, g, roleMap);
    ApplyPositionsSets(g.roles, ps);
    PositionsKeep(g, ps);
    PinnedKept(specs, g, g', roleMap);
    forall i | 0 <= i < |specs|
      ensures Conforms(g'.roles[roleMap[specs[i].name]], specs[i])
      ensures g'.roles[roleMap[specs[i].name]].position == |g'.roles| - (|specs| - i)
    {
      assert ps[i].0 == roleMap[specs[i].name];
    }
  }

  /** What the ordering step achieves: with distinct names the roles end in place and pinned,
      and over roles already in place it changes nothing. */
  lemma Ordered(g0: Guild, specs: seq<RoleSpec>, g1: Guild, roleMap: map<string, Id>, calls1: seq<Call>)
    requires g1.Valid() && forall i :: 0 <= i < |specs| ==> specs[i].name in roleMap
    requires forall k :: k in roleMap ==> roleMap[k] in g1.roles
    requires DistinctNames(specs) ==>
               forall i :: 0 <= i < |specs| ==> Conforms(g1.roles[roleMap[specs[i].name]], specs[i])
    requires DistinctNames(specs) ==> Pinned(g1, specs, roleMap)
    requires RolesFound(g0, specs) ==> g1 == g0 && calls1 == [] && Pinned(g0, specs, roleMap)
    ensures |specs| <= 1 ==>
              && (DistinctNames(specs) ==> RolesInPlace(g1, specs))
              && (RolesInPlace(g0, specs) ==> g1 == g0 && calls1 == [])
    ensures |specs| > 1 ==>
              var g' := Reposition(g1, Positions(Handles(specs, roleMap), |g1.roles|));
              && (DistinctNames(specs) ==> RolesInPlace(g', specs) && Pinned(g', specs, roleMap))
              && (RolesInPlace(g0, specs) ==> g' == g0 && calls1 == [])
  {
    if DistinctNames(specs) {
      FoundFromPinned(g1, specs, roleMap);
      if |specs| > 1 {
        OrderedInPlace(specs, g1, roleMap);
      }
    }
    if RolesInPlace(g0, specs) && |specs| > 1 {
      OrderedRepeat(specs, g0, roleMap);
    }
  }

  /** A position request for roles already at the requested positions changes nothing. */
  lemma OrderedRepeat(specs: seq<RoleSpec>, g: Guild, roleMap: map<string, Id>)
    requires g.Valid() && RolesInPlace(g, specs) && Pinned(g, specs, roleMap) && |specs| > 1
    ensures Reposition(g, Positions(Handles(specs, roleMap), |g.roles|)) == g
  {
    var ps := Positions(Handles(specs, roleMap), |g.roles|);
    forall i | 0 <= i < |ps| && ps[i].0 in g.roles ensures g.roles[ps[i].0].position == ps[i].1 {
      assert ps[i].0 == FindRole(g, g.roleOrder, specs[i].name).value;
    }
    ApplyPositionsFixed(g.roles, ps);
  }

  /** The declaration loop of `ensureRoles`: map the default role, then ensure each declared
      role in order and map its name to the role found or created. */
  method DeclareRoles(g0: Guild, specs: seq<RoleSpec>) returns (g: Guild, roleMap: map<string, Id>, calls: seq<Call>)
    requires g0.Valid()
    ensures g.Valid() && g == ApplyAll(g0, calls)
    ensures g.channels == g0.channels && g.channelOrder == g0.channelOrder && g.everyone == g0.everyone
    ensures EVERYONE in roleMap && forall i :: 0 <= i < |specs| ==> specs[i].name in roleMap
    ensures forall k :: k in roleMap ==> k == EVERYONE || NamedIn(specs, k)
    ensures forall k :: k in roleMap ==> roleMap[k] in g.roles
    ensures forall i :: 0 <= i < |specs| ==> g.roles[roleMap[specs[i].name]].name == specs[i].name
    ensures !NamedIn(specs, EVERYONE) ==> roleMap[EVERYONE] == g0.everyone
    ensures DistinctNames(specs) ==>
              forall i :: 0 <= i < |specs| ==> Conforms(g.roles[roleMap[specs[i].name]], specs[i])
    ensures forall c :: c in calls && c.CreateRole? ==> FindRole(g0, g0.roleOrder, c.name).None?
    ensures forall c :: c in calls && c.EditRole? ==> c.role in g0.roles && !c.edit.IsEmpty()
    ensures forall c :: c in calls ==> !c.SetPositions?
    ensures !NamedIn(specs, g0.roles[g0.everyone].name) ==> g.roles[g0.everyone] == g0.roles[g0.everyone]
    ensures DistinctNames(specs) ==> Pinned(g, specs, roleMap)
    ensures RolesFound(g0, specs) ==> g == g0 && calls == [] && Pinned(g0, specs, roleMap)
  {
    g, calls := g0, [];
    roleMap := map[EVERYONE := g0.everyone];
    for i := 0 to |specs|
      invariant RolesSoFar(g0, specs, i, g, roleMap, calls)
      invariant PinnedSoFar(g0, specs, i, g, roleMap)
      invariant RepeatSoFar(g0, specs, i, g, roleMap, calls)
    {
      RolesStep(g0, specs, i, g, roleMap, calls);
      PinnedStep(g0, specs, i, g, roleMap, calls);
      RepeatStep(g0, specs, i, g, roleMap, calls);
      var step := EnsureRole(g, g0.roleOrder, specs[i]);
      g, calls := step.guild, calls + step.calls;
      roleMap := roleMap[specs[i].name := step.role];
    }
  }

  /** The role handles of the declared roles, in declaration order. */
  function Handles(specs: seq<RoleSpec>, roleMap: map<string, Id>): (hs: seq<Id>)
    requires forall i :: 0 <= i < |specs| ==> specs[i].name in roleMap
    ensures |hs| == |specs| && forall i :: 0 <= i < |specs| ==> hs[i] == roleMap[specs[i].name]
  {
    seq(|specs|, i requires 0 <= i < |specs| => roleMap[specs[i].name])
  }

  /** The loop collecting the handles of the declared roles that the map resolves, skipping
      names it does not resolve; after the declaration loop it resolves all of them. */
  method DeclaredHandles(specs: seq<RoleSpec>, roleMap: map<string, Id>) returns (handles: seq<Id>)
    ensures |handles| <= |specs|
    ensures forall h :: h in handles ==> exists i :: 0 <= i < |specs| && specs[i].name in roleMap
                                                     && roleMap[specs[i].name] == h
    ensures (forall i :: 0 <= i < |specs| ==> specs[i].name in roleMap) ==> handles == Handles(specs, roleMap)
  {
    handles := [];
    for i := 0 to |specs|
      invariant |handles| <= i
      invariant forall h :: h in handles ==> exists j :: 0 <= j < i && specs[j].name in roleMap
                                                        && roleMap[specs[j].name] == h
      invariant (forall j :: 0 <= j < i ==> specs[j].name in roleMap) ==>
                  |handles| == i && forall j :: 0 <= j < i ==> handles[j] == roleMap[specs[j].name]
    {
      if specs[i].name in roleMap {
        handles := handles + [roleMap[specs[i].name]];
      }
    }
  }

  /** `SetPositions` keeps every role, with its name and declared attributes, moves only the
      roles it lists, and touches no channel. */
  lemma PositionsKeep(g: Guild, ps: seq<(Id, int)>)
    requires g.Valid()
    ensures var g' := Reposition(g, ps);
            && g'.roles.Keys == g.roles.Keys && |g'.roles| == |g.roles|
            && (forall id :: id in g.roles ==> g'.roles[id].name == g.roles[id].name
                                               && g'.roles[id].color == g.roles[id].color
                                               && g'.roles[id].hoist == g.roles[id].hoist
                                               && g'.roles[id].mentionable == g.roles[id].mentionable)
            && (forall id :: id in g.roles && id !in Moved(ps) ==> g'.roles[id] == g.roles[id])
            && g'.channels == g.channels && g'.channelOrder == g.channelOrder && g'.everyone == g.everyone
  {
    var g' := Reposition(g, ps);
    assert |g'.roles| == |g.roles| by { assert |g'.roles.Keys| == |g.roles.Keys|; }
  }

  /** `SetPositions` is `Reposition`. */
  lemma PositionsCall(g: Guild, ps: seq<(Id, int)>)
    requires g.Valid()
    ensures Apply(g, SetPositions(ps)) == Reposition(g, ps)
  {
  }

  /** Repositioning the declared roles keeps what the declaration loop established about them. */
  lemma PositionsFinal(specs: seq<RoleSpec>, g: Guild, roleMap: map<string, Id>)
    requires g.Valid()
    requires forall i :: 0 <= i < |specs| ==> specs[i].name in roleMap
    requires forall k :: k in roleMap ==> roleMap[k] in g.roles
    requires forall i :: 0 <= i < |specs| ==> g.roles[roleMap[specs[i].name]].name == specs[i].name
    requires DistinctNames(specs) ==>
               forall i :: 0 <= i < |specs| ==> Conforms(g.roles[roleMap[specs[i].name]], specs[i])
    ensures var g' := Reposition(g, Positions(Handles(specs, roleMap), |g.roles|));
            && |g'.roles| == |g.roles|
            && g'.channels == g.channels && g'.channelOrder == g.channelOrder && g'.everyone == g.everyone
            && (forall k :: k in roleMap ==> roleMap[k] in g'.roles)
            && (forall i :: 0 <= i < |specs| ==> g'.roles[roleMap[specs[i].name]].name == specs[i].name)
            && (DistinctNames(specs) ==>
                  forall i :: 0 <= i < |specs| ==> Conforms(g'.roles[roleMap[specs[i].name]], specs[i]))
  {
    PositionsKeep(g, Positions(Handles(specs, roleMap), |g.roles|));
  }

  /** The final `SetPositions` leaves the default role alone unless a declared role carries its
      name. */
  lemma PositionsSpare(specs: seq<RoleSpec>, g: Guild, roleMap: map<string, Id>, everyone: Id)
    requires g.Valid() && everyone in g.roles && !NamedIn(specs, g.roles[everyone].name)
    requires forall i :: 0 <= i < |specs| ==> specs[i].name in roleMap && roleMap[specs[i].name] in g.roles
    requires forall i :: 0 <= i < |specs| ==> g.roles[roleMap[specs[i].name]].name == specs[i].name
    ensures var g' := Reposition(g, Positions(Handles(specs, roleMap), |g.roles|));
            g'.roles[everyone] == g.roles[everyone]
  {
    var handles := Handles(specs, roleMap);
    var ps := Positions(handles, |g.roles|);
    forall k | 0 <= k < |ps| ensures ps[k].0 != everyone {
      assert g.roles[handles[k]].name == specs[k].name;
    }
    PositionsKeep(g, ps);
  }
}
