/** The live guild as the synchronizer sees it: roles and channels keyed by id, the order in
    which the platform lists them, and the mutating platform calls the synchronizer can issue.
    A call's effect on the guild is `Apply`; a run's effect is `ApplyAll` of the calls it made. */
module GuildModel {
  import opened JsSemantics

  type Id = nat

  /** Channel type codes used by the platform (bot/commands/syncstructure.js:76). */
  const TYPE_TEXT := 0
  const TYPE_VOICE := 2
  const TYPE_CATEGORY := 4

  datatype Role = Role(name: string, color: int, hoist: bool, mentionable: bool, position: int)

  /** One permission overwrite: a role and the permission bits it allows and denies. */
  datatype Overwrite = Overwrite(role: Id, allow: seq<nat>, deny: seq<nat>)

  datatype Channel = Channel(name: string, kind: int, parent: Option<Id>, topic: Option<string>,
                             overwrites: seq<Overwrite>)

  /** The fields a role edit sends; an absent field is left as it is. */
  datatype RoleEdit = RoleEdit(color: Option<int>, hoist: Option<bool>, mentionable: Option<bool>)
  {
    predicate IsEmpty() { color.None? && hoist.None? && mentionable.None? }
  }

  /** The mutating platform calls the synchronizer makes. */
  datatype Call =
    | CreateRole(name: string, color: int, hoist: bool, mentionable: bool)
    | EditRole(role: Id, edit: RoleEdit)
    | SetPositions(positions: seq<(Id, int)>)
    | CreateChannel(name: string, kind: int, parent: Option<Id>, topic: Option<string>)
    | SetName(channel: Id, name: string)
    | SetParent(channel: Id, newParent: Id)
    | SetTopic(channel: Id, newTopic: string)
    | SetOverwrites(channel: Id, overwrites: seq<Overwrite>)

  /** `roleOrder` and `channelOrder` are the orders in which the platform's collections are
      iterated (and so searched by `find`); `nextId` is the id the next created object gets. */
  datatype Guild = Guild(roles: map<Id, Role>, roleOrder: seq<Id>, everyone: Id,
                         channels: map<Id, Channel>, channelOrder: seq<Id>, nextId: Id)
  {
    predicate Valid() {
      && everyone in roles
      && (forall id :: id in roles ==> id < nextId)
      && (forall id :: id in channels ==> id < nextId)
      && (forall i :: 0 <= i < |roleOrder| ==> roleOrder[i] in roles)
      && (forall i :: 0 <= i < |channelOrder| ==> channelOrder[i] in channels)
    }
  }

  /** `Collection.find`: the first id of `ids` that satisfies `p`. */
  function FindFirst(ids: seq<Id>, p: Id -> bool): (r: Option<Id>)
    ensures r.None? <==> forall i :: 0 <= i < |ids| ==> !p(ids[i])
    ensures r.Some? ==> exists i :: 0 <= i < |ids| && ids[i] == r.value && p(ids[i])
                                     && forall j :: 0 <= j < i ==> !p(ids[j])
  {
    if ids == [] then None
    else if p(ids[0]) then Some(ids[0])
    else
      var r := FindFirst(ids[1..], p);
      assert forall j :: 1 <= j < |ids| ==> ids[j] == ids[1..][j - 1];
      r
  }

  lemma {:induction false} FindFirstAgrees(ids: seq<Id>, p: Id -> bool, q: Id -> bool)
    requires forall i :: 0 <= i < |ids| ==> p(ids[i]) == q(ids[i])
    ensures FindFirst(ids, p) == FindFirst(ids, q)
    decreases |ids|
  {
    if ids != [] && !p(ids[0]) {
      FindFirstAgrees(ids[1..], p, q);
    }
  }

  /** A search that succeeds in `a` gives the same answer over any extension of `a`. */
  lemma {:induction false} FindFirstPrefix(a: seq<Id>, b: seq<Id>, p: Id -> bool)
    requires a <= b && FindFirst(a, p).Some?
    ensures FindFirst(b, p) == FindFirst(a, p)
    decreases |a|
  {
    assert b[0] == a[0];
    if !p(a[0]) {
      assert a[1..] <= b[1..];
      FindFirstPrefix(a[1..], b[1..], p);
    }
  }

  /** A search that fails over `a` and holds of `x` finds `x` over `a + [x]`. */
  lemma FindFirstSnoc(a: seq<Id>, x: Id, p: Id -> bool)
    requires FindFirst(a, p).None? && p(x)
    ensures FindFirst(a + [x], p) == Some(x)
  {
    assert forall j :: 0 <= j < |a| ==> (a + [x])[j] == a[j];
    assert (a + [x])[|a|] == x;
  }

  function ApplyEdit(r: Role, e: RoleEdit): Role {
    r.(color := if e.color.Some? then e.color.value else r.color,
       hoist := if e.hoist.Some? then e.hoist.value else r.hoist,
       mentionable := if e.mentionable.Some? then e.mentionable.value else r.mentionable)
  }

  /** The roles a position list mentions. */
  function Moved(ps: seq<(Id, int)>): set<Id> {
    set p | p in ps :: p.0
  }

  function ApplyPositions(roles: map<Id, Role>, ps: seq<(Id, int)>): (r: map<Id, Role>)
    ensures r.Keys == roles.Keys
    ensures forall id :: id in roles ==>
              && r[id].name == roles[id].name && r[id].color == roles[id].color
              && r[id].hoist == roles[id].hoist && r[id].mentionable == roles[id].mentionable
    ensures forall id :: id in roles && id !in Moved(ps) ==> r[id] == roles[id]
  {
    if ps == [] then roles
    else
      var id := ps[0].0;
      assert Moved(ps[1..]) <= Moved(ps) by {
        forall p | p in ps[1..] ensures p in ps { }
      }
      ApplyPositions(if id in roles then roles[id := roles[id].(position := ps[0].1)] else roles, ps[1..])
  }

  /** A position list naming distinct roles leaves each of them at the position it asks for. */
  lemma {:induction false} ApplyPositionsSets(roles: map<Id, Role>, ps: seq<(Id, int)>)
    requires forall i :: 0 <= i < |ps| ==> ps[i].0 in roles
    requires forall i, j :: 0 <= i < j < |ps| ==> ps[i].0 != ps[j].0
    ensures forall i :: 0 <= i < |ps| ==> ApplyPositions(roles, ps)[ps[i].0].position == ps[i].1
    decreases |ps|
  {
    if ps != [] {
      var id := ps[0].0;
      var roles' := roles[id := roles[id].(position := ps[0].1)];
      ApplyPositionsSets(roles', ps[1..]);
      assert id !in Moved(ps[1..]) by {
        forall p | p in ps[1..] ensures p.0 != id {
          var k :| 0 <= k < |ps[1..]| && ps[1..][k] == p;
          assert ps[k + 1] == p;
        }
      }
      forall i | 1 <= i < |ps| ensures ApplyPositions(roles, ps)[ps[i].0].position == ps[i].1 {
        assert ps[1..][i - 1] == ps[i];
      }
    }
  }

  /** A position list asking every role it names for the position it already has changes
      nothing. */
  lemma {:induction false} ApplyPositionsFixed(roles: map<Id, Role>, ps: seq<(Id, int)>)
    requires forall i :: 0 <= i < |ps| && ps[i].0 in roles ==> roles[ps[i].0].position == ps[i].1
    ensures ApplyPositions(roles, ps) == roles
    decreases |ps|
  {
    if ps != [] {
      var id := ps[0].0;
      if id in roles {
        assert roles[id := roles[id].(position := ps[0].1)] == roles;
      }
      forall i | 0 <= i < |ps[1..]| && ps[1..][i].0 in roles ensures roles[ps[1..][i].0].position == ps[1..][i].1 {
        assert ps[1..][i] == ps[i + 1];
      }
      ApplyPositionsFixed(roles, ps[1..]);
    }
  }

  /** The effect of one call. Created roles and channels get the next free id and are listed
      last; a new role starts at position 1 and a new channel with no permission overwrites. */
  function Apply(g: Guild, c: Call): (g': Guild)
    requires g.Valid()
    ensures g'.Valid()
    ensures g'.everyone == g.everyone && g.nextId <= g'.nextId
    ensures g.roles.Keys <= g'.roles.Keys && g.channels.Keys <= g'.channels.Keys
  {
    if EditsChannel(c) then RetouchIn(g, c)
    else match c
      case CreateRole(n, col, h, m) => AddRole(g, Role(n, col, h, m, 1))
      case EditRole(id, e) => if id in g.roles then g.(roles := g.roles[id := ApplyEdit(g.roles[id], e)]) else g
      case SetPositions(ps) => Reposition(g, ps)
      case CreateChannel(n, k, p, t) => AddChannel(g, Channel(n, k, p, t, []))
  }

  function AddRole(g: Guild, r: Role): (g': Guild)
    requires g.Valid()
    ensures g'.Valid() && g.nextId !in g.roles
  {
    g.(roles := g.roles[g.nextId := r], roleOrder := g.roleOrder + [g.nextId], nextId := g.nextId + 1)
  }

  function Reposition(g: Guild, ps: seq<(Id, int)>): (g': Guild)
    requires g.Valid()
    ensures g'.Valid()
  {
    g.(roles := ApplyPositions(g.roles, ps))
  }

  function AddChannel(g: Guild, ch: Channel): (g': Guild)
    requires g.Valid()
    ensures g'.Valid() && g.nextId !in g.channels
  {
    g.(channels := g.channels[g.nextId := ch], channelOrder := g.channelOrder + [g.nextId], nextId := g.nextId + 1)
  }

  /** A channel edit retouches the channel it names; on an unknown id it changes nothing. */
  function RetouchIn(g: Guild, c: Call): (g': Guild)
    requires g.Valid() && EditsChannel(c)
    ensures g'.Valid()
  {
    if c.channel in g.channels then g.(channels := g.channels[c.channel := Retouch(g.channels[c.channel], c)])
    else g
  }

  /** The calls that change one existing channel's attributes. */
  predicate EditsChannel(c: Call) {
    c.SetName? || c.SetParent? || c.SetTopic? || c.SetOverwrites?
  }

  /** What a channel-editing call does to that channel. */
  function Retouch(ch: Channel, c: Call): Channel
    requires EditsChannel(c)
  {
    match c
    case SetName(_, n) => ch.(name := n)
    case SetParent(_, p) => ch.(parent := Some(p))
    case SetTopic(_, t) => ch.(topic := Some(t))
    case SetOverwrites(_, ows) => ch.(overwrites := ows)
  }

  /** A channel-editing call on an existing channel replaces that channel by its retouched
      version and changes nothing else. */
  lemma ApplyEditsChannel(g: Guild, c: Call)
    requires g.Valid() && EditsChannel(c) && c.channel in g.channels
    ensures Apply(g, c) == g.(channels := g.channels[c.channel := Retouch(g.channels[c.channel], c)])
    ensures ApplyAll(g, [c]) == Apply(g, c)
  {
    ApplyAllOne(g, c);
  }

  function ApplyAll(g: Guild, cs: seq<Call>): (g': Guild)
    requires g.Valid()
    ensures g'.Valid() && g'.everyone == g.everyone
    decreases |cs|
  {
    if cs == [] then g else Apply(ApplyAll(g, cs[..|cs| - 1]), cs[|cs| - 1])
  }

  lemma {:induction false} ApplyAllAppend(g: Guild, a: seq<Call>, b: seq<Call>)
    requires g.Valid()
    ensures ApplyAll(g, a + b) == ApplyAll(ApplyAll(g, a), b)
    decreases |b|
  {
    if b == [] {
      assert a + b == a;
    } else {
      var b' := b[..|b| - 1];
      assert (a + b)[..|a + b| - 1] == a + b';
      assert (a + b)[|a + b| - 1] == b[|b| - 1];
      ApplyAllAppend(g, a, b');
    }
  }

  /** Issuing one more call applies it to the guild the earlier calls produced. */
  lemma ApplyAllSnoc(g: Guild, cs: seq<Call>, c: Call)
    requires g.Valid()
    ensures ApplyAll(g, cs + [c]) == Apply(ApplyAll(g, cs), c)
  {
    assert (cs + [c])[..|cs|] == cs;
  }

  lemma ApplyAllOne(g: Guild, c: Call)
    requires g.Valid()
    ensures ApplyAll(g, [c]) == Apply(g, c)
  {
    assert [c][..0] == [];
  }
}
