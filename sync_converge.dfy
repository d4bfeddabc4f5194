/** The whole reconciliation pass run twice. When the declared name keys do not collide, one
    pass without the dry-run flag over the channels fetched at its start leaves every declared
    category and channel in place: a lookup finds each, under its declared name, in its
    category, with its topic and overwrite set. A second pass over the result then changes
    nothing, and its only calls replace overwrite sets by the sets the channels already carry. */
module SyncConverge {
  import opened JsSemantics
  import opened GuildModel
  import opened SyncNames
  import opened SyncPerms
  import opened SyncChannels

  /** What a lookup compares: the name key and the channel type. */
  type Key = (string, int)

  function KeyOf(ch: Channel): Key {
    (Norm(ch.name), ch.kind)
  }

  function ChildKey(c: ChannelSpec): Key {
    (Norm(c.name), c.kind)
  }

  function CategoryKey(b: CategorySpec): Key {
    (Norm(b.name), TYPE_CATEGORY)
  }

  function ChildKeys(cs: seq<ChannelSpec>): set<Key>
    decreases |cs|
  {
    if cs == [] then {} else ChildKeys(cs[..|cs| - 1]) + {ChildKey(cs[|cs| - 1])}
  }

  /** Every declared channel's key is among the keys of its list. */
  lemma {:induction false} ChildKeyIn(cs: seq<ChannelSpec>, j: int)
    requires 0 <= j < |cs|
    ensures ChildKey(cs[j]) in ChildKeys(cs)
    decreases |cs|
  {
    if j < |cs| - 1 {
      ChildKeyIn(cs[..|cs| - 1], j);
    }
  }

  /** A key that no declared channel of the list has is not among its keys. */
  lemma {:induction false} ChildKeyNotIn(cs: seq<ChannelSpec>, k: Key)
    requires forall i :: 0 <= i < |cs| ==> ChildKey(cs[i]) != k
    ensures k !in ChildKeys(cs)
    decreases |cs|
  {
    if cs != [] {
      ChildKeyNotIn(cs[..|cs| - 1], k);
    }
  }

  function BlockKeys(b: CategorySpec): set<Key> {
    {CategoryKey(b)} + ChildKeys(b.children)
  }

  /** Within a block no two channels share a key, and none is declared as a category. */
  predicate WellKeyed(b: CategorySpec) {
    && (forall i :: 0 <= i < |b.children| ==> b.children[i].kind != TYPE_CATEGORY)
    && forall i, j :: 0 <= i < j < |b.children| ==> ChildKey(b.children[i]) != ChildKey(b.children[j])
  }

  /** No key is declared twice across the whole declaration. */
  predicate Distinct(blocks: seq<CategorySpec>) {
    && (forall i :: 0 <= i < |blocks| ==> WellKeyed(blocks[i]))
    && forall i, j :: 0 <= i < j < |blocks| ==> BlockKeys(blocks[i]) !! BlockKeys(blocks[j])
  }

  /** From `p` to `h`: every channel keeps its key, the channel order only grows, and only by
      new channels, and every channel created or changed has a key in `keys`. */
  predicate Footprint(p: Guild, h: Guild, keys: set<Key>) {
    && (forall y :: y in p.channels ==> y in h.channels && KeyOf(h.channels[y]) == KeyOf(p.channels[y]))
    && p.channelOrder <= h.channelOrder
    && (forall k :: |p.channelOrder| <= k < |h.channelOrder| ==> h.channelOrder[k] !in p.channels)
    && (forall y :: y in h.channels && y !in p.channels ==> KeyOf(h.channels[y]) in keys)
    && (forall y :: y in p.channels && h.channels[y] != p.channels[y] ==> KeyOf(p.channels[y]) in keys)
  }

  /** No channel listed after the snapshot's stretch of the channel order has a key in `keys`. */
  predicate NoTail(h: Guild, snap: seq<Id>, keys: set<Key>) {
    forall k :: |snap| <= k < |h.channelOrder| && h.channelOrder[k] in h.channels ==>
      KeyOf(h.channels[h.channelOrder[k]]) !in keys
  }

  /** A lookup of the declaration over `order` finds a channel that conforms to it under `cat`
      and carries the overwrite set `ows`. */
  predicate ChildInPlace(h: Guild, order: seq<Id>, c: ChannelSpec, cat: Id, ows: seq<Overwrite>) {
    var f := FindChannel(h, order, c.name, c.kind);
    f.Some? && Settled(h.channels[f.value], c, cat) && Guarded(h.channels[f.value], ows)
  }

  /** A lookup of the category over `order` finds one with the declared name. */
  predicate CategoryInPlace(h: Guild, order: seq<Id>, b: CategorySpec) {
    var f := FindChannel(h, order, b.name, TYPE_CATEGORY);
    f.Some? && h.channels[f.value].name == b.name
  }

  /** The block's category is in place, and each of its channels is in place under it with the
      overwrite set its declaration resolves to. */
  predicate BlockInPlace(h: Guild, order: seq<Id>, b: CategorySpec, roleMap: map<string, Id>, bits: FlagTable) {
    CategoryInPlace(h, order, b) &&
    var cat := FindChannel(h, order, b.name, TYPE_CATEGORY).value;
    forall j :: 0 <= j < |b.children| ==>
      ChildInPlace(h, order, b.children[j], cat, Declared(h, roleMap, bits, b.children[j]))
  }

  /** Each call of a pass re-sets an overwrite set to the one its channel already carries. */
  predicate NoOpCalls(h: Guild, calls: seq<Call>) {
    forall k :: 0 <= k < |calls| ==>
      && calls[k].SetOverwrites? && calls[k].channel in h.channels
      && h.channels[calls[k].channel].overwrites == calls[k].overwrites
  }

  // ---------------------------------------------------------------------------------------
  // Lookups across a pass

  /** A lookup that finds a channel in `a` finds the same one over any extension of `a`. */
  lemma FindExtended(h: Guild, a: seq<Id>, b: seq<Id>, name: string, kind: int)
    requires a <= b && FindChannel(h, a, name, kind).Some?
    ensures FindChannel(h, b, name, kind) == FindChannel(h, a, name, kind)
  {
    FindFirstPrefix(a, b, (id: Id) => Matches(h, id, name, kind));
  }

  /** Lookups over channels whose keys were kept give the same answer. */
  lemma FindKept(p: Guild, h: Guild, order: seq<Id>, keys: set<Key>, name: string, kind: int)
    requires InSnapshot(p, order) && Footprint(p, h, keys)
    ensures InSnapshot(h, order)
    ensures FindChannel(h, order, name, kind) == FindChannel(p, order, name, kind)
  {
    forall i | 0 <= i < |order|
      ensures order[i] in h.channels && h.channels[order[i]].kind == p.channels[order[i]].kind
      ensures Norm(h.channels[order[i]].name) == Norm(p.channels[order[i]].name)
    {
      assert KeyOf(h.channels[order[i]]) == KeyOf(p.channels[order[i]]);
    }
    FindChannelStable(p, h, order, name, kind);
  }

  /** A lookup over the whole channel order that succeeds keeps its answer across a footprint. */
  lemma FindMoved(q: Guild, h: Guild, keys: set<Key>, name: string, kind: int)
    requires q.Valid() && Footprint(q, h, keys) && FindChannel(q, q.channelOrder, name, kind).Some?
    ensures FindChannel(h, h.channelOrder, name, kind) == FindChannel(q, q.channelOrder, name, kind)
  {
    FindKept(q, h, q.channelOrder, keys, name, kind);
    FindExtended(h, q.channelOrder, h.channelOrder, name, kind);
  }

  /** A channel listed last, after channels none of which match, is what the lookup finds. */
  lemma FindAtEnd(h: Guild, order: seq<Id>, x: Id, name: string, kind: int)
    requires forall k :: 0 <= k < |order| ==> !Matches(h, order[k], name, kind)
    requires Matches(h, x, name, kind)
    ensures FindChannel(h, order + [x], name, kind) == Some(x)
  {
    var all := order + [x];
    assert all[|order|] == x;
  }

  lemma FootprintThen(p: Guild, q: Guild, h: Guild, s: set<Key>, t: set<Key>)
    requires Footprint(p, q, s) && Footprint(q, h, t)
    ensures Footprint(p, h, s + t)
  {
    assert h.channelOrder[..|p.channelOrder|] == h.channelOrder[..|q.channelOrder|][..|p.channelOrder|];
  }

  /** Keys outside a footprint stay out of the tail of the channel order. */
  lemma NoTailKept(p: Guild, h: Guild, snap: seq<Id>, keys: set<Key>, other: set<Key>)
    requires p.Valid() && snap <= p.channelOrder && Footprint(p, h, keys) && keys !! other
    requires NoTail(p, snap, other)
    ensures NoTail(h, snap, other)
  {
    forall k | |snap| <= k < |h.channelOrder| && h.channelOrder[k] in h.channels
      ensures KeyOf(h.channels[h.channelOrder[k]]) !in other
    {
      if k < |p.channelOrder| {
        assert h.channelOrder[k] == p.channelOrder[k];
      }
    }
  }

  /** Fewer keys stay out of the tail as well. */
  lemma NoTailSub(h: Guild, snap: seq<Id>, keys: set<Key>, fewer: set<Key>)
    requires fewer <= keys && NoTail(h, snap, keys)
    ensures NoTail(h, snap, fewer)
  {
  }

  /** Overwrite sets are resolved from the roles only. */
  lemma DeclaredFrame(g: Guild, h: Guild, roleMap: map<string, Id>, bits: FlagTable, c: ChannelSpec)
    requires g.Valid() && h.roles == g.roles && h.roleOrder == g.roleOrder
    ensures Declared(h, roleMap, bits, c) == Declared(g, roleMap, bits, c)
  {
    if c.overwrites.Some? {
      ResolvedFrame(g, h, roleMap, c.overwrites.value, bits);
    }
  }

  // ---------------------------------------------------------------------------------------
  // One declared channel

  /** A step that adds one channel has that channel's key as its footprint. */
  lemma AddsFootprint(p: Guild, s: Step, id: Id)
    requires p.Valid() && Adds(p, s, id)
    ensures Footprint(p, s.guild, {KeyOf(s.guild.channels[id])})
  {
  }

  /** A step that edits one channel without changing its key has that key as its footprint. */
  lemma EditsFootprint(p: Guild, s: Step, id: Id)
    requires p.Valid() && Edits(p, s, id) && KeyOf(s.guild.channels[id]) == KeyOf(p.channels[id])
    ensures Footprint(p, s.guild, {KeyOf(p.channels[id])})
  {
  }

  /** A channel's step changes or creates only a channel with the declaration's key. */
  lemma ChildFootprint(p: Guild, snap: seq<Id>, c: ChannelSpec, cat: Id, catName: string, ows: seq<Overwrite>)
    requires p.Valid()
    ensures Footprint(p, ChildStep(p, snap, c, cat, catName, false, ows).guild, {ChildKey(c)})
  {
    var r := ChildStep(p, snap, c, cat, catName, false, ows);
    match FindChannel(p, snap, c.name, c.kind)
    case None =>
      assert KeyOf(r.guild.channels[p.nextId]) == ChildKey(c);
      AddsFootprint(p, r, p.nextId);
    case Some(id) =>
      assert KeyOf(r.guild.channels[id]) == ChildKey(c) == KeyOf(p.channels[id]);
      EditsFootprint(p, r, id);
  }

  /** After a channel's step, the lookup over the whole channel order finds the channel it
      acted on, settled and guarded: a found channel is found again, and a created one is the
      only match, provided no channel listed after the snapshot has the declaration's key. */
  lemma ChildPlaced(p: Guild, snap: seq<Id>, c: ChannelSpec, cat: Id, catName: string, ows: seq<Overwrite>)
    requires p.Valid() && InSnapshot(p, snap) && snap <= p.channelOrder
    requires NoTail(p, snap, {ChildKey(c)})
    ensures var h := ChildStep(p, snap, c, cat, catName, false, ows).guild;
            ChildInPlace(h, h.channelOrder, c, cat, ows)
  {
    var r := ChildStep(p, snap, c, cat, catName, false, ows);
    var h := r.guild;
    match FindChannel(p, snap, c.name, c.kind)
    case None =>
      var x := p.nextId;
      forall k | 0 <= k < |p.channelOrder|
        ensures !Matches(h, p.channelOrder[k], c.name, c.kind)
      {
        var y := p.channelOrder[k];
        assert h.channels[y] == p.channels[y];
        if k < |snap| {
          assert y == snap[k];
        } else {
          assert KeyOf(p.channels[y]) !in {ChildKey(c)};
        }
      }
      FindAtEnd(h, p.channelOrder, x, c.name, c.kind);
    case Some(id) =>
      assert r == TuneStep(p, id, c, cat, catName, ows);
      RefindAfterTune(p, snap, c, cat, catName, ows);
      FindExtended(h, snap, h.channelOrder, c.name, c.kind);
  }

  /** A channel in place stays in place across a footprint that avoids its key. */
  lemma ChildInPlaceKept(q: Guild, h: Guild, keys: set<Key>, c: ChannelSpec, cat: Id, ows: seq<Overwrite>)
    requires q.Valid() && Footprint(q, h, keys) && ChildKey(c) !in keys
    requires ChildInPlace(q, q.channelOrder, c, cat, ows)
    ensures ChildInPlace(h, h.channelOrder, c, cat, ows)
  {
    FindMoved(q, h, keys, c.name, c.kind);
    var x := FindChannel(q, q.channelOrder, c.name, c.kind).value;
    assert KeyOf(q.channels[x]) == ChildKey(c);
  }

  // ---------------------------------------------------------------------------------------
  // One declared category

  /** A category's step changes or creates only a category with the declared key, and
      afterwards the lookup over the whole channel order finds the category the step chose,
      under its declared name. */
  lemma CategoryPlaced(p: Guild, snap: seq<Id>, b: CategorySpec)
    requires p.Valid() && InSnapshot(p, snap) && snap <= p.channelOrder
    requires NoTail(p, snap, {CategoryKey(b)})
    ensures var co := CategoryStep(p, snap, b, false);
            && co.cat.Some?
            && Footprint(p, co.step.guild, {CategoryKey(b)})
            && CategoryInPlace(co.step.guild, co.step.guild.channelOrder, b)
            && FindChannel(co.step.guild, co.step.guild.channelOrder, b.name, TYPE_CATEGORY) == co.cat
  {
    var co := CategoryStep(p, snap, b, false);
    var h := co.step.guild;
    match FindChannel(p, snap, b.name, TYPE_CATEGORY)
    case None =>
      var call := CreateChannel(b.name, TYPE_CATEGORY, None, None);
      CreateCallStep(p, call, CreateCategoryLine(b.name));
      var x := p.nextId;
      assert co.step == Step(Apply(p, call), [call], [CreateCategoryLine(b.name)]);
      assert KeyOf(h.channels[x]) == CategoryKey(b);
      AddsFootprint(p, co.step, x);
      forall k | 0 <= k < |p.channelOrder|
        ensures !Matches(h, p.channelOrder[k], b.name, TYPE_CATEGORY)
      {
        var y := p.channelOrder[k];
        assert h.channels[y] == p.channels[y];
        if k < |snap| {
          assert y == snap[k];
        } else {
          assert KeyOf(p.channels[y]) !in {CategoryKey(b)};
        }
      }
      FindAtEnd(h, p.channelOrder, x, b.name, TYPE_CATEGORY);
    case Some(id) =>
      if p.channels[id].name != b.name {
        EditStep(p, SetName(id, b.name), RenameCategoryLine(p.channels[id].name, b.name));
        assert KeyOf(h.channels[id]) == CategoryKey(b) == KeyOf(p.channels[id]);
        EditsFootprint(p, co.step, id);
      } else {
        assert h == p;
      }
      FindKept(p, h, snap, {CategoryKey(b)}, b.name, TYPE_CATEGORY);
      FindExtended(h, snap, h.channelOrder, b.name, TYPE_CATEGORY);
  }

  /** A category in place stays in place, with the same answer, across a footprint that avoids
      its key. */
  lemma CategoryInPlaceKept(q: Guild, h: Guild, keys: set<Key>, b: CategorySpec)
    requires q.Valid() && Footprint(q, h, keys) && CategoryKey(b) !in keys
    requires CategoryInPlace(q, q.channelOrder, b)
    ensures CategoryInPlace(h, h.channelOrder, b)
    ensures FindChannel(h, h.channelOrder, b.name, TYPE_CATEGORY) == FindChannel(q, q.channelOrder, b.name, TYPE_CATEGORY)
  {
    FindMoved(q, h, keys, b.name, TYPE_CATEGORY);
    var x := FindChannel(q, q.channelOrder, b.name, TYPE_CATEGORY).value;
    assert KeyOf(q.channels[x]) == CategoryKey(b);
  }

  // ---------------------------------------------------------------------------------------
  // A block, and the whole pass

  /** Being a prefix is transitive. */
  lemma PrefixTrans<T>(a: seq<T>, b: seq<T>, c: seq<T>)
    requires a <= b && b <= c
    ensures a <= c
  {
    assert c[..|a|] == c[..|b|][..|a|];
  }

  /** A non-empty list is its front followed by its last element. */
  lemma Snoc<T>(s: seq<T>)
    requires s != []
    ensures s == s[..|s| - 1] + [s[|s| - 1]]
  {
  }

  /** No channel of `cs` shares its key with a channel before it. */
  predicate KeysApart(cs: seq<ChannelSpec>)
    decreases |cs|
  {
    cs == [] || (KeysApart(cs[..|cs| - 1]) && ChildKey(cs[|cs| - 1]) !in ChildKeys(cs[..|cs| - 1]))
  }

  /** Pairwise distinct keys are keys apart. */
  lemma {:induction false} PairwiseApart(cs: seq<ChannelSpec>)
    requires forall i, j :: 0 <= i < j < |cs| ==> ChildKey(cs[i]) != ChildKey(cs[j])
    ensures KeysApart(cs)
    decreases |cs|
  {
    if cs != [] {
      var n := |cs| - 1;
      PairwiseApart(cs[..n]);
      ChildKeyNotIn(cs[..n], ChildKey(cs[n]));
    }
  }

  /** The channels `cs` of a block are in place under `cat` in `h`, which `q0` reached
      touching only their keys. */
  predicate ChildrenDone(q0: Guild, h: Guild, roleMap: map<string, Id>, bits: FlagTable,
                         cs: seq<ChannelSpec>, cat: Id)
  {
    && Footprint(q0, h, ChildKeys(cs))
    && forall j :: 0 <= j < |cs| ==> ChildDoneAt(h, roleMap, bits, cs, cat, j)
  }

  /** The `j`th channel of `cs` is in place under `cat` in `h`. */
  predicate ChildDoneAt(h: Guild, roleMap: map<string, Id>, bits: FlagTable, cs: seq<ChannelSpec>, cat: Id, j: int)
    requires 0 <= j < |cs|
  {
    ChildInPlace(h, h.channelOrder, cs[j], cat, Declared(h, roleMap, bits, cs[j]))
  }

  lemma ChildrenDoneAt(q0: Guild, h: Guild, roleMap: map<string, Id>, bits: FlagTable,
                       cs: seq<ChannelSpec>, cat: Id, j: int)
    requires ChildrenDone(q0, h, roleMap, bits, cs, cat) && 0 <= j < |cs|
    ensures ChildInPlace(h, h.channelOrder, cs[j], cat, Declared(h, roleMap, bits, cs[j]))
  {
    assert ChildDoneAt(h, roleMap, bits, cs, cat, j);
  }

  /** An earlier channel stays in place across a step that touches only another key. */
  lemma ChildKeptAt(pg: Guild, h: Guild, roleMap: map<string, Id>, bits: FlagTable,
                    init: seq<ChannelSpec>, c: ChannelSpec, cat: Id, j: int)
    requires pg.Valid() && 0 <= j < |init| && ChildKey(init[j]) != ChildKey(c)
    requires ChildDoneAt(pg, roleMap, bits, init, cat, j)
    requires Footprint(pg, h, {ChildKey(c)}) && h.roles == pg.roles && h.roleOrder == pg.roleOrder
    ensures ChildDoneAt(h, roleMap, bits, init + [c], cat, j)
  {
    var d := init[j];
    var ows := Declared(pg, roleMap, bits, d);
    DeclaredFrame(pg, h, roleMap, bits, d);
    ChildInPlaceKept(pg, h, {ChildKey(c)}, d, cat, ows);
    assert (init + [c])[j] == d;
  }

  /** One more channel in place, in a guild reached touching only its key, extends the
      channels in place before it. */
  lemma ChildrenGrow(q0: Guild, pg: Guild, h: Guild, roleMap: map<string, Id>, bits: FlagTable,
                     init: seq<ChannelSpec>, c: ChannelSpec, cat: Id)
    requires q0.Valid() && pg.Valid()
    requires ChildKeys(init + [c]) == ChildKeys(init) + {ChildKey(c)} && ChildKey(c) !in ChildKeys(init)
    requires ChildrenDone(q0, pg, roleMap, bits, init, cat)
    requires Footprint(pg, h, {ChildKey(c)}) && h.roles == pg.roles && h.roleOrder == pg.roleOrder
    requires ChildInPlace(h, h.channelOrder, c, cat, Declared(pg, roleMap, bits, c))
    ensures ChildrenDone(q0, h, roleMap, bits, init + [c], cat)
  {
    var cs := init + [c];
    FootprintThen(q0, pg, h, ChildKeys(init), {ChildKey(c)});
    forall j | 0 <= j < |cs|
      ensures ChildDoneAt(h, roleMap, bits, cs, cat, j)
    {
      if j < |init| {
        ChildKeyIn(init, j);
        assert ChildDoneAt(pg, roleMap, bits, init, cat, j);
        ChildKeptAt(pg, h, roleMap, bits, init, c, cat, j);
      } else {
        DeclaredFrame(pg, h, roleMap, bits, c);
        assert cs[j] == c;
      }
    }
  }

  /** What one channel's step does, outside a dry run, to a guild reached from `q0` touching
      only other keys: it touches only the channel's key and puts the channel in place. */
  lemma ChildStepFacts(q0: Guild, pg: Guild, snap: seq<Id>, keys: set<Key>, c: ChannelSpec, cat: Id,
                       catName: string, ows: seq<Overwrite>)
    requires q0.Valid() && pg.Valid() && InSnapshot(q0, snap) && snap <= q0.channelOrder
    requires Footprint(q0, pg, keys) && ChildKey(c) !in keys && NoTail(q0, snap, {ChildKey(c)})
    ensures var h := ChildStep(pg, snap, c, cat, catName, false, ows).guild;
            && h.Valid() && h.roles == pg.roles && h.roleOrder == pg.roleOrder
            && Footprint(pg, h, {ChildKey(c)}) && ChildInPlace(h, h.channelOrder, c, cat, ows)
  {
    FindKept(q0, pg, snap, keys, c.name, c.kind);
    NoTailKept(q0, pg, snap, keys, {ChildKey(c)});
    ChildFootprint(pg, snap, c, cat, catName, ows);
    ChildPlaced(pg, snap, c, cat, catName, ows);
  }

  /** One more channel's step, outside a dry run, extends the channels in place before it. */
  lemma ChildrenStep(q0: Guild, pg: Guild, snap: seq<Id>, roleMap: map<string, Id>, bits: FlagTable,
                     init: seq<ChannelSpec>, c: ChannelSpec, cat: Id, catName: string)
    requires q0.Valid() && pg.Valid() && InSnapshot(q0, snap) && snap <= q0.channelOrder
    requires ChildKey(c) !in ChildKeys(init) && NoTail(q0, snap, {ChildKey(c)})
    requires ChildrenDone(q0, pg, roleMap, bits, init, cat)
    ensures var h := ChildStep(pg, snap, c, cat, catName, false, Declared(pg, roleMap, bits, c)).guild;
            ChildrenDone(q0, h, roleMap, bits, init + [c], cat)
  {
    var ows := Declared(pg, roleMap, bits, c);
    ChildStepFacts(q0, pg, snap, ChildKeys(init), c, cat, catName, ows);
    var h := ChildStep(pg, snap, c, cat, catName, false, ows).guild;
    assert (init + [c])[..|init|] == init;
    ChildrenGrow(q0, pg, h, roleMap, bits, init, c, cat);
  }

  /** Outside a dry run, the children loop ends on the guild the last channel's step leaves. */
  lemma ChildrenLast(q0: Guild, snap: seq<Id>, roleMap: map<string, Id>, bits: FlagTable,
                     cs: seq<ChannelSpec>, cat: Id, catName: string)
    requires q0.Valid() && cs != []
    ensures var n := |cs| - 1;
            var pg := Children(q0, snap, roleMap, bits, cs[..n], cat, catName, false).guild;
            Children(q0, snap, roleMap, bits, cs, cat, catName, false).guild
              == ChildStep(pg, snap, cs[n], cat, catName, false, Declared(pg, roleMap, bits, cs[n])).guild
  {
  }

  /** The children loop of one block puts each declared channel in place under `cat`, when no
      two of them share a key and no channel listed after the snapshot has one of their keys. */
  lemma {:induction false} ChildrenPlaced(q0: Guild, snap: seq<Id>, roleMap: map<string, Id>, bits: FlagTable,
                                          cs: seq<ChannelSpec>, cat: Id, catName: string)
    requires q0.Valid() && InSnapshot(q0, snap) && snap <= q0.channelOrder
    requires KeysApart(cs) && NoTail(q0, snap, ChildKeys(cs))
    ensures ChildrenDone(q0, Children(q0, snap, roleMap, bits, cs, cat, catName, false).guild, roleMap, bits, cs, cat)
    decreases |cs|
  {
    if cs == [] {
      assert Children(q0, snap, roleMap, bits, cs, cat, catName, false).guild == q0;
    } else {
      var n := |cs| - 1;
      var init := cs[..n];
      NoTailSub(q0, snap, ChildKeys(cs), ChildKeys(init));
      NoTailSub(q0, snap, ChildKeys(cs), {ChildKey(cs[n])});
      ChildrenPlaced(q0, snap, roleMap, bits, init, cat, catName);
      var pg := Children(q0, snap, roleMap, bits, init, cat, catName, false).guild;
      ChildrenStep(q0, pg, snap, roleMap, bits, init, cs[n], cat, catName);
      Snoc(cs);
      ChildrenLast(q0, snap, roleMap, bits, cs, cat, catName);
    }
  }

  /** A block is in place once its category is, and its channels are in place under it. */
  lemma BlockFromParts(h1: Guild, h: Guild, roleMap: map<string, Id>, bits: FlagTable, b: CategorySpec, cat: Id)
    requires CategoryInPlace(h, h.channelOrder, b)
    requires FindChannel(h, h.channelOrder, b.name, TYPE_CATEGORY) == Some(cat)
    requires ChildrenDone(h1, h, roleMap, bits, b.children, cat)
    ensures BlockInPlace(h, h.channelOrder, b, roleMap, bits)
  {
    forall j | 0 <= j < |b.children|
      ensures ChildInPlace(h, h.channelOrder, b.children[j], cat, Declared(h, roleMap, bits, b.children[j]))
    {
      ChildrenDoneAt(h1, h, roleMap, bits, b.children, cat, j);
    }
  }

  /** One block puts its category and channels in place, touching only its own keys. */
  lemma BlockPlaced(h0: Guild, snap: seq<Id>, roleMap: map<string, Id>, bits: FlagTable, b: CategorySpec)
    requires h0.Valid() && InSnapshot(h0, snap) && snap <= h0.channelOrder
    requires WellKeyed(b) && NoTail(h0, snap, BlockKeys(b))
    ensures var h := BlockStep(h0, snap, roleMap, bits, b, false).guild;
            Footprint(h0, h, BlockKeys(b)) && BlockInPlace(h, h.channelOrder, b, roleMap, bits)
  {
    var co := CategoryStep(h0, snap, b, false);
    CategoryPlaced(h0, snap, b);
    var cat := co.cat.value;
    var h1 := co.step.guild;
    var kids := ChildKeys(b.children);
    ChildKeyNotIn(b.children, CategoryKey(b));
    FindKept(h0, h1, snap, {CategoryKey(b)}, b.name, TYPE_CATEGORY);
    NoTailKept(h0, h1, snap, {CategoryKey(b)}, kids);
    PairwiseApart(b.children);
    ChildrenPlaced(h1, snap, roleMap, bits, b.children, cat, b.name);
    var ch := Children(h1, snap, roleMap, bits, b.children, cat, b.name, false);
    var h := ch.guild;
    assert BlockStep(h0, snap, roleMap, bits, b, false).guild == h;
    CategoryInPlaceKept(h1, h, kids, b);
    BlockFromParts(h1, h, roleMap, bits, b, cat);
    FootprintThen(h0, h1, h, {CategoryKey(b)}, kids);
  }

  /** A block in place stays in place across a footprint that avoids all its keys. */
  lemma BlockInPlaceKept(q: Guild, h: Guild, keys: set<Key>, b: CategorySpec, roleMap: map<string, Id>, bits: FlagTable)
    requires q.Valid() && Footprint(q, h, keys) && BlockKeys(b) !! keys
    requires h.roles == q.roles && h.roleOrder == q.roleOrder
    requires BlockInPlace(q, q.channelOrder, b, roleMap, bits)
    ensures BlockInPlace(h, h.channelOrder, b, roleMap, bits)
  {
    CategoryInPlaceKept(q, h, keys, b);
    var cat := FindChannel(q, q.channelOrder, b.name, TYPE_CATEGORY).value;
    forall j | 0 <= j < |b.children|
      ensures ChildInPlace(h, h.channelOrder, b.children[j], cat, Declared(h, roleMap, bits, b.children[j]))
    {
      var c := b.children[j];
      ChildKeyIn(b.children, j);
      DeclaredFrame(q, h, roleMap, bits, c);
      ChildInPlaceKept(q, h, keys, c, cat, Declared(q, roleMap, bits, c));
    }
  }

  /** What distinct declarations say about one block: its keys are apart from every other's. */
  lemma DistinctAt(blocks: seq<CategorySpec>, n: int)
    requires Distinct(blocks) && 0 <= n < |blocks|
    ensures WellKeyed(blocks[n])
    ensures forall i :: 0 <= i < |blocks| && i != n ==> BlockKeys(blocks[i]) !! BlockKeys(blocks[n])
  {
    forall i | 0 <= i < |blocks| && i != n
      ensures BlockKeys(blocks[i]) !! BlockKeys(blocks[n])
    {
      if n < i {
        assert BlockKeys(blocks[n]) !! BlockKeys(blocks[i]);
      }
    }
  }

  /** One more block of the pass: it is put in place, the blocks before it stay in place and
      later blocks still find no channel of theirs after the snapshot, as its keys are not
      theirs. */
  lemma RunPlacedStep(g0: Guild, p: Guild, roleMap: map<string, Id>, bits: FlagTable,
                      blocks: seq<CategorySpec>, n: int)
    requires g0.Valid() && p.Valid() && 0 <= n < |blocks| && WellKeyed(blocks[n])
    requires forall i :: 0 <= i < |blocks| && i != n ==> BlockKeys(blocks[i]) !! BlockKeys(blocks[n])
    requires p.roles == g0.roles && p.roleOrder == g0.roleOrder
    requires InSnapshot(p, g0.channelOrder) && g0.channelOrder <= p.channelOrder
    requires forall i :: 0 <= i < n ==> BlockInPlace(p, p.channelOrder, blocks[i], roleMap, bits)
    requires forall i :: n <= i < |blocks| ==> NoTail(p, g0.channelOrder, BlockKeys(blocks[i]))
    ensures var h := BlockStep(p, g0.channelOrder, roleMap, bits, blocks[n], false).guild;
            && InSnapshot(h, g0.channelOrder) && g0.channelOrder <= h.channelOrder
            && (forall i :: 0 <= i <= n ==> BlockInPlace(h, h.channelOrder, blocks[i], roleMap, bits))
            && (forall i :: n < i < |blocks| ==> NoTail(h, g0.channelOrder, BlockKeys(blocks[i])))
  {
    var snap := g0.channelOrder;
    var b := blocks[n];
    BlockPlaced(p, snap, roleMap, bits, b);
    var h := BlockStep(p, snap, roleMap, bits, b, false).guild;
    FindKept(p, h, snap, BlockKeys(b), "", 0);
    PrefixTrans(snap, p.channelOrder, h.channelOrder);
    forall i | 0 <= i < n
      ensures BlockInPlace(h, h.channelOrder, blocks[i], roleMap, bits)
    {
      BlockInPlaceKept(p, h, BlockKeys(b), blocks[i], roleMap, bits);
    }
    forall i | n < i < |blocks|
      ensures NoTail(h, snap, BlockKeys(blocks[i]))
    {
      NoTailKept(p, h, snap, BlockKeys(b), BlockKeys(blocks[i]));
    }
  }

  /** After the first `n` blocks of a pass over the channels fetched at its start, those blocks
      are in place and no channel listed after the snapshot has the key of a later block. */
  lemma {:induction false} RunPlacedPrefix(g0: Guild, roleMap: map<string, Id>, bits: FlagTable,
                                           blocks: seq<CategorySpec>, n: int)
    requires g0.Valid() && Distinct(blocks) && 0 <= n <= |blocks|
    ensures var h := Run(g0, g0.channelOrder, roleMap, bits, blocks[..n], false).guild;
            && InSnapshot(h, g0.channelOrder) && g0.channelOrder <= h.channelOrder
            && (forall i :: 0 <= i < n ==> BlockInPlace(h, h.channelOrder, blocks[i], roleMap, bits))
            && (forall i :: n <= i < |blocks| ==> NoTail(h, g0.channelOrder, BlockKeys(blocks[i])))
    decreases n
  {
    var snap := g0.channelOrder;
    if n == 0 {
      assert Run(g0, snap, roleMap, bits, blocks[..n], false).guild == g0;
    } else {
      RunPlacedPrefix(g0, roleMap, bits, blocks, n - 1);
      RunSnoc(g0, snap, roleMap, bits, blocks, n - 1, false);
      var p := Run(g0, snap, roleMap, bits, blocks[..n - 1], false).guild;
      DistinctAt(blocks, n - 1);
      RunPlacedStep(g0, p, roleMap, bits, blocks, n - 1);
    }
  }

  /** Convergence: one pass without the dry-run flag, over the channels fetched at its start,
      leaves every declared block in place, when no declared key repeats. */
  lemma RunConverges(g0: Guild, roleMap: map<string, Id>, bits: FlagTable, blocks: seq<CategorySpec>)
    requires g0.Valid() && Distinct(blocks)
    ensures var h := Run(g0, g0.channelOrder, roleMap, bits, blocks, false).guild;
            forall i :: 0 <= i < |blocks| ==> BlockInPlace(h, h.channelOrder, blocks[i], roleMap, bits)
  {
    RunPlacedPrefix(g0, roleMap, bits, blocks, |blocks|);
    assert blocks[..|blocks|] == blocks;
  }

  // ---------------------------------------------------------------------------------------
  // The second pass

  lemma NoOpAppend(h: Guild, a: seq<Call>, b: seq<Call>)
    requires NoOpCalls(h, a) && NoOpCalls(h, b)
    ensures NoOpCalls(h, a + b)
  {
    forall k | 0 <= k < |a + b| ensures (a + b)[k] == (if k < |a| then a[k] else b[k - |a|]) {
    }
  }

  /** Outside a dry run, the step of a declaration a lookup finds tunes the channel found. */
  lemma ChildTunes(h: Guild, snap: seq<Id>, c: ChannelSpec, cat: Id, catName: string, ows: seq<Overwrite>)
    requires h.Valid() && FindChannel(h, snap, c.name, c.kind).Some?
    ensures var x := FindChannel(h, snap, c.name, c.kind).value;
            x in h.channels && h.channels[x].kind == c.kind
            && ChildStep(h, snap, c, cat, catName, false, ows) == TuneStep(h, x, c, cat, catName, ows)
  {
  }

  /** Re-setting a channel's overwrite set to the one it carries is a call that changes nothing. */
  lemma OverwriteNoOp(h: Guild, x: Id, ows: seq<Overwrite>)
    requires x in h.channels && h.channels[x].overwrites == ows
    ensures NoOpCalls(h, [SetOverwrites(x, ows)])
  {
  }

  /** A channel already in place: its step changes nothing. */
  lemma ChildRepeat(h: Guild, c: ChannelSpec, cat: Id, catName: string, ows: seq<Overwrite>)
    requires h.Valid() && ChildInPlace(h, h.channelOrder, c, cat, ows)
    ensures var s := ChildStep(h, h.channelOrder, c, cat, catName, false, ows);
            s.guild == h && NoOpCalls(h, s.calls)
  {
    var x := FindChannel(h, h.channelOrder, c.name, c.kind).value;
    var s := TuneStep(h, x, c, cat, catName, ows);
    ChildTunes(h, h.channelOrder, c, cat, catName, ows);
    TuneRepeat(h, x, c, cat, catName, ows);
    if ows != [] {
      OverwriteNoOp(h, x, ows);
    }
    var r := ChildStep(h, h.channelOrder, c, cat, catName, false, ows);
    assert r == s;
    assert r.guild == h;
    assert r.calls == s.calls;
  }

  /** The children loop over channels already in place changes nothing. */
  lemma {:induction false} ChildrenRepeat(h: Guild, roleMap: map<string, Id>, bits: FlagTable,
                                          cs: seq<ChannelSpec>, cat: Id, catName: string)
    requires h.Valid()
    requires forall j :: 0 <= j < |cs| ==> ChildInPlace(h, h.channelOrder, cs[j], cat, Declared(h, roleMap, bits, cs[j]))
    ensures var r := Children(h, h.channelOrder, roleMap, bits, cs, cat, catName, false);
            r.guild == h && NoOpCalls(h, r.calls)
    decreases |cs|
  {
    if cs == [] {
      assert Children(h, h.channelOrder, roleMap, bits, cs, cat, catName, false) == Step(h, [], []);
    } else {
      var n := |cs| - 1;
      var init := cs[..n];
      assert forall j :: 0 <= j < n ==> init[j] == cs[j];
      ChildrenRepeat(h, roleMap, bits, init, cat, catName);
      var p := Children(h, h.channelOrder, roleMap, bits, init, cat, catName, false);
      assert p.guild == h;
      ChildRepeat(h, cs[n], cat, catName, Declared(h, roleMap, bits, cs[n]));
      var s := ChildStep(h, h.channelOrder, cs[n], cat, catName, false, Declared(h, roleMap, bits, cs[n]));
      NoOpAppend(h, p.calls, s.calls);
      var r := Children(h, h.channelOrder, roleMap, bits, cs, cat, catName, false);
      assert r == Then(p, s);
    }
  }

  /** One block already in place changes nothing. */
  lemma BlockRepeat(h: Guild, roleMap: map<string, Id>, bits: FlagTable, b: CategorySpec)
    requires h.Valid() && BlockInPlace(h, h.channelOrder, b, roleMap, bits)
    ensures var r := BlockStep(h, h.channelOrder, roleMap, bits, b, false);
            r.guild == h && NoOpCalls(h, r.calls)
  {
    var co := CategoryStep(h, h.channelOrder, b, false);
    var cat := FindChannel(h, h.channelOrder, b.name, TYPE_CATEGORY).value;
    assert co.step == Step(h, [], [CategoryOkLine(b.name)]) && co.cat == Some(cat);
    ChildrenRepeat(h, roleMap, bits, b.children, cat, b.name);
    var ch := Children(h, h.channelOrder, roleMap, bits, b.children, cat, b.name, false);
    assert BlockStep(h, h.channelOrder, roleMap, bits, b, false) == Then(co.step, ch);
    NoOpAppend(h, [], ch.calls);
  }

  /** A pass over a guild where every block is in place changes nothing. */
  lemma {:induction false} RunRepeat(h: Guild, roleMap: map<string, Id>, bits: FlagTable, blocks: seq<CategorySpec>)
    requires h.Valid()
    requires forall i :: 0 <= i < |blocks| ==> BlockInPlace(h, h.channelOrder, blocks[i], roleMap, bits)
    ensures var r := Run(h, h.channelOrder, roleMap, bits, blocks, false);
            r.guild == h && NoOpCalls(h, r.calls)
    decreases |blocks|
  {
    if blocks != [] {
      var n := |blocks| - 1;
      var init := blocks[..n];
      assert forall i :: 0 <= i < n ==> init[i] == blocks[i];
      RunRepeat(h, roleMap, bits, init);
      var p := Run(h, h.channelOrder, roleMap, bits, init, false);
      BlockRepeat(h, roleMap, bits, blocks[n]);
      var s := BlockStep(h, h.channelOrder, roleMap, bits, blocks[n], false);
      NoOpAppend(h, p.calls, s.calls);
      assert Run(h, h.channelOrder, roleMap, bits, blocks, false) == Then(p, s);
    }
  }

  /** Idempotence: a second pass, over the channels fetched after the first, leaves the guild
      as the first left it, and its only calls re-set overwrite sets to what they already are. */
  lemma RunTwice(g0: Guild, roleMap: map<string, Id>, bits: FlagTable, blocks: seq<CategorySpec>)
    requires g0.Valid() && Distinct(blocks)
    ensures var r1 := Run(g0, g0.channelOrder, roleMap, bits, blocks, false);
            var r2 := Run(r1.guild, r1.guild.channelOrder, roleMap, bits, blocks, false);
            r2.guild == r1.guild && NoOpCalls(r1.guild, r2.calls)
  {
    RunConverges(g0, roleMap, bits, blocks);
    var r1 := Run(g0, g0.channelOrder, roleMap, bits, blocks, false);
    RunRepeat(r1.guild, roleMap, bits, blocks);
  }
}
