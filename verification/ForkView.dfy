/** The content of the fork database as a value: a tree of linked blocks, a cache of
    blocks whose parent is not known yet, and a head pointer; and linking as a
    sequence of steps on that value. */
module ForkView {
  import opened Options
  import opened Blocks

  /** A reference to an item. Items are shared: the indexes and the head hold them,
      and a child's `prev` only names its parent without keeping it alive. */
  type Handle = nat

  datatype Item = Item(block: Block, prev: Option<Handle>)

  /** Every parent link names the block's `previous`, whose number is one less. */
  ghost predicate LinksNameParents(items: map<Handle, Item>) {
    forall h {:trigger LinkOk(items, h)} :: h in items ==> LinkOk(items, h)
  }

  ghost predicate LinkOk(items: map<Handle, Item>, h: Handle)
    requires h in items
  {
    items[h].prev.Some? ==>
      items[h].prev.value in items && items[items[h].prev.value].block.Id() == items[h].block.previous
  }

  /** The whole content of a fork database. `items` is every item ever allocated;
      only those held by an index, by the head or by a caller (`held`) are still alive. */
  datatype View = View(items: map<Handle, Item>, index: map<BlockId, Handle>,
                       unlinked: map<BlockId, Handle>, head: Option<Handle>, held: set<Handle>)
  {
    predicate Holds(ix: map<BlockId, Handle>, h: Handle) {
      h in items && items[h].block.Id() in ix && ix[items[h].block.Id()] == h
    }

    predicate Alive(h: Handle) {
      Holds(index, h) || Holds(unlinked, h) || (h in items && (head == Some(h) || h in held))
    }

    /** Locks an item's weak parent link: nothing once the parent is no longer held. */
    function Parent(h: Handle): (p: Option<Handle>)
      requires h in items
      ensures p.Some? ==> p.value in items && p == items[h].prev
    {
      var p := items[h].prev;
      if p.Some? && Alive(p.value) then p else None
    }

    function BlockOf(h: Handle): Block
      requires h in items
    {
      items[h].block
    }

    function NumOf(h: Handle): nat
      requires h in items
    {
      items[h].block.Num()
    }

    /** Both indexes are keyed by the id of the item they hold. */
    ghost predicate Keyed() {
      && (forall id :: id in index ==> index[id] in items && items[index[id]].block.Id() == id)
      && (forall id :: id in unlinked ==> unlinked[id] in items && items[unlinked[id]].block.Id() == id)
      && (head.Some? ==> head.value in items)
    }

    ghost predicate Valid() {
      Keyed() && LinksNameParents(items)
    }

    /** Every waiting block whose parent is linked hangs below one of `pending`. */
    ghost predicate Frontier(pending: set<BlockId>) {
      forall id :: id in unlinked && unlinked[id] in items ==>
        var parent := items[unlinked[id]].block.previous;
        parent in index ==> parent in pending
    }

    /** No unlinked block has its parent in the linked index. */
    ghost predicate NothingLinkable() {
      Frontier({})
    }

    /** Links item `h` below its parent (unless it is a root), enters it into the index
        and moves the head to it if it beats the present one. */
    function Enter(h: Handle, emergency: bool): (v: View)
      requires Keyed() && h in items && CanEnter(h)
    {
      var b := items[h].block;
      var linked := if IsRoot(b) then items else items[h := Item(b, Some(index[b.previous]))];
      var best := if head.None? || Beats(emergency, b, items[head.value].block) then Some(h) else head;
      View(linked, index[b.Id() := h], unlinked, best, held)
    }

    /** A block that is entered without a parent. */
    predicate IsRoot(b: Block) {
      head.None? || b.previous == NULL_ID
    }

    predicate CanEnter(h: Handle)
      requires h in items
    {
      items[h].block.Id() !in index && (IsRoot(items[h].block) || items[h].block.previous in index)
    }

    /** Takes a block out of the unlinked cache. */
    function Unwait(id: BlockId): View {
      View(items, index, unlinked - {id}, head, held)
    }

    /** The linked blocks by id. */
    function Linked(): map<BlockId, Block>
      requires Keyed()
    {
      map id | id in index :: items[index[id]].block
    }

    /** The waiting blocks by id. */
    function Waiting(): map<BlockId, Block>
      requires Keyed()
    {
      map id | id in unlinked :: items[unlinked[id]].block
    }
  }

  /** `a` replaces `b` as head: it is higher or, in emergency mode only, at the same
      height with the smaller id. */
  predicate Beats(emergency: bool, a: Block, b: Block) {
    a.Num() > b.Num() || (emergency && a.Num() == b.Num() && IdLess(a.Id(), b.Id()))
  }

  /** The head is linked and nothing linked beats it. */
  ghost predicate HeadIsBest(v: View, emergency: bool)
    requires v.Keyed()
  {
    && v.head.Some? && v.Holds(v.index, v.head.value)
    && forall id :: id in v.index ==> !Beats(emergency, v.items[v.index[id]].block, v.items[v.head.value].block)
  }

  /** How a push ends. `CascadeTooOld` is the window check failing on a waiting block
      while the blocks below the pushed one were being linked. */
  datatype Status = Linked | Known | TooOld | Unlinkable | CascadeTooOld

  // ---------------------------------------------------------------------------
  // Linking as a sequence of steps
  // ---------------------------------------------------------------------------

  /** One step of linking: a waiting block leaves the cache and is entered below its
      linked parent, or is dropped because it fell out of the window. */
  datatype Step = Link(id: BlockId) | Drop(id: BlockId)

  ghost predicate CanStep(v: View, s: Step)
    requires v.Keyed()
  {
    s.id in v.unlinked && (s.Link? && s.id !in v.index ==> v.Unwait(s.id).CanEnter(v.unlinked[s.id]))
  }

  /** Nothing leaves the linked index, nothing joins the cache and a head stays. */
  ghost predicate Advances(v: View, w: View) {
    v.index.Keys <= w.index.Keys && w.unlinked.Keys <= v.unlinked.Keys && (v.head.Some? ==> w.head.Some?)
  }

  ghost function StepView(v: View, s: Step, emergency: bool): (w: View)
    requires v.Valid() && CanStep(v, s)
    ensures w.Valid() && Advances(v, w)
    ensures w.unlinked == v.unlinked - {s.id}
  {
    var w := v.Unwait(s.id);
    if s.Drop? || s.id in v.index then w
    else
      EnterKeepsValid(w, v.unlinked[s.id], emergency);
      w.Enter(v.unlinked[s.id], emergency)
  }

  ghost predicate CanRun(v: View, steps: seq<Step>, emergency: bool)
    requires v.Valid()
    decreases |steps|
  {
    steps == [] || (CanStep(v, steps[0]) && CanRun(StepView(v, steps[0], emergency), steps[1..], emergency))
  }

  ghost function Run(v: View, steps: seq<Step>, emergency: bool): (w: View)
    requires v.Valid() && CanRun(v, steps, emergency)
    ensures w.Valid() && Advances(v, w)
    decreases |steps|
  {
    if steps == [] then v else Run(StepView(v, steps[0], emergency), steps[1..], emergency)
  }

  lemma {:induction false} RunAppend(v: View, s: seq<Step>, t: seq<Step>, emergency: bool)
    requires v.Valid() && CanRun(v, s, emergency) && CanRun(Run(v, s, emergency), t, emergency)
    ensures CanRun(v, s + t, emergency)
    ensures Run(v, s + t, emergency) == Run(Run(v, s, emergency), t, emergency)
    decreases |s|
  {
    if s == [] {
      assert s + t == t;
    } else {
      assert (s + t)[1..] == s[1..] + t;
      RunAppend(StepView(v, s[0], emergency), s[1..], t, emergency);
    }
  }

  /** `steps` lead from `v` to `w`. */
  ghost predicate Reaches(v: View, steps: seq<Step>, w: View, emergency: bool) {
    v.Valid() && CanRun(v, steps, emergency) && w == Run(v, steps, emergency)
  }

  /** A waiting block was taken out first: it was dropped, already known, or linked
      together with what waited for it. */
  lemma ReachesFirst(v: View, s: Step, more: seq<Step>, after: View, emergency: bool)
    requires v.Valid() && s.id in v.unlinked
    requires
      var h := v.unlinked[s.id];
      if s.Drop? || s.id in v.index then after == v.Unwait(s.id) && more == []
      else v.Unwait(s.id).CanEnter(h) && Reaches(v.Unwait(s.id).Enter(h, emergency), more, after, emergency)
    ensures Reaches(v, [s] + more, after, emergency)
  {
    assert ([s] + more)[1..] == more;
  }

  lemma EnterKeepsKeyed(v: View, h: Handle, emergency: bool)
    requires v.Keyed() && h in v.items && v.CanEnter(h)
    ensures v.Enter(h, emergency).Keyed()
  {
  }

  lemma EnterKeepsValid(v: View, h: Handle, emergency: bool)
    requires v.Valid() && h in v.items && v.CanEnter(h)
    ensures v.Enter(h, emergency).Valid()
  {
    EnterKeepsKeyed(v, h, emergency);
    var w := v.Enter(h, emergency);
    forall k | k in w.items
      ensures LinkOk(w.items, k)
    {
      assert LinkOk(v.items, k);
    }
  }

  lemma EnterFrontier(v: View, h: Handle, emergency: bool, pending: set<BlockId>)
    requires v.Keyed() && h in v.items && v.CanEnter(h) && v.Frontier(pending)
    ensures v.Enter(h, emergency).Frontier(pending + {v.items[h].block.Id()})
  {
  }

  /** What linking may have done to a view, whatever order it linked blocks in: blocks
      of `pool` were entered below their parents. */
  ghost predicate Grown(before: View, after: View, pool: map<BlockId, Handle>)
  {
    && before.Keyed() && after.Keyed()
    && (forall h :: h in before.items ==> h in after.items && after.items[h].block == before.items[h].block)
    && (forall id :: id in before.index ==>
          id in after.index && after.index[id] == before.index[id]
          && after.items[after.index[id]] == before.items[before.index[id]])
    && (forall id :: id in after.unlinked ==>
          && id in before.unlinked && after.unlinked[id] == before.unlinked[id]
          && (id in after.index || (id in pool && pool[id] == after.unlinked[id])))
    && (forall id :: id in after.index && id !in before.index ==> EnteredFrom(after, id, pool, before))
    && (before.head.Some? ==> after.head.Some?)
  }

  /** Block `id` comes from `pool` and, unless it is a root, is linked to its parent. */
  ghost predicate EnteredFrom(after: View, id: BlockId, pool: map<BlockId, Handle>, before: View)
    requires after.Keyed() && id in after.index
  {
    var item := after.items[after.index[id]];
    && id in pool && after.index[id] == pool[id]
    && (!before.IsRoot(item.block) ==>
          item.block.previous in after.index && item.prev == Some(after.index[item.block.previous]))
  }

  /** No block of `pool` was dropped: each is linked or still waits. */
  ghost predicate NothingLost(pool: map<BlockId, Handle>, after: View) {
    forall id :: id in pool ==> id in after.unlinked || id in after.index
  }

  lemma GrownTransitive(a: View, b: View, c: View, pool: map<BlockId, Handle>)
    requires Grown(a, b, pool) && Grown(b, c, b.unlinked)
    ensures Grown(a, c, pool)
  {
    forall id | id in c.index && id !in a.index
      ensures EnteredFrom(c, id, pool, a)
    {
      if id in b.index {
        assert EnteredFrom(b, id, pool, a);
      } else {
        assert EnteredFrom(c, id, b.unlinked, b);
      }
    }
  }

  lemma EnterGrows(v: View, h: Handle, emergency: bool)
    requires v.Keyed() && h in v.items && v.CanEnter(h)
    ensures Grown(v, v.Enter(h, emergency), v.unlinked[v.items[h].block.Id() := h])
  {
    EnterKeepsKeyed(v, h, emergency);
    var w := v.Enter(h, emergency);
    assert w.items.Keys == v.items.Keys;
    assert EnteredFrom(w, v.items[h].block.Id(), v.unlinked[v.items[h].block.Id() := h], v);
  }

  lemma StepGrows(v: View, s: Step, emergency: bool)
    requires v.Valid() && CanStep(v, s)
    ensures Grown(v, StepView(v, s, emergency), v.unlinked)
    ensures s.Link? ==> NothingLost(v.unlinked, StepView(v, s, emergency))
  {
    var u, w := v.Unwait(s.id), StepView(v, s, emergency);
    if s.Link? && s.id !in v.index {
      EnterGrows(u, v.unlinked[s.id], emergency);
      assert u.unlinked[s.id := v.unlinked[s.id]] == v.unlinked;
      forall k | k in w.index && k !in v.index
        ensures EnteredFrom(w, k, v.unlinked, v)
      {
        assert EnteredFrom(w, k, v.unlinked, u);
      }
    }
  }

  /** Every sequence of linking steps only grows the linked tree and, if it drops
      nothing, loses nothing. */
  lemma {:induction false} RunGrows(v: View, steps: seq<Step>, emergency: bool)
    requires v.Valid() && CanRun(v, steps, emergency)
    ensures Grown(v, Run(v, steps, emergency), v.unlinked)
    ensures (forall s :: s in steps ==> s.Link?) ==> NothingLost(v.unlinked, Run(v, steps, emergency))
    decreases |steps|
  {
    if steps != [] {
      var w := StepView(v, steps[0], emergency);
      StepGrows(v, steps[0], emergency);
      RunGrows(w, steps[1..], emergency);
      GrownTransitive(v, w, Run(v, steps, emergency), v.unlinked);
    }
  }

  /** Linking allocates nothing. */
  lemma {:induction false} RunKeepsItems(v: View, steps: seq<Step>, emergency: bool)
    requires v.Valid() && CanRun(v, steps, emergency)
    ensures Run(v, steps, emergency).items.Keys == v.items.Keys
    decreases |steps|
  {
    if steps != [] {
      RunKeepsItems(StepView(v, steps[0], emergency), steps[1..], emergency);
    }
  }

  // ---------------------------------------------------------------------------
  // What later views remember of earlier ones
  // ---------------------------------------------------------------------------

  /** No waiting item has a parent link or is linked itself. */
  ghost predicate Bare(v: View) {
    forall id :: id in v.unlinked ==>
      && v.unlinked[id] in v.items && v.items[v.unlinked[id]].prev.None?
      && (id in v.index ==> v.index[id] != v.unlinked[id])
  }

  /** Everything in `v` is in `w`: items with their blocks and parent links, and linked blocks with their items. */
  ghost predicate Extends(v: View, w: View) {
    && (forall h :: h in v.items ==>
          && h in w.items && w.items[h].block == v.items[h].block
          && (v.items[h].prev.Some? ==> w.items[h].prev == v.items[h].prev))
    && (forall id :: id in v.index ==> id in w.index && w.index[id] == v.index[id])
  }

  lemma ExtendsTransitive(a: View, b: View, c: View)
    requires Extends(a, b) && Extends(b, c)
    ensures Extends(a, c)
  {
  }

  lemma EnterBare(v: View, h: Handle, emergency: bool)
    requires v.Keyed() && h in v.items && v.CanEnter(h) && Bare(v) && v.items[h].prev.None? && !v.Holds(v.unlinked, h)
    ensures Bare(v.Enter(h, emergency)) && Extends(v, v.Enter(h, emergency))
  {
  }

  lemma StepBare(v: View, s: Step, emergency: bool)
    requires v.Valid() && CanStep(v, s) && Bare(v)
    ensures Bare(StepView(v, s, emergency)) && Extends(v, StepView(v, s, emergency))
  {
    var u := v.Unwait(s.id);
    if s.Link? && s.id !in v.index {
      EnterBare(u, v.unlinked[s.id], emergency);
    }
  }

  /** Linking forgets nothing. */
  lemma {:induction false} RunBare(v: View, steps: seq<Step>, emergency: bool)
    requires v.Valid() && CanRun(v, steps, emergency) && Bare(v)
    ensures Bare(Run(v, steps, emergency)) && Extends(v, Run(v, steps, emergency))
    decreases |steps|
  {
    hide Bare, Extends, StepView, CanStep, View.Keyed, LinksNameParents;
    if steps != [] {
      var w := StepView(v, steps[0], emergency);
      StepBare(v, steps[0], emergency);
      RunBare(w, steps[1..], emergency);
      ExtendsTransitive(v, w, Run(v, steps, emergency));
    } else {
      ExtendsSelf(v);
    }
  }

  lemma ExtendsSelf(v: View)
    ensures Extends(v, v)
  {
  }

  lemma EnterKeepsBest(v: View, h: Handle, emergency: bool)
    requires v.Keyed() && h in v.items && v.CanEnter(h)
    requires (v.index == map[] && v.head.None?) || HeadIsBest(v, emergency)
    ensures v.Enter(h, emergency).Keyed() && HeadIsBest(v.Enter(h, emergency), emergency)
  {
    EnterKeepsKeyed(v, h, emergency);
  }

  /** Linking keeps the head on the best linked block, in whatever order blocks are linked. */
  lemma {:induction false} RunKeepsBest(v: View, steps: seq<Step>, emergency: bool)
    requires v.Valid() && CanRun(v, steps, emergency) && HeadIsBest(v, emergency)
    ensures HeadIsBest(Run(v, steps, emergency), emergency)
    decreases |steps|
  {
    if steps != [] {
      var s := steps[0];
      if s.Link? && s.id !in v.index {
        assert HeadIsBest(v.Unwait(s.id), emergency);
        EnterKeepsBest(v.Unwait(s.id), v.unlinked[s.id], emergency);
      }
      RunKeepsBest(StepView(v, s, emergency), steps[1..], emergency);
    }
  }
}
