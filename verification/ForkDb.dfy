/** The fork database object. Its public operations are proved against the value-level
    definitions of `ForkView` and `ForkBranches`. */
module ForkDb {
  import opened Options
  import opened Blocks
  import opened ForkView
  import opened ForkBranches

  /** A view with one more, still unlinked and unreferenced item. */
  ghost function Alloc(v: View, h: Handle, b: Block): View {
    v.(items := v.items[h := Item(b, None)])
  }

  /** The outcome of pushing `b`, held by the new item `h`. */
  ghost predicate Pushed(v: View, h: Handle, b: Block, status: Status, steps: seq<Step>, w: View, emergency: bool) {
    var a := Alloc(v, h, b);
    match status
    case Known => b.Id() in v.index && w == a
    case TooOld => w == a
    case Unlinkable =>
      && v.head.Some? && b.previous != NULL_ID && b.Id() !in v.index && b.previous !in v.index
      && w == a.(unlinked := if b.Id() in v.unlinked then v.unlinked else v.unlinked[b.Id() := h])
    case Linked =>
      && a.Keyed() && a.CanEnter(h) && Reaches(a.Enter(h, emergency), steps, w, emergency)
      && (forall s :: s in steps ==> s.Link?)
    case CascadeTooOld => a.Keyed() && a.CanEnter(h) && Reaches(a.Enter(h, emergency), steps, w, emergency)
  }

  lemma AllocBare(v: View, h: Handle, b: Block)
    requires Bare(v) && h !in v.items
    ensures Bare(Alloc(v, h, b)) && Extends(v, Alloc(v, h, b))
  {
  }

  lemma EnterNewBare(v: View, h: Handle, b: Block, emergency: bool)
    requires Bare(v) && h !in v.items && Alloc(v, h, b).Keyed() && Alloc(v, h, b).CanEnter(h)
    ensures
      var w := Alloc(v, h, b).Enter(h, emergency);
      Bare(w) && Extends(v, w)
  {
    AllocBare(v, h, b);
    EnterBare(Alloc(v, h, b), h, emergency);
    ExtendsTransitive(v, Alloc(v, h, b), Alloc(v, h, b).Enter(h, emergency));
  }

  /** A push forgets nothing that the fork database held. */
  lemma PushExtends(v: View, h: Handle, b: Block, status: Status, steps: seq<Step>, w: View, emergency: bool)
    requires Bare(v) && h !in v.items && Pushed(v, h, b, status, steps, w, emergency)
    ensures Bare(w) && Extends(v, w)
  {
    hide LinksNameParents, CanRun, Run, View.Keyed, View.CanEnter, View.Enter;
    if status.Linked? || status.CascadeTooOld? {
      hide Bare, Extends;
      EnterNewBare(v, h, b, emergency);
      var a := Alloc(v, h, b).Enter(h, emergency);
      RunBare(a, steps, emergency);
      ExtendsTransitive(v, a, w);
    } else {
      AllocBare(v, h, b);
    }
  }

  /** A block number at or below the range that is cached. */
  predicate Outside(v: View, num: nat, size: nat) {
    v.head.Some? && v.head.value in v.items
    && num <= (if v.NumOf(v.head.value) > size then v.NumOf(v.head.value) - size else 0)
  }

  /** The parent links set by a repair: every linked child of `parent` without a live
      parent link gets one. */
  ghost function Repaired(v: View, parent: Handle): View
    requires parent in v.items
  {
    v.(items := map h | h in v.items ::
         if NeedsRepair(v, parent, h) then Item(v.items[h].block, Some(parent)) else v.items[h])
  }

  predicate NeedsRepair(v: View, parent: Handle, h: Handle)
    requires parent in v.items && h in v.items
  {
    v.Holds(v.index, h) && v.items[h].block.previous == v.items[parent].block.Id() && v.Parent(h).None?
  }

  lemma RepairedValid(v: View, parent: Handle)
    requires v.Valid() && parent in v.items
    ensures Repaired(v, parent).Valid() && (v.NothingLinkable() ==> Repaired(v, parent).NothingLinkable())
  {
    forall h | h in v.items
      ensures LinkOk(Repaired(v, parent).items, h)
    {
      assert LinkOk(v.items, h);
    }
  }

  lemma RepairedBare(v: View, parent: Handle)
    requires v.Keyed() && Bare(v) && parent in v.items
    ensures Bare(Repaired(v, parent))
  {
  }

  /** The items once all linked children but those in `todo` have been repaired. */
  ghost function RepairedBut(v: View, parent: Handle, todo: set<BlockId>): map<Handle, Item>
    requires parent in v.items
  {
    map h | h in v.items ::
      if NeedsRepair(v, parent, h) && v.items[h].block.Id() !in todo
      then Item(v.items[h].block, Some(parent)) else v.items[h]
  }

  lemma RepairEnds(v: View, parent: Handle, todo: set<BlockId>)
    requires v.Keyed() && parent in v.items && todo == set id | id in v.index && id.num == v.NumOf(parent) + 1
    ensures RepairedBut(v, parent, todo) == v.items && Repaired(v, parent) == v.(items := RepairedBut(v, parent, {}))
    ensures RepairedBut(v, parent, {}).Keys == v.items.Keys
  {
    forall h | h in v.items && NeedsRepair(v, parent, h)
      ensures v.items[h].block.Id() in todo
    {
      assert v.items[h].block.Id().num == v.items[h].block.previous.num + 1;
    }
  }

  /** Repairing one child. */
  lemma RepairStep(v: View, parent: Handle, todo: set<BlockId>, id: BlockId)
    requires v.Keyed() && parent in v.items && id in todo && id in v.index
    ensures
      var items, h := RepairedBut(v, parent, todo), v.index[id];
      var w := v.(items := items);
      && items.Keys == v.items.Keys && h in items && parent in items
      && items[h].block == v.items[h].block && items[parent].block == v.items[parent].block && items[h] == v.items[h]
      && w.Parent(h) == v.Parent(h)
      && RepairedBut(v, parent, todo - {id}) ==
           if items[h].block.previous == items[parent].block.Id() && w.Parent(h).None?
           then items[h := Item(items[h].block, Some(parent))] else items
  {
    hide View.Keyed;
    var items, h := RepairedBut(v, parent, todo), v.index[id];
    var w := v.(items := items);
    HolderOf(v, id);
    assert forall k :: k in v.items ==> items[k].block == v.items[k].block;
    assert forall k :: w.Alive(k) <==> v.Alive(k);
  }

  /** An id is held by one item. */
  lemma HolderOf(v: View, id: BlockId)
    requires v.Keyed() && id in v.index
    ensures v.index[id] in v.items && v.BlockOf(v.index[id]).Id() == id && v.Holds(v.index, v.index[id])
    ensures forall k :: k in v.items && v.items[k].block.Id() == id && v.Holds(v.index, k) ==> k == v.index[id]
  {
  }

  lemma WindowSame(v: View, h: Handle, b: Block, num: nat, size: nat)
    requires v.Valid() && h !in v.items
    ensures Outside(Alloc(v, h, b), num, size) <==> Outside(v, num, size)
  {
  }

  /** Blocks that are a whole window or more below the head are outside it. */
  lemma OutsideMeans(v: View, num: nat, size: nat)
    requires v.Keyed() && num > 0
    ensures Outside(v, num, size) <==> v.head.Some? && num + size <= v.NumOf(v.head.value)
  {
  }

  lemma AllPending(v: View)
    ensures v.Frontier(v.index.Keys)
  {
  }

  /** A block whose parent is not linked may wait. */
  lemma WaitingValid(v: View, h: Handle)
    requires v.Valid() && h in v.items && v.items[h].block.previous !in v.index
    ensures
      var w := v.(unlinked := v.unlinked[v.items[h].block.Id() := h]);
      w.Valid() && (v.NothingLinkable() ==> w.NothingLinkable())
  {
  }

  /** The view after a new item was entered as a base, before anything waiting is linked. */
  ghost function Based(v: View, h: Handle): View
    requires h in v.items
  {
    v.(index := v.index[v.items[h].block.Id() := h])
  }

  lemma BasedValid(v: View, h: Handle, pending: set<BlockId>)
    requires v.Valid() && h in v.items && v.items[h].block.Id() !in v.index && v.Frontier(pending)
    ensures Based(v, h).Valid() && Based(v, h).Frontier(pending + {v.items[h].block.Id()})
  {
  }

  lemma BasedBare(v: View, h: Handle, b: Block)
    requires Bare(v) && h !in v.items
    ensures Bare(Based(Alloc(v, h, b), h))
  {
  }

  /** An index without the blocks numbered below `bound`. */
  function Above(ix: map<BlockId, Handle>, bound: nat): map<BlockId, Handle> {
    map id | id in ix && id.num >= bound :: ix[id]
  }

  class ForkDatabase {
    var items: map<Handle, Item>
    var index: map<BlockId, Handle>
    var unlinked: map<BlockId, Handle>
    var head: Option<Handle>
    var held: set<Handle>
    var maxSize: nat
    var emergency: bool
    var next: Handle

    ghost predicate Valid()
      reads this
    {
      State().Valid() && Bare(State()) && forall h :: h in items ==> h < next
    }

    function State(): (v: View)
      reads this
    {
      View(items, index, unlinked, head, held)
    }

    constructor (maxSize: nat)
      ensures Valid() && State() == View(map[], map[], map[], None, {})
      ensures this.maxSize == maxSize && !emergency
    {
      items, index, unlinked, head, next := map[], map[], map[], None, 0;
      held, this.maxSize, emergency := {}, maxSize, false;
    }

    /** Whether a block number is at or below the cached range. */
    predicate OutsideWindow(num: nat)
      reads this
    {
      Outside(State(), num, maxSize)
    }

    /** Pushes one item: checks the window, links it below its parent, moves the head
        and then links everything that was waiting for it (`_push_block`). */
    method LinkItem(h: Handle, ghost pending: set<BlockId>) returns (status: Status, ghost steps: seq<Step>)
      requires State().Valid() && h in items && State().Frontier(pending)
      modifies `items, `index, `unlinked, `head
      ensures status.Known? <==> old(items[h].block.Id() in index)
      ensures status.TooOld? <==> old(items[h].block.Id() !in index && OutsideWindow(items[h].block.Num()))
      ensures status.Unlinkable? <==>
        old(items[h].block.Id() !in index && !OutsideWindow(items[h].block.Num()) && !State().CanEnter(h))
      ensures status.Unlinkable? <==> old(
        var b := items[h].block;
        && b.Id() !in index && !OutsideWindow(b.Num())
        && head.Some? && b.previous != NULL_ID && b.previous !in index)
      ensures status.Known? || status.TooOld? || status.Unlinkable? ==> State() == old(State()) && steps == []
      ensures status.Linked? || status.CascadeTooOld? ==>
        old(State()).CanEnter(h) && Reaches(old(State()).Enter(h, emergency), steps, State(), emergency)
      ensures status.Linked? ==> State().Frontier(pending) && forall s :: s in steps ==> s.Link?
      ensures status.CascadeTooOld? ==> exists id :: id in old(unlinked) && OutsideWindow(id.num)
      decreases unlinked, 2
    {
      hide LinksNameParents, LinkOk, CanRun, Run, View.Frontier, View.Holds;
      ghost var v := State();
      steps := [];
      var b := items[h].block;
      if b.Id() in index {
        return Known, [];
      }
      if OutsideWindow(b.Num()) {
        return TooOld, [];
      }
      if head.Some? && b.previous != NULL_ID {
        if b.previous !in index {
          return Unlinkable, [];
        }
        items := items[h := Item(b, Some(index[b.previous]))];
      }
      index := index[b.Id() := h];
      if head.None? || b.Num() > items[head.value].block.Num() {
        head := Some(h);
      } else if b.Num() == items[head.value].block.Num() && IdLess(b.Id(), items[head.value].block.Id()) && emergency {
        head := Some(h);
      }
      assert State() == v.Enter(h, emergency);
      EnterKeepsValid(v, h, emergency);
      EnterFrontier(v, h, emergency, pending);
      var ok;
      ok, steps := LinkWaiting(h, pending);
      status := if ok then Linked else CascadeTooOld;
    }

    /** Links the blocks that were waiting for item `h`, depth first (`_push_next`). */
    method LinkWaiting(h: Handle, ghost pending: set<BlockId>) returns (ok: bool, ghost steps: seq<Step>)
      requires State().Valid() && State().Holds(index, h)
      requires State().Frontier(pending + {items[h].block.Id()})
      modifies `items, `index, `unlinked, `head
      ensures Reaches(old(State()), steps, State(), emergency)
      ensures ok ==> State().Frontier(pending) && forall s :: s in steps ==> s.Link?
      ensures ok ==> forall id :: id in unlinked ==> items[unlinked[id]].block.previous != old(items[h].block.Id())
      ensures !ok ==> exists id :: id in old(unlinked) && OutsideWindow(id.num)
      decreases unlinked, 1
    {
      ghost var v := State();
      var x := items[h].block.Id();
      steps := [];
      while exists id :: id in unlinked && items[unlinked[id]].block.previous == x
        invariant Reaches(v, steps, State(), emergency)
        invariant State().Frontier(pending + {x}) && x in index
        invariant forall s :: s in steps ==> s.Link?
        invariant steps == [] || unlinked.Keys < v.unlinked.Keys
        decreases unlinked
      {
        ghost var v0 := State();
        var id :| id in unlinked && items[unlinked[id]].block.previous == x;
        ghost var more;
        ok, more := TakeWaiting(id, pending + {x});
        RunAppend(v, steps, more, emergency);
        steps := steps + more;
        if !ok {
          return;
        }
      }
      ok := true;
    }

    /** Takes one waiting block out of the cache and pushes it. */
    method TakeWaiting(id: BlockId, ghost pending: set<BlockId>) returns (ok: bool, ghost steps: seq<Step>)
      requires State().Valid() && State().Frontier(pending)
      requires id in unlinked && items[unlinked[id]].block.previous in index
      modifies `items, `index, `unlinked, `head
      ensures Reaches(old(State()), steps, State(), emergency) && unlinked.Keys < old(unlinked.Keys)
      ensures ok ==> State().Frontier(pending) && forall s :: s in steps ==> s.Link?
      ensures !ok ==> exists id :: id in old(unlinked) && OutsideWindow(id.num)
      decreases unlinked, 0
    {
      ghost var v := State();
      var tmp := unlinked[id];
      unlinked := unlinked - {id};
      assert State() == v.Unwait(id) && State().Valid();
      var status;
      status, steps := LinkItem(tmp, pending);
      ghost var s := if status.TooOld? then Drop(id) else Link(id);
      ReachesFirst(v, s, steps, State(), emergency);
      steps := [s] + steps;
      ok := !status.TooOld? && !status.CascadeTooOld?;
      assert status.TooOld? ==> OutsideWindow(id.num);
    }

    /** Allocates an item with no parent link. */
    method MakeItem(b: Block) returns (h: Handle)
      requires Valid()
      modifies `items, `next
      ensures Valid() && h == old(next) && h !in old(items) && State() == Alloc(old(State()), h, b)
      ensures old(State()).NothingLinkable() ==> State().NothingLinkable()
    {
      h := next;
      ghost var before := items;
      items, next := items[h := Item(b, None)], next + 1;
      forall k | k in items
        ensures LinkOk(items, k)
      {
        assert k != h ==> LinkOk(before, k);
      }
    }

    /** Pushes a block, caching it if its parent is unknown. Only a cascade that fails on
        the window check may leave a linkable block waiting. */
    method PushBlock(b: Block) returns (status: Status, ghost steps: seq<Step>)
      requires Valid()
      modifies `items, `index, `unlinked, `head, `next
      ensures Valid()
      ensures Pushed(old(State()), old(next), b, status, steps, State(), emergency)
      ensures status.TooOld? ==> old(OutsideWindow(b.Num()))
      ensures status.TooOld? <==>
        old(b.Id() !in index && head.Some? && b.Num() + maxSize <= State().NumOf(head.value))
      ensures status.CascadeTooOld? ==> exists id :: id in old(unlinked) && OutsideWindow(id.num)
      ensures old(State()).NothingLinkable() && !status.CascadeTooOld? ==> State().NothingLinkable()
    {
      hide LinksNameParents, LinkOk, CanRun, Run, View.Keyed, View.Frontier, Bare, Extends;
      ghost var settled := State().NothingLinkable();
      ghost var v0 := State();
      var h := MakeItem(b);
      ghost var a := State();
      AllPending(a);
      WindowSame(v0, h, b, b.Num(), maxSize);
      OutsideMeans(v0, b.Num(), maxSize);
      status, steps := LinkItem(h, if settled then {} else index.Keys);
      if status.Unlinkable? {
        WaitingValid(a, h);
        if b.Id() !in unlinked {
          unlinked := unlinked[b.Id() := h];
        }
      } else if status.Linked? || status.CascadeTooOld? {
        EnterKeepsValid(a, h, emergency);
        RunKeepsItems(a.Enter(h, emergency), steps, emergency);
      }
      PushExtends(v0, h, b, status, steps, State(), emergency);
    }

    /** Makes `b` the head without looking for its parent or for waiting children, so a
        child of `b` that was waiting keeps waiting. */
    method StartBlock(b: Block)
      requires Valid()
      modifies `items, `index, `head, `next
      ensures Valid() && head == Some(old(next)) && unlinked == old(unlinked)
      ensures items == old(items)[old(next) := Item(b, None)]
      ensures index == if b.Id() in old(index) then old(index) else old(index)[b.Id() := old(next)]
      ensures old(State()).NothingLinkable() ==>
        (State().NothingLinkable() <==>
         (b.Id() in old(index) || forall id :: id in unlinked ==> items[unlinked[id]].block.previous != b.Id()))
    {
      var h := MakeItem(b);
      if b.Id() !in index {
        index := index[b.Id() := h];
      }
      head := Some(h);
    }

    /** Sets the parent link of every linked child of `parent` that has no live one. */
    method RepairChildLinks(parent: Handle)
      requires Valid() && parent in items
      modifies `items
      ensures Valid() && State() == Repaired(old(State()), parent)
      ensures old(State()).NothingLinkable() ==> State().NothingLinkable()
    {
      hide LinksNameParents; hide RepairedBut; hide Repaired; hide View.Frontier; hide Bare;
      ghost var v := State();
      var todo := set id | id in index && id.num == items[parent].block.Num() + 1;
      RepairEnds(v, parent, todo);
      while todo != {}
        invariant todo <= index.Keys && items == RepairedBut(v, parent, todo)
        decreases todo
      {
        var id :| id in todo;
        RepairStep(v, parent, todo, id);
        todo := todo - {id};
        var h := index[id];
        if items[h].block.previous == items[parent].block.Id() && State().Parent(h).None? {
          items := items[h := Item(items[h].block, Some(parent))];
        }
      }
      RepairedValid(v, parent);
      RepairedBare(v, parent);
    }

    /** Enters a new main-chain block as an anchor and links what waited for it. */
    method EnterBase(b: Block) returns (ok: bool, ghost steps: seq<Step>)
      requires Valid() && b.Id() !in index
      modifies `items, `index, `unlinked, `head, `next
      ensures Valid()
      ensures Reaches(Based(Alloc(old(State()), old(next), b), old(next)), steps, State(), emergency)
      ensures !ok ==> exists id :: id in old(unlinked) && OutsideWindow(id.num)
      ensures old(State()).NothingLinkable() && ok ==> State().NothingLinkable()
    {
      hide LinksNameParents, View.Keyed, CanRun, Run, Bare;
      ghost var settled, start := State().NothingLinkable(), State();
      var h := MakeItem(b);
      ghost var pending := if settled then {} else index.Keys;
      BasedValid(State(), h, pending);
      index := index[b.Id() := h];
      ghost var v := State();
      BasedBare(start, h, b);
      ok, steps := LinkWaiting(h, pending);
      RunBare(v, steps, emergency);
      RunKeepsItems(v, steps, emergency);
    }

    /** Makes a main-chain block an anchor: enters it if it is new, and then repairs the
        links of its children. */
    method InsertAsBase(b: Block) returns (ok: bool, ghost steps: seq<Step>, ghost entered: View)
      requires Valid()
      modifies `items, `index, `unlinked, `head, `next
      ensures Valid()
      ensures old(b.Id() in index) ==> ok && State() == Repaired(old(State()), old(index[b.Id()]))
      ensures old(b.Id() !in index) ==>
        && Reaches(Based(Alloc(old(State()), old(next), b), old(next)), steps, entered, emergency)
        && b.Id() in entered.index && entered.Keyed()
        && State() == if ok then Repaired(entered, entered.index[b.Id()]) else entered
      ensures !ok ==> exists id :: id in old(unlinked) && OutsideWindow(id.num)
      ensures old(State()).NothingLinkable() && ok ==> State().NothingLinkable()
    {
      steps, entered, ok := [], State(), true;
      if b.Id() !in index {
        ok, steps := EnterBase(b);
        entered := State();
      }
      if ok {
        RepairChildLinks(index[b.Id()]);
      }
    }

    /** Shrinks the window and drops everything below it from both indexes. */
    method SetMaxSize(size: nat)
      requires Valid()
      modifies `maxSize, `index, `unlinked
      ensures Valid() && maxSize == size
      ensures head.None? ==> index == old(index) && unlinked == old(unlinked)
      ensures head.Some? ==>
        forall id :: id in index <==> id in old(index) && id.num + size >= State().NumOf(head.value)
      ensures head.Some? ==> index == Above(old(index), LowerBound(State(), size))
                             && unlinked == Above(old(unlinked), LowerBound(State(), size))
      ensures old(State()).NothingLinkable() ==> State().NothingLinkable()
    {
      maxSize := size;
      if head.None? {
        return;
      }
      var bound := LowerBound(State(), size);
      index := PruneBelow(index, bound);
      unlinked := PruneBelow(unlinked, bound);
    }

    method Remove(id: BlockId)
      requires Valid()
      modifies `index
      ensures Valid() && index == old(index) - {id}
      ensures old(State()).NothingLinkable() ==> State().NothingLinkable()
    {
      index := index - {id};
    }

    /** Moves the head to its parent; fails when there is no live parent. */
    method PopBlock() returns (ok: bool)
      requires Valid()
      modifies `head
      ensures Valid()
      ensures ok <==> old(head.Some? && State().Parent(head.value).Some?)
      ensures !ok ==> head == old(head)
      ensures ok ==> head == old(State().Parent(head.value))
      ensures ok ==> items[head.value].block.Num() + 1 == old(items[head.value].block.Num())
    {
      if head.None? {
        return false;
      }
      var p := State().Parent(head.value);
      if p.None? {
        return false;
      }
      ParentNum(State(), head.value);
      head := p;
      ok := true;
    }

    method SetHead(h: Handle)
      requires Valid() && h in items
      modifies `head
      ensures Valid() && head == Some(h)
      ensures old(State()).NothingLinkable() ==> State().NothingLinkable()
    {
      head := Some(h);
    }

    method Reset()
      requires Valid()
      modifies `head, `index, `unlinked
      ensures Valid() && State().NothingLinkable()
      ensures State() == View(items, map[], map[], None, held)
    {
      head, index, unlinked := None, map[], map[];
    }

    method SetEmergencyMode(active: bool)
      modifies `emergency
      ensures emergency == active
    {
      emergency := active;
    }

    predicate IsKnown(id: BlockId)
      reads this
    {
      id in index || id in unlinked
    }

    /** The branches of two linked tips back to their fork point. */
    method FetchBranchFrom(first: BlockId, second: BlockId) returns (r: Option<(seq<Handle>, seq<Handle>)>)
      requires Valid()
      ensures first in index && second in index ==> r == Branches(State(), index[first], index[second])
      ensures first !in index || second !in index ==> r == None
    {
      if first !in index || second !in index {
        return None;
      }
      var v := State();
      var x, y := index[first], index[second];
      var f: seq<Handle>, s: seq<Handle> := [], [];
      ghost var goal := Branches(v, x, y);
      PrependNothing(goal);
      while v.NumOf(x) > v.NumOf(y)
        invariant x in v.items && y in v.items
        invariant goal == Prepend(f, s, Branches(v, x, y))
        decreases v.NumOf(x)
      {
        if v.Parent(x).None? {
          return None;
        }
        ParentNum(v, x);
        PrependAssoc(f, s, [x], [], Branches(v, v.Parent(x).value, y));
        assert s + [] == s;
        f, x := f + [x], v.Parent(x).value;
      }
      while v.NumOf(y) > v.NumOf(x)
        invariant x in v.items && y in v.items && v.NumOf(x) <= v.NumOf(y)
        invariant goal == Prepend(f, s, Branches(v, x, y))
        decreases v.NumOf(y)
      {
        if v.Parent(y).None? {
          return None;
        }
        ParentNum(v, y);
        PrependAssoc(f, s, [], [y], Branches(v, x, v.Parent(y).value));
        assert f + [] == f;
        s, y := s + [y], v.Parent(y).value;
      }
      while v.BlockOf(x).previous != v.BlockOf(y).previous
        invariant x in v.items && y in v.items && v.NumOf(x) == v.NumOf(y)
        invariant goal == Prepend(f, s, Branches(v, x, y))
        decreases v.NumOf(x)
      {
        if v.Parent(x).None? || v.Parent(y).None? {
          return None;
        }
        ParentNum(v, x);
        ParentNum(v, y);
        PrependAssoc(f, s, [x], [y], Branches(v, v.Parent(x).value, v.Parent(y).value));
        f, s := f + [x], s + [y];
        x, y := v.Parent(x).value, v.Parent(y).value;
      }
      r := Some((f + [x], s + [y]));
    }

    /** Walks down from the head to the block with number `n`. */
    method WalkMainBranch(n: nat) returns (r: Option<Handle>)
      requires Valid() && head.Some?
      ensures r == AncestorAt(State(), head.value, n)
    {
      var v := State();
      if n > v.NumOf(head.value) {
        return None;
      }
      r := head;
      while r.Some? && v.NumOf(r.value) > n
        invariant r.Some? ==> r.value in v.items && n <= v.NumOf(r.value)
        invariant AncestorAt(v, head.value, n) == if r.None? then None else AncestorAt(v, r.value, n)
        decreases if r.Some? then v.NumOf(r.value) else 0
      {
        if v.Parent(r.value).Some? {
          ParentNum(v, r.value);
        }
        r := v.Parent(r.value);
      }
    }

    /** Looks a main-branch block up by number, walking only when several blocks have it. */
    method FetchOnMainBranch(n: nat) returns (r: Option<Handle>)
      requires Valid() && head.Some?
      ensures r == MainBranchLookup(State(), n)
    {
      var found := AtNumber(State(), n);
      if |found| == 1 {
        SingletonExists(found);
        var id :| id in found;
        return Some(index[id]);
      }
      if |found| == 0 {
        return None;
      }
      r := WalkMainBranch(n);
    }
  }

  /** The number below which blocks are pruned. */
  function LowerBound(v: View, size: nat): (bound: nat)
    requires v.Keyed() && v.head.Some?
  {
    if v.NumOf(v.head.value) > size then v.NumOf(v.head.value) - size else 0
  }

  lemma {:induction false} LowestExists(ids: set<BlockId>)
    requires ids != {}
    ensures exists id :: id in ids && forall k :: k in ids ==> id.num <= k.num
  {
    var x :| x in ids;
    if ids != {x} {
      LowestExists(ids - {x});
      var y :| y in ids - {x} && forall k :: k in ids - {x} ==> y.num <= k.num;
      var z := if x.num <= y.num then x else y;
      assert forall k :: k in ids ==> k == x || k in ids - {x};
      assert forall k :: k in ids ==> z.num <= k.num;
    }
  }

  /** Erases from the lowest number upwards until the bound is reached. */
  method PruneBelow(ix: map<BlockId, Handle>, bound: nat) returns (r: map<BlockId, Handle>)
    ensures r == Above(ix, bound)
  {
    r := ix;
    while r != map[]
      invariant forall id :: id in r ==> id in ix && r[id] == ix[id]
      invariant forall id :: id in ix && id.num >= bound ==> id in r
      decreases r
    {
      LowestExists(r.Keys);
      var id :| id in r && forall k :: k in r ==> id.num <= k.num;
      if id.num >= bound {
        assert r == Above(ix, bound);
        return;
      }
      r := r - {id};
    }
    assert r == Above(ix, bound);
  }

  /** Pruning keeps the tree closed from the raised base, so the fast lookup stays exact. */
  lemma PruneKeepsClosed(v: View, base: nat, size: nat)
    requires v.Valid() && ClosedFrom(v, base)
    ensures
      var bound := LowerBound(v, size);
      var w := v.(index := Above(v.index, bound), unlinked := Above(v.unlinked, bound));
      w.Valid() && ClosedFrom(w, if base > bound then base else bound)
  {
    var bound := LowerBound(v, size);
    var w := v.(index := Above(v.index, bound), unlinked := Above(v.unlinked, bound));
    forall id | id in w.index && id.num > bound && id.num > base
      ensures var p := w.items[w.index[id]].prev; p.Some? && w.Holds(w.index, p.value)
    {
      assert LinkOk(v.items, v.index[id]);
    }
  }
}
