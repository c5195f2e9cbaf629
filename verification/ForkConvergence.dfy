/** Order independence of block delivery in emergency mode. */
module ForkConvergence {
  import opened Options
  import opened Blocks
  import opened ForkView
  import opened ForkDb

  /** `b` descends from the root through delivered blocks. */
  ghost predicate Connected(b: Block, root: Block, delivered: set<Block>)
    decreases b.Num()
  {
    b == root ||
    (b in delivered && exists p :: p in delivered + {root} && p.Id() == b.previous && Connected(p, root, delivered))
  }

  /** The blocks of a view, without items and handles. */
  ghost predicate TreeSettled(linked: map<BlockId, Block>, waiting: map<BlockId, Block>,
                              root: Block, delivered: set<Block>)
  {
    && root.Id() in linked && root.Id() !in waiting
    && (forall b :: b in delivered + {root} ==> b.Id() in linked || b.Id() in waiting)
    && (forall id :: id in linked ==> linked[id].Id() == id && linked[id] in delivered + {root})
    && (forall id :: id in waiting ==> waiting[id].Id() == id && waiting[id] in delivered + {root})
    && (forall id :: id in linked && id != root.Id() ==> linked[id].previous in linked)
    && (forall id :: id in waiting ==> waiting[id].previous !in linked)
  }

  /** Every delivered block is linked or waits, nothing else is held, every linked block
      but the root has a linked parent, no waiting block does, and the head is the best. */
  ghost predicate Settled(v: View, root: Block, delivered: set<Block>, emergency: bool) {
    v.Valid() && HeadIsBest(v, emergency) && TreeSettled(v.Linked(), v.Waiting(), root, delivered)
  }

  /** In a settled tree exactly the connected blocks are linked. */
  lemma {:induction false} LinkedIffConnected(linked: map<BlockId, Block>, waiting: map<BlockId, Block>,
                                              root: Block, delivered: set<Block>, b: Block)
    requires TreeSettled(linked, waiting, root, delivered)
    requires CollisionFree(delivered + {root}) && b in delivered + {root}
    ensures b.Id() in linked <==> Connected(b, root, delivered)
    decreases b.Num()
  {
    if b != root {
      assert b in delivered;
      forall p | p in delivered + {root} && p.Id() == b.previous
        ensures p.Id() in linked <==> Connected(p, root, delivered)
      {
        LinkedIffConnected(linked, waiting, root, delivered, p);
      }
      if b.Id() in linked {
        assert linked[b.Id()] == b;
        assert linked[b.previous].Id() == b.previous;
      }
    }
  }

  lemma SettledIncluded(l: map<BlockId, Block>, w: map<BlockId, Block>, l': map<BlockId, Block>,
                        w': map<BlockId, Block>, root: Block, delivered: set<Block>)
    requires TreeSettled(l, w, root, delivered) && TreeSettled(l', w', root, delivered)
    requires CollisionFree(delivered + {root})
    ensures forall id :: id in l ==> id in l' && l'[id] == l[id]
    ensures forall id :: id in w ==> id in w' && w'[id] == w[id]
  {
    forall id | id in l
      ensures id in l' && l'[id] == l[id]
    {
      LinkedIffConnected(l, w, root, delivered, l[id]);
      LinkedIffConnected(l', w', root, delivered, l[id]);
    }
    forall id | id in w
      ensures id in w' && w'[id] == w[id]
    {
      LinkedIffConnected(l, w, root, delivered, w[id]);
      LinkedIffConnected(l', w', root, delivered, w[id]);
    }
  }

  /** Two settled views of one set of blocks hold the same linked blocks, the same
      waiting blocks and the same head block. */
  lemma SettledIsUnique(v: View, w: View, root: Block, delivered: set<Block>, emergency: bool)
    requires Settled(v, root, delivered, emergency) && Settled(w, root, delivered, emergency)
    requires CollisionFree(delivered + {root})
    ensures v.Linked() == w.Linked()
    ensures v.Waiting() == w.Waiting()
    ensures v.NumOf(v.head.value) == w.NumOf(w.head.value)
    ensures emergency ==> v.BlockOf(v.head.value) == w.BlockOf(w.head.value)
  {
    SettledIncluded(v.Linked(), v.Waiting(), w.Linked(), w.Waiting(), root, delivered);
    SettledIncluded(w.Linked(), w.Waiting(), v.Linked(), v.Waiting(), root, delivered);
    var a, b := v.BlockOf(v.head.value), w.BlockOf(w.head.value);
    assert v.Linked()[a.Id()] == a && w.Linked()[b.Id()] == b;
    assert w.items[w.index[a.Id()]].block == a && v.items[v.index[b.Id()]].block == b;
    assert !Beats(emergency, a, b) && !Beats(emergency, b, a);
  }

  /** What linking `b` does to the blocks: it and waiting blocks below it move over. */
  ghost predicate TreeGrown(l: map<BlockId, Block>, w: map<BlockId, Block>, b: Block,
                            l': map<BlockId, Block>, w': map<BlockId, Block>)
  {
    && (forall id :: id in l ==> id in l' && l'[id] == l[id])
    && (forall id :: id in w' ==> id in w && w'[id] == w[id])
    && (forall id :: id in w || id == b.Id() ==> id in l' || id in w')
    && (forall id :: id in l' && id !in l ==>
          l'[id] == (if id == b.Id() then b else if id in w then w[id] else l'[id])
          && (id == b.Id() || id in w) && l'[id].previous in l')
    && (forall id :: id in w' ==> w'[id].previous !in l')
  }

  lemma TreeGrownSettled(l: map<BlockId, Block>, w: map<BlockId, Block>, b: Block,
                         l': map<BlockId, Block>, w': map<BlockId, Block>, root: Block, delivered: set<Block>)
    requires TreeSettled(l, w, root, delivered) && TreeGrown(l, w, b, l', w')
    ensures TreeSettled(l', w', root, delivered + {b})
  {
  }

  /** A view `w` reached from `v` by pushing `b` and linking what waited for it. */
  ghost predicate LinkedBelow(v: View, h: Handle, b: Block, w: View) {
    var pool := v.unlinked[b.Id() := h];
    && v.Valid() && v.head.Some? && h !in v.items && b.previous != NULL_ID
    && (forall id :: id in v.unlinked ==> v.items[v.unlinked[id]].block.previous != NULL_ID)
    && Grown(Alloc(v, h, b), w, pool) && NothingLost(pool, w) && w.NothingLinkable()
  }

  lemma EnteredBlock(v: View, h: Handle, b: Block, w: View, id: BlockId)
    requires LinkedBelow(v, h, b, w) && id in w.index && id !in v.index
    ensures id == b.Id() ==> w.items[w.index[id]].block == b
    ensures id != b.Id() ==> id in v.unlinked && w.items[w.index[id]].block == v.items[v.unlinked[id]].block
    ensures w.items[w.index[id]].block.previous in w.index
  {
    assert EnteredFrom(w, id, v.unlinked[b.Id() := h], Alloc(v, h, b));
  }

  lemma KeptBlocks(v: View, h: Handle, b: Block, w: View)
    requires LinkedBelow(v, h, b, w)
    ensures forall id :: id in v.Linked() ==> id in w.Linked() && w.Linked()[id] == v.Linked()[id]
    ensures forall id :: id in w.Waiting() ==>
      id in v.Waiting() && w.Waiting()[id] == v.Waiting()[id] && w.Waiting()[id].previous !in w.Linked()
  {
  }

  lemma LinkingGrowsTree(v: View, h: Handle, b: Block, w: View)
    requires LinkedBelow(v, h, b, w)
    ensures TreeGrown(v.Linked(), v.Waiting(), b, w.Linked(), w.Waiting())
  {
    var l, l', wt := v.Linked(), w.Linked(), v.Waiting();
    assert forall id :: id in wt || id == b.Id() ==> id in v.unlinked[b.Id() := h];
    KeptBlocks(v, h, b, w);
    forall id | id in l' && id !in l
      ensures id == b.Id() ==> l'[id] == b
      ensures id != b.Id() ==> id in wt && l'[id] == wt[id]
      ensures l'[id].previous in l'
    {
      EnteredBlock(v, h, b, w, id);
    }
  }

  lemma LinkedKeepsBest(v: View, h: Handle, b: Block, steps: seq<Step>, w: View, emergency: bool)
    requires v.Valid() && HeadIsBest(v, emergency) && h !in v.items
    requires Pushed(v, h, b, Status.Linked, steps, w, emergency)
    ensures w.Valid() && HeadIsBest(w, emergency)
  {
    var a := Alloc(v, h, b);
    assert HeadIsBest(a, emergency);
    EnterKeepsBest(a, h, emergency);
    RunKeepsBest(a.Enter(h, emergency), steps, emergency);
  }

  /** A push only grows the tree out of the pushed block and the cache. */
  lemma PushedGrows(v: View, h: Handle, b: Block, steps: seq<Step>, w: View, emergency: bool)
    requires v.Valid() && h !in v.items && Pushed(v, h, b, CascadeTooOld, steps, w, emergency)
    ensures Grown(Alloc(v, h, b), w, v.unlinked[b.Id() := h])
    ensures (forall s :: s in steps ==> s.Link?) ==> NothingLost(v.unlinked[b.Id() := h], w)
  {
    var a := Alloc(v, h, b);
    EnterGrows(a, h, emergency);
    RunGrows(a.Enter(h, emergency), steps, emergency);
    GrownTransitive(a, a.Enter(h, emergency), w, v.unlinked[b.Id() := h]);
  }

  lemma PushedLinksBelow(v: View, h: Handle, b: Block, steps: seq<Step>, w: View, emergency: bool)
    requires v.Valid() && v.head.Some? && h !in v.items && b.previous != NULL_ID
    requires forall id :: id in v.unlinked ==> v.items[v.unlinked[id]].block.previous != NULL_ID
    requires Pushed(v, h, b, Status.Linked, steps, w, emergency) && w.NothingLinkable()
    ensures LinkedBelow(v, h, b, w)
  {
    PushedGrows(v, h, b, steps, w, emergency);
  }

  lemma LinkedKeepsSettled(v: View, h: Handle, b: Block, steps: seq<Step>, w: View, root: Block, delivered: set<Block>,
                           emergency: bool)
    requires Settled(v, root, delivered, emergency) && h !in v.items && b.previous != NULL_ID
    requires forall x :: x in delivered ==> x.previous != NULL_ID
    requires Pushed(v, h, b, Status.Linked, steps, w, emergency) && w.NothingLinkable()
    ensures Settled(w, root, delivered + {b}, emergency)
  {
    LinkedKeepsBest(v, h, b, steps, w, emergency);
    forall id | id in v.unlinked
      ensures v.items[v.unlinked[id]].block.previous != NULL_ID
    {
      assert v.Waiting()[id] in delivered + {root} && v.Waiting()[id].Id() == id;
    }
    PushedLinksBelow(v, h, b, steps, w, emergency);
    LinkingGrowsTree(v, h, b, w);
    TreeGrownSettled(v.Linked(), v.Waiting(), b, w.Linked(), w.Waiting(), root, delivered);
  }

  /** The head stays the best when only the cache or unreferenced items change. */
  lemma SameTreeKeepsBest(v: View, w: View, emergency: bool)
    requires v.Valid() && w.Valid() && HeadIsBest(v, emergency)
    requires w.index == v.index && w.head == v.head
    requires forall k :: k in v.items ==> k in w.items && w.items[k].block == v.items[k].block
    ensures HeadIsBest(w, emergency) && w.Linked() == v.Linked()
  {
  }

  lemma UnlinkedKeepsSettled(v: View, h: Handle, b: Block, status: Status, steps: seq<Step>, w: View,
                             root: Block, delivered: set<Block>, emergency: bool)
    requires Settled(v, root, delivered, emergency) && CollisionFree(delivered + {b} + {root}) && h !in v.items
    requires Pushed(v, h, b, status, steps, w, emergency) && w.Valid()
    requires status.Known? || status.Unlinkable?
    ensures Settled(w, root, delivered + {b}, emergency)
  {
    SameTreeKeepsBest(v, w, emergency);
    WaitingAfterPush(v, h, b, status, steps, w, emergency);
    TreeKeepsSettled(v.Linked(), v.Waiting(), b, w.Waiting(), root, delivered);
  }

  /** Delivering one more block keeps the view settled, whatever the block is. */
  lemma PushKeepsSettled(v: View, h: Handle, b: Block, status: Status, steps: seq<Step>, w: View,
                         root: Block, delivered: set<Block>, emergency: bool)
    requires Settled(v, root, delivered, emergency) && CollisionFree(delivered + {b} + {root})
    requires h !in v.items && b.previous != NULL_ID
    requires forall x :: x in delivered ==> x.previous != NULL_ID
    requires Pushed(v, h, b, status, steps, w, emergency) && w.Valid() && w.NothingLinkable()
    requires status.Known? || status.Unlinkable? || status.Linked?
    ensures Settled(w, root, delivered + {b}, emergency)
  {
    hide Settled; hide Pushed;
    if status.Linked? {
      LinkedKeepsSettled(v, h, b, steps, w, root, delivered, emergency);
    } else {
      UnlinkedKeepsSettled(v, h, b, status, steps, w, root, delivered, emergency);
    }
  }

  lemma WaitingAfterPush(v: View, h: Handle, b: Block, status: Status, steps: seq<Step>, w: View, emergency: bool)
    requires v.Valid() && h !in v.items && w.Valid()
    requires status.Known? || status.Unlinkable?
    requires Pushed(v, h, b, status, steps, w, emergency)
    ensures w.Waiting() ==
      if b.Id() in v.Linked() || b.Id() in v.Waiting() then v.Waiting() else v.Waiting()[b.Id() := b]
    ensures b.Id() in v.Linked() || b.previous !in v.Linked()
  {
  }

  lemma TreeKeepsSettled(l: map<BlockId, Block>, w: map<BlockId, Block>, b: Block, w': map<BlockId, Block>,
                         root: Block, delivered: set<Block>)
    requires TreeSettled(l, w, root, delivered) && CollisionFree(delivered + {b} + {root})
    requires w' == if b.Id() in l || b.Id() in w then w else w[b.Id() := b]
    requires b.Id() in l || b.previous !in l
    ensures TreeSettled(l, w', root, delivered + {b})
  {
  }

  /** The blocks all fit into one window of `size`, none is a chain's first block, and
      their ids do not collide. */
  ghost predicate Deliverable(root: Block, blocks: set<Block>, size: nat) {
    && CollisionFree(blocks + {root})
    && (forall b :: b in blocks ==> b.previous != NULL_ID)
    && (forall a, b :: a in blocks + {root} && b in blocks + {root} ==> a.Num() + size > b.Num())
  }

  /** While only deliverable blocks are held, none of them is outside the window. */
  lemma HeadWithinWindow(v: View, root: Block, delivered: set<Block>, blocks: set<Block>, size: nat, b: Block,
                         emergency: bool)
    requires Settled(v, root, delivered, emergency) && delivered <= blocks && Deliverable(root, blocks, size)
    requires b in blocks + {root}
    ensures b.Num() + size > v.NumOf(v.head.value)
  {
    var top := v.BlockOf(v.head.value);
    assert v.Linked()[top.Id()] in delivered + {root};
  }

  lemma StartedSettled(v: View, root: Block, emergency: bool)
    requires v.Valid() && v.head.Some? && v.Holds(v.index, v.head.value) && v.BlockOf(v.head.value) == root
    requires v.index.Keys == {root.Id()} && v.unlinked == map[]
    ensures Settled(v, root, {}, emergency)
  {
    assert forall id :: id in v.index ==> id == root.Id();
  }

  lemma NothingLinkableWhenSettled(v: View, root: Block, delivered: set<Block>, emergency: bool)
    requires Settled(v, root, delivered, emergency)
    ensures v.NothingLinkable()
  {
    forall id | id in v.unlinked
      ensures v.items[v.unlinked[id]].block.previous !in v.index
    {
      assert v.Waiting()[id].previous !in v.Linked();
    }
  }

  /** Linking puts the head on one of the blocks that were there or were pushed. */
  lemma HeadComesFrom(v: View, h: Handle, b: Block, steps: seq<Step>, w: View, root: Block, delivered: set<Block>,
                      emergency: bool)
    requires Settled(v, root, delivered, emergency) && h !in v.items
    requires Pushed(v, h, b, CascadeTooOld, steps, w, emergency)
    ensures w.Valid() && w.head.Some? && w.BlockOf(w.head.value) in delivered + {b} + {root}
  {
    hide LinksNameParents; hide CanRun; hide Run; hide Reaches;
    LinkedHead(v, h, b, steps, w, emergency);
    PushedGrows(v, h, b, steps, w, emergency);
    var id := w.BlockOf(w.head.value).Id();
    if id in v.index {
      assert v.Linked()[id] in delivered + {root};
    } else {
      assert EnteredFrom(w, id, v.unlinked[b.Id() := h], Alloc(v, h, b));
      assert id != b.Id() ==> v.Waiting()[id] in delivered + {root};
    }
  }

  lemma LinkedHead(v: View, h: Handle, b: Block, steps: seq<Step>, w: View, emergency: bool)
    requires v.Valid() && HeadIsBest(v, emergency) && h !in v.items
    requires Pushed(v, h, b, CascadeTooOld, steps, w, emergency)
    ensures w.Valid() && HeadIsBest(w, emergency)
  {
    hide LinksNameParents; hide CanRun; hide Run;
    var a := Alloc(v, h, b);
    assert HeadIsBest(a, emergency);
    EnterKeepsBest(a, h, emergency);
    RunKeepsBest(a.Enter(h, emergency), steps, emergency);
  }

  lemma PushedInWindow(v: View, h: Handle, b: Block, status: Status, steps: seq<Step>, w: View, size: nat,
                       root: Block, delivered: set<Block>, blocks: set<Block>, emergency: bool)
    requires Settled(v, root, delivered, emergency) && h !in v.items && delivered <= blocks && b in blocks
    requires Deliverable(root, blocks, size)
    requires Pushed(v, h, b, status, steps, w, emergency) && w.Valid()
    requires status.TooOld? ==> b.Num() + size <= v.NumOf(v.head.value)
    requires status.CascadeTooOld? ==>
      exists id :: id in v.unlinked && w.head.Some? && id.num + size <= w.NumOf(w.head.value)
    ensures !status.TooOld? && !status.CascadeTooOld?
  {
    HeadWithinWindow(v, root, delivered, blocks, size, b, emergency);
    if status.CascadeTooOld? {
      HeadComesFrom(v, h, b, steps, w, root, delivered, emergency);
      forall id | id in v.unlinked
        ensures id.num + size > w.NumOf(w.head.value)
      {
        assert v.Waiting()[id] in blocks + {root};
      }
      assert false;
    }
  }

  /** One delivery: the window hypothesis rules the two failures out. */
  lemma DeliveryStep(v: View, h: Handle, b: Block, status: Status, steps: seq<Step>, w: View, size: nat,
                     root: Block, delivered: set<Block>, blocks: set<Block>, emergency: bool)
    requires Settled(v, root, delivered, emergency) && h !in v.items && delivered <= blocks && b in blocks
    requires Deliverable(root, blocks, size)
    requires Pushed(v, h, b, status, steps, w, emergency) && w.Valid()
    requires status.TooOld? ==> b.Num() + size <= v.NumOf(v.head.value)
    requires status.CascadeTooOld? ==>
      exists id :: id in v.unlinked && w.head.Some? && id.num + size <= w.NumOf(w.head.value)
    requires !status.CascadeTooOld? ==> w.NothingLinkable()
    ensures Settled(w, root, delivered + {b}, emergency)
  {
    hide Settled; hide Pushed;
    PushedInWindow(v, h, b, status, steps, w, size, root, delivered, blocks, emergency);
    PushKeepsSettled(v, h, b, status, steps, w, root, delivered, emergency);
  }

  method DeliverOne(db: ForkDatabase, b: Block, ghost root: Block, ghost delivered: set<Block>,
                    ghost blocks: set<Block>)
    requires db.Valid() && Settled(db.State(), root, delivered, db.emergency)
    requires delivered <= blocks && b in blocks && Deliverable(root, blocks, db.maxSize)
    modifies db`items, db`index, db`unlinked, db`head, db`next
    ensures db.Valid() && Settled(db.State(), root, delivered + {b}, db.emergency)
  {
    hide Settled; hide Deliverable; hide Pushed;
    ghost var v, h := db.State(), db.next;
    NothingLinkableWhenSettled(v, root, delivered, db.emergency);
    var status;
    ghost var steps;
    status, steps := db.PushBlock(b);
    DeliveryStep(v, h, b, status, steps, db.State(), db.maxSize, root, delivered, blocks, db.emergency);
  }

  ghost function SetOf(order: seq<Block>): set<Block> {
    set b | b in order
  }

  lemma SetOfMore(order: seq<Block>, i: nat)
    requires i < |order|
    ensures SetOf(order[..i + 1]) == SetOf(order[..i]) + {order[i]}
    ensures SetOf(order[..i]) <= SetOf(order) && order[i] in SetOf(order)
  {
    assert order[..i + 1] == order[..i] + [order[i]];
  }

  /** The head of a settled tree is a highest linked block, in emergency mode the one of them with the least digest. */
  lemma HeadIsLeastHighest(v: View, root: Block, delivered: set<Block>, emergency: bool)
    requires Settled(v, root, delivered, emergency)
    ensures HeadStands(v, emergency)
  {
    forall id | id in v.index
      ensures !Beats(emergency, v.BlockOf(v.index[id]), v.BlockOf(v.head.value))
    {
    }
  }

  /** No linked block is higher than the head and, in emergency mode, none at its height has a smaller digest. */
  ghost predicate HeadStands(v: View, emergency: bool) {
    && v.Keyed() && v.head.Some? && v.BlockOf(v.head.value).Id() in v.Linked()
    && forall id :: id in v.Linked() ==>
        var b, h := v.Linked()[id], v.BlockOf(v.head.value);
        b.Num() < h.Num() || (b.Num() == h.Num() && (emergency ==> h.digest <= b.digest))
  }

  /** Starts a fresh fork database at `root` and delivers the blocks in the given order. */
  method Deliver(root: Block, order: seq<Block>, size: nat, emergency: bool) returns (db: ForkDatabase)
    requires Deliverable(root, SetOf(order), size)
    ensures fresh(db) && Settled(db.State(), root, SetOf(order), emergency)
    ensures HeadStands(db.State(), emergency)
  {
    hide Settled, Deliverable, HeadStands;
    db := new ForkDatabase(size);
    db.SetEmergencyMode(emergency);
    db.StartBlock(root);
    StartedSettled(db.State(), root, emergency);
    assert SetOf(order[..0]) == {} && order[..|order|] == order;
    for i := 0 to |order|
      invariant db.Valid() && db.emergency == emergency && db.maxSize == size && fresh(db)
      invariant Settled(db.State(), root, SetOf(order[..i]), emergency)
    {
      SetOfMore(order, i);
      DeliverOne(db, order[i], root, SetOf(order[..i]), SetOf(order));
    }
    HeadIsLeastHighest(db.State(), root, SetOf(order), emergency);
  }

  /** Whatever orders two nodes receive one set of blocks in, they end with the same linked blocks, the same
      waiting blocks and heads of the same, greatest number; in emergency mode with the same head, the highest
      linked block with the least digest. */
  method Converge(root: Block, order: seq<Block>, order': seq<Block>, size: nat, emergency: bool)
    returns (db: ForkDatabase, db': ForkDatabase)
    requires SetOf(order) == SetOf(order') && Deliverable(root, SetOf(order), size)
    ensures fresh(db) && fresh(db') && db.State().Keyed() && db'.State().Keyed()
    ensures db.State().Linked() == db'.State().Linked()
    ensures db.State().Waiting() == db'.State().Waiting()
    ensures HeadStands(db.State(), emergency) && HeadStands(db'.State(), emergency)
    ensures db.State().NumOf(db.head.value) == db'.State().NumOf(db'.head.value)
    ensures emergency ==> db.State().BlockOf(db.head.value) == db'.State().BlockOf(db'.head.value)
  {
    db := Deliver(root, order, size, emergency);
    db' := Deliver(root, order', size, emergency);
    SettledIsUnique(db.State(), db'.State(), root, SetOf(order), emergency);
  }

  /** Two siblings above the head: in emergency mode their order does not matter and the one with the smaller
      digest becomes the head, outside it the first one to arrive does. */
  lemma SiblingOrder(v: View, h: Handle, k: Handle, emergency: bool)
    requires v.Valid() && v.head.Some? && h in v.items && k in v.items && h != k
    requires v.CanEnter(h) && v.CanEnter(k)
    requires
      var a, b, top := v.BlockOf(h), v.BlockOf(k), v.BlockOf(v.head.value);
      a.previous == b.previous && a.previous.num > 0 && a.Id() != b.Id() && a.Num() > top.Num()
    ensures v.Enter(h, emergency).Keyed() && v.Enter(k, emergency).Keyed()
    ensures v.Enter(h, emergency).CanEnter(k) && v.Enter(k, emergency).CanEnter(h)
    ensures
      var x, y := v.Enter(h, emergency).Enter(k, emergency).head, v.Enter(k, emergency).Enter(h, emergency).head;
      && (x == y <==> emergency)
      && (!emergency ==> x == Some(h) && y == Some(k))
      && (emergency ==> x == Some(if v.BlockOf(h).digest < v.BlockOf(k).digest then h else k))
  {
    var a, b := v.BlockOf(h), v.BlockOf(k);
    assert a.Id() != b.Id() ==> IdLess(a.Id(), b.Id()) || IdLess(b.Id(), a.Id());
    EnterKeepsKeyed(v, h, emergency);
    EnterKeepsKeyed(v, k, emergency);
  }
}
