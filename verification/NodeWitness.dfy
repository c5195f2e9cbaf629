/** Runs of a node in which a fork switch or a cascade does not end where its recovery means it to. */
module NodeWitness {
  import opened Options
  import opened Blocks
  import opened ForkView
  import opened ForkBranches
  import opened ForkDb
  import opened ForkChoice
  import opened Chain
  import opened ForkSwitch
  import opened NodeRun
  import opened NodeDatabase

  // ---------------------------------------------------------------------------
  // Pushing one block
  // ---------------------------------------------------------------------------

  /** The fork database after a connected block with a fresh item was entered. */
  ghost function Enters(v: View, h: Handle, b: Block): View
    requires v.Valid() && h !in v.items && v.head.Some? && b.Id() !in v.index && b.previous in v.index
  {
    Alloc(v, h, b).Enter(h, false)
  }

  /** With nothing waiting, a connected new block inside the window is linked and nothing else happens. */
  lemma PushedAlone(v: View, h: Handle, b: Block, status: Status, steps: seq<Step>, w: View)
    requires v.Valid() && h !in v.items && v.head.Some? && v.unlinked == map[]
    requires b.Id() !in v.index && b.previous in v.index
    requires Pushed(v, h, b, status, steps, w, false) && !status.TooOld? && !status.CascadeTooOld?
    ensures status.Linked? && w == Enters(v, h, b)
  {
    assert status.Linked?;
  }

  /** A connected new block on the head is applied; nothing else happens. */
  lemma ExtendsAlone<S(!new)>(rules: Rules<S>, o: Origin<S>, v: View, h: Handle, b: Block, chain: seq<Entry<S>>,
                              committed: nat,
                              log: Log, r: PushResult, after: seq<Entry<S>>, commits: nat, w: View, state: S)
    requires v.Valid() && h !in v.items && v.head.Some? && v.unlinked == map[]
    requires b.Id() !in v.index && b.previous in v.index && forall id :: id in v.index ==> id.num != b.Num()
    requires Handled(rules, o, v, h, b, chain, committed, false, false, log, r, after, commits, w)
    requires log.pushed != Some(TooOld) && log.pushed != Some(CascadeTooOld)
    requires b.previous == IdAt(o, chain, |chain|) && b.previous.num == o.id.num + |chain|
    requires b.Num() > v.NumOf(v.head.value)
    requires rules.apply(StateAt(o, chain, |chain|), b, false) == Applied(state)
    ensures r.Accepted? && after == chain + [Entry(b, state, true)] && commits == Max(committed, rules.libOf(state))
    ensures w.(held := v.held) == Enters(v, h, b)
  {
    PushedAlone(v, h, b, log.pushed.value, log.steps, log.view.(held := v.held));
    assert Pruned(log.view, b).index == log.view.index;
    assert Pruned(log.view, b) == log.view;
  }

  /** A connected new block that is not above the head is kept in the fork database. */
  lemma SideAlone<S(!new)>(rules: Rules<S>, o: Origin<S>, v: View, h: Handle, b: Block, chain: seq<Entry<S>>,
                           committed: nat, log: Log, r: PushResult, after: seq<Entry<S>>, commits: nat, w: View)
    requires v.Valid() && h !in v.items && v.head.Some? && v.unlinked == map[]
    requires b.Id() !in v.index && b.previous in v.index
    requires Handled(rules, o, v, h, b, chain, committed, false, false, log, r, after, commits, w)
    requires log.pushed != Some(TooOld) && log.pushed != Some(CascadeTooOld)
    requires v.BlockOf(v.head.value).Id() == IdAt(o, chain, |chain|) != b.previous && b.Num() <= v.NumOf(v.head.value)
    requires !rules.hardfork12(StateAt(o, chain, |chain|))
    ensures r.Refused? && after == chain && commits == committed && w.(held := v.held) == Enters(v, h, b)
  {
    PushedAlone(v, h, b, log.pushed.value, log.steps, log.view.(held := v.held));
  }

  /** A connected new block above the head of another branch starts a switch. */
  lemma HigherAlone<S(!new)>(rules: Rules<S>, o: Origin<S>, v: View, h: Handle, b: Block, chain: seq<Entry<S>>,
                             committed: nat, log: Log, r: PushResult, after: seq<Entry<S>>, commits: nat, w: View)
    requires v.Valid() && h !in v.items && v.head.Some? && v.unlinked == map[]
    requires b.Id() !in v.index && b.previous in v.index
    requires Handled(rules, o, v, h, b, chain, committed, false, false, log, r, after, commits, w)
    requires log.pushed != Some(TooOld) && log.pushed != Some(CascadeTooOld)
    requires v.BlockOf(v.head.value).Id() == IdAt(o, chain, |chain|) != b.previous && b.Num() > v.NumOf(v.head.value)
    requires !rules.hardfork12(StateAt(o, chain, |chain|))
    ensures log.view.Valid() && log.view.(held := v.held) == Enters(v, h, b) && log.view.head == Some(h)
    ensures log.branches == Between(log.view, b.Id(), IdAt(o, chain, |chain|))
  {
    PushedAlone(v, h, b, log.pushed.value, log.steps, log.view.(held := v.held));
  }

  /** The block is new, connected and inside the window, and nothing else waits or is held. */
  ghost predicate Fresh(v: View, b: Block, size: nat) {
    && v.Valid() && v.head.Some? && v.unlinked == map[] && v.held == {}
    && b.Id() !in v.index && b.previous in v.index && v.NumOf(v.head.value) <= size && b.Num() > 0
  }

  /** Pushes a block that extends the head. */
  method PushNext<S(!new)>(db: Database<S>, b: Block, ghost state: S)
    requires db.Valid() && !db.fork.emergency && Fresh(db.fork.State(), b, db.fork.maxSize)
    requires b.previous == db.HeadId() && b.Num() > db.fork.State().NumOf(db.fork.head.value)
    requires forall id :: id in db.fork.index ==> id.num != b.Num()
    requires db.rules.apply(db.HeadState(), b, false) == Applied(state)
    modifies db`chain, db`committed, db.fork`items, db.fork`index, db.fork`unlinked, db.fork`head, db.fork`held,
             db.fork`next
    ensures db.Valid() && old(db.fork.next) !in old(db.fork.items)
    ensures db.chain == old(db.chain) + [Entry(b, state, true)]
    ensures db.committed == Max(old(db.committed), db.rules.libOf(state))
    ensures db.fork.State() == Enters(old(db.fork.State()), old(db.fork.next), b)
  {
    hide Handled, Enters, SwitchLogged, Rises, Chained, LinksNameParents, Keeps, AllPlain;
    ghost var v, h, chain, committed := db.fork.State(), db.fork.next, db.chain, db.committed;
    IdNum(db.rules, db.origin, chain, |chain|);
    var r, relaxed;
    ghost var log;
    r, relaxed, log := db.PushBlock(b, false, true);
    ExtendsAlone(db.rules, db.origin, v, h, b, chain, committed, log, r, db.chain, db.committed,
                 db.fork.State().(held := log.view.held), state);
    assert db.fork.State().(held := log.view.held).(held := v.held) == db.fork.State();
  }

  /** Pushes a block of another branch that is not above the head. */
  method PushSide<S(!new)>(db: Database<S>, b: Block)
    requires db.Valid() && !db.fork.emergency && Fresh(db.fork.State(), b, db.fork.maxSize)
    requires db.Synced() && b.previous != db.HeadId() && b.Num() <= db.HeadNum() && !db.OnChain(b.Id())
    requires !db.rules.hardfork12(db.HeadState())
    modifies db`chain, db`committed, db.fork`items, db.fork`index, db.fork`unlinked, db.fork`head, db.fork`held,
             db.fork`next
    ensures db.Valid() && old(db.fork.next) !in old(db.fork.items)
    ensures db.chain == old(db.chain) && db.committed == old(db.committed)
    ensures db.fork.State() == Enters(old(db.fork.State()), old(db.fork.next), b)
  {
    hide Handled, Enters, SwitchLogged, Rises, Chained, LinksNameParents, Keeps, AllPlain;
    ghost var v, h, chain, committed := db.fork.State(), db.fork.next, db.chain, db.committed;
    IdNum(db.rules, db.origin, chain, |chain|);
    var r, relaxed;
    ghost var log;
    r, relaxed, log := db.PushBlock(b, false, true);
    SideAlone(db.rules, db.origin, v, h, b, chain, committed, log, r, db.chain, db.committed,
              db.fork.State().(held := log.view.held));
    assert db.fork.State().(held := log.view.held).(held := v.held) == db.fork.State();
  }

  // ---------------------------------------------------------------------------
  // Two branches above a root
  // ---------------------------------------------------------------------------

  const R := Block(NULL_ID, 1, "r")
  const A1 := Block(R.Id(), 11, "a")
  const A2 := Block(A1.Id(), 12, "a")
  const B1 := Block(R.Id(), 21, "b")
  const B2 := Block(B1.Id(), 22, "b")
  const B3 := Block(B2.Id(), 23, "b")

  /** A block applies unless it is `bad`; the state is the number of the block. */
  function Simple(bad: Block, libOf: nat -> nat): Rules<nat> {
    Rules((s: nat, b: Block, skip: bool) => if b == bad then Rejected(0) else Applied(b.Num()),
          libOf, (s: nat) => map[], (s: nat) => false, (s: nat) => false, (s: nat, b: Block) => s)
  }

  // The fork database as the blocks arrive, each linked to its parent.

  ghost function V0(a: Handle): View {
    View(map[a := Item(R, None)], map[R.Id() := a], map[], Some(a), {})
  }

  ghost function V1(a: Handle, b: Handle): View {
    View(map[a := Item(R, None), b := Item(A1, Some(a))], map[R.Id() := a, A1.Id() := b], map[], Some(b), {})
  }

  ghost function V2(a: Handle, b: Handle, c: Handle): View {
    View(map[a := Item(R, None), b := Item(A1, Some(a)), c := Item(A2, Some(b))],
         map[R.Id() := a, A1.Id() := b, A2.Id() := c], map[], Some(c), {})
  }

  ghost function V3(a: Handle, b: Handle, c: Handle, d: Handle): View {
    View(map[a := Item(R, None), b := Item(A1, Some(a)), c := Item(A2, Some(b)), d := Item(B1, Some(a))],
         map[R.Id() := a, A1.Id() := b, A2.Id() := c, B1.Id() := d], map[], Some(c), {})
  }

  ghost function V4(a: Handle, b: Handle, c: Handle, d: Handle, e: Handle): View {
    View(map[a := Item(R, None), b := Item(A1, Some(a)), c := Item(A2, Some(b)), d := Item(B1, Some(a)),
             e := Item(B2, Some(d))],
         map[R.Id() := a, A1.Id() := b, A2.Id() := c, B1.Id() := d, B2.Id() := e], map[], Some(c), {})
  }

  ghost function V5(a: Handle, b: Handle, c: Handle, d: Handle, e: Handle, f: Handle): View {
    View(map[a := Item(R, None), b := Item(A1, Some(a)), c := Item(A2, Some(b)), d := Item(B1, Some(a)),
             e := Item(B2, Some(d)),
             f := Item(B3, Some(e))],
         map[R.Id() := a, A1.Id() := b, A2.Id() := c, B1.Id() := d, B2.Id() := e, B3.Id() := f], map[], Some(f), {})
  }

  lemma Stage1(a: Handle, b: Handle)
    requires a != b
    ensures Fresh(V0(a), A1, 100) && Enters(V0(a), b, A1) == V1(a, b)
  {
    assert forall h :: h in V0(a).items ==> LinkOk(V0(a).items, h);
  }

  lemma Stage2(a: Handle, b: Handle, c: Handle)
    requires a != b && c !in {a, b}
    ensures Fresh(V1(a, b), A2, 100) && Enters(V1(a, b), c, A2) == V2(a, b, c)
  {
    assert forall h :: h in V1(a, b).items ==> LinkOk(V1(a, b).items, h);
  }

  lemma Stage3(a: Handle, b: Handle, c: Handle, d: Handle)
    requires a != b && c !in {a, b} && d !in {a, b, c}
    ensures Fresh(V2(a, b, c), B1, 100) && Enters(V2(a, b, c), d, B1) == V3(a, b, c, d)
  {
    assert forall h :: h in V2(a, b, c).items ==> LinkOk(V2(a, b, c).items, h);
  }

  lemma Stage4(a: Handle, b: Handle, c: Handle, d: Handle, e: Handle)
    requires a != b && c !in {a, b} && d !in {a, b, c} && e !in {a, b, c, d}
    ensures Fresh(V3(a, b, c, d), B2, 100) && Enters(V3(a, b, c, d), e, B2) == V4(a, b, c, d, e)
  {
    hide Fresh;
    Fresh4(a, b, c, d, e);
  }

  lemma Fresh4(a: Handle, b: Handle, c: Handle, d: Handle, e: Handle)
    requires a != b && c !in {a, b} && d !in {a, b, c} && e !in {a, b, c, d}
    ensures Fresh(V3(a, b, c, d), B2, 100)
  {
    assert forall h :: h in V3(a, b, c, d).items ==> LinkOk(V3(a, b, c, d).items, h);
  }

  lemma Stage5(a: Handle, b: Handle, c: Handle, d: Handle, e: Handle, f: Handle)
    requires a != b && c !in {a, b} && d !in {a, b, c} && e !in {a, b, c, d} && f !in {a, b, c, d, e}
    ensures Fresh(V4(a, b, c, d, e), B3, 100) && Enters(V4(a, b, c, d, e), f, B3) == V5(a, b, c, d, e, f)
  {
    hide Fresh;
    Fresh5(a, b, c, d, e, f);
  }

  lemma Fresh5(a: Handle, b: Handle, c: Handle, d: Handle, e: Handle, f: Handle)
    requires a != b && c !in {a, b} && d !in {a, b, c} && e !in {a, b, c, d} && f !in {a, b, c, d, e}
    ensures Fresh(V4(a, b, c, d, e), B3, 100)
  {
    assert forall h :: h in V4(a, b, c, d, e).items ==> LinkOk(V4(a, b, c, d, e).items, h);
  }

  ghost predicate Distinct5(a: Handle, b: Handle, c: Handle, d: Handle, e: Handle) {
    a != b && c !in {a, b} && d !in {a, b, c} && e !in {a, b, c, d}
  }

  const TOP: seq<Entry<nat>> := [Entry(A1, 2, true), Entry(A2, 3, true)]

  /** The item the fork database allocates next is none of those it has. */
  lemma NextIsNew(fork: ForkDatabase)
    requires fork.Valid()
    ensures fork.next !in fork.items.Keys
  {
  }

  /** A node that follows A1-A2. */
  method Follow(libOf: nat -> nat) returns (db: Database<nat>, ghost a: Handle, ghost b: Handle, ghost c: Handle)
    ensures fresh(db) && fresh(db.fork) && db.Valid() && !db.fork.emergency && db.fork.maxSize == 100
    ensures db.rules == Simple(B3, libOf) && db.origin == Origin(R.Id(), 1)
    ensures db.chain == TOP && db.committed == Max(Max(1, libOf(2)), libOf(3))
    ensures a != b && c !in {a, b} && db.fork.State() == V2(a, b, c)
  {
    hide Enters; hide Chained; hide LinksNameParents; hide View.Keyed; hide Fresh; hide ForkDatabase.Valid;
    var fork := new ForkDatabase(100);
    fork.StartBlock(R);
    a := fork.head.value;
    db := new Database(Simple(B3, libOf), Origin(R.Id(), 1), fork);
    assert fork.State() == V0(a);
    NextIsNew(fork);
    b := fork.next;
    Stage1(a, b);
    PushNext(db, A1, 2);
    NextIsNew(fork);
    c := fork.next;
    Stage2(a, b, c);
    PushNext(db, A2, 3);
  }

  /** A node that follows A1-A2 and has seen B1-B2. */
  method Prepare(libOf: nat -> nat) returns (db: Database<nat>, ghost a: Handle, ghost b: Handle, ghost c: Handle,
                                             ghost d: Handle, ghost e: Handle)
    ensures fresh(db) && fresh(db.fork) && db.Valid() && !db.fork.emergency && db.fork.maxSize == 100
    ensures db.rules == Simple(B3, libOf) && db.origin == Origin(R.Id(), 1)
    ensures db.chain == TOP && db.committed == Max(Max(1, libOf(2)), libOf(3))
    ensures Distinct5(a, b, c, d, e) && db.fork.State() == V4(a, b, c, d, e)
  {
    hide Enters; hide Chained; hide LinksNameParents; hide View.Keyed; hide Fresh; hide ForkDatabase.Valid;
    db, a, b, c := Follow(libOf);
    NextIsNew(db.fork);
    d := db.fork.next;
    Stage3(a, b, c, d);
    PushSide(db, B1);
    NextIsNew(db.fork);
    e := db.fork.next;
    Stage4(a, b, c, d, e);
    PushSide(db, B2);
  }

  /** The tree that holds all blocks, whatever is held. */
  ghost predicate Full(w: View, a: Handle, b: Handle, c: Handle, d: Handle, e: Handle, f: Handle) {
    && Distinct5(a, b, c, d, e) && f !in {a, b, c, d, e}
    && w == V5(a, b, c, d, e, f).(held := w.held)
  }

  lemma FullLinks(w: View, a: Handle, b: Handle, c: Handle, d: Handle, e: Handle, f: Handle)
    requires Full(w, a, b, c, d, e, f)
    ensures w.Valid() && {a, b, c, d, e, f} <= w.items.Keys
    ensures w.BlockOf(a) == R && w.BlockOf(b) == A1 && w.BlockOf(c) == A2
    ensures w.BlockOf(d) == B1 && w.BlockOf(e) == B2 && w.BlockOf(f) == B3
    ensures w.Parent(a) == None && w.Parent(b) == Some(a) && w.Parent(c) == Some(b)
    ensures w.Parent(d) == Some(a) && w.Parent(e) == Some(d) && w.Parent(f) == Some(e)
    ensures B3.Id() in w.index && A2.Id() in w.index && w.index[B3.Id()] == f && w.index[A2.Id()] == c
    ensures w.head == Some(f) && Indexed(w, [f, e, d])
  {
    hide View.Valid;
    FullValid(w, a, b, c, d, e, f);
  }

  lemma FullValid(w: View, a: Handle, b: Handle, c: Handle, d: Handle, e: Handle, f: Handle)
    requires Full(w, a, b, c, d, e, f)
    ensures w.Valid()
  {
    assert forall h :: h in w.items ==> LinkOk(w.items, h);
  }

  lemma FullBranches(w: View, a: Handle, b: Handle, c: Handle, d: Handle, e: Handle, f: Handle)
    requires Full(w, a, b, c, d, e, f)
    ensures w.Valid() && {a, b, c, d, e, f} <= w.items.Keys
    ensures Between(w, B3.Id(), A2.Id()) == Some(([f, e, d], [c, b])) && HeadDepth(w) == 3
  {
    hide View.Keyed; hide LinksNameParents; hide Full; hide V5; hide View.Parent;
    FullLinks(w, a, b, c, d, e, f);
    assert Branches(w, d, b) == Some(([d], [b]));
    assert Branches(w, e, c) == Prepend([e], [c], Branches(w, d, b));
    assert Branches(w, f, c) == Prepend([f], [], Branches(w, e, c));
    assert [e] + [d] == [e, d] && [c] + [b] == [c, b] && [f] + [e, d] == [f, e, d] && [] + [c, b] == [c, b];
    assert Depth(w, a) == 0 && Depth(w, d) == 1 && Depth(w, e) == 2 && Depth(w, f) == 3;
  }

  /** The blocks of the tree that apply above the root, and the blocks of the branch. */
  lemma FullGains(w: View, a: Handle, b: Handle, c: Handle, d: Handle, e: Handle, f: Handle, libOf: nat -> nat)
    requires Full(w, a, b, c, d, e, f)
    ensures w.Valid() && {a, b, c, d, e, f} <= w.items.Keys
    ensures OldestFirst(w, [f, e, d]) == [B1, B2, B3] && OldestFirst(w, [c, b]) == [A1, A2]
    ensures NoCollision(w, TOP) && Indexed(w, [f, e, d])
    ensures Gained(Simple(B3, libOf), 1, R.Id(), [B1, B2, B3], false) == [Entry(B1, 2, true), Entry(B2, 3, true)]
  {
    FullLinks(w, a, b, c, d, e, f);
    var rules := Simple(B3, libOf);
    assert [B1, B2, B3][1..] == [B2, B3] && [B2, B3][1..] == [B3];
    assert Gained(rules, 3, B2.Id(), [B3], false) == [];
    assert Gained(rules, 2, B1.Id(), [B2, B3], false) == [Entry(B2, 3, true)];
  }

  /** Two of the three new blocks apply; four pops would be needed to come back and three are possible. */
  lemma RecoveryThrows(w: View, a: Handle, b: Handle, c: Handle, d: Handle, e: Handle, f: Handle, r: SwitchResult,
                       relaxed: bool, after: seq<Entry<nat>>, head: Option<Handle>)
    requires Full(w, a, b, c, d, e, f) && w.Valid() && {a, b, c, d, e, f} <= w.items.Keys
    requires SwitchEnds(Simple(B3, NoLib), Origin(R.Id(), 1), w, f, [f, e, d], [c, b], TOP, 1, false, r, relaxed,
                        after, head)
    ensures r.Threw? && after == [Entry(B1, 2, true)]
  {
    hide View.Keyed, LinksNameParents, Full, V5, Gained, Branches, HeadDepth, NoCollision;
    FullBranches(w, a, b, c, d, e, f);
    FullGains(w, a, b, c, d, e, f, NoLib);
    var es := [Entry(B1, 2, true), Entry(B2, 3, true)];
    assert TOP[..0] + es[..1] == [Entry(B1, 2, true)];
  }

  /** The irreversible block A1 stands in the way. */
  lemma LibStops(w: View, a: Handle, b: Handle, c: Handle, d: Handle, e: Handle, f: Handle, r: SwitchResult,
                 relaxed: bool, after: seq<Entry<nat>>, head: Option<Handle>)
    requires Full(w, a, b, c, d, e, f) && w.Valid() && {a, b, c, d, e, f} <= w.items.Keys
    requires SwitchEnds(Simple(B3, LibBehind), Origin(R.Id(), 1), w, f, [f, e, d], [c, b], TOP, 2, false, r, relaxed,
                        after, head)
    ensures r.Threw? && after == [Entry(A1, 2, true)]
  {
    hide View.Keyed, LinksNameParents, Full, V5, Gained, Branches, HeadDepth, NoCollision;
    FullBranches(w, a, b, c, d, e, f);
    FullGains(w, a, b, c, d, e, f, LibBehind);
    assert TOP[..1] == [Entry(A1, 2, true)];
  }

  function NoLib(s: nat): nat {
    0
  }

  /** The block before the head is irreversible. */
  function LibBehind(s: nat): nat {
    if s > 1 then s - 1 else 0
  }

  /** Pushes B3, which starts a switch. */
  method PushThird(db: Database<nat>, libOf: nat -> nat, ghost a: Handle, ghost b: Handle, ghost c: Handle,
                   ghost d: Handle, ghost e: Handle)
    returns (r: PushResult, ghost w: View, ghost f: Handle, ghost relaxed: bool)
    requires db.Valid() && !db.fork.emergency && db.fork.maxSize == 100
    requires db.rules == Simple(B3, libOf) && db.origin == Origin(R.Id(), 1) && db.chain == TOP
    requires Distinct5(a, b, c, d, e) && db.fork.State() == V4(a, b, c, d, e)
    modifies db`chain, db`committed, db.fork`items, db.fork`index, db.fork`unlinked, db.fork`head, db.fork`held,
             db.fork`next
    ensures db.Valid() && Full(w, a, b, c, d, e, f) && w.Valid() && {a, b, c, d, e, f} <= w.items.Keys
    ensures SwitchEnds(db.rules, db.origin, w, f, [f, e, d], [c, b], TOP, old(db.committed), false, AsSwitch(r),
                       relaxed, db.chain, db.fork.head)
  {
    hide Enters, Chained, LinksNameParents, View.Keyed, Fresh, ForkDatabase.Valid, SwitchEnds, Handled;
    hide Full; hide Rises; hide Keeps; hide AllPlain; hide V5; hide Between; hide HeadDepth;
    ghost var v, committed := db.fork.State(), db.committed;
    NextIsNew(db.fork);
    f := db.fork.next;
    Stage5(a, b, c, d, e, f);
    FreshFacts(v, B3);
    ghost var log;
    var relaxes;
    r, relaxes, log := db.PushBlock(B3, false, true);
    relaxed := relaxes;
    HigherAlone(db.rules, db.origin, v, f, B3, TOP, committed, log, r, db.chain, db.committed,
                db.fork.State().(held := log.view.held));
    MakeFull(log.view, a, b, c, d, e, f);
    FullBranches(log.view, a, b, c, d, e, f);
    w := Holding(log.view, [f, e, d], [c, b]);
    MakeFull(w, a, b, c, d, e, f);
    FullLinks(w, a, b, c, d, e, f);
  }

  lemma FreshFacts(v: View, b: Block)
    requires Fresh(v, b, 100)
    ensures v.Valid() && v.head.Some? && v.unlinked == map[] && v.held == {} && b.Id() !in v.index
    ensures b.previous in v.index
  {
  }

  lemma MakeFull(w: View, a: Handle, b: Handle, c: Handle, d: Handle, e: Handle, f: Handle)
    requires Distinct5(a, b, c, d, e) && f !in {a, b, c, d, e} && w.(held := {}) == V5(a, b, c, d, e, f)
    ensures Full(w, a, b, c, d, e, f)
  {
    assert w == w.(held := {}).(held := w.held);
  }

  /** A node that follows A1-A2 and is offered B1-B2-B3, where B3 does not apply: the recovery throws and the
      node is left on B1. */
  method FailedSwitch() returns (db: Database<nat>, r: PushResult)
    ensures fresh(db) && db.Valid() && r.Exception? && db.chain == [Entry(B1, 2, true)]
  {
    hide Full; hide V4; hide V5; hide SwitchEnds; hide Chained; hide View.Keyed; hide LinksNameParents;
    ghost var a, b, c, d, e, w, f, relaxed;
    db, a, b, c, d, e := Prepare(NoLib);
    r, w, f, relaxed := PushThird(db, NoLib, a, b, c, d, e);
    RecoveryThrows(w, a, b, c, d, e, f, AsSwitch(r), relaxed, db.chain, db.fork.head);
  }

  /** The same offer when A1 is irreversible: the switch is given up half-way and the node is left on A1. */
  method StoppedSwitch() returns (db: Database<nat>, r: PushResult)
    ensures fresh(db) && db.Valid() && r.Exception? && db.chain == [Entry(A1, 2, true)]
  {
    hide Full; hide V4; hide V5; hide SwitchEnds; hide Chained; hide View.Keyed; hide LinksNameParents;
    ghost var a, b, c, d, e, w, f, relaxed;
    db, a, b, c, d, e := Prepare(LibBehind);
    r, w, f, relaxed := PushThird(db, LibBehind, a, b, c, d, e);
    LibStops(w, a, b, c, d, e, f, AsSwitch(r), relaxed, db.chain, db.fork.head);
  }

  // ---------------------------------------------------------------------------
  // A cascade that fails
  // ---------------------------------------------------------------------------

  const A3 := Block(A2.Id(), 13, "a")

  /** The fork database after a block whose parent is unknown was put into the cache. */
  ghost function Waits(v: View, h: Handle, b: Block): View {
    v.(items := v.items[h := Item(b, None)], unlinked := v.unlinked[b.Id() := h])
  }

  lemma WaitsAlone<S(!new)>(rules: Rules<S>, o: Origin<S>, v: View, h: Handle, b: Block, chain: seq<Entry<S>>,
                            committed: nat, log: Log, r: PushResult, after: seq<Entry<S>>, commits: nat, w: View)
    requires v.Valid() && h !in v.items && v.head.Some? && b.previous != NULL_ID
    requires b.Id() !in v.index && b.previous !in v.index && b.Id() !in v.unlinked
    requires Handled(rules, o, v, h, b, chain, committed, false, false, log, r, after, commits, w)
    requires log.pushed != Some(TooOld)
    ensures after == chain && commits == committed && w.(held := v.held) == Waits(v, h, b)
  {
    assert log.pushed == Some(Unlinkable);
  }

  /** Pushes a block whose parent is unknown. */
  method PushEarly<S(!new)>(db: Database<S>, b: Block)
    requires db.Valid() && !db.fork.emergency && db.fork.head.Some? && db.fork.held == {}
    requires db.fork.items[db.fork.head.value].block.Num() <= db.fork.maxSize && b.previous != NULL_ID
    requires b.previous != db.HeadId()
    requires b.Id() !in db.fork.index && b.previous !in db.fork.index && b.Id() !in db.fork.unlinked
    requires db.HeadNum() < b.Num() <= db.HeadNum() + MAX_GAP
    modifies db`chain, db`committed, db.fork`items, db.fork`index, db.fork`unlinked, db.fork`head, db.fork`held,
             db.fork`next
    ensures db.Valid() && db.chain == old(db.chain) && db.committed == old(db.committed)
    ensures db.fork.State() == Waits(old(db.fork.State()), old(db.fork.next), b)
  {
    hide Handled, Waits, SwitchLogged, Rises, Chained, LinksNameParents, Keeps, AllPlain;
    ghost var v, h, chain, committed := db.fork.State(), db.fork.next, db.chain, db.committed;
    ghost var log;
    var r, relaxed;
    r, relaxed, log := db.PushBlock(b, false, true);
    WaitsAlone(db.rules, db.origin, v, h, b, chain, committed, log, r, db.chain, db.committed,
               db.fork.State().(held := log.view.held));
    assert db.fork.State().(held := log.view.held).(held := v.held) == db.fork.State();
  }

  ghost function W2(a: Handle, b: Handle, c: Handle): View {
    View(map[a := Item(R, None), b := Item(A2, None), c := Item(A3, None)], map[R.Id() := a],
         map[A2.Id() := b, A3.Id() := c], Some(a), {})
  }

  ghost function X0(a: Handle, b: Handle, c: Handle, d: Handle): View {
    View(map[a := Item(R, None), b := Item(A2, None), c := Item(A3, None), d := Item(A1, Some(a))],
         map[R.Id() := a, A1.Id() := d],
         map[A2.Id() := b, A3.Id() := c], Some(d), {})
  }

  ghost function X1(a: Handle, b: Handle, c: Handle, d: Handle): View {
    View(map[a := Item(R, None), b := Item(A2, Some(d)), c := Item(A3, None), d := Item(A1, Some(a))],
         map[R.Id() := a, A1.Id() := d, A2.Id() := b], map[A3.Id() := c], Some(b), {})
  }

  ghost function X2(a: Handle, b: Handle, c: Handle, d: Handle): View {
    View(map[a := Item(R, None), b := Item(A2, Some(d)), c := Item(A3, Some(b)), d := Item(A1, Some(a))],
         map[R.Id() := a, A1.Id() := d, A2.Id() := b, A3.Id() := c], map[], Some(c), {})
  }

  ghost predicate Distinct4(a: Handle, b: Handle, c: Handle, d: Handle) {
    a != b && c !in {a, b} && d !in {a, b, c}
  }

  lemma W2Valid(a: Handle, b: Handle, c: Handle)
    requires a != b && c !in {a, b}
    ensures W2(a, b, c).Valid() && W2(a, b, c).NothingLinkable()
  {
    assert forall h :: h in W2(a, b, c).items ==> LinkOk(W2(a, b, c).items, h);
  }

  lemma X0Valid(a: Handle, b: Handle, c: Handle, d: Handle)
    requires Distinct4(a, b, c, d)
    ensures X0(a, b, c, d).Valid() && !X0(a, b, c, d).NothingLinkable()
  {
    assert forall h :: h in X0(a, b, c, d).items ==> LinkOk(X0(a, b, c, d).items, h);
    assert A2.Id() in X0(a, b, c, d).unlinked;
  }

  lemma X1Valid(a: Handle, b: Handle, c: Handle, d: Handle)
    requires Distinct4(a, b, c, d)
    ensures X1(a, b, c, d).Valid() && !X1(a, b, c, d).NothingLinkable()
  {
    assert forall h :: h in X1(a, b, c, d).items ==> LinkOk(X1(a, b, c, d).items, h);
    assert A3.Id() in X1(a, b, c, d).unlinked;
  }

  lemma X2Valid(a: Handle, b: Handle, c: Handle, d: Handle)
    requires Distinct4(a, b, c, d)
    ensures X2(a, b, c, d).Valid()
  {
    assert forall h :: h in X2(a, b, c, d).items ==> LinkOk(X2(a, b, c, d).items, h);
  }

  lemma FirstLink(a: Handle, b: Handle, c: Handle, d: Handle, s: Step)
    requires Distinct4(a, b, c, d) && X0(a, b, c, d).Valid() && CanStep(X0(a, b, c, d), s) && s.Link?
    ensures s == Link(A2.Id()) && StepView(X0(a, b, c, d), s, false) == X1(a, b, c, d)
  {
    hide View.Keyed, LinksNameParents;
    assert s.id == A2.Id() || s.id == A3.Id();
  }

  lemma SecondLink(a: Handle, b: Handle, c: Handle, d: Handle, s: Step)
    requires Distinct4(a, b, c, d) && X1(a, b, c, d).Valid() && CanStep(X1(a, b, c, d), s) && s.Link?
    ensures StepView(X1(a, b, c, d), s, false) == X2(a, b, c, d)
  {
    assert s.id == A3.Id();
  }

  /** Everything that waited is linked, in the only possible order. */
  lemma AllLinked(a: Handle, b: Handle, c: Handle, d: Handle, steps: seq<Step>, w: View)
    requires Distinct4(a, b, c, d) && Reaches(X0(a, b, c, d), steps, w, false)
    requires (forall s :: s in steps ==> s.Link?) && w.NothingLinkable()
    ensures w == X2(a, b, c, d)
  {
    hide X0, X1, X2, CanStep, StepView, View.Keyed, LinksNameParents, View.NothingLinkable;
    X0Valid(a, b, c, d);
    X1Valid(a, b, c, d);
    X2Valid(a, b, c, d);
    assert steps != [];
    FirstLink(a, b, c, d, steps[0]);
    var more := steps[1..];
    assert CanRun(X1(a, b, c, d), more, false) && w == Run(X1(a, b, c, d), more, false);
    assert more != [];
    SecondLink(a, b, c, d, more[0]);
    assert CanRun(X2(a, b, c, d), more[1..], false) && w == Run(X2(a, b, c, d), more[1..], false);
    NoMore(a, b, c, d, more[1..]);
  }

  lemma NoMore(a: Handle, b: Handle, c: Handle, d: Handle, steps: seq<Step>)
    requires Distinct4(a, b, c, d) && X2(a, b, c, d).Valid() && CanRun(X2(a, b, c, d), steps, false)
    ensures Run(X2(a, b, c, d), steps, false) == X2(a, b, c, d)
  {
  }

  /** The linked chain above the root, whatever is held. */
  ghost predicate Line(w: View, a: Handle, b: Handle, c: Handle, d: Handle) {
    Distinct4(a, b, c, d) && w == X2(a, b, c, d).(held := w.held)
  }

  lemma LineLinks(w: View, a: Handle, b: Handle, c: Handle, d: Handle)
    requires Line(w, a, b, c, d)
    ensures w.Valid() && {a, b, c, d} <= w.items.Keys && w.head == Some(c)
    ensures w.BlockOf(a) == R && w.BlockOf(d) == A1 && w.BlockOf(b) == A2 && w.BlockOf(c) == A3
    ensures w.Parent(a) == None && w.Parent(d) == Some(a) && w.Parent(b) == Some(d) && w.Parent(c) == Some(b)
    ensures A3.Id() in w.index && A1.Id() in w.index && w.index[A3.Id()] == c && w.index[A1.Id()] == d
    ensures Pruned(w, A1) == w
  {
    assert forall h :: h in w.items ==> LinkOk(w.items, h);
    assert Pruned(w, A1).index == w.index;
  }

  lemma LineAbove(w: View, a: Handle, b: Handle, c: Handle, d: Handle)
    requires Line(w, a, b, c, d)
    ensures w.Valid() && c in w.items && NewsAbove(w, c, A1.Id()) == Some([A2, A3]) && HeadDepth(w) == 3
  {
    hide View.Keyed; hide LinksNameParents; hide Line; hide X2; hide View.Parent; hide Pruned;
    LineLinks(w, a, b, c, d);
    assert Branches(w, d, d) == Some(([d], [d]));
    assert Branches(w, b, d) == Prepend([b], [], Branches(w, d, d));
    assert Branches(w, c, d) == Prepend([c], [], Branches(w, b, d));
    assert [b] + [d] == [b, d] && [c] + [b, d] == [c, b, d] && [] + [d] == [d];
    assert OldestFirst(w, [c, b, d]) == [A1, A2, A3];
    assert [A1, A2, A3][1..] == [A2, A3];
    assert Depth(w, a) == 0 && Depth(w, d) == 1 && Depth(w, b) == 2 && Depth(w, c) == 3;
  }

  lemma LineKept()
    ensures
      var rules := Simple(A3, NoLib);
      && Kept(rules, 2, A1.Id(), [A2, A3], false) == [Entry(A2, 3, true)]
      && KeepsUpTo(rules, 2, A1.Id(), [A2, A3], false, 2)
  {
    var rules := Simple(A3, NoLib);
    assert [A2, A3][1..] == [A3];
    assert Kept(rules, 3, A2.Id(), [A3], false) == [];
  }

  /** A1 is applied; A2 is applied above it and undone again when A3 fails. */
  lemma CascadeFails(w: View, a: Handle, b: Handle, c: Handle, d: Handle, r: PushResult, after: seq<Entry<nat>>,
                     commits: nat, u: View)
    requires Line(w, a, b, c, d) && w.Valid()
    requires ExtendEnds(Simple(A3, NoLib), Origin(R.Id(), 1), w, A1, [], 1, false, r, after, commits, u)
    ensures r.Accepted? && after == [Entry(A1, 2, true)] && StartedAt(u, A2.Id())
  {
    hide View.Keyed, LinksNameParents, Line, X2, View.Parent, Pruned, NewsAbove, HeadDepth, Kept;
    hide KeepsUpTo; hide StartedAt;
    LineLinks(w, a, b, c, d);
    LineAbove(w, a, b, c, d);
    LineKept();
    assert [] + [Entry(A1, 2, true)] == [Entry(A1, 2, true)];
    assert [Entry(A1, 2, true)] + [Entry(A2, 3, true)] == [Entry(A1, 2, true), Entry(A2, 3, true)];
  }

  lemma EnterFirst(a: Handle, b: Handle, c: Handle, d: Handle)
    requires Distinct4(a, b, c, d) && Alloc(W2(a, b, c), d, A1).Keyed() && Alloc(W2(a, b, c), d, A1).CanEnter(d)
    ensures Alloc(W2(a, b, c), d, A1).Enter(d, false) == X0(a, b, c, d)
  {
  }

  lemma LineLogged(rules: Rules<nat>, o: Origin<nat>, a: Handle, b: Handle, c: Handle, d: Handle, log: Log,
                   r: PushResult, after: seq<Entry<nat>>, commits: nat, u: View)
    requires Distinct4(a, b, c, d) && o == Origin(R.Id(), 1)
    requires Handled(rules, o, W2(a, b, c), d, A1, [], 1, false, false, log, r, after, commits, u)
    requires log.pushed != Some(TooOld) && log.pushed != Some(CascadeTooOld)
    ensures Line(log.view, a, b, c, d) && log.view.Valid()
    ensures ExtendEnds(rules, o, log.view, A1, [], 1, false, r, after, commits, u)
  {
    hide X2; hide ExtendEnds; hide Run; hide CanRun; hide LinksNameParents; hide View.NothingLinkable;
    W2Valid(a, b, c);
    var w := log.view.(held := {});
    assert log.pushed == Some(Linked);
    EnterFirst(a, b, c, d);
    HeldValid(log.view, w);
    AllLinked(a, b, c, d, log.steps, w);
    assert log.view == w.(held := log.view.held);
    X2Head(a, b, c, d);
  }

  /** All blocks are far inside the window. */
  lemma WithinWindow(rules: Rules<nat>, o: Origin<nat>, a: Handle, b: Handle, c: Handle, d: Handle, log: Log,
                     r: PushResult, after: seq<Entry<nat>>, commits: nat, u: View)
    requires Distinct4(a, b, c, d)
    requires Handled(rules, o, W2(a, b, c), d, A1, [], 1, false, false, log, r, after, commits, u)
    ensures log.pushed == Some(CascadeTooOld) ==> forall n: nat :: Outside(log.view, n, 100) ==> n == 0
  {
    hide Run, CanRun, LinksNameParents, View.NothingLinkable, Decided, View.Keyed, View.CanEnter, X0, Outside;
    if log.pushed == Some(CascadeTooOld) {
      var w := log.view.(held := {});
      EnterFirst(a, b, c, d);
      RunKeepsItems(X0(a, b, c, d), log.steps, false);
      RunRises(X0(a, b, c, d), log.steps);
      SmallWindow(w, log.view, a, b, c, d);
    }
  }

  /** Four blocks do not fill the window. */
  lemma SmallWindow(w: View, u: View, a: Handle, b: Handle, c: Handle, d: Handle)
    requires Distinct4(a, b, c, d) && Rises(X0(a, b, c, d), w) && u.items == w.items && u.head == w.head
    requires w.items.Keys == X0(a, b, c, d).items.Keys
    ensures forall n: nat :: Outside(u, n, 100) ==> n == 0
  {
    assert w.BlockOf(a) == R && w.BlockOf(b) == A2 && w.BlockOf(c) == A3 && w.BlockOf(d) == A1;
  }

  lemma X2Head(a: Handle, b: Handle, c: Handle, d: Handle)
    ensures X2(a, b, c, d).head == Some(c)
  {
  }

  /** A node at R that has seen A2 and A3, but not A1. */
  method HearEarly() returns (db: Database<nat>, ghost a: Handle, ghost b: Handle, ghost c: Handle)
    ensures fresh(db) && fresh(db.fork) && db.Valid() && !db.fork.emergency && db.fork.maxSize == 100
    ensures db.rules == Simple(A3, NoLib) && db.origin == Origin(R.Id(), 1) && db.chain == [] && db.committed == 1
    ensures a != b && c !in {a, b} && db.fork.State() == W2(a, b, c)
  {
    hide Chained, LinksNameParents, View.Keyed, ForkDatabase.Valid;
    var fork := new ForkDatabase(100);
    fork.StartBlock(R);
    a := fork.head.value;
    db := new Database(Simple(A3, NoLib), Origin(R.Id(), 1), fork);
    NextIsNew(fork);
    b := fork.next;
    PushEarly(db, A2);
    NextIsNew(fork);
    c := fork.next;
    PushEarly(db, A3);
  }

  /** A2 and A3 arrive before A1, and A3 does not apply: the chain ends at A1 and the fork database
      restarts from A2, above the head of the chain. */
  method BrokenCascade() returns (db: Database<nat>, r: PushResult)
    ensures fresh(db) && db.Valid() && r.Accepted? && db.chain == [Entry(A1, 2, true)]
    ensures StartedAt(db.fork.State(), A2.Id()) && A2.Num() > db.HeadNum()
  {
    hide Handled, ExtendEnds, Line, Chained, LinksNameParents, View.Keyed, SwitchLogged, Rises, Keeps, AllPlain;
    hide ForkDatabase.Valid;
    ghost var a, b, c;
    db, a, b, c := HearEarly();
    NextIsNew(db.fork);
    ghost var d := db.fork.next;
    var relaxed;
    ghost var log;
    r, relaxed, log := db.PushBlock(A1, false, true);
    ghost var u := db.fork.State().(held := log.view.held);
    WithinWindow(db.rules, db.origin, a, b, c, d, log, r, db.chain, db.committed, u);
    LineLogged(db.rules, db.origin, a, b, c, d, log, r, db.chain, db.committed, u);
    CascadeFails(log.view, a, b, c, d, r, db.chain, db.committed, u);
  }
}
