/** Runs of incoming blocks as values: what the handling of each block relates, and what holds of every run. */
module NodeRun {
  import opened Options
  import opened Blocks
  import opened ForkView
  import opened ForkDb
  import opened ForkChoice
  import opened Chain
  import opened ForkSwitch

  /** Blocks further ahead of the head than this are refused while their parent is unknown. */
  const MAX_GAP: nat := 100

  /** A node between two blocks: the applied chain, the committed number and the fork database with the item it
      allocates next. */
  datatype Node<+S> = Node(chain: seq<Entry<S>>, committed: nat, view: View, next: Handle)

  function HeadOf<S>(o: Origin<S>, m: Node<S>): BlockId {
    IdAt(o, m.chain, |m.chain|)
  }

  function StateOf<S>(o: Origin<S>, m: Node<S>): S {
    StateAt(o, m.chain, |m.chain|)
  }

  /** Whether a chain holds this id at its number. */
  predicate OnChainOf<S>(o: Origin<S>, chain: seq<Entry<S>>, id: BlockId) {
    o.id.num <= id.num <= o.id.num + |chain| && IdAt(o, chain, id.num - o.id.num) == id
  }

  // ---------------------------------------------------------------------------
  // The handling of one block
  // ---------------------------------------------------------------------------

  /** What is irreversible stays, and what was applied with all checks on is still all there is. */
  ghost predicate Preserves<S(!new)>(rules: Rules<S>, o: Origin<S>, m: Node<S>, skip: bool, relaxed: bool, n: Node<S>) {
    && Keeps(m.chain, n.chain, rules.libOf(StateOf(o, m)) - o.id.num)
    && Keeps(m.chain, n.chain, m.committed - o.id.num)
    && m.committed <= n.committed
    && (!relaxed && !skip && AllPlain(m.chain) ==> AllPlain(n.chain))
  }

  /** What the answer says about the chain. */
  ghost predicate Answers<S(!new)>(o: Origin<S>, m: Node<S>, b: Block, log: Log, r: PushResult, n: Node<S>) {
    && (r.Accepted? && b.previous == HeadOf(o, m) ==>
          m.chain <= n.chain && |n.chain| > |m.chain| && n.chain[|m.chain|].block == b)
    && (log.branches.None? ==> m.chain <= n.chain)
    && (log.branches.None? && r.Accepted? ==> |n.chain| > |m.chain|)
    && (r.Refused? && log.pushed.Some? && log.branches.None? && HeadOf(o, m) in m.view.index ==>
          n.chain == m.chain && Extends(m.view, n.view))
  }

  /** Blocks that are known or too far ahead change nothing. */
  ghost predicate Ignores<S(!new)>(o: Origin<S>, m: Node<S>, b: Block, r: PushResult, n: Node<S>) {
    && (OnChainOf(o, m.chain, b.Id()) ==> n.chain == m.chain && !r.Accepted?)
    && (b.previous != NULL_ID && b.previous != HeadOf(o, m) && b.Num() > o.id.num + |m.chain| + MAX_GAP ==>
          r.Refused? && n.chain == m.chain)
  }

  /** A switch is made only to a wanted tip, and ends as `SwitchLogged` says. */
  ghost predicate Switches<S(!new)>(rules: Rules<S>, o: Origin<S>, m: Node<S>, b: Block, skip: bool, log: Log,
                                    r: PushResult, relaxed: bool, n: Node<S>)
  {
    log.branches.Some? ==>
      && b.previous != HeadOf(o, m) && log.view.Valid() && log.view.head.Some?
      && Extends(m.view, log.view)
      && Wanted(rules, StateOf(o, m), log.view, log.Target(), HeadOf(o, m))
      && SwitchLogged(rules, o, log.view, log.view.head.value, log.branches.value, m.chain, m.committed, skip,
                      r, relaxed, n.chain, n.view.head)
      && (r.Accepted? ==> HeadOf(o, n) == log.Target() && n.view == log.view.(held := n.view.held))
  }

  /** An exception that leaves the chain or the fork database's head lower than it was, or half-way. */
  ghost predicate Falls<S>(m: Node<S>, log: Log, r: PushResult, n: Node<S>) {
    r.Exception? && (log.branches.Some? || n.chain != m.chain)
  }

  /** Outside emergency mode nothing but a fall lowers the head of the chain or that of the fork database. */
  ghost predicate Climbs<S(!new)>(o: Origin<S>, m: Node<S>, log: Log, r: PushResult, n: Node<S>) {
    && (log.branches.Some? ==> Rises(m.view, log.view))
    && (m.chain != [] && !Falls(m, log, r, n) && !(log.branches.Some? && r.Accepted?) ==>
          Ahead(o, m, n) && Lifts(m.view, n.view, HeadOf(o, m)))
  }

  ghost predicate Ahead<S>(o: Origin<S>, m: Node<S>, n: Node<S>) {
    |n.chain| > |m.chain| || HeadOf(o, n) == HeadOf(o, m)
  }

  /** The block is put into the fork database, which needs no seeding for it: it is not on the chain
      already, not too far above the head, and connected if it is at or below the head. */
  ghost predicate Askable<S>(o: Origin<S>, m: Node<S>, b: Block) {
    var num := o.id.num + |m.chain|;
    && (b.Num() > num || (!OnChainOf(o, m.chain, b.Id()) && (b.previous == NULL_ID || IsKnownIn(m.view, b.previous))))
    && (if b.previous == HeadOf(o, m) then IsKnownIn(m.view, b.previous)
        else b.previous == NULL_ID || b.Num() <= num + MAX_GAP)
  }

  predicate IsKnownIn(v: View, id: BlockId) {
    id in v.index || id in v.unlinked
  }

  /** What the fork database made of the block, and what followed. */
  ghost predicate Asked<S(!new)>(rules: Rules<S>, o: Origin<S>, size: nat, emergency: bool, m: Node<S>, b: Block,
                                 skip: bool, log: Log, r: PushResult, n: Node<S>)
  {
    && Handled(rules, o, m.view, m.next, b, m.chain, m.committed, skip, emergency, log, r, n.chain, n.committed,
               n.view.(held := log.view.held))
    && (log.pushed == Some(TooOld) ==> Outside(m.view, b.Num(), size))
    && (log.pushed == Some(CascadeTooOld) ==> exists id :: id in m.view.unlinked && Outside(log.view, id.num, size))
  }

  /** The handling of one block. */
  ghost predicate Handles<S(!new)>(rules: Rules<S>, o: Origin<S>, size: nat, emergency: bool, m: Node<S>, b: Block,
                                   skip: bool, useFork: bool, log: Log, r: PushResult, relaxed: bool, n: Node<S>)
  {
    && Preserves(rules, o, m, skip, relaxed, n)
    && Ignores(o, m, b, r, n)
    && Answers(o, m, b, log, r, n)
    && Switches(rules, o, m, b, skip, log, r, relaxed, n)
    && (!emergency ==> Climbs(o, m, log, r, n))
    && (useFork && Askable(o, m, b) ==> Asked(rules, o, size, emergency, m, b, skip, log, r, n))
  }

  /** What is held at the end does not matter. */
  lemma HandlesHeld<S(!new)>(rules: Rules<S>, o: Origin<S>, size: nat, emergency: bool, m: Node<S>, b: Block,
                             skip: bool, useFork: bool, log: Log, r: PushResult, relaxed: bool, n: Node<S>,
                             held: set<Handle>)
    requires Handles(rules, o, size, emergency, m, b, skip, useFork, log, r, relaxed, n)
    ensures Handles(rules, o, size, emergency, m, b, skip, useFork, log, r, relaxed, n.(view := n.view.(held := held)))
  {
    hide Keeps, Handled, SwitchLogged, Wanted;
  }

  /** The fork database was changed before the block was handled. */
  lemma SwitchesFrom<S(!new)>(rules: Rules<S>, o: Origin<S>, m: Node<S>, v: View, next: Handle, b: Block, skip: bool,
                              log: Log, r: PushResult, relaxed: bool, n: Node<S>)
    requires Extends(m.view, v) && Switches(rules, o, m.(view := v, next := next), b, skip, log, r, relaxed, n)
    requires Answers(o, m.(view := v, next := next), b, log, r, n)
    ensures Switches(rules, o, m, b, skip, log, r, relaxed, n) && Answers(o, m, b, log, r, n)
  {
    hide SwitchLogged, Wanted;
  }

  lemma ClimbsFrom<S(!new)>(o: Origin<S>, m: Node<S>, v: View, next: Handle, log: Log, r: PushResult, n: Node<S>)
    requires Rises(m.view, v) && Climbs(o, m.(view := v, next := next), log, r, n)
    ensures Climbs(o, m, log, r, n)
  {
    hide Rises;
    if log.branches.Some? {
      RisesTransitive(m.view, v, log.view);
    }
    if Lifts(v, n.view, HeadOf(o, m)) {
      RisesThenLifts(m.view, v, n.view, HeadOf(o, m));
    }
  }

  lemma PreservesFrom<S(!new)>(rules: Rules<S>, o: Origin<S>, m: Node<S>, v: View, next: Handle, skip: bool,
                               relaxed: bool, n: Node<S>)
    requires Preserves(rules, o, m.(view := v, next := next), skip, relaxed, n)
    ensures Preserves(rules, o, m, skip, relaxed, n)
  {
    hide Keeps;
  }

  /** Nothing but the fork database has changed. */
  lemma StaysPut<S(!new)>(rules: Rules<S>, o: Origin<S>, m: Node<S>, b: Block, skip: bool, log: Log, r: PushResult,
                          n: Node<S>)
    requires log.pushed.None? && log.branches.None? && !r.Accepted? && n.chain == m.chain && n.committed == m.committed
    ensures Preserves(rules, o, m, skip, false, n) && Answers(o, m, b, log, r, n)
    ensures Switches(rules, o, m, b, skip, log, r, false, n)
    ensures Rises(m.view, n.view) ==> Climbs(o, m, log, r, n)
  {
    hide Rises;
  }

  /** The fork database was added to, and then the block was applied without asking it. */
  lemma OnlyExtends<S(!new)>(rules: Rules<S>, o: Origin<S>, m: Node<S>, v: View, b: Block, skip: bool, log: Log,
                             r: PushResult, n: Node<S>)
    requires log.pushed.None? && log.branches.None? && m.chain <= n.chain && m.committed <= n.committed
    requires r.Accepted? ==> |n.chain| > |m.chain| && n.chain[|m.chain|].block == b
    requires !skip && AllPlain(m.chain) ==> AllPlain(n.chain)
    ensures Preserves(rules, o, m, skip, false, n) && Answers(o, m, b, log, r, n)
    ensures Switches(rules, o, m, b, skip, log, r, false, n)
    ensures
      Rises(m.view, v) && (!(r.Exception? && n.chain != m.chain) ==> Lifts(v, n.view, HeadOf(o, m))) ==>
        Climbs(o, m, log, r, n)
  {
    hide Rises, AllPlain;
    KeepsSelf(m.chain, n.chain, rules.libOf(StateOf(o, m)) - o.id.num);
    KeepsSelf(m.chain, n.chain, m.committed - o.id.num);
    if Rises(m.view, v) && Lifts(v, n.view, HeadOf(o, m)) {
      RisesThenLifts(m.view, v, n.view, HeadOf(o, m));
    }
  }

  /** Extending the head or leaving it, once the block is linked. */
  ghost predicate Decides<S(!new)>(rules: Rules<S>, o: Origin<S>, m: Node<S>, b: Block, skip: bool,
                                   branches: Option<(seq<Handle>, seq<Handle>)>, r: PushResult, relaxed: bool,
                                   n: Node<S>)
    requires m.view.Valid() && m.view.head.Some?
  {
    var tip := m.view.BlockOf(m.view.head.value).Id();
    && Preserves(rules, o, m, skip, relaxed, n)
    && (r.Accepted? && b.previous == HeadOf(o, m) ==>
          m.chain <= n.chain && |n.chain| > |m.chain| && n.chain[|m.chain|].block == b)
    && (branches.None? ==> m.chain <= n.chain && (r.Accepted? ==> |n.chain| > |m.chain|))
    && (branches.None? && r.Refused? ==> n.chain == m.chain && n.view.(held := m.view.held) == m.view)
    && (branches.Some? ==>
          && b.previous != HeadOf(o, m) && Wanted(rules, StateOf(o, m), m.view, tip, HeadOf(o, m))
          && SwitchLogged(rules, o, m.view, m.view.head.value, branches.value, m.chain, m.committed, skip,
                          r, relaxed, n.chain, n.view.head)
          && (r.Accepted? ==> HeadOf(o, n) == tip && n.view == m.view.(held := n.view.held)))
    && (m.chain != [] && !(branches.Some? && r.Accepted?)
        && !(r.Exception? && (branches.Some? || n.chain != m.chain)) ==>
          Ahead(o, m, n) && Lifts(m.view, n.view, HeadOf(o, m)))
    && Decided(rules, o, m.view, b, m.chain, m.committed, skip, branches, r, n.chain, n.committed,
               n.view.(held := m.view.held))
  }

  /** The block got into the fork database, and then the node decided. */
  lemma PushedThenDecided<S(!new)>(rules: Rules<S>, o: Origin<S>, m: Node<S>, u: Node<S>, b: Block, skip: bool,
                                   log: Log, r: PushResult, relaxed: bool, n: Node<S>)
    requires u.view.Valid() && u.view.head.Some? && log.view == u.view
    requires u.chain == m.chain && u.committed == m.committed
    requires Decides(rules, o, u, b, skip, log.branches, r, relaxed, n)
    requires b.previous != HeadOf(o, m) || IsKnownIn(m.view, HeadOf(o, m)) ==> Extends(m.view, u.view)
    ensures Preserves(rules, o, m, skip, relaxed, n) && Answers(o, m, b, log, r, n)
    ensures Switches(rules, o, m, b, skip, log, r, relaxed, n)
    ensures
      && Lifts(m.view, u.view, HeadOf(o, m))
      && (b.previous != HeadOf(o, m) ==> Rises(m.view, u.view)) ==>
        Climbs(o, m, log, r, n)
  {
    hide Keeps, AllPlain, Wanted, SwitchLogged, Decided, Rises, Extends, View.Keyed, LinksNameParents;
    if log.branches.None? && r.Refused? && HeadOf(o, m) in m.view.index {
      ExtendsHeld(m.view, u.view, n.view);
    }
    if Lifts(m.view, u.view, HeadOf(o, m)) && Rises(u.view, n.view) {
      LiftsThenRises(m.view, u.view, n.view, HeadOf(o, m));
    }
  }

  lemma DecidesHow<S(!new)>(rules: Rules<S>, o: Origin<S>, m: Node<S>, b: Block, skip: bool,
                            branches: Option<(seq<Handle>, seq<Handle>)>, r: PushResult, relaxed: bool, n: Node<S>)
    requires m.view.Valid() && m.view.head.Some? && Decides(rules, o, m, b, skip, branches, r, relaxed, n)
    ensures Decided(rules, o, m.view, b, m.chain, m.committed, skip, branches, r, n.chain, n.committed,
                    n.view.(held := m.view.held))
  {
  }

  /** Holding an item changes nothing else. */
  lemma HeldSame(v: View, u: View, w: View, hid: BlockId)
    requires w == u.(held := w.held)
    ensures Extends(v, u) ==> Extends(v, w)
    ensures Rises(v, u) ==> Rises(v, w)
    ensures Lifts(v, u, hid) ==> Lifts(v, w, hid)
  {
  }

  lemma ExtendsHeld(v: View, u: View, w: View)
    requires Extends(v, u) && w.(held := u.held) == u
    ensures Extends(v, w)
  {
  }

  /** The block got no further than the fork database. */
  lemma OnlyPushed<S(!new)>(rules: Rules<S>, o: Origin<S>, m: Node<S>, b: Block, skip: bool, log: Log, r: PushResult,
                            n: Node<S>)
    requires log.branches.None? && !r.Accepted? && n.chain == m.chain && n.committed == m.committed
    requires HeadOf(o, m) in m.view.index ==> Extends(m.view, n.view)
    ensures Preserves(rules, o, m, skip, false, n) && Answers(o, m, b, log, r, n)
    ensures Switches(rules, o, m, b, skip, log, r, false, n)
    ensures Lifts(m.view, n.view, HeadOf(o, m)) ==> Climbs(o, m, log, r, n)
  {
    hide Rises, Extends;
  }

  // ---------------------------------------------------------------------------
  // Runs
  // ---------------------------------------------------------------------------

  /** A block that was handled, and the node it left. */
  datatype Push<+S> = Push(block: Block, skip: bool, useFork: bool, log: Log, r: PushResult, relaxed: bool,
                           after: Node<S>)
  {
    /** The block led the node to another tip. */
    predicate Switched() {
      log.branches.Some? && r.Accepted?
    }
  }

  /** The node before push `i`. */
  function Before<S>(start: Node<S>, ps: seq<Push<S>>, i: nat): Node<S>
    requires i <= |ps|
  {
    if i == 0 then start else ps[i - 1].after
  }

  function Last<S>(start: Node<S>, ps: seq<Push<S>>): Node<S> {
    Before(start, ps, |ps|)
  }

  ghost predicate StepOf<S(!new)>(rules: Rules<S>, o: Origin<S>, size: nat, emergency: bool, m: Node<S>, p: Push<S>) {
    && Chained(rules, o, p.after.chain)
    && Handles(rules, o, size, emergency, m, p.block, p.skip, p.useFork, p.log, p.r, p.relaxed, p.after)
  }

  /** Every push starts from the node that the one before it left. */
  ghost predicate IsRun<S(!new)>(rules: Rules<S>, o: Origin<S>, size: nat, emergency: bool, start: Node<S>,
                                 ps: seq<Push<S>>)
  {
    && Chained(rules, o, start.chain)
    && forall i :: 0 <= i < |ps| ==> StepOf(rules, o, size, emergency, Before(start, ps, i), ps[i])
  }

  lemma RunStart<S(!new)>(rules: Rules<S>, o: Origin<S>, size: nat, emergency: bool, start: Node<S>)
    requires Chained(rules, o, start.chain)
    ensures IsRun(rules, o, size, emergency, start, [])
  {
  }

  lemma RunStep<S(!new)>(rules: Rules<S>, o: Origin<S>, size: nat, emergency: bool, start: Node<S>, ps: seq<Push<S>>,
                         p: Push<S>)
    requires IsRun(rules, o, size, emergency, start, ps) && StepOf(rules, o, size, emergency, Last(start, ps), p)
    ensures IsRun(rules, o, size, emergency, start, ps + [p])
  {
    hide StepOf, Chained;
    forall i | 0 <= i < |ps + [p]|
      ensures StepOf(rules, o, size, emergency, Before(start, ps + [p], i), (ps + [p])[i])
    {
      assert Before(start, ps + [p], i) == Before(start, ps, i);
    }
  }

  lemma HandlesPreserve<S(!new)>(rules: Rules<S>, o: Origin<S>, size: nat, emergency: bool, m: Node<S>, p: Push<S>)
    requires Handles(rules, o, size, emergency, m, p.block, p.skip, p.useFork, p.log, p.r, p.relaxed, p.after)
    ensures Keeps(m.chain, p.after.chain, m.committed - o.id.num) && m.committed <= p.after.committed
    ensures !p.relaxed && !p.skip && AllPlain(m.chain) ==> AllPlain(p.after.chain)
  {
    hide Keeps, AllPlain, Answers, Ignores, Switches, Climbs, Asked;
  }

  ghost predicate NothingFalls<S>(start: Node<S>, ps: seq<Push<S>>) {
    forall i :: 0 <= i < |ps| ==> !Falls(Before(start, ps, i), ps[i].log, ps[i].r, ps[i].after)
  }

  // ---------------------------------------------------------------------------
  // The tips of switches rise
  // ---------------------------------------------------------------------------

  /** The tips that a run of pushes switched to, in order. */
  ghost function Targets<S>(ps: seq<Push<S>>): (ts: seq<BlockId>) {
    if ps == [] then []
    else
      var before, p := Targets(ps[..|ps| - 1]), ps[|ps| - 1];
      if p.Switched() && p.log.view.Valid() && p.log.view.head.Some? then before + [p.log.Target()] else before
  }

  predicate Rising(ts: seq<BlockId>) {
    forall i, j :: 0 <= i < j < |ts| ==> ts[i].num < ts[j].num
  }

  /** The chain and the fork database have left `x` behind, or stand on it. */
  ghost predicate Past<S>(o: Origin<S>, m: Node<S>, x: BlockId) {
    m.chain != [] && (HeadOf(o, m) == x || HeadOf(o, m).num > x.num) && StandsOn(m.view, x)
  }

  /** A push that neither falls nor switches leaves behind what was left behind. */
  lemma StaysPast<S(!new)>(rules: Rules<S>, o: Origin<S>, m: Node<S>, log: Log, r: PushResult, n: Node<S>, x: BlockId)
    requires Chained(rules, o, m.chain) && Chained(rules, o, n.chain) && Past(o, m, x)
    requires Climbs(o, m, log, r, n) && !Falls(m, log, r, n) && !(log.branches.Some? && r.Accepted?)
    ensures Past(o, n, x)
  {
    hide Chained;
    IdNum(rules, o, m.chain, |m.chain|);
    IdNum(rules, o, n.chain, |n.chain|);
  }

  /** A switch goes to a tip above everything that was left behind, and then stands on it. */
  lemma SwitchesUp<S(!new)>(rules: Rules<S>, o: Origin<S>, m: Node<S>, b: Block, skip: bool, log: Log, r: PushResult,
                            relaxed: bool, n: Node<S>, x: BlockId)
    requires Chained(rules, o, m.chain) && Chained(rules, o, n.chain)
    requires Switches(rules, o, m, b, skip, log, r, relaxed, n) && Climbs(o, m, log, r, n)
    requires log.branches.Some? && r.Accepted?
    ensures log.view.Valid() && log.view.head.Some? && Past(o, n, log.Target()) && HeadOf(o, n) == log.Target()
    ensures Past(o, m, x) ==> log.Target().num > x.num
  {
    hide Chained, Wanted, SwitchLogged, Extends, LinksNameParents;
    IdNum(rules, o, m.chain, |m.chain|);
    IdNum(rules, o, n.chain, |n.chain|);
    WantedHeight(rules, StateOf(o, m), log.view, log.Target(), HeadOf(o, m));
  }

  lemma RunPrefix<S(!new)>(rules: Rules<S>, o: Origin<S>, size: nat, emergency: bool, start: Node<S>, ps: seq<Push<S>>)
    requires IsRun(rules, o, size, emergency, start, ps) && ps != []
    ensures
      var front, p := ps[..|ps| - 1], ps[|ps| - 1];
      && IsRun(rules, o, size, emergency, start, front) && StepOf(rules, o, size, emergency, Last(start, front), p)
      && Chained(rules, o, Last(start, front).chain)
      && (NothingFalls(start, ps) ==>
            NothingFalls(start, front) && !Falls(Last(start, front), p.log, p.r, p.after))
  {
    hide Handles, Chained, Falls;
    var n := |ps| - 1;
    var front := ps[..n];
    assert forall i :: 0 <= i <= n ==> Before(start, front, i) == Before(start, ps, i);
    assert StepOf(rules, o, size, emergency, Before(start, ps, n), ps[n]);
    if n > 0 {
      assert StepOf(rules, o, size, emergency, Before(start, ps, n - 1), ps[n - 1]);
    }
  }

  lemma RisingMore(ts: seq<BlockId>, t: BlockId)
    requires Rising(ts) && (ts != [] ==> ts[|ts| - 1].num < t.num)
    ensures Rising(ts + [t])
  {
  }

  /** While nothing falls, the tips of switches rise strictly, each is the head that its switch led to, and the
      node never comes back to one it has left. */
  lemma {:induction false} TargetsRise<S(!new)>(rules: Rules<S>, o: Origin<S>, size: nat, start: Node<S>,
                                                ps: seq<Push<S>>)
    requires IsRun(rules, o, size, false, start, ps) && NothingFalls(start, ps)
    ensures
      var ts, n := Targets(ps), Last(start, ps);
      && Rising(ts) && (ts != [] ==> Past(o, n, ts[|ts| - 1]))
      && (ps != [] && ps[|ps| - 1].Switched() ==>
            |ts| == |Targets(ps[..|ps| - 1])| + 1 && ts[|ts| - 1] == HeadOf(o, n))
  {
    hide Preserves, Ignores, Answers, Switches, Climbs, Asked, Past, Rising, IsRun, Chained, Falls;
    if ps != [] {
      var front, p := ps[..|ps| - 1], ps[|ps| - 1];
      var m := Last(start, front);
      RunPrefix(rules, o, size, false, start, ps);
      TargetsRise(rules, o, size, start, front);
      var ts := Targets(front);
      if p.Switched() {
        var x := if ts == [] then o.id else ts[|ts| - 1];
        SwitchesUp(rules, o, m, p.block, p.skip, p.log, p.r, p.relaxed, p.after, x);
        RisingMore(ts, p.log.Target());
      } else if ts != [] {
        StaysPast(rules, o, m, p.log, p.r, p.after, ts[|ts| - 1]);
      }
    } else {
      assert Rising([]) by { NoneRise(); }
    }
  }

  /** Before the first fall of a run the tips of its switches rise. */
  lemma {:induction false} RisesUntilFall<S(!new)>(rules: Rules<S>, o: Origin<S>, size: nat, start: Node<S>,
                                                   ps: seq<Push<S>>, k: nat)
    requires IsRun(rules, o, size, false, start, ps) && k <= |ps| && NothingFalls(start, ps[..k])
    ensures Rising(Targets(ps[..k]))
    decreases |ps|
  {
    hide IsRun, NothingFalls, Rising, Targets;
    if k == |ps| {
      assert ps[..k] == ps;
      TargetsRise(rules, o, size, start, ps);
    } else {
      RunPrefix(rules, o, size, false, start, ps);
      assert ps[..|ps| - 1][..k] == ps[..k];
      RisesUntilFall(rules, o, size, start, ps[..|ps| - 1], k);
    }
  }

  lemma NoneRise()
    ensures Rising([])
  {
  }

  /** Outside emergency mode an accepted block raises the head of a node whose fork database stands on it. */
  lemma AcceptedRises<S(!new)>(rules: Rules<S>, o: Origin<S>, size: nat, m: Node<S>, p: Push<S>)
    requires Chained(rules, o, m.chain) && StepOf(rules, o, size, false, m, p) && p.r.Accepted?
    requires m.view.head.Some? && m.view.head.value in m.view.items
    requires m.view.BlockOf(m.view.head.value).Id() == HeadOf(o, m)
    ensures |p.after.chain| > |m.chain|
  {
    hide Preserves, Ignores, Asked, Chained, Wanted, SwitchLogged, Extends;
    IdNum(rules, o, m.chain, |m.chain|);
    IdNum(rules, o, p.after.chain, |p.after.chain|);
    if p.log.branches.Some? {
      SwitchRises(rules, StateOf(o, m), m.view, p.log.view, HeadOf(o, m));
    }
  }

  // ---------------------------------------------------------------------------
  // No switch straight back
  // ---------------------------------------------------------------------------

  /** The pushes between `i` and `j` were put into the fork database and refused. */
  predicate RefusedBetween<S>(ps: seq<Push<S>>, i: nat, j: nat)
    requires j <= |ps|
  {
    forall k :: i < k < j ==> ps[k].r.Refused? && ps[k].log.pushed.Some? && ps[k].log.branches.None?
  }

  /** Both states lead to the same choice between branches. */
  ghost predicate SameChoice<S>(rules: Rules<S>, s: S, t: S) {
    rules.hardfork12(s) && rules.hardfork12(t) ==>
      rules.votesOf(s) == rules.votesOf(t) && rules.emergencyOf(s) == rules.emergencyOf(t)
  }

  /** Push `i` switched, push `j` starts the next switch, and the votes are the same. */
  ghost predicate Returnable<S>(rules: Rules<S>, o: Origin<S>, start: Node<S>, ps: seq<Push<S>>, i: nat, j: nat)
    requires i < j < |ps|
  {
    && ps[i].Switched() && ps[j].log.branches.Some? && RefusedBetween(ps, i, j)
    && SameChoice(rules, StateOf(o, Before(start, ps, i)), StateOf(o, ps[i].after))
  }

  /** No switch is ever undone by the next one while the votes are the same. */
  ghost predicate NoReturn<S>(rules: Rules<S>, o: Origin<S>, start: Node<S>, ps: seq<Push<S>>) {
    forall i, j :: 0 <= i < j < |ps| && Returnable(rules, o, start, ps, i, j) ==>
        && ps[j].log.view.Valid() && ps[j].log.view.head.Some?
        && ps[j].log.Target() != HeadOf(o, Before(start, ps, i))
  }

  /** After a switch from one tip to another no switch back is made while the votes are the same. */
  lemma WantedOnce<S(!new)>(rules: Rules<S>, s: S, t: S, v: View, w: View, candidate: BlockId, current: BlockId)
    requires v.Valid() && w.Valid() && Extends(v, w) && SameChoice(rules, s, t)
    requires Wanted(rules, s, v, candidate, current)
    ensures !Wanted(rules, t, w, current, candidate)
  {
    hide ShouldSwitch, Extends;
    WantedHeight(rules, s, v, candidate, current);
    WantedHeight(rules, t, w, current, candidate);
    if rules.hardfork12(s) && rules.hardfork12(t) {
      NoSwitchBack(v, w, candidate, current, rules.votesOf(s), rules.emergencyOf(s));
    }
  }

  /** A switch among tips of one height was made by preference, so its tip is linked. */
  lemma WantedLinked<S(!new)>(rules: Rules<S>, s: S, v: View, candidate: BlockId, current: BlockId)
    requires v.Valid() && Wanted(rules, s, v, candidate, current)
    ensures candidate.num > current.num || (candidate.num == current.num && candidate in v.index)
  {
  }

  /** What refused pushes leave of the node that switch `i` left. */
  lemma {:induction false} RefusedKeep<S(!new)>(rules: Rules<S>, o: Origin<S>, size: nat, emergency: bool,
                                                start: Node<S>, ps: seq<Push<S>>, i: nat, k: nat)
    requires IsRun(rules, o, size, emergency, start, ps) && i < k <= |ps| && RefusedBetween(ps, i, k)
    ensures |Before(start, ps, k).chain| >= |ps[i].after.chain|
    ensures HeadOf(o, ps[i].after) in ps[i].after.view.index ==>
      Before(start, ps, k).chain == ps[i].after.chain && Extends(ps[i].after.view, Before(start, ps, k).view)
  {
    hide Preserves, Ignores, Switches, Climbs, Asked, Chained, Extends;
    ExtendsSelf(ps[i].after.view);
    if k > i + 1 {
      RefusedKeep(rules, o, size, emergency, start, ps, i, k - 1);
      assert StepOf(rules, o, size, emergency, Before(start, ps, k - 1), ps[k - 1]);
      if HeadOf(o, ps[i].after) in ps[i].after.view.index {
        ExtendsIndex(ps[i].after.view, Before(start, ps, k - 1).view, HeadOf(o, ps[i].after));
        ExtendsTransitive(ps[i].after.view, Before(start, ps, k - 1).view, Before(start, ps, k).view);
      }
    }
  }

  lemma ExtendsIndex(v: View, w: View, id: BlockId)
    requires Extends(v, w) && id in v.index
    ensures id in w.index
  {
  }

  lemma SwitchView<S(!new)>(rules: Rules<S>, o: Origin<S>, m: Node<S>, b: Block, skip: bool, log: Log, r: PushResult,
                            relaxed: bool, n: Node<S>)
    requires Switches(rules, o, m, b, skip, log, r, relaxed, n) && log.branches.Some?
    ensures log.view.Valid() && log.view.head.Some? && Extends(m.view, log.view)
    ensures Wanted(rules, StateOf(o, m), log.view, log.Target(), HeadOf(o, m))
    ensures r.Accepted? ==>
      HeadOf(o, n) == log.Target() && Extends(log.view, n.view) && n.view.index == log.view.index
  {
    hide SwitchLogged, Wanted;
  }

  lemma NoWayBack<S(!new)>(rules: Rules<S>, o: Origin<S>, size: nat, emergency: bool, start: Node<S>,
                           ps: seq<Push<S>>, i: nat, j: nat)
    requires IsRun(rules, o, size, emergency, start, ps) && i < j < |ps| && Returnable(rules, o, start, ps, i, j)
    ensures ps[j].log.view.Valid() && ps[j].log.view.head.Some?
    ensures ps[j].log.Target() != HeadOf(o, Before(start, ps, i))
  {
    hide Preserves, Ignores, Answers, Switches, Climbs, Asked, Extends, Wanted, SameChoice, Chained;
    var m, n, u, p, q := Before(start, ps, i), ps[i].after, Before(start, ps, j), ps[i], ps[j];
    assert StepOf(rules, o, size, emergency, m, p) && StepOf(rules, o, size, emergency, u, q);
    assert Chained(rules, o, u.chain) by {
      assert StepOf(rules, o, size, emergency, Before(start, ps, j - 1), ps[j - 1]);
    }
    SwitchView(rules, o, m, p.block, p.skip, p.log, p.r, p.relaxed, n);
    SwitchView(rules, o, u, q.block, q.skip, q.log, q.r, q.relaxed, q.after);
    RefusedKeep(rules, o, size, emergency, start, ps, i, j);
    WantedHeight(rules, StateOf(o, u), q.log.view, q.log.Target(), HeadOf(o, u));
    IdNum(rules, o, n.chain, |n.chain|);
    IdNum(rules, o, u.chain, |u.chain|);
    WantedLinked(rules, StateOf(o, m), p.log.view, p.log.Target(), HeadOf(o, m));
    if p.log.Target().num == HeadOf(o, m).num {
      ExtendsTransitive(p.log.view, n.view, u.view);
      ExtendsTransitive(p.log.view, u.view, q.log.view);
      WantedOnce(rules, StateOf(o, m), StateOf(o, u), p.log.view, q.log.view, p.log.Target(), HeadOf(o, m));
    }
  }

  lemma RunNoReturn<S(!new)>(rules: Rules<S>, o: Origin<S>, size: nat, emergency: bool, start: Node<S>,
                             ps: seq<Push<S>>)
    requires IsRun(rules, o, size, emergency, start, ps)
    ensures NoReturn(rules, o, start, ps)
  {
    hide IsRun, SameChoice;
    forall i, j | 0 <= i < j < |ps| && Returnable(rules, o, start, ps, i, j)
      ensures ps[j].log.view.Valid() && ps[j].log.view.head.Some?
      ensures ps[j].log.Target() != HeadOf(o, Before(start, ps, i))
    {
      NoWayBack(rules, o, size, emergency, start, ps, i, j);
    }
  }
}
