/** The node's database: the applied chain with its undo stack, next to the fork
    database, and the handling of an incoming block. */
module NodeDatabase {
  import opened Options
  import opened Blocks
  import opened ForkView
  import opened ForkBranches
  import opened ForkDb
  import opened ForkChoice
  import opened Chain
  import opened ForkSwitch
  import opened NodeRun

  /** Whether the walk back to a block got there, stopped at the irreversible block, or
      ended in an exception. */
  datatype PopResult = Reached | AtLib | PopThrew

  class Database<S(!new)> {
    const rules: Rules<S>
    const origin: Origin<S>
    const fork: ForkDatabase
    /** The undo stack: every applied block with the state after it. */
    var chain: seq<Entry<S>>
    /** Blocks up to this number can no longer be undone. */
    var committed: nat

    ghost predicate Valid()
      reads this, fork
    {
      fork.Valid() && Chained(rules, origin, chain) && origin.id.num <= committed
    }

    constructor (rules: Rules<S>, origin: Origin<S>, fork: ForkDatabase)
      requires fork.Valid()
      ensures Valid() && chain == [] && this.rules == rules && this.origin == origin && this.fork == fork
      ensures committed == origin.id.num
    {
      this.rules, this.origin, this.fork := rules, origin, fork;
      chain, committed := [], origin.id.num;
    }

    /** The whole state of the node. */
    ghost function Now(): Node<S>
      reads this, fork
    {
      Node(chain, committed, fork.State(), fork.next)
    }

    function HeadId(): BlockId
      reads this
    {
      IdAt(origin, chain, |chain|)
    }

    function HeadState(): S
      reads this
    {
      StateAt(origin, chain, |chain|)
    }

    function HeadNum(): nat
      reads this
    {
      origin.id.num + |chain|
    }

    /** The irreversible block recorded in the head state. */
    function Lib(): nat
      reads this
    {
      rules.libOf(HeadState())
    }

    /** How far the fork database's head can still be popped. */
    ghost function ForkDepth(): nat
      reads this, fork
      requires fork.Valid()
    {
      HeadDepth(fork.State())
    }

    /** Pops the head block: moves the fork database's head to its parent, which may throw,
        and undoes the block unless it is committed. */
    method PopBlock() returns (ok: bool)
      requires Valid()
      modifies `chain, fork`head
      ensures Valid()
      ensures ok <==> old(|chain| > 0 && ForkDepth() > 0)
      ensures !ok ==> chain == old(chain) && fork.head == old(fork.head)
      ensures ok ==> chain == if old(HeadNum()) > committed then old(chain)[..|old(chain)| - 1] else old(chain)
      ensures ok ==> ForkDepth() + 1 == old(ForkDepth())
    {
      if |chain| == 0 {
        return false;
      }
      ghost var v := fork.State();
      ok := fork.PopBlock();
      if ok {
        DepthPop(v, fork.head.value);
        if HeadNum() > committed {
          ChainedPrefix(rules, origin, chain, |chain| - 1);
          chain := chain[..|chain| - 1];
        }
      }
    }

    /** Where a block id stands on the chain, or -1. */
    ghost function PositionOf(id: BlockId): (t: int)
      reads this
      ensures -1 <= t <= |chain| && (t >= 0 ==> IdAt(origin, chain, t) == id)
      ensures t == -1 ==> forall i :: 0 <= i <= |chain| ==> IdAt(origin, chain, i) != id
    {
      if exists i :: 0 <= i <= |chain| && IdAt(origin, chain, i) == id
      then var i :| 0 <= i <= |chain| && IdAt(origin, chain, i) == id; i
      else -1
    }

    /** The number a walk back to `target` stops at: the target or the irreversible block. */
    ghost function Floor(target: BlockId, lib: nat): nat
      reads this
    {
      var t := PositionOf(target);
      if t >= 0 && origin.id.num + t > lib then origin.id.num + t else lib
    }

    /** How many of `n` blocks are left after `k` pops, which do not undo committed blocks. */
    function Height(n: nat, k: int): int
      reads `committed
    {
      var floor := committed - origin.id.num;
      if n <= floor then n else if n - k < floor then floor else n - k
    }

    /** Pops until the head is `target`, never below the given irreversible block. */
    method PopTo(target: BlockId, lib: nat) returns (r: PopResult)
      requires Valid()
      modifies `chain, fork`head
      ensures Valid() && chain <= old(chain)
      ensures r.Reached? ==> HeadId() == target
      ensures r.AtLib? ==> HeadId() != target && HeadNum() <= lib
      ensures Keeps(old(chain), chain, lib - origin.id.num)
      ensures Keeps(old(chain), chain, old(committed) - origin.id.num)
      ensures old(PositionOf(target)) <= |chain|
      ensures committed <= old(Floor(target, lib)) ==>
        && old(|chain|) - |chain| == old(ForkDepth()) - ForkDepth()
        && (r.PopThrew? ==> ForkDepth() == 0 && HeadNum() > old(Floor(target, lib)))
      ensures |chain| == Height(old(|chain|), old(ForkDepth()) - ForkDepth())
      ensures r.PopThrew? ==> (ForkDepth() == 0 || chain == []) && HeadNum() > lib && HeadId() != target
      ensures r.Reached? && old(PositionOf(target)) >= 0 ==> |chain| == old(PositionOf(target))
      ensures old(HeadId()) == target ==> r.Reached? && chain == old(chain) && ForkDepth() == old(ForkDepth())
    {
      hide View.Keyed, Bare; hide LinksNameParents; hide HeadDepth; hide Chained;
      ghost var t, floor, d := PositionOf(target), Floor(target, lib), ForkDepth();
      while HeadId() != target
        invariant Valid() && chain <= old(chain)
        invariant t <= |chain| && Keeps(old(chain), chain, lib - origin.id.num)
        invariant Keeps(old(chain), chain, committed - origin.id.num)
        invariant ForkDepth() <= d && |chain| == Height(old(|chain|), d - ForkDepth())
        invariant committed <= floor ==> old(|chain|) - |chain| == d - ForkDepth()
        invariant old(HeadId()) == target ==> chain == old(chain) && ForkDepth() == d
        decreases ForkDepth()
      {
        if HeadNum() <= lib {
          return AtLib;
        }
        var ok := PopBlock();
        if !ok {
          return PopThrew;
        }
      }
      r := Reached;
      IdNum(rules, origin, chain, |chain|);
      if t >= 0 {
        IdNum(rules, origin, old(chain), t);
      }
    }

    /** With the target above everything irreversible, popping gets there exactly when the
        fork database's head can be popped often enough. */
    method PopExactly(target: BlockId, lib: nat) returns (r: PopResult)
      requires Valid()
      modifies `chain, fork`head
      ensures Valid() && chain <= old(chain)
      ensures r.Reached? ==> HeadId() == target
      ensures Keeps(old(chain), chain, lib - origin.id.num)
      ensures Keeps(old(chain), chain, old(committed) - origin.id.num)
      ensures old(PositionOf(target)) <= |chain|
      ensures
        var t, d, n := old(PositionOf(target)), old(ForkDepth()), old(|chain|);
        && (t == n ==> r.Reached? && chain == old(chain) && ForkDepth() == d)
        && (t >= 0 && lib <= origin.id.num + t && committed <= origin.id.num + t ==>
              if d >= n - t then r.Reached? && |chain| == t && ForkDepth() == d - (n - t)
              else r.PopThrew? && |chain| == n - d)
        && (t >= 0 && origin.id.num + t < lib <= old(HeadNum()) && committed <= lib ==>
              if d >= old(HeadNum()) - lib then r.AtLib? && HeadNum() == lib
              else r.PopThrew? && |chain| == n - d)
        && (0 <= t < n && lib < committed && lib < old(HeadNum()) && origin.id.num + t < committed ==>
              r.PopThrew? && |chain| == Height(n, d))
    {
      ghost var t, d, before := PositionOf(target), ForkDepth(), chain;
      r := PopTo(target, lib);
      assert t >= 0 && |chain| == t ==> HeadId() == target;
    }

    /** Applies a block on top of the head (`apply_block` inside an undo session). */
    method ApplyBlock(b: Block, skip: bool) returns (o: Outcome<S>)
      requires Valid()
      modifies `chain, `committed
      ensures Valid()
      ensures b.previous != old(HeadId()) ==> o == Rejected(0)
      ensures b.previous == old(HeadId()) ==> o == rules.apply(old(HeadState()), b, skip)
      ensures chain == if o.Applied? then old(chain) + [Entry(b, o.state, !skip)] else old(chain)
      ensures committed ==
        match o
        case Applied(s) => Max(old(committed), rules.libOf(s))
        case Rejected(c) => Max(old(committed), c)
        case WrongSchedule => old(committed)
    {
      if b.previous != HeadId() {
        return Rejected(0);
      }
      o := rules.apply(HeadState(), b, skip);
      match o
      case Applied(s) =>
        ChainedPush(rules, origin, chain, Entry(b, s, !skip));
        chain := chain + [Entry(b, s, !skip)];
        committed := Max(committed, rules.libOf(s));
      case Rejected(c) =>
        committed := Max(committed, c);
      case WrongSchedule =>
    }

    /** Applies one block of the branch being switched to, retrying a schedule mismatch
        with the schedule check off. */
    method ApplyRelaxed(b: Block, skip: bool) returns (ok: bool, relaxed: bool)
      requires Valid()
      modifies `chain, `committed
      ensures Valid()
      ensures old(committed) <= committed
      ensures ok <==> old(b.previous == HeadId() && ApplyOnto(rules, HeadState(), b, skip).Some?)
      ensures ok ==> chain == old(chain) + [ApplyOnto(rules, old(HeadState()), b, skip).value]
      ensures ok ==> committed == Max(old(committed), rules.libOf(HeadState()))
      ensures !ok ==> chain == old(chain)
      ensures !ok ==> old(committed) <= committed <= Max(old(committed), FailCommit(rules, HeadState(), b, skip))
      ensures
        var first, second := rules.apply(old(HeadState()), b, skip), rules.apply(old(HeadState()), b, true);
        var links := b.previous == old(HeadId());
        && (ok <==> links && (first.Applied? || (first.WrongSchedule? && second.Applied?)))
        && (relaxed <==> links && first.WrongSchedule? && second.Applied?)
        && (ok ==> chain == old(chain) + [if first.Applied? then Entry(b, first.state, !skip)
                                          else Entry(b, second.state, false)])
        && (!ok && !links ==> committed == old(committed))
        && (!ok && links && first.Rejected? ==> committed == Max(old(committed), first.committed))
        && (!ok && links && first.WrongSchedule? ==>
              committed == if second.Rejected? then Max(old(committed), second.committed) else old(committed))
      ensures relaxed ==> ok && !chain[|chain| - 1].plain
      ensures ok && !skip && !relaxed ==> chain[|chain| - 1].plain
    {
      var o := ApplyBlock(b, skip);
      relaxed := false;
      if o.WrongSchedule? {
        o := ApplyBlock(b, true);
        relaxed := o.Applied?;
      }
      ok := o.Applied?;
    }

    /** Applies the blocks of a branch, oldest first, until one fails. */
    method ApplyBranch(branch: seq<Block>, skip: bool, ghost x: nat) returns (k: nat, relaxed: bool)
      requires Valid()
      modifies `chain, `committed
      ensures Valid()
      ensures old(committed) <= committed
      ensures k == |Gained(rules, old(HeadState()), old(HeadId()), branch, skip)|
      ensures chain == old(chain) + Gained(rules, old(HeadState()), old(HeadId()), branch, skip)
      ensures forall es :: Follows(rules, old(HeadState()), old(HeadId()), branch, skip, es) ==>
        k == |branch| && chain == old(chain) + es
      ensures
        var es := Gained(rules, old(HeadState()), old(HeadId()), branch, skip);
        relaxed <==> Mismatched(rules, old(HeadState()), branch, skip, es, k)
      ensures !skip && !relaxed && AllPlain(old(chain)) ==> AllPlain(chain)
      ensures CommitsUpTo(rules, old(HeadState()), old(HeadId()), branch, skip, x) && old(committed) <= x ==>
        committed <= x
    {
      hide Chained, Bare, LinksNameParents, Gained, View.Keyed, AllPlain, CommitsUpTo, Stacked, Follows, Mismatched;
      ghost var s, tip := HeadState(), HeadId();
      ghost var es := Gained(rules, s, tip, branch, skip);
      ghost var bounded := CommitsUpTo(rules, s, tip, branch, skip, x) && committed <= x;
      ghost var plain := !skip && AllPlain(chain);
      ghost var base := chain;
      StackedEnds(base, es);
      MismatchedNone(rules, s, branch, skip, es);
      k, relaxed := 0, false;
      while k < |branch|
        invariant k <= |es| && Valid() && chain == Stacked(base, es, k) && old(committed) <= committed
        invariant plain && !relaxed ==> AllPlain(chain)
        invariant bounded ==> committed <= x
        invariant relaxed <==> Mismatched(rules, s, branch, skip, es, k)
      {
        GainedStep(rules, s, tip, branch, skip, k);
        GainedBound(rules, s, tip, branch, skip, x, k);
        StackedStep(origin, base, es, k);
        MismatchedMore(rules, s, branch, skip, es, k);
        var ok, r := ApplyRelaxed(branch[k], skip);
        if !ok {
          break;
        }
        relaxed := relaxed || r;
        k := k + 1;
      }
      forall all | Follows(rules, s, tip, branch, skip, all)
        ensures all == es && |es| == |branch|
      {
        GainedWhole(rules, s, tip, branch, skip, all);
      }
    }

    /** Applies the blocks of the old branch again, oldest first, without retrying. From
        the state they were first applied to this rebuilds the popped entries. */
    method Reapply(branch: seq<Block>, skip: bool, ghost full: seq<Entry<S>>, ghost x: nat) returns (ok: bool)
      requires Valid()
      modifies `chain, `committed
      ensures Valid() && old(chain) <= chain
      ensures old(committed) <= committed
      ensures chain == old(chain) + Kept(rules, old(HeadState()), old(HeadId()), branch, skip)
      ensures ok <==> |chain| == |old(chain)| + |branch|
      ensures ok && branch != [] ==> HeadId() == branch[|branch| - 1].Id()
      ensures KeepsUpTo(rules, old(HeadState()), old(HeadId()), branch, skip, x) && old(committed) <= x ==>
        committed <= x
      ensures Rebuilds(full, old(chain), branch) && !skip ==> ok && chain == full
      ensures !skip && AllPlain(old(chain)) ==> AllPlain(chain)
    {
      hide Chained, Kept, LinksNameParents, View.Keyed, AllPlain, KeepsUpTo, Rebuilds, Stacked, Bare;
      ghost var s, tip := HeadState(), HeadId();
      ghost var es := Kept(rules, s, tip, branch, skip);
      ghost var bounded := KeepsUpTo(rules, s, tip, branch, skip, x) && committed <= x;
      if Rebuilds(full, chain, branch) && !skip {
        RebuiltAll(full, chain, branch);
      }
      ghost var base := chain;
      StackedEnds(base, es);
      var k := 0;
      while k < |branch|
        invariant k <= |es| && Valid() && chain == Stacked(base, es, k) && old(committed) <= committed
        invariant bounded ==> committed <= x
        invariant !skip && AllPlain(base) ==> AllPlain(chain)
      {
        KeptStep(rules, s, tip, branch, skip, k);
        KeptBound(rules, s, tip, branch, skip, x, k);
        StackedStep(origin, base, es, k);
        var o := ApplyBlock(branch[k], skip);
        if !o.Applied? {
          return false;
        }
        k := k + 1;
      }
      ok := true;
      if branch != [] {
        KeptBlocks(rules, s, tip, branch, skip, |branch| - 1);
      }
    }

    /** What was popped is what re-applying keeps. */
    lemma RebuiltAll(full: seq<Entry<S>>, prefix: seq<Entry<S>>, branch: seq<Block>)
      requires Rebuilds(full, prefix, branch)
      ensures
        var es := Kept(rules, StateAt(origin, prefix, |prefix|), IdAt(origin, prefix, |prefix|), branch, false);
        full == prefix + es && |es| == |branch|
    {
      Rebuilt(full, prefix, branch, |branch|);
    }

    lemma {:induction false} Rebuilt(full: seq<Entry<S>>, prefix: seq<Entry<S>>, branch: seq<Block>, k: nat)
      requires Rebuilds(full, prefix, branch) && k <= |branch|
      ensures
        var es := Kept(rules, StateAt(origin, prefix, |prefix|), IdAt(origin, prefix, |prefix|), branch, false);
        k <= |es| && full[..|prefix| + k] == prefix + es[..k]
    {
      hide Kept;
      if k > 0 {
        Rebuilt(full, prefix, branch, k - 1);
        KeptStep(rules, StateAt(origin, prefix, |prefix|), IdAt(origin, prefix, |prefix|), branch, false, k - 1);
        RebuildStep(full, prefix, branch, k - 1);
        var es := Kept(rules, StateAt(origin, prefix, |prefix|), IdAt(origin, prefix, |prefix|), branch, false);
        assert full[..|prefix| + k - 1] == prefix + es[..k - 1];
        if k > 1 {
          assert full[|prefix| + k - 2] == es[k - 2];
        } else {
          assert StateAt(origin, full, |prefix|) == StateAt(origin, prefix, |prefix|);
        }
        assert full[..|prefix| + k] == full[..|prefix| + k - 1] + [full[|prefix| + k - 1]];
      }
    }

    lemma RebuildStep(full: seq<Entry<S>>, prefix: seq<Entry<S>>, branch: seq<Block>, k: nat)
      requires Rebuilds(full, prefix, branch) && k < |branch|
      ensures
        var i := |prefix| + k;
        && branch[k].previous == IdAt(origin, full, i)
        && rules.apply(StateAt(origin, full, i), branch[k], false) == Applied(full[i].state)
        && full[i] == Entry(branch[k], full[i].state, true)
    {
      var i := |prefix| + k;
      assert EntryOk(rules, origin, full, i);
      assert full[i] == full[|prefix|..][k];
    }

    /** `full` extends `prefix` by plain entries with the given blocks. */
    ghost predicate Rebuilds(full: seq<Entry<S>>, prefix: seq<Entry<S>>, branch: seq<Block>)
    {
      && Chained(rules, origin, full) && prefix <= full && |full| == |prefix| + |branch|
      && AllPlain(full[|prefix|..])
      && forall i :: 0 <= i < |branch| ==> full[|prefix| + i].block == branch[i]
    }

    /** The linked items of these blocks are held by the caller, so removing them from the
        index kills nothing. */
    ghost predicate CallerHolds(blocks: seq<Block>)
      reads fork
    {
      forall b :: b in blocks && b.Id() in fork.index ==> fork.index[b.Id()] in fork.held
    }

    /** Removes blocks from the fork database. */
    method RemoveBlocks(blocks: seq<Block>)
      requires Valid()
      modifies fork`index
      ensures Valid()
      ensures old(CallerHolds(blocks)) ==> ForkDepth() == old(ForkDepth())
    {
      ghost var v := fork.State();
      for i := 0 to |blocks|
        invariant fork.Valid()
        invariant forall id :: id in fork.index ==> id in v.index && fork.index[id] == v.index[id]
        invariant forall id :: id in v.index && id !in fork.index ==> exists b :: b in blocks && b.Id() == id
      {
        fork.Remove(blocks[i].Id());
      }
      if old(CallerHolds(blocks)) && fork.head.Some? {
        DepthFrame(v, fork.State(), fork.head.value);
      }
    }

    /** The recovery after a failed switch: drops the failed blocks, pops what was applied
        of the new branch and applies the old branch again. */
    method RecoverOld(failed: seq<Block>, olds: seq<Block>, oldTip: Handle, skip: bool, ghost full: seq<Entry<S>>)
      returns (r: SwitchResult)
      requires Valid() && olds != [] && oldTip in fork.items
      modifies `chain, `committed, fork`head, fork`index
      ensures Valid() && !r.Switched?
      ensures Keeps(old(chain), chain, old(committed) - origin.id.num)
      ensures old(committed) <= committed
      ensures r.Recovered? ==> fork.head == Some(oldTip) && HeadId() == olds[|olds| - 1].Id()
      ensures !skip && AllPlain(old(chain)) ==> AllPlain(chain)
      ensures
        var t := old(PositionOf(olds[0].previous));
        && (t >= 0 ==> old(chain)[..t] <= chain)
        && (t >= 0 && old(committed) <= origin.id.num + t && (old(|chain|) == t || old(Lib()) <= origin.id.num + t)
            && old(CallerHolds(failed)) ==>
              (old(ForkDepth()) >= old(|chain|) - t && Rebuilds(full, old(chain)[..t], olds) && !skip ==>
                 r.Recovered? && chain == full)
              && (old(ForkDepth()) < old(|chain|) - t ==>
                    r.Threw? && chain == old(chain)[..old(|chain|) - old(ForkDepth())]))
    {
      hide Keeps, LinksNameParents, Depth, HeadDepth, AllPlain, Rebuilds, Kept, KeepsUpTo, View.Keyed, Chained, Bare;
      ghost var t, before := PositionOf(olds[0].previous), chain;
      RemoveBlocks(failed);
      var p := PopExactly(olds[0].previous, Lib());
      PlainPrefix(chain, before);
      if p.PopThrew? {
        return Threw;
      }
      ghost var popped := chain;
      assert t >= 0 && |popped| == t ==> popped == before[..t];
      var ok := Reapply(olds, skip, full, 0);
      KeepsExtended(before, popped, chain, old(committed) - origin.id.num);
      if !ok {
        return Threw;
      }
      fork.SetHead(oldTip);
      r := Recovered;
    }

    lemma PositionIs(id: BlockId, t: nat)
      requires Chained(rules, origin, chain) && t <= |chain| && IdAt(origin, chain, t) == id
      ensures PositionOf(id) == t
    {
      IdNum(rules, origin, chain, t);
      IdNum(rules, origin, chain, PositionOf(id));
    }

    /** The old branch is the top of the chain, above the fork point at height `t`. */
    ghost predicate OnTop(olds: seq<Block>, t: nat)
      reads this
    {
      Tops(chain, olds, t)
    }

    ghost predicate Tops(entries: seq<Entry<S>>, olds: seq<Block>, t: nat) {
      && olds != [] && t + |olds| == |entries|
      && forall i :: 0 <= i < |olds| ==> entries[t + i].block == olds[i]
    }

    /** Applies the new branch from the fork point, which is now the head, and recovers the
        old branch `full` if that fails. */
    method AdoptNew(newTip: Handle, oldTip: Handle, news: seq<Block>, olds: seq<Block>, skip: bool,
                    ghost full: seq<Entry<S>>)
      returns (r: SwitchResult, relaxed: bool)
      requires Valid() && news != [] && olds != [] && newTip in fork.items && oldTip in fork.items
      requires HeadId() == olds[0].previous
      modifies `chain, `committed, fork`head, fork`index
      ensures Valid() && old(chain) <= chain
      ensures old(committed) <= committed
      ensures r.Switched? ==>
        && chain == old(chain) + NewEntries(rules, origin, old(chain), news, |old(chain)|, skip)
        && |chain| == |old(chain)| + |news|
        && HeadId() == news[|news| - 1].Id() && fork.head == Some(newTip)
      ensures r.Switched? ==> fork.index == old(fork.index)
      ensures r.Recovered? ==> fork.head == Some(oldTip) && HeadId() == olds[|olds| - 1].Id()
      ensures !relaxed && !skip && AllPlain(old(chain)) ==> AllPlain(chain)
      ensures
        var es := NewEntries(rules, origin, old(chain), news, |old(chain)|, skip);
        var settled := old(committed <= HeadNum() && CommitsUpTo(rules, HeadState(), HeadId(), news, skip, HeadNum()));
        && (|es| == |news| ==> r.Switched?)
        && (settled && |es| < |news| && old(CallerHolds(news)) ==>
              if old(ForkDepth()) >= |es|
              then Rebuilds(full, old(chain), olds) && !skip ==>
                     r.Recovered? && chain == full && fork.head == Some(oldTip)
              else r.Threw? && chain == old(chain) + es[..|es| - old(ForkDepth())])
    {
      hide Gained, Keeps, HeadDepth, LinksNameParents, View.Keyed, Chained, LinkOk, EntryOk, CommitsUpTo, Rebuilds;
      hide Bare;
      hide AllPlain, Mismatched, Follows;
      ghost var base := chain;
      ghost var es := NewEntries(rules, origin, chain, news, |chain|, skip);
      var k;
      k, relaxed := ApplyBranch(news, skip, HeadNum());
      if k < |news| {
        assert base == chain[..|base|];
        PositionIs(olds[0].previous, |base|);
        TopBound(rules, StateAt(origin, base, |base|), IdAt(origin, base, |base|), news, skip, origin.id.num + |base|);
        assert |es| >= ForkDepth() ==> chain[..|chain| - ForkDepth()] == base + es[..|es| - ForkDepth()];
        r := RecoverOld(news[k..], olds, oldTip, skip, full);
        return;
      }
      GainedBlocks(rules, old(HeadState()), old(HeadId()), news, skip, |news| - 1);
      fork.SetHead(newTip);
      r := Switched;
    }

    lemma TopPosition(olds: seq<Block>, t: nat)
      requires olds != [] && Chained(rules, origin, chain) && OnTop(olds, t)
      ensures PositionOf(olds[0].previous) == t && t + |olds| == |chain|
    {
      assert EntryOk(rules, origin, chain, t);
      PositionIs(olds[0].previous, t);
    }

    lemma TopRebuilds(before: seq<Entry<S>>, popped: seq<Entry<S>>, olds: seq<Block>, t: nat)
      requires Chained(rules, origin, before) && popped <= before && |popped| == t && Tops(before, olds, t)
      ensures popped == before[..t] && (AllPlain(before[t..]) ==> Rebuilds(before, popped, olds))
    {
    }

    /** Pops the old branch. A stop at the irreversible block takes the new tip out of the index. */
    method PopOld(newTip: Handle, olds: seq<Block>, ghost t: nat) returns (p: PopResult)
      requires Valid() && olds != [] && newTip in fork.items
      modifies `chain, fork`head, fork`index
      ensures Valid() && chain <= old(chain)
      ensures p.Reached? ==> HeadId() == olds[0].previous && fork.index == old(fork.index)
      ensures Keeps(old(chain), chain, old(Lib()) - origin.id.num)
      ensures Keeps(old(chain), chain, old(committed) - origin.id.num)
      ensures AllPlain(old(chain)) ==> AllPlain(chain)
      ensures old(OnTop(olds, t)) ==> t + |olds| == |old(chain)|
      ensures old(OnTop(olds, t)) && old(Lib()) <= origin.id.num + t && old(committed) <= origin.id.num + t ==>
        if old(ForkDepth()) >= |olds|
        then p.Reached? && chain == old(chain)[..t] && ForkDepth() == old(ForkDepth()) - |olds|
        else !p.Reached? && chain == old(chain)[..|old(chain)| - old(ForkDepth())]
      ensures
        old(OnTop(olds, t)) && origin.id.num + t < old(Lib()) <= old(HeadNum()) && old(committed) <= old(Lib()) ==>
          !p.Reached? && LibEnd(origin, old(ForkDepth()), old(Lib()), old(chain), Threw, chain)
      ensures
        old(OnTop(olds, t)) && origin.id.num + t < old(committed) && old(Lib()) < old(committed)
        && old(Lib()) < old(HeadNum()) ==>
          !p.Reached? && StuckEnd(origin, old(ForkDepth()), old(committed), old(chain), Threw, chain)
    {
      hide Keeps, HeadDepth, LinksNameParents, AllPlain, Chained, Tops, LinkOk, EntryOk, View.Keyed, Bare;
      ghost var before := chain;
      if OnTop(olds, t) {
        TopPosition(olds, t);
      }
      p := PopExactly(olds[0].previous, Lib());
      PlainPrefix(chain, before);
      if p.AtLib? {
        fork.Remove(fork.items[newTip].block.Id());
      }
    }

    /** A switch to a real fork: pops the old branch, applies the new one and recovers if
        that fails. */
    method Reorganise(newTip: Handle, oldTip: Handle, news: seq<Block>, olds: seq<Block>, skip: bool, ghost t: nat)
      returns (r: SwitchResult, relaxed: bool)
      requires Valid() && news != [] && olds != [] && newTip in fork.items && oldTip in fork.items
      modifies `chain, `committed, fork`head, fork`index
      ensures Valid()
      ensures Keeps(old(chain), chain, old(committed) - origin.id.num)
      ensures old(committed) <= committed
      ensures Keeps(old(chain), chain, old(Lib()) - origin.id.num)
      ensures r.Switched? ==> HeadId() == news[|news| - 1].Id() && fork.head == Some(newTip)
      ensures !relaxed && !skip && AllPlain(old(chain)) ==> AllPlain(chain)
      ensures
        old(OnTop(olds, t) && CallerHolds(news)) && t <= |old(chain)|
        && Reversible(rules, origin, old(chain), old(committed), news, t, skip) ==>
          |olds| <= |old(chain)| &&
          RealEnd(rules, origin, old(ForkDepth()), newTip, oldTip, news, |olds|, old(chain), skip, r, chain, fork.head)
      ensures
        old(OnTop(olds, t)) && origin.id.num + t < old(Lib()) <= old(HeadNum()) && old(committed) <= old(Lib()) ==>
          LibEnd(origin, old(ForkDepth()), old(Lib()), old(chain), r, chain)
      ensures
        old(OnTop(olds, t)) && origin.id.num + t < old(committed) && old(Lib()) < old(committed)
        && old(Lib()) < old(HeadNum()) ==>
          StuckEnd(origin, old(ForkDepth()), old(committed), old(chain), r, chain)
      ensures r.Switched? ==> fork.index == old(fork.index)
      ensures r.Recovered? ==> fork.head == Some(oldTip) && HeadId() == olds[|olds| - 1].Id()
    {
      hide Gained, CommitsUpTo, Keeps, HeadDepth, LinksNameParents, Rebuilds, AllPlain, Chained, Tops, LinkOk, EntryOk;
      hide Bare;
      hide View.Keyed, RealEnd, LibEnd, StuckEnd;
      relaxed := false;
      ghost var before, lib, d := chain, Lib(), ForkDepth();
      ghost var onTop := OnTop(olds, t);
      var p := PopOld(newTip, olds, t);
      if !p.Reached? {
        if onTop && d < |olds| && |olds| <= |before| && chain == before[..|before| - d] {
          RealThrown(rules, origin, d, newTip, oldTip, news, |olds|, before, skip, chain, fork.head);
        }
        return Threw, false;
      }
      ghost var popped := chain;
      if onTop && |popped| == t {
        TopRebuilds(before, popped, olds, t);
        PrefixAt(origin, before, popped);
      }
      r, relaxed := AdoptNew(newTip, oldTip, news, olds, skip, before);
      if onTop && |popped| == t && |olds| <= |before| && d >= |olds| && popped == before[..|before| - |olds|] {
        RealAdopted(rules, origin, d, newTip, oldTip, news, |olds|, before, popped, skip, r, chain, fork.head);
      }
      KeepsExtended(before, popped, chain, lib - origin.id.num);
      KeepsExtended(before, popped, chain, old(committed) - origin.id.num);
    }

    /** The recovery of a failed extension: pops back to the block it started from. */
    method Retreat(failed: seq<Block>, common: BlockId, oldTip: Handle) returns (r: SwitchResult)
      requires Valid() && PositionOf(common) >= 0 && oldTip in fork.items
      modifies `chain, fork`head, fork`index
      ensures Valid() && !r.Switched? && (r.Recovered? ==> fork.head == Some(oldTip))
      ensures Keeps(old(chain), chain, old(committed) - origin.id.num)
      ensures old(chain)[..old(PositionOf(common))] <= chain <= old(chain)
      ensures
        var t := old(PositionOf(common));
        && old(CallerHolds(failed)) && committed <= origin.id.num + t
        && old(|chain| == t || Lib() <= origin.id.num + t) ==>
          if old(ForkDepth()) >= old(|chain|) - t
          then r.Recovered? && chain == old(chain)[..t] && fork.head == Some(oldTip)
          else r.Threw? && chain == old(chain)[..old(|chain|) - old(ForkDepth())]
    {
      hide Chained, LinksNameParents, Bare, View.Keyed, CallerHolds, Depth;
      RemoveBlocks(failed);
      var p := PopExactly(common, Lib());
      if p.PopThrew? {
        return Threw;
      }
      fork.SetHead(oldTip);
      r := Recovered;
    }

    /** A switch that only extends the present head: applies the rest of the branch above
        the common block, or pops back to it. */
    method ExtendLinear(newTip: Handle, oldTip: Handle, news: seq<Block>, skip: bool)
      returns (r: SwitchResult, relaxed: bool)
      requires Valid() && news != [] && newTip in fork.items && oldTip in fork.items
      modifies `chain, `committed, fork`head, fork`index
      ensures Valid() && old(chain) <= chain
      ensures old(committed) <= committed
      ensures r.Switched? ==> HeadId() == news[|news| - 1].Id() && fork.head == Some(newTip)
      ensures r.Switched? ==> fork.index == old(fork.index)
      ensures r.Recovered? ==> fork.head == Some(oldTip)
      ensures !relaxed && !skip && AllPlain(old(chain)) ==> AllPlain(chain)
      ensures
        old(CallerHolds(news) && committed <= HeadNum())
        && old(CommitsUpTo(rules, HeadState(), HeadId(), news, skip, HeadNum())) ==>
          LinearEnd(rules, origin, old(ForkDepth()), newTip, oldTip, news, old(chain), skip, r, relaxed, chain,
                    fork.head)
    {
      hide Gained, Keeps, HeadDepth, LinksNameParents, View.Keyed, Chained, LinkOk, EntryOk, CommitsUpTo, LinearEnd;
      hide Bare;
      hide Corrected, AllPlain, Mismatched, Follows;
      ghost var base, d := chain, ForkDepth();
      var common := HeadId();
      ghost var es := NewEntries(rules, origin, chain, news, |chain|, skip);
      var k;
      k, relaxed := ApplyBranch(news, skip, HeadNum());
      assert base == chain[..|base|];
      if k < |news| {
        PositionIs(common, |base|);
        TopBound(rules, StateAt(origin, base, |base|), IdAt(origin, base, |base|), news, skip, origin.id.num + |base|);
        ghost var full := chain;
        r := Retreat(news[k..], common, oldTip);
        PlainPrefix(chain, full);
        LinearFailed(rules, origin, d, newTip, oldTip, news, base, skip, r, relaxed, full, chain, fork.head);
        return;
      }
      GainedBlocks(rules, old(HeadState()), old(HeadId()), news, skip, |news| - 1);
      ghost var full := chain;
      if relaxed {
        CorrectTop();
      }
      fork.SetHead(newTip);
      r := Switched;
      LinearDone(rules, origin, d, newTip, oldTip, news, base, skip, relaxed, full, chain, fork.head);
    }

    /** Corrects the slot counter in the head state, outside any block. */
    method CorrectTop()
      requires Valid() && |chain| > 0
      modifies `chain
      ensures Valid() && chain == Corrected(rules, old(chain))
      ensures
        var n := |old(chain)| - 1;
        && |chain| == n + 1 && chain[..n] == old(chain)[..n]
        && chain[n].block == old(chain)[n].block && !chain[n].plain
        && chain[n].state == rules.correctSlot(old(chain)[n].state, old(chain)[n].block)
    {
      var n := |chain| - 1;
      var e := chain[n];
      ChainedPrefix(rules, origin, chain, n);
      assert EntryOk(rules, origin, chain, n);
      ChainedPush(rules, origin, chain[..n], Entry(e.block, rules.correctSlot(e.state, e.block), false));
      chain := chain[..n] + [Entry(e.block, rules.correctSlot(e.state, e.block), false)];
    }

    /** Switches to the branch `f` of `newTip` from the branch `s` of the head. */
    method SwitchFork(newTip: Handle, f: seq<Handle>, s: seq<Handle>, skip: bool)
      returns (r: SwitchResult, relaxed: bool)
      requires Valid() && f != [] && s != [] && newTip in fork.items && f[0] in fork.items && s[0] in fork.items
      requires Branches(fork.State(), f[0], s[0]) == Some((f, s)) && |f| >= |s|
      requires fork.items[s[0]].block.Id() == HeadId() && forall h :: h in f ==> h in fork.items && h in fork.held
      requires forall h :: h in s ==> h in fork.items
      modifies `chain, `committed, fork`head, fork`index
      ensures Valid() && Keeps(old(chain), chain, old(Lib()) - origin.id.num)
      ensures Keeps(old(chain), chain, old(committed) - origin.id.num)
      ensures old(committed) <= committed
      ensures r.Switched? ==> HeadId() == fork.items[f[0]].block.Id() && fork.head == Some(newTip)
      ensures r.Switched? ==> fork.index == old(fork.index)
      ensures r.Recovered? ==> fork.head == Some(s[0]) && (HeadId() == old(HeadId()) || old(chain) <= chain)
      ensures !relaxed && !skip && AllPlain(old(chain)) ==> AllPlain(chain)
      ensures SwitchEnds(rules, origin, old(fork.State()), newTip, f, s, old(chain), old(committed), skip,
                         r, relaxed, chain, fork.head)
    {
      hide Tops, Gained, CommitsUpTo, LinkOk, NoCollision, RealEnd, LinearEnd, LibEnd, StuckEnd, Bare;
      hide Keeps; hide Chained; hide LinksNameParents; hide AllPlain; hide HeadDepth; hide Branches; hide Reversible;
      hide View.Keyed; hide OldestFirst; hide Indexed; hide CallerHolds;
      var news, olds := OldestFirst(fork.State(), f), OldestFirst(fork.State(), s);
      LastDiffers(fork.State(), f[0], s[0]);
      if Indexed(fork.State(), f) {
        HoldsBranch(f);
      }
      if |s| == 1 && olds[0].Id() == HeadId() && news[0].Id() == olds[0].Id() {
        HoldsRest(news);
        r, relaxed := Extend(newTip, s[0], news[1..], skip);
      } else {
        r, relaxed := LeaveBranch(newTip, s, news, olds, skip);
      }
    }

    /** A switch away from the branch `s` of the head. */
    method LeaveBranch(newTip: Handle, s: seq<Handle>, news: seq<Block>, olds: seq<Block>, skip: bool)
      returns (r: SwitchResult, relaxed: bool)
      requires Valid() && news != [] && newTip in fork.items && IsPath(fork.State(), s)
      requires fork.items[s[0]].block.Id() == HeadId() && olds == OldestFirst(fork.State(), s)
      modifies `chain, `committed, fork`head, fork`index
      ensures Valid()
      ensures Keeps(old(chain), chain, old(committed) - origin.id.num)
      ensures old(committed) <= committed
      ensures Keeps(old(chain), chain, old(Lib()) - origin.id.num)
      ensures r.Switched? ==> HeadId() == news[|news| - 1].Id() && fork.head == Some(newTip)
      ensures !relaxed && !skip && AllPlain(old(chain)) ==> AllPlain(chain)
      ensures NoCollision(old(fork.State()), old(chain)) && |s| <= |old(chain)| ==>
        var t := |old(chain)| - |s|;
        && (old(CallerHolds(news)) && Reversible(rules, origin, old(chain), old(committed), news, t, skip) ==>
              RealEnd(rules, origin, old(ForkDepth()), newTip, s[0], news, |s|, old(chain), skip, r, chain, fork.head))
        && (origin.id.num + t < old(Lib()) <= old(HeadNum()) && old(committed) <= old(Lib()) ==>
              LibEnd(origin, old(ForkDepth()), old(Lib()), old(chain), r, chain))
        && (origin.id.num + t < old(committed) && old(Lib()) < old(committed) && old(Lib()) < old(HeadNum()) ==>
              StuckEnd(origin, old(ForkDepth()), old(committed), old(chain), r, chain))
      ensures r.Switched? ==> fork.index == old(fork.index)
      ensures r.Recovered? ==> fork.head == Some(s[0]) && HeadId() == old(HeadId())
    {
      hide Tops, Gained, CommitsUpTo, LinkOk, NoCollision, RealEnd, LibEnd, StuckEnd, View.Keyed, Bare;
      hide Keeps; hide Chained; hide LinksNameParents; hide AllPlain; hide HeadDepth; hide Branches; hide Reversible;
      ghost var t := if |s| <= |chain| then |chain| - |s| else 0;
      if |s| <= |chain| && NoCollision(fork.State(), chain) {
        BranchOnTop(s);
      }
      r, relaxed := Reorganise(newTip, s[0], news, olds, skip, t);
    }

    /** A switch along the present branch, by any number of blocks. */
    method Extend(newTip: Handle, oldTip: Handle, news: seq<Block>, skip: bool) returns (r: SwitchResult, relaxed: bool)
      requires Valid() && newTip in fork.items && oldTip in fork.items
      modifies `chain, `committed, fork`head, fork`index
      ensures Valid() && Keeps(old(chain), chain, old(Lib()) - origin.id.num) && old(chain) <= chain
      ensures Keeps(old(chain), chain, old(committed) - origin.id.num)
      ensures old(committed) <= committed
      ensures r.Switched? ==>
        HeadId() == (if news == [] then old(HeadId()) else news[|news| - 1].Id()) && fork.head == Some(newTip)
      ensures r.Switched? ==> fork.index == old(fork.index)
      ensures r.Recovered? ==> fork.head == Some(oldTip)
      ensures !relaxed && !skip && AllPlain(old(chain)) ==> AllPlain(chain)
      ensures
        old(CallerHolds(news) && committed <= HeadNum())
        && old(CommitsUpTo(rules, HeadState(), HeadId(), news, skip, HeadNum())) ==>
          LinearEnd(rules, origin, old(ForkDepth()), newTip, oldTip, news, old(chain), skip, r, relaxed, chain,
                    fork.head)
    {
      hide LinearEnd, CommitsUpTo, Gained, HeadDepth, View.Keyed, LinksNameParents, Chained, Keeps, Bare;
      KeepsSelf(chain, chain, Lib() - origin.id.num);
      KeepsSelf(chain, chain, committed - origin.id.num);
      if news == [] {
        ghost var d := ForkDepth();
        fork.SetHead(newTip);
        NothingToExtend(rules, origin, d, newTip, oldTip, chain, skip, fork.head);
        return Switched, false;
      }
      r, relaxed := ExtendLinear(newTip, oldTip, news, skip);
      KeepsSelf(old(chain), chain, old(Lib()) - origin.id.num);
      KeepsSelf(old(chain), chain, old(committed) - origin.id.num);
    }

    /** The blocks of an indexed branch that the caller holds. */
    lemma HoldsBranch(f: seq<Handle>)
      requires fork.Valid() && Indexed(fork.State(), f) && forall h :: h in f ==> h in fork.items && h in fork.held
      ensures CallerHolds(OldestFirst(fork.State(), f))
    {
    }

    lemma HoldsRest(news: seq<Block>)
      requires news != []
      ensures CallerHolds(news) ==> CallerHolds(news[1..])
    {
    }

    lemma BranchOnTop(s: seq<Handle>)
      requires Valid() && s != [] && |s| <= |chain| && s[0] in fork.items && IsPath(fork.State(), s)
      requires fork.items[s[0]].block.Id() == HeadId() && NoCollision(fork.State(), chain)
      ensures OnTop(OldestFirst(fork.State(), s), |chain| - |s|)
    {
      var v, olds := fork.State(), OldestFirst(fork.State(), s);
      forall i | 0 <= i < |s|
        ensures chain[|chain| - |s| + i].block == olds[i]
      {
        BranchIsTop(v, s, rules, origin, chain, |s| - 1 - i);
      }
    }

    /** A block known to the fork database or on the chain. */
    function FetchById(id: BlockId): (b: Option<Block>)
      reads this, fork
      requires fork.Valid()
      ensures b.Some? ==> b.value.Id() == id
    {
      if id in fork.index then Some(fork.items[fork.index[id]].block)
      else if id in fork.unlinked then Some(fork.items[fork.unlinked[id]].block)
      else if id.num > origin.id.num && id.num <= HeadNum() && chain[id.num - origin.id.num - 1].block.Id() == id
      then Some(chain[id.num - origin.id.num - 1].block)
      else None
    }

    /** Whether the chain holds this id at its number. */
    predicate OnChain(id: BlockId)
      reads this
    {
      OnChainOf(origin, chain, id)
    }

    /** Forgets every fork and starts again from the given block, if it is known. */
    method RestartFork(b: Option<Block>)
      requires Valid()
      modifies fork`items, fork`index, fork`unlinked, fork`head, fork`held, fork`next
      ensures Valid() && fork.held == old(fork.held) && (b.Some? ==> StartedAt(fork.State(), b.value.Id()))
    {
      fork.Reset();
      if b.Some? {
        fork.StartBlock(b.value);
      }
    }

    /** Drops exactly the other blocks at the height of `b` whose parent is unknown. */
    method PruneStale(b: Block)
      requires Valid()
      modifies fork`index
      ensures Valid() && fork.State() == Pruned(old(fork.State()), b)
    {
      hide Chained, LinksNameParents, Bare;
      ghost var v := fork.State();
      var todo := set id | id in fork.index && id.num == b.Num() && id != b.Id();
      while todo != {}
        invariant Valid() && fork.index.Keys <= v.index.Keys && todo <= fork.index.Keys
        invariant forall id :: id in todo ==> id.num == b.Num() && id != b.Id()
        invariant forall id :: id in fork.index ==> fork.index[id] == v.index[id]
        invariant forall id :: id in v.index && (id in todo || !Stale(v, b, id)) ==> id in fork.index
        invariant forall id :: id in fork.index && id !in todo ==> !Stale(v, b, id)
        decreases todo
      {
        var id :| id in todo;
        todo := todo - {id};
        assert fork.items[fork.index[id]].block.previous.num < b.Num();
        if !fork.IsKnown(fork.items[fork.index[id]].block.previous) {
          fork.Remove(id);
        }
      }
    }

    /** Pops down to a number, never below the given irreversible block. */
    method PopDown(num: nat, lib: nat) returns (ok: bool)
      requires Valid() && origin.id.num <= num <= HeadNum()
      modifies `chain, fork`head
      ensures Valid() && chain <= old(chain) && num <= HeadNum()
      ensures old(HeadNum()) == num ==> ok
      ensures lib <= num && committed <= num ==>
        if old(ForkDepth()) >= old(HeadNum()) - num then ok && HeadNum() == num
        else !ok && |chain| == |old(chain)| - old(ForkDepth())
    {
      ghost var n, d := HeadNum(), ForkDepth();
      while HeadNum() > num && HeadNum() > lib
        invariant Valid() && chain <= old(chain) && num <= HeadNum() <= n
        invariant committed <= num ==> n - HeadNum() == d - ForkDepth()
        decreases ForkDepth()
      {
        ok := PopBlock();
        if !ok {
          return;
        }
      }
      ok := true;
    }

    /** Applies the blocks between the head and the fork database's head `top`, if the one
        extends the other; fails if a link is broken or a block does not apply. */
    method ApplyAbove(top: Handle, skip: bool) returns (ok: bool)
      requires Valid() && fork.head == Some(top)
      modifies `chain, `committed, fork`head
      ensures Valid() && old(chain) <= chain && old(committed) <= committed && fork.head == old(fork.head)
      ensures !skip && AllPlain(old(chain)) ==> AllPlain(chain)
      ensures
        var news := NewsAbove(old(fork.State()), top, old(HeadId()));
        if news.None? then !ok && chain == old(chain) && committed == old(committed)
        else
          && chain == old(chain) + Kept(rules, old(HeadState()), old(HeadId()), news.value, skip)
          && (ok <==> |chain| == |old(chain)| + |news.value|)
          && (old(committed <= HeadNum())
              && KeepsUpTo(rules, old(HeadState()), old(HeadId()), news.value, skip, old(HeadNum())) ==>
                committed <= old(HeadNum()))
    {
      hide Branches, Bare; hide LinksNameParents; hide Chained; hide AllPlain; hide LinkOk; hide IsPath;
      var topId := fork.items[top].block.Id();
      var branches := fork.FetchBranchFrom(topId, HeadId());
      assert branches == Between(fork.State(), topId, HeadId());
      if branches.None? {
        return false;
      }
      BetweenConverge(fork.State(), topId, HeadId());
      var (f, s) := branches.value;
      var news := OldestFirst(fork.State(), f);
      ok := true;
      if |s| == 1 && fork.items[s[0]].block.Id() == HeadId() && news[0].Id() == HeadId() {
        ok := Reapply(news[1..], skip, [], HeadNum());
        if ok {
          fork.SetHead(top);
        }
      } else {
        assert chain + [] == chain;
      }
    }

    /** Undoes a failed cascade. The fork database restarts from the block that was the head
        when the cascade failed, not from the head this returns to. */
    method AbortCascade(start: nat) returns (threw: bool)
      requires Valid() && |chain| > 0 && origin.id.num < start <= HeadNum()
      modifies `chain, fork`items, fork`index, fork`unlinked, fork`head, fork`held, fork`next
      ensures Valid() && chain <= old(chain) && start <= HeadNum() && fork.held == old(fork.held)
      ensures !threw ==> StartedAt(fork.State(), old(HeadId()))
      ensures old(HeadNum()) == start ==> !threw
      ensures old(Lib()) <= start && committed <= start ==>
        if old(ForkDepth()) >= old(HeadNum()) - start then !threw && HeadNum() == start
        else threw && |chain| == |old(chain)| - old(ForkDepth())
    {
      IdNum(rules, origin, chain, |chain|);
      var failedHead := FetchById(HeadId());
      var ok := PopDown(start, Lib());
      if !ok {
        return true;
      }
      RestartFork(failedHead);
      threw := false;
    }

    /** The fork database's head has at least this number. */
    ghost predicate HeadFrom(v: View, num: nat) {
      v.head.Some? && v.head.value in v.items && v.NumOf(v.head.value) >= num
    }

    /** Undoes a cascade that failed. */
    method StopCascade(start: nat, skip: bool, ghost base: seq<Entry<S>>, ghost v: View, ghost commits: nat)
      returns (threw: bool)
      requires Valid() && |base| > 0 && base <= chain && start == origin.id.num + |base| && commits <= committed
      requires v.Valid() && v.head.Some? && v.NumOf(v.head.value) > start && ForkDepth() == HeadDepth(v)
      requires IdAt(origin, base, |base|) in v.index || IdAt(origin, base, |base|) in v.unlinked
      requires
        var hid, state := IdAt(origin, base, |base|), StateAt(origin, base, |base|);
        match NewsAbove(v, v.head.value, hid)
        case None => chain == base
        case Some(news) =>
          && chain == base + Kept(rules, state, hid, news, skip) && |chain| != |base| + |news|
          && (commits <= start && KeepsUpTo(rules, state, hid, news, skip, start) ==> committed <= start)
      modifies `chain, fork`items, fork`index, fork`unlinked, fork`head, fork`held, fork`next
      ensures Valid() && base <= chain <= old(chain) && fork.held == old(fork.held)
      ensures AllPlain(old(chain)) ==> AllPlain(chain)
      ensures !threw ==> HeadFrom(fork.State(), start)
      ensures CascadeEnds(rules, origin, v, base, commits, skip, threw, chain, committed, fork.State())
    {
      hide Branches, LinksNameParents, Chained, AllPlain, LinkOk, Kept, HeadDepth, NewsAbove, View.Keyed, KeepsUpTo;
      hide CascadeEnds;
      ghost var failed, hid := chain, IdAt(origin, base, |base|);
      HeadHolds(v);
      LibOfTop(base, failed);
      ghost var news := NewsAbove(v, v.head.value, hid);
      if news.Some? {
        KeptTop(rules, StateAt(origin, base, |base|), hid, news.value, skip, start);
      }
      IdNum(rules, origin, chain, |chain|);
      threw := AbortCascade(start);
      PlainPrefix(chain, failed);
      assert |chain| == |base| ==> chain == base;
      CascadeFailed(rules, origin, v, base, commits, skip, threw, chain, committed, fork.State());
    }

    /** Applies the blocks that became linked above the new head `b`, or none of them. */
    method Cascade(b: Block, skip: bool) returns (threw: bool)
      requires Valid() && |chain| > 0 && chain[|chain| - 1].block == b
      modifies `chain, `committed, fork`items, fork`index, fork`unlinked, fork`head, fork`held, fork`next
      ensures Valid() && old(chain) <= chain && fork.held == old(fork.held)
      ensures old(committed) <= committed
      ensures !skip && AllPlain(old(chain)) ==> AllPlain(chain)
      ensures !threw ==> fork.State() == old(fork.State()) || HeadFrom(fork.State(), old(HeadNum()))
      ensures CascadeEnds(rules, origin, old(fork.State()), old(chain), old(committed), skip, threw, chain, committed,
                          fork.State())
    {
      hide Branches, LinksNameParents, Chained, AllPlain, LinkOk, Kept, HeadDepth, NewsAbove, View.Keyed, KeepsUpTo;
      hide Bare;
      hide StartedAt, CascadeEnds;
      IdNum(rules, origin, chain, |chain|);
      HeadHolds(fork.State());
      ghost var v := fork.State();
      if fork.head.None? || fork.items[fork.head.value].block.Num() <= b.Num()
         || fork.items[fork.head.value].block.Num() <= HeadNum() || !fork.IsKnown(HeadId()) {
        CascadeQuiet(rules, origin, v, chain, committed, skip);
        return false;
      }
      ghost var base, news := chain, NewsAbove(v, fork.head.value, HeadId());
      var start := HeadNum();
      var ok := ApplyAbove(fork.head.value, skip);
      threw := false;
      if ok {
        CascadeApplied(rules, origin, v, base, old(committed), skip, committed, news.value);
      } else {
        threw := StopCascade(start, skip, base, v, old(committed));
      }
    }

    /** The state of the head is that of the last entry gained. */
    lemma LibOfTop(base: seq<Entry<S>>, after: seq<Entry<S>>)
      requires base <= after
      ensures |after| > |base| ==>
        after[|after| - 1] in after[|base|..] && StateAt(origin, after, |after|) == after[|after| - 1].state
      ensures after == base + after[|base|..]
    {
      if |after| > |base| {
        assert after[|base|..][|after| - |base| - 1] == after[|after| - 1];
      }
    }

    /** Handles a block at or below the head's height before it may be pushed. Nothing to
        return means that handling goes on. */
    method CheckOld(b: Block) returns (done: Option<PushResult>)
      requires Valid()
      modifies fork`items, fork`index, fork`unlinked, fork`head, fork`held, fork`next
      ensures Valid()
      ensures !fork.emergency ==> Rises(old(fork.State()), fork.State())
      ensures done.None? ==> Extends(old(fork.State()), fork.State())
      ensures done != Some(Accepted)
      ensures done.None? ==> !old(OnChain(b.Id())) && (b.previous == NULL_ID || fork.IsKnown(b.previous))
      ensures !old(OnChain(b.Id())) && (b.previous == NULL_ID || old(fork.IsKnown(b.previous))) ==>
        done.None? && fork.State() == old(fork.State()) && fork.next == old(fork.next)
      ensures old(OnChain(b.Id())) && old(fork.IsKnown(b.Id())) ==>
        done == Some(Refused) && fork.State() == old(fork.State())
      ensures old(OnChain(b.Id())) && done == Some(Refused) ==> fork.IsKnown(b.Id())
      ensures
        && !old(OnChain(b.Id())) && b.previous != NULL_ID
        && old(!fork.IsKnown(b.previous) && FetchById(b.previous).None?) ==>
        done == Some(Exception) && fork.State() == old(fork.State())
    {
      hide Rises, Extends, Chained, LinksNameParents, View.Keyed, CanRun, Run, Based, Bare;
      ghost var v, next := fork.State(), fork.next;
      RisesSelf(v);
      ExtendsSelf(v);
      if OnChain(b.Id()) {
        if !fork.IsKnown(b.Id()) {
          var ok;
          ghost var steps, entered;
          ok, steps, entered := fork.InsertAsBase(b);
          if !fork.emergency {
            BaseRises(v, next, b, steps, entered);
            if ok {
              RepairedRises(entered, entered.index[b.Id()]);
              RisesTransitive(v, entered, fork.State());
            }
          }
          if !ok {
            return Some(Exception);
          }
        }
        return Some(Refused);
      }
      if b.previous != NULL_ID && !fork.IsKnown(b.previous) {
        var parent := FetchById(b.previous);
        if parent.None? {
          return Some(Exception);
        }
        var status;
        ghost var steps;
        status, steps := fork.PushBlock(parent.value);
        if !fork.emergency {
          PushRises(v, next, parent.value, status, steps, fork.State());
        }
        PushExtends(v, next, parent.value, status, steps, fork.State(), fork.emergency);
        if status.TooOld? || status.CascadeTooOld? || status.Unlinkable? {
          return Some(Exception);
        }
      }
      done := None;
    }

    /** Puts the block into the fork database, first seeding it with the head if the block
        extends the head. Nothing to return means that handling goes on. */
    method PushToFork(b: Block, expectUnlinkable: bool)
      returns (done: Option<PushResult>, ghost status: Status, ghost steps: seq<Step>)
      requires Valid()
      modifies fork`items, fork`index, fork`unlinked, fork`head, fork`held, fork`next
      ensures Valid() && fork.held == old(fork.held)
      ensures done != Some(Accepted)
      ensures !fork.emergency ==> Lifts(old(fork.State()), fork.State(), HeadId())
      ensures done.None? <==> (status.Known? || status.Linked?) && fork.head.Some?
      ensures done.None? ==> b.Id() in fork.index
      ensures done == Some(Refused) ==> expectUnlinkable && b.Id() !in fork.index && b.Id() in fork.unlinked
      ensures old(b.previous != HeadId() || fork.IsKnown(HeadId())) ==>
        && Pushed(old(fork.State()), old(fork.next), b, status, steps, fork.State(), fork.emergency)
        && (old(fork.State()).NothingLinkable() && !status.CascadeTooOld? ==> fork.State().NothingLinkable())
        && (status.TooOld? ==> old(fork.OutsideWindow(b.Num())))
        && (status.CascadeTooOld? ==> exists id :: id in old(fork.unlinked) && fork.OutsideWindow(id.num))
    {
      hide Rises, LinksNameParents, View.Keyed, Chained, View.NothingLinkable, CanRun, Bare;
      RisesSelf(fork.State());
      if b.previous == HeadId() && !fork.IsKnown(HeadId()) {
        var headBlock := FetchById(HeadId());
        if headBlock.Some? {
          fork.StartBlock(headBlock.value);
        }
      }
      ghost var v, next := fork.State(), fork.next;
      var result;
      result, steps := fork.PushBlock(b);
      if !fork.emergency {
        PushRises(v, next, b, result, steps, fork.State());
        LiftsThenRises(old(fork.State()), v, fork.State(), HeadId());
      }
      status := result;
      match result
      case Unlinkable =>
        done := Some(if expectUnlinkable then Refused else Exception);
      case TooOld =>
        done := Some(Exception);
      case CascadeTooOld =>
        done := Some(Exception);
      case Known =>
        done := if fork.head.Some? then None else Some(Exception);
      case Linked =>
        done := if fork.head.Some? then None else Some(Exception);
    }

    /** Whether to leave the head for the fork database's head: by the votes behind the
        branches since hardfork 12, by height before it. */
    method WantsSwitch(newTip: Handle) returns (wants: bool)
      requires Valid() && newTip in fork.items
      ensures wants <==> Wanted(rules, HeadState(), fork.State(), fork.items[newTip].block.Id(), HeadId())
      ensures !rules.hardfork12(HeadState()) ==> (wants <==> fork.items[newTip].block.Num() > HeadId().num)
      ensures rules.hardfork12(HeadState()) ==>
        (wants <==> ShouldSwitch(fork.State(), fork.items[newTip].block.Id(), HeadId(), rules.votesOf(HeadState()),
                                 rules.emergencyOf(HeadState())))
    {
      var id := fork.items[newTip].block.Id();
      if rules.hardfork12(HeadState()) {
        if id.num < HeadId().num || !fork.IsKnown(HeadId()) {
          return false;
        }
        var cmp := Compare(fork, id, HeadId(), rules.votesOf(HeadState()), rules.emergencyOf(HeadState()));
        wants := cmp > 0 || (cmp == 0 && id.num > HeadId().num);
      } else {
        wants := id.num > HeadId().num;
      }
    }

    /** Leaves the head for the fork database's head if that is wanted. */
    method ConsiderSwitch(newTip: Handle, skip: bool)
      returns (r: PushResult, relaxed: bool, ghost branches: Option<(seq<Handle>, seq<Handle>)>)
      requires Valid() && fork.head == Some(newTip) && newTip in fork.items
      modifies `chain, `committed, fork`items, fork`index, fork`unlinked, fork`head, fork`held, fork`next
      ensures Valid() && Keeps(old(chain), chain, old(Lib()) - origin.id.num)
      ensures Keeps(old(chain), chain, old(committed) - origin.id.num)
      ensures old(committed) <= committed
      ensures r.Accepted? ==> HeadId() == old(fork.items[newTip].block.Id())
      ensures !relaxed && !skip && AllPlain(old(chain)) ==> AllPlain(chain)
      ensures r.Accepted? ==> fork.State() == old(fork.State()).(held := fork.held)
      ensures old(chain) != [] && !r.Accepted? && !(r.Exception? && branches.Some?) ==>
        && Lifts(old(fork.State()), fork.State(), old(HeadId()))
        && (|chain| > |old(chain)| || HeadId() == old(HeadId()))
      ensures branches == Chosen(rules, old(HeadState()), old(fork.State()), old(fork.items[newTip].block.Id()),
                                 old(HeadId()))
      ensures branches.None? ==> chain == old(chain) && !r.Accepted?
      ensures branches.None? && r.Refused? ==> fork.State() == old(fork.State())
      ensures !Wanted(rules, old(HeadState()), old(fork.State()), old(fork.items[newTip].block.Id()), old(HeadId())) ==>
        r.Refused? && committed == old(committed) && fork.State() == old(fork.State())
      ensures branches.Some? ==>
        SwitchLogged(rules, origin, old(fork.State()), newTip, branches.value, old(chain), old(committed), skip,
                     r, relaxed, chain, fork.head)
    {
      hide Keeps, Chained, LinksNameParents, AllPlain, SwitchLogged, ShouldSwitch, Branches, Rises, Bare;
      RisesSelf(fork.State());
      KeepsSelf(chain, chain, Lib() - origin.id.num);
      KeepsSelf(chain, chain, committed - origin.id.num);
      IdNum(rules, origin, chain, |chain|);
      var wants := WantsSwitch(newTip);
      WantedHeight(rules, HeadState(), fork.State(), fork.items[newTip].block.Id(), HeadId());
      if wants {
        r, relaxed, branches := LeaveHead(newTip, skip);
      } else {
        r, relaxed, branches := Refused, false, None;
      }
    }

    /** Switches while both branches are held. */
    method SwitchHolding(newTip: Handle, f: seq<Handle>, s: seq<Handle>, skip: bool)
      returns (r: PushResult, relaxed: bool)
      requires Valid() && f != [] && s != [] && fork.head == Some(newTip) && newTip in fork.items && |f| >= |s|
      requires (forall h :: h in f ==> h in fork.items) && (forall h :: h in s ==> h in fork.items)
      requires Holding(fork.State(), f, s).Valid() && Branches(Holding(fork.State(), f, s), f[0], s[0]) == Some((f, s))
      requires fork.items[s[0]].block.Id() == HeadId() && fork.items[f[0]].block.Id() == fork.items[newTip].block.Id()
      modifies `chain, `committed, fork`index, fork`head, fork`held
      ensures Valid() && Keeps(old(chain), chain, old(Lib()) - origin.id.num)
      ensures Keeps(old(chain), chain, old(committed) - origin.id.num)
      ensures old(committed) <= committed
      ensures r.Accepted? ==> HeadId() == old(fork.items[newTip].block.Id())
      ensures !relaxed && !skip && AllPlain(old(chain)) ==> AllPlain(chain)
      ensures r.Accepted? ==> fork.State() == old(fork.State()).(held := fork.held)
      ensures r.Refused? ==> StandsOn(fork.State(), old(HeadId())) && (HeadId() == old(HeadId()) || old(chain) <= chain)
      ensures SwitchLogged(rules, origin, old(fork.State()), newTip, (f, s), old(chain), old(committed), skip,
                           r, relaxed, chain, fork.head)
    {
      hide Keeps, Chained, LinksNameParents, AllPlain, SwitchEnds, HeadDepth, Branches, LinkOk, View.Keyed;
      ghost var v := fork.State();
      fork.held := fork.held + (set h | h in f) + (set h | h in s);
      assert fork.State() == Holding(v, f, s);
      var result;
      result, relaxed := SwitchFork(newTip, f, s, skip);
      r := match result case Switched => Accepted case Recovered => Refused case Threw => Exception;
    }

    /** Leaves the head for the fork database's head. */
    method LeaveHead(newTip: Handle, skip: bool)
      returns (r: PushResult, relaxed: bool, ghost branches: Option<(seq<Handle>, seq<Handle>)>)
      requires Valid() && fork.head == Some(newTip) && newTip in fork.items
      requires fork.items[newTip].block.Num() >= HeadNum()
      modifies `chain, `committed, fork`items, fork`index, fork`unlinked, fork`head, fork`held, fork`next
      ensures Valid() && Keeps(old(chain), chain, old(Lib()) - origin.id.num)
      ensures Keeps(old(chain), chain, old(committed) - origin.id.num)
      ensures old(committed) <= committed
      ensures r.Accepted? ==> HeadId() == old(fork.items[newTip].block.Id())
      ensures !relaxed && !skip && AllPlain(old(chain)) ==> AllPlain(chain)
      ensures r.Accepted? ==> fork.State() == old(fork.State()).(held := fork.held)
      ensures old(chain) != [] && !r.Accepted? && !(r.Exception? && branches.Some?) ==>
        && Lifts(old(fork.State()), fork.State(), old(HeadId()))
        && (|chain| > |old(chain)| || HeadId() == old(HeadId()))
      ensures branches == Between(old(fork.State()), old(fork.items[newTip].block.Id()), old(HeadId()))
      ensures branches.None? ==> chain == old(chain) && r.Exception?
      ensures branches.Some? ==>
        SwitchLogged(rules, origin, old(fork.State()), newTip, branches.value, old(chain), old(committed), skip,
                     r, relaxed, chain, fork.head)
    {
      hide Keeps, Chained, LinksNameParents, AllPlain, SwitchEnds, HeadDepth, Branches, LinkOk, Bare;
      hide IsPath, View.Keyed, Rises;
      KeepsSelf(chain, chain, Lib() - origin.id.num);
      KeepsSelf(chain, chain, committed - origin.id.num);
      IdNum(rules, origin, chain, |chain|);
      var tipId := fork.items[newTip].block.Id();
      ghost var v := fork.State();
      if !fork.IsKnown(HeadId()) {
        fork.Remove(tipId);
        SameHeadRises(v, fork.State());
        return Exception, false, None;
      }
      var found := fork.FetchBranchFrom(tipId, HeadId());
      branches := found;
      assert branches == Between(v, tipId, HeadId());
      if found.None? {
        RestartFork(FetchById(HeadId()));
        return Exception, false, branches;
      }
      BetweenConverge(v, tipId, HeadId());
      var (f, s) := found.value;
      HoldingBranches(v, f, s);
      r, relaxed := SwitchHolding(newTip, f, s, skip);
    }

    /** Applies a block that extends the head, and what became linked above it. */
    method ExtendHead(b: Block, skip: bool) returns (r: PushResult)
      requires Valid()
      modifies `chain, `committed, fork`items, fork`index, fork`unlinked, fork`head, fork`held, fork`next
      ensures Valid() && old(chain) <= chain && fork.held == old(fork.held)
      ensures old(committed) <= committed
      ensures r.Accepted? ==> |chain| > |old(chain)| && chain[|old(chain)|].block == b
      ensures !skip && AllPlain(old(chain)) ==> AllPlain(chain)
      ensures r.Refused? ==> chain == old(chain) && fork.State() == old(fork.State())
      ensures !(r.Exception? && chain != old(chain)) ==> Lifts(old(fork.State()), fork.State(), old(HeadId()))
      ensures ExtendEnds(rules, origin, old(fork.State()), b, old(chain), old(committed), skip, r, chain, committed,
                         fork.State())
    {
      hide Chained, LinksNameParents, CascadeEnds, LinkOk, Rises, Bare;
      ghost var v := fork.State();
      SameHeadRises(v, v);
      IdNum(rules, origin, chain, |chain|);
      var o := ApplyBlock(b, skip);
      match o
      case WrongSchedule =>
        r := Refused;
      case Rejected(_) =>
        fork.Remove(b.Id());
        SameHeadRises(v, fork.State());
        r := Exception;
      case Applied(_) =>
        PruneStale(b);
        SameHeadRises(v, fork.State());
        var threw := Cascade(b, skip);
        r := if threw then Exception else Accepted;
    }

    /** Handles an incoming block (`_push_block`). Whatever path it takes, the chain up to
        the irreversible block recorded at the start stays as it was. */
    method PushBlock(b: Block, skip: bool, useFork: bool) returns (r: PushResult, relaxed: bool, ghost log: Log)
      requires Valid()
      modifies `chain, `committed, fork`items, fork`index, fork`unlinked, fork`head, fork`held, fork`next
      ensures Valid() && fork.held == {}
      ensures Handles(rules, origin, fork.maxSize, fork.emergency, old(Now()), b, skip, useFork, log, r, relaxed, Now())
    {
      hide Handles;
      r, relaxed, log := PushHolding(b, skip, useFork);
      HandlesHeld(rules, origin, fork.maxSize, fork.emergency, old(Now()), b, skip, useFork, log, r, relaxed, Now(),
                  {});
      fork.held := {};
    }

    /** The fork database's head is the head of the chain. */
    predicate Synced()
      reads this, fork
    {
      fork.head.Some? && fork.head.value in fork.items && fork.items[fork.head.value].block.Id() == HeadId()
    }

    /** As `PushBlock`, while the items it works with are held. */
    method PushHolding(b: Block, skip: bool, useFork: bool) returns (r: PushResult, relaxed: bool, ghost log: Log)
      requires Valid()
      modifies `chain, `committed, fork`items, fork`index, fork`unlinked, fork`head, fork`held, fork`next
      ensures Valid()
      ensures Handles(rules, origin, fork.maxSize, fork.emergency, old(Now()), b, skip, useFork, log, r, relaxed, Now())
    {
      hide Keeps, Chained, LinksNameParents, AllPlain, View.Keyed, Rises, Extends, Preserves, Answers, Switches, Climbs;
      hide Asked;
      ghost var m := Now();
      relaxed, log := false, Log(None, [], fork.State(), None);
      ExtendsSelf(fork.State());
      RisesSelf(fork.State());
      if b.Num() <= HeadNum() {
        var done := CheckOld(b);
        if done.Some? {
          StaysPut(rules, origin, m, b, skip, log, done.value, Now());
          return done.value, false, log;
        }
      }
      var expectUnlinkable := b.Num() > HeadNum() && b.previous != NULL_ID && b.previous != HeadId();
      if expectUnlinkable && b.Num() - HeadNum() > MAX_GAP {
        StaysPut(rules, origin, m, b, skip, log, Refused, Now());
        return Refused, false, log;
      }
      ghost var u := Now();
      if useFork {
        r, relaxed, log := PushThroughFork(b, skip, expectUnlinkable);
        SwitchesFrom(rules, origin, m, u.view, u.next, b, skip, log, r, relaxed, Now());
        PreservesFrom(rules, origin, m, u.view, u.next, skip, relaxed, Now());
        if !fork.emergency {
          ClimbsFrom(origin, m, u.view, u.next, log, r, Now());
        }
        IdNum(rules, origin, m.chain, |m.chain|);
        return;
      }
      r := ExtendHead(b, skip);
      OnlyExtends(rules, origin, m, u.view, b, skip, log, r, Now());
    }

    /** Handles a block by way of the fork database. */
    method PushThroughFork(b: Block, skip: bool, expectUnlinkable: bool)
      returns (r: PushResult, relaxed: bool, ghost log: Log)
      requires Valid()
      modifies `chain, `committed, fork`items, fork`index, fork`unlinked, fork`head, fork`held, fork`next
      ensures Valid()
      ensures Preserves(rules, origin, old(Now()), skip, relaxed, Now())
      ensures Answers(origin, old(Now()), b, log, r, Now())
      ensures Switches(rules, origin, old(Now()), b, skip, log, r, relaxed, Now())
      ensures !fork.emergency ==> Climbs(origin, old(Now()), log, r, Now())
      ensures old(b.previous != HeadId() || fork.IsKnown(HeadId())) ==>
        Asked(rules, origin, fork.maxSize, fork.emergency, old(Now()), b, skip, log, r, Now())
    {
      hide Keeps, Chained, LinksNameParents, AllPlain, Pushed, Branches, View.Keyed, View.NothingLinkable, Rises, Bare;
      hide Extends, Preserves, Answers, Switches, Climbs, Decides;
      ghost var m := Now();
      var done;
      ghost var status, steps;
      done, status, steps := PushToFork(b, expectUnlinkable);
      log := Log(Some(status), steps, fork.State(), None);
      relaxed := false;
      if b.previous != HeadId() || IsKnownIn(m.view, HeadId()) {
        PushExtends(m.view, m.next, b, status, steps, fork.State(), fork.emergency);
        if !fork.emergency {
          PushRises(m.view, m.next, b, status, steps, fork.State());
        }
      }
      if done.Some? {
        OnlyPushed(rules, origin, m, b, skip, log, done.value, Now());
        return done.value, false, log;
      }
      ghost var u := fork.State();
      HeadHolds(u);
      HoldTip();
      log := log.(view := fork.State());
      HeldSame(m.view, u, fork.State(), HeadId());
      ghost var v := Now();
      ghost var branches;
      r, relaxed, branches := DecideTip(b, skip, fork.head.value);
      log := log.(branches := branches);
      PushedThenDecided(rules, origin, m, v, b, skip, log, r, relaxed, Now());
      DecidesHow(rules, origin, v, b, skip, branches, r, relaxed, Now());
    }

    /** The caller holds the fork database's head. */
    method HoldTip()
      requires Valid() && fork.head.Some?
      modifies fork`held
      ensures Valid() && fork.State() == old(fork.State()).(held := fork.held)
      ensures fork.State().(held := old(fork.held)) == old(fork.State())
      ensures old(fork.State()).NothingLinkable() <==> fork.State().NothingLinkable()
    {
      fork.held := fork.held + {fork.head.value};
    }

    /** Extends the head by a linked block, or considers a switch to the fork database's head. */
    method DecideTip(b: Block, skip: bool, newTip: Handle)
      returns (r: PushResult, relaxed: bool, ghost branches: Option<(seq<Handle>, seq<Handle>)>)
      requires Valid() && fork.head == Some(newTip) && newTip in fork.items
      modifies `chain, `committed, fork`items, fork`index, fork`unlinked, fork`head, fork`held, fork`next
      ensures Valid() && Decides(rules, origin, old(Now()), b, skip, branches, r, relaxed, Now())
    {
      hide Keeps, Chained, LinksNameParents, AllPlain, SwitchLogged, Branches, ShouldSwitch, Bare;
      hide ExtendEnds, LinkOk, View.Keyed, Between, Rises;
      if b.previous != HeadId() && fork.items[newTip].block.previous != HeadId() {
        r, relaxed, branches := ConsiderSwitch(newTip, skip);
        return;
      }
      branches, relaxed := None, false;
      r := ExtendHead(b, skip);
      KeepsSelf(old(chain), chain, old(Lib()) - origin.id.num);
      KeepsSelf(old(chain), chain, old(committed) - origin.id.num);
    }

    /** Handles a run of incoming blocks, whose trace is `ps`. Committed blocks never change, and as long as the
        schedule check was never skipped the state is the replay of the chain. Outside emergency mode the tips that
        the node switched to rise strictly up to the first fall, and no switch is undone by the next one. */
    method PushAll(blocks: seq<Block>) returns (relaxed: bool, ghost ps: seq<Push<S>>)
      requires Valid()
      modifies `chain, `committed, fork`items, fork`index, fork`unlinked, fork`head, fork`held, fork`next
      ensures Valid() && old(committed) <= committed
      ensures Keeps(old(chain), chain, old(committed) - origin.id.num)
      ensures !relaxed && AllPlain(old(chain)) ==> Replay(rules, origin.state, BlocksOf(chain)) == Some(HeadState())
      ensures |ps| == |blocks| && forall i :: 0 <= i < |ps| ==> ps[i].block == blocks[i] && !ps[i].skip && ps[i].useFork
      ensures IsRun(rules, origin, fork.maxSize, fork.emergency, old(Now()), ps) && Last(old(Now()), ps) == Now()
      ensures !fork.emergency ==>
        forall k :: 0 <= k <= |ps| && NothingFalls(old(Now()), ps[..k]) ==> Rising(Targets(ps[..k]))
      ensures NoReturn(rules, origin, old(Now()), ps)
    {
      hide Handles, View.Keyed, LinksNameParents, Chained, Keeps, IsRun, Targets, Rising, NothingFalls, NoReturn, Bare;
      KeepsSelf(chain, chain, committed - origin.id.num);
      relaxed, ps := false, [];
      ghost var start := Now();
      RunStart(rules, origin, fork.maxSize, fork.emergency, start);
      for i := 0 to |blocks|
        invariant Valid() && old(committed) <= committed
        invariant Keeps(old(chain), chain, old(committed) - origin.id.num)
        invariant !relaxed && AllPlain(old(chain)) ==> AllPlain(chain)
        invariant |ps| == i && forall k :: 0 <= k < i ==> ps[k].block == blocks[k] && !ps[k].skip && ps[k].useFork
        invariant IsRun(rules, origin, fork.maxSize, fork.emergency, start, ps) && Last(start, ps) == Now()
      {
        ghost var m := Now();
        var r, relaxedNow;
        ghost var log;
        r, relaxedNow, log := PushBlock(blocks[i], false, true);
        ghost var p := Push(blocks[i], false, true, log, r, relaxedNow, Now());
        RunStep(rules, origin, fork.maxSize, fork.emergency, start, ps, p);
        HandlesPreserve(rules, origin, fork.maxSize, fork.emergency, m, p);
        KeepsTransitive(old(chain), m.chain, chain, old(committed) - origin.id.num, m.committed - origin.id.num);
        relaxed, ps := relaxed || relaxedNow, ps + [p];
      }
      if !relaxed && AllPlain(old(chain)) {
        ChainIsReplay(rules, origin, chain);
      }
      RunNoReturn(rules, origin, fork.maxSize, fork.emergency, start, ps);
      if !fork.emergency {
        forall k | 0 <= k <= |ps| && NothingFalls(start, ps[..k])
          ensures Rising(Targets(ps[..k]))
        {
          RisesUntilFall(rules, origin, fork.maxSize, start, ps, k);
        }
      }
    }
  }
}
