/** The applied chain as a value: a stack of blocks with the state after each. */
module Chain {
  import opened Options
  import opened Blocks

  /** The result of applying a block. A rejected block may have advanced the committed
      irreversible block before it failed. */
  datatype Outcome<+S> = Applied(state: S) | WrongSchedule | Rejected(committed: nat)

  /** The deterministic state transition and what fork handling reads from a state. The
      flag of `apply` skips the producer-schedule check. */
  datatype Rules<!S> = Rules(
    apply: (S, Block, bool) -> Outcome<S>,
    libOf: S -> nat,
    votesOf: S -> map<string, nat>,
    emergencyOf: S -> bool,
    hardfork12: S -> bool,
    correctSlot: (S, Block) -> S)

  /** An applied block; `plain` when its state is what `apply` gives with the schedule
      check on. */
  datatype Entry<+S> = Entry(block: Block, state: S, plain: bool)

  /** What the chain is built on: genesis, or the state of an imported snapshot. */
  datatype Origin<+S> = Origin(id: BlockId, state: S)

  function IdAt<S>(o: Origin<S>, chain: seq<Entry<S>>, i: nat): BlockId
    requires i <= |chain|
  {
    if i == 0 then o.id else chain[i - 1].block.Id()
  }

  function StateAt<S>(o: Origin<S>, chain: seq<Entry<S>>, i: nat): S
    requires i <= |chain|
  {
    if i == 0 then o.state else chain[i - 1].state
  }

  /** Every block extends the one below it and plain states follow from `apply`. */
  ghost predicate Chained<S>(rules: Rules<S>, o: Origin<S>, chain: seq<Entry<S>>) {
    forall i {:trigger EntryOk(rules, o, chain, i)} :: 0 <= i < |chain| ==> EntryOk(rules, o, chain, i)
  }

  ghost predicate EntryOk<S>(rules: Rules<S>, o: Origin<S>, chain: seq<Entry<S>>, i: nat)
    requires i < |chain|
  {
    && chain[i].block.previous == IdAt(o, chain, i)
    && (chain[i].plain ==> rules.apply(StateAt(o, chain, i), chain[i].block, false) == Applied(chain[i].state))
  }

  lemma {:induction false} IdNum<S>(rules: Rules<S>, o: Origin<S>, chain: seq<Entry<S>>, i: nat)
    requires Chained(rules, o, chain) && i <= |chain|
    ensures IdAt(o, chain, i).num == o.id.num + i
  {
    if i > 0 {
      IdNum(rules, o, chain, i - 1);
      assert EntryOk(rules, o, chain, i - 1);
    }
  }

  lemma ChainedPrefix<S>(rules: Rules<S>, o: Origin<S>, chain: seq<Entry<S>>, n: nat)
    requires Chained(rules, o, chain) && n <= |chain|
    ensures Chained(rules, o, chain[..n])
    ensures forall i :: 0 <= i <= n ==>
      IdAt(o, chain[..n], i) == IdAt(o, chain, i) && StateAt(o, chain[..n], i) == StateAt(o, chain, i)
  {
    forall i | 0 <= i < n
      ensures EntryOk(rules, o, chain[..n], i)
    {
      assert EntryOk(rules, o, chain, i);
    }
  }

  lemma ChainedPush<S>(rules: Rules<S>, o: Origin<S>, chain: seq<Entry<S>>, e: Entry<S>)
    requires Chained(rules, o, chain) && e.block.previous == IdAt(o, chain, |chain|)
    requires e.plain ==> rules.apply(StateAt(o, chain, |chain|), e.block, false) == Applied(e.state)
    ensures Chained(rules, o, chain + [e])
  {
    var more := chain + [e];
    forall i | 0 <= i < |more|
      ensures EntryOk(rules, o, more, i)
    {
      if i < |chain| {
        assert EntryOk(rules, o, chain, i);
      }
    }
  }

  // ---------------------------------------------------------------------------
  // Replay
  // ---------------------------------------------------------------------------

  function BlocksOf<S>(chain: seq<Entry<S>>): seq<Block> {
    seq(|chain|, i requires 0 <= i < |chain| => chain[i].block)
  }

  /** Applying the blocks one after the other, oldest first. */
  function Replay<S>(rules: Rules<S>, s: S, blocks: seq<Block>): Option<S>
    decreases |blocks|
  {
    if blocks == [] then Some(s) else
    var rest := Replay(rules, s, blocks[..|blocks| - 1]);
    if rest.None? then None else
    var r := rules.apply(rest.value, blocks[|blocks| - 1], false);
    if r.Applied? then Some(r.state) else None
  }

  ghost predicate AllPlain<S>(chain: seq<Entry<S>>) {
    forall i :: 0 <= i < |chain| ==> chain[i].plain
  }

  /** A chain after the first `k` of the entries were added to it. */
  function Stacked<S>(chain: seq<Entry<S>>, es: seq<Entry<S>>, k: nat): seq<Entry<S>>
    requires k <= |es|
  {
    chain + es[..k]
  }

  lemma StackedEnds<S>(chain: seq<Entry<S>>, es: seq<Entry<S>>)
    ensures Stacked(chain, es, 0) == chain && Stacked(chain, es, |es|) == chain + es
    ensures forall k: nat :: k <= |es| ==> |Stacked(chain, es, k)| == |chain| + k
  {
    assert es[..|es|] == es;
  }

  lemma StackedStep<S>(o: Origin<S>, chain: seq<Entry<S>>, es: seq<Entry<S>>, k: nat)
    requires k <= |es|
    ensures k < |es| ==> Stacked(chain, es, k + 1) == Stacked(chain, es, k) + [es[k]]
    ensures k < |es| && AllPlain(Stacked(chain, es, k)) && es[k].plain ==> AllPlain(Stacked(chain, es, k + 1))
    ensures
      var c := Stacked(chain, es, k);
      && StateAt(o, c, |c|) == (if k == 0 then StateAt(o, chain, |chain|) else es[k - 1].state)
      && IdAt(o, c, |c|) == (if k == 0 then IdAt(o, chain, |chain|) else es[k - 1].block.Id())
  {
    if k < |es| {
      assert es[..k + 1] == es[..k] + [es[k]];
    }
  }

  lemma PlainPrefix<S>(a: seq<Entry<S>>, b: seq<Entry<S>>)
    requires a <= b
    ensures AllPlain(b) ==> AllPlain(a)
  {
  }

  /** The state on top of a chain without relaxed blocks is the replay of its blocks. */
  lemma {:induction false} ChainIsReplay<S>(rules: Rules<S>, o: Origin<S>, chain: seq<Entry<S>>)
    requires Chained(rules, o, chain) && AllPlain(chain)
    ensures Replay(rules, o.state, BlocksOf(chain)) == Some(StateAt(o, chain, |chain|))
    decreases |chain|
  {
    if chain != [] {
      var n := |chain| - 1;
      ChainedPrefix(rules, o, chain, n);
      ChainIsReplay(rules, o, chain[..n]);
      assert BlocksOf(chain)[..n] == BlocksOf(chain[..n]);
      assert EntryOk(rules, o, chain, n);
    }
  }

  /** Two nodes on one origin with one chain of blocks are in one state. */
  lemma SameBlocksSameState<S>(rules: Rules<S>, o: Origin<S>, a: seq<Entry<S>>, b: seq<Entry<S>>)
    requires Chained(rules, o, a) && Chained(rules, o, b) && AllPlain(a) && AllPlain(b)
    requires BlocksOf(a) == BlocksOf(b)
    ensures StateAt(o, a, |a|) == StateAt(o, b, |b|)
  {
    ChainIsReplay(rules, o, a);
    ChainIsReplay(rules, o, b);
  }

  // ---------------------------------------------------------------------------
  // Applying a branch
  // ---------------------------------------------------------------------------

  /** One block of a branch being switched to: a schedule mismatch is retried with the
      schedule check off. */
  function ApplyOnto<S>(rules: Rules<S>, s: S, b: Block, skip: bool): Option<Entry<S>> {
    var first := rules.apply(s, b, skip);
    match first
    case Applied(t) => Some(Entry(b, t, !skip))
    case Rejected(_) => None
    case WrongSchedule =>
      var second := rules.apply(s, b, true);
      if second.Applied? then Some(Entry(b, second.state, false)) else None
  }

  /** The entries gained from a branch (oldest block first) before its first failure. */
  function Gained<S>(rules: Rules<S>, s: S, tip: BlockId, branch: seq<Block>, skip: bool): (es: seq<Entry<S>>)
    ensures |es| <= |branch|
    decreases |branch|
  {
    if branch == [] || branch[0].previous != tip then [] else
    var e := ApplyOnto(rules, s, branch[0], skip);
    if e.None? then [] else
    [e.value] + Gained(rules, e.value.state, branch[0].Id(), branch[1..], skip)
  }

  /** The state and tip after the first `k` gained entries. */
  lemma {:induction false} GainedStep<S>(rules: Rules<S>, s: S, tip: BlockId, branch: seq<Block>, skip: bool, k: nat)
    requires k <= |Gained(rules, s, tip, branch, skip)| && k < |branch|
    ensures
      var es := Gained(rules, s, tip, branch, skip);
      var s' := if k == 0 then s else es[k - 1].state;
      var tip' := if k == 0 then tip else es[k - 1].block.Id();
      && (k > 0 ==> es[k - 1].block == branch[k - 1])
      && (k < |es| <==> branch[k].previous == tip' && ApplyOnto(rules, s', branch[k], skip).Some?)
      && (k < |es| ==> Some(es[k]) == ApplyOnto(rules, s', branch[k], skip))
    decreases k
  {
    if k > 0 {
      var e := ApplyOnto(rules, s, branch[0], skip).value;
      GainedStep(rules, e.state, branch[0].Id(), branch[1..], skip, k - 1);
    }
  }

  /** Applying the block to state `s` gives this entry: with the schedule check as asked for or, after a mismatch
      and only then, with the check off. */
  ghost predicate Leads<S>(rules: Rules<S>, s: S, b: Block, skip: bool, e: Entry<S>) {
    && e.block == b
    && (|| (rules.apply(s, b, skip) == Applied(e.state) && e.plain == !skip)
        || (rules.apply(s, b, skip) == WrongSchedule && rules.apply(s, b, true) == Applied(e.state) && !e.plain))
  }

  /** Every block of the branch links to the one before it and leads to its entry. */
  ghost predicate Follows<S>(rules: Rules<S>, s: S, tip: BlockId, branch: seq<Block>, skip: bool, es: seq<Entry<S>>) {
    |es| == |branch| && forall i :: 0 <= i < |branch| ==> FollowsAt(rules, s, tip, branch, skip, es, i)
  }

  ghost predicate FollowsAt<S>(rules: Rules<S>, s: S, tip: BlockId, branch: seq<Block>, skip: bool, es: seq<Entry<S>>,
                               i: nat)
    requires i < |branch| && i < |es|
  {
    && branch[i].previous == (if i == 0 then tip else branch[i - 1].Id())
    && Leads(rules, if i == 0 then s else es[i - 1].state, branch[i], skip, es[i])
  }

  lemma OntoLeads<S>(rules: Rules<S>, s: S, b: Block, skip: bool)
    ensures forall e :: Leads(rules, s, b, skip, e) <==> ApplyOnto(rules, s, b, skip) == Some(e)
  {
  }

  /** A branch is gained as a whole exactly when every block links and applies, after a mismatch without the
      schedule check. */
  lemma {:induction false} GainedWhole<S>(rules: Rules<S>, s: S, tip: BlockId, branch: seq<Block>, skip: bool,
                                          es: seq<Entry<S>>)
    ensures Follows(rules, s, tip, branch, skip, es) <==>
      es == Gained(rules, s, tip, branch, skip) && |es| == |branch|
    decreases |branch|
  {
    hide Leads, ApplyOnto;
    if branch != [] && es != [] {
      OntoLeads(rules, s, branch[0], skip);
      GainedWhole(rules, es[0].state, branch[0].Id(), branch[1..], skip, es[1..]);
      FollowsRest(rules, s, tip, branch, skip, es);
      assert es == [es[0]] + es[1..];
    }
  }

  lemma FollowsRest<S>(rules: Rules<S>, s: S, tip: BlockId, branch: seq<Block>, skip: bool, es: seq<Entry<S>>)
    requires branch != [] && es != []
    ensures Follows(rules, s, tip, branch, skip, es) <==>
      && branch[0].previous == tip && Leads(rules, s, branch[0], skip, es[0])
      && Follows(rules, es[0].state, branch[0].Id(), branch[1..], skip, es[1..])
  {
    hide Leads;
    var rest, more := branch[1..], es[1..];
    forall i | 0 < i < |branch| && i < |es|
      ensures FollowsAt(rules, s, tip, branch, skip, es, i) <==>
        FollowsAt(rules, es[0].state, branch[0].Id(), rest, skip, more, i - 1)
    {
      assert rest[i - 1] == branch[i] && more[i - 1] == es[i];
    }
    if Follows(rules, es[0].state, branch[0].Id(), rest, skip, more) {
      forall i | 0 < i < |branch|
        ensures |es| == |branch| && FollowsAt(rules, s, tip, branch, skip, es, i)
      {
        assert FollowsAt(rules, es[0].state, branch[0].Id(), rest, skip, more, i - 1);
      }
    }
    if Follows(rules, s, tip, branch, skip, es) {
      assert FollowsAt(rules, s, tip, branch, skip, es, 0);
      forall i | 0 <= i < |rest|
        ensures FollowsAt(rules, es[0].state, branch[0].Id(), rest, skip, more, i)
      {
        assert FollowsAt(rules, s, tip, branch, skip, es, i + 1);
      }
    }
  }

  /** One of the blocks met a schedule mismatch on its first try. */
  ghost predicate Mismatched<S>(rules: Rules<S>, s: S, branch: seq<Block>, skip: bool, es: seq<Entry<S>>, k: nat) {
    exists i :: 0 <= i < k && i < |branch| && i <= |es| && MismatchAt(rules, s, branch, skip, es, i)
  }

  predicate MismatchAt<S>(rules: Rules<S>, s: S, branch: seq<Block>, skip: bool, es: seq<Entry<S>>, i: nat)
    requires i < |branch| && i <= |es|
  {
    rules.apply(if i == 0 then s else es[i - 1].state, branch[i], skip).WrongSchedule?
  }

  lemma MismatchedNone<S>(rules: Rules<S>, s: S, branch: seq<Block>, skip: bool, es: seq<Entry<S>>)
    ensures !Mismatched(rules, s, branch, skip, es, 0)
  {
  }

  lemma MismatchedMore<S>(rules: Rules<S>, s: S, branch: seq<Block>, skip: bool, es: seq<Entry<S>>, k: nat)
    requires k < |branch| && k <= |es|
    ensures Mismatched(rules, s, branch, skip, es, k + 1) <==>
      Mismatched(rules, s, branch, skip, es, k) ||
      rules.apply(if k == 0 then s else es[k - 1].state, branch[k], skip).WrongSchedule?
  {
    if rules.apply(if k == 0 then s else es[k - 1].state, branch[k], skip).WrongSchedule? {
      assert MismatchAt(rules, s, branch, skip, es, k);
    }
  }

  lemma {:induction false} GainedBlocks<S>(rules: Rules<S>, s: S, tip: BlockId, branch: seq<Block>, skip: bool, i: nat)
    requires i < |Gained(rules, s, tip, branch, skip)|
    ensures Gained(rules, s, tip, branch, skip)[i].block == branch[i]
    decreases i
  {
    if i > 0 {
      var e := ApplyOnto(rules, s, branch[0], skip).value;
      GainedBlocks(rules, e.state, branch[0].Id(), branch[1..], skip, i - 1);
    }
  }

  /** The irreversible block a failing application may already have committed. */
  function FailCommit<S>(rules: Rules<S>, s: S, b: Block, skip: bool): nat {
    var first := rules.apply(s, b, skip);
    match first
    case Applied(_) => 0
    case Rejected(c) => c
    case WrongSchedule =>
      var second := rules.apply(s, b, true);
      if second.Rejected? then second.committed else 0
  }

  /** Nothing that happens while the branch is applied commits above number `x`. */
  ghost predicate CommitsUpTo<S>(rules: Rules<S>, s: S, tip: BlockId, branch: seq<Block>, skip: bool, x: nat) {
    var es := Gained(rules, s, tip, branch, skip);
    && (forall e :: e in es ==> rules.libOf(e.state) <= x)
    && (|es| < |branch| ==> FailCommit(rules, if es == [] then s else es[|es| - 1].state, branch[|es|], skip) <= x)
  }

  lemma TopBound<S>(rules: Rules<S>, s: S, tip: BlockId, branch: seq<Block>, skip: bool, x: nat)
    ensures
      var es := Gained(rules, s, tip, branch, skip);
      CommitsUpTo(rules, s, tip, branch, skip, x) && es != [] ==> rules.libOf(es[|es| - 1].state) <= x
  {
    var es := Gained(rules, s, tip, branch, skip);
    assert es != [] ==> es[|es| - 1] in es;
  }

  lemma GainedBound<S>(rules: Rules<S>, s: S, tip: BlockId, branch: seq<Block>, skip: bool, x: nat, k: nat)
    requires k <= |Gained(rules, s, tip, branch, skip)| && k < |branch|
    ensures CommitsUpTo(rules, s, tip, branch, skip, x) ==>
      var es := Gained(rules, s, tip, branch, skip);
      if k < |es| then rules.libOf(es[k].state) <= x
      else FailCommit(rules, if k == 0 then s else es[k - 1].state, branch[k], skip) <= x
  {
  }

  /** Chain `b` still starts with the first `n` entries of chain `a`. */
  ghost predicate Keeps<S(!new)>(a: seq<Entry<S>>, b: seq<Entry<S>>, n: int) {
    var m := if n < 0 then 0 else if n < |a| then n else |a|;
    m <= |b| && b[..m] == a[..m]
  }

  lemma KeepsSelf<S(!new)>(a: seq<Entry<S>>, b: seq<Entry<S>>, n: int)
    requires a <= b
    ensures Keeps(a, b, n)
  {
  }

  lemma KeepsExtended<S(!new)>(a: seq<Entry<S>>, b: seq<Entry<S>>, c: seq<Entry<S>>, n: int)
    requires Keeps(a, b, n) && b <= c
    ensures Keeps(a, c, n)
  {
    var m := if n < 0 then 0 else if n < |a| then n else |a|;
    assert c[..m] == b[..m];
  }

  lemma KeepsTransitive<S(!new)>(a: seq<Entry<S>>, b: seq<Entry<S>>, c: seq<Entry<S>>, n: int, m: int)
    requires Keeps(a, b, n) && Keeps(b, c, m) && n <= m
    ensures Keeps(a, c, n)
  {
    var k := if n < 0 then 0 else if n < |a| then n else |a|;
    var l := if m < 0 then 0 else if m < |b| then m else |b|;
    assert c[..k] == c[..l][..k] && b[..k] == b[..l][..k];
  }
}
