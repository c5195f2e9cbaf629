/** How a fork switch and a cascade end, as values: the chain, the fork database's head and
    the result are determined by what they started from. */
module ForkSwitch {
  import opened Options
  import opened Blocks
  import opened ForkView
  import opened ForkBranches
  import opened ForkDb
  import opened ForkChoice
  import opened Chain

  /** How a fork switch ends: on the new branch, back on the old one, or in an exception. */
  datatype SwitchResult = Switched | Recovered | Threw

  /** How the handling of an incoming block ends. */
  datatype PushResult = Accepted | Refused | Exception

  /** What a push result says about the fork switch that led to it. */
  function AsSwitch(r: PushResult): SwitchResult {
    match r
    case Accepted => Switched
    case Refused => Recovered
    case Exception => Threw
  }

  /** The blocks of a path, oldest first. */
  function OldestFirst(v: View, p: seq<Handle>): (bs: seq<Block>)
    requires forall h :: h in p ==> h in v.items
    ensures |bs| == |p| && forall i :: 0 <= i < |p| ==> bs[i] == v.BlockOf(p[|p| - 1 - i])
  {
    seq(|p|, i requires 0 <= i < |p| => v.BlockOf(p[|p| - 1 - i]))
  }

  /** How far the fork database's head can still be popped. */
  ghost function HeadDepth(v: View): nat
    requires v.Valid()
  {
    if v.head.None? then 0 else Depth(v, v.head.value)
  }

  /** No item has the id of an applied block without being that block. */
  ghost predicate NoCollision<S(!new)>(v: View, chain: seq<Entry<S>>) {
    forall h, k :: h in v.items && 0 <= k < |chain| && v.BlockOf(h).Id() == chain[k].block.Id() ==>
      v.BlockOf(h) == chain[k].block
  }

  /** Every item of the branch is the one the index has for its block. */
  ghost predicate Indexed(v: View, branch: seq<Handle>) {
    forall h :: h in branch ==> v.Holds(v.index, h)
  }

  /** Nothing irreversible reaches above height `t`, now or while the branch is applied there. */
  ghost predicate Reversible<S(!new)>(rules: Rules<S>, o: Origin<S>, chain: seq<Entry<S>>, committed: nat,
                                      news: seq<Block>, t: nat, skip: bool)
    requires t <= |chain|
  {
    && rules.libOf(StateAt(o, chain, |chain|)) <= o.id.num + t && committed <= o.id.num + t
    && CommitsUpTo(rules, StateAt(o, chain, t), IdAt(o, chain, t), news, skip, o.id.num + t)
  }

  /** What of a branch can be applied above height `t`. */
  ghost function NewEntries<S(!new)>(rules: Rules<S>, o: Origin<S>, chain: seq<Entry<S>>, news: seq<Block>,
                                     t: nat, skip: bool): seq<Entry<S>>
    requires t <= |chain|
  {
    Gained(rules, StateAt(o, chain, t), IdAt(o, chain, t), news, skip)
  }

  /** The end of a switch that leaves the top `n` blocks of `chain` for `news`, when the fork database's
      head can be popped `d` times. The popping of the old branch may throw already; a branch that
      applies as a whole is adopted; after a failure the old chain comes back exactly when the
      head can be popped once for every block that was popped, and otherwise the recovery
      throws on its way down. */
  ghost predicate RealEnd<S(!new)>(rules: Rules<S>, o: Origin<S>, d: nat, newTip: Handle, oldTip: Handle,
                                   news: seq<Block>, n: nat, chain: seq<Entry<S>>, skip: bool,
                                   r: SwitchResult, after: seq<Entry<S>>, head: Option<Handle>)
    requires n <= |chain|
  {
    var t := |chain| - n;
    var es := NewEntries(rules, o, chain, news, t, skip);
    if d < n then r.Threw? && after == chain[..|chain| - d]
    else if |es| == |news| then r.Switched? && after == chain[..t] + es && head == Some(newTip)
    else if d >= n + |es| then
      AllPlain(chain[t..]) && !skip ==> r.Recovered? && after == chain && head == Some(oldTip)
    else r.Threw? && after == chain[..t] + es[..n + |es| - d]
  }

  lemma PrefixAt<S>(o: Origin<S>, chain: seq<Entry<S>>, popped: seq<Entry<S>>)
    requires popped <= chain
    ensures StateAt(o, popped, |popped|) == StateAt(o, chain, |popped|)
    ensures IdAt(o, popped, |popped|) == IdAt(o, chain, |popped|)
  {
  }

  /** The old branch was popped as a whole, and `after` is what adopting the new one led to. */
  lemma RealAdopted<S(!new)>(rules: Rules<S>, o: Origin<S>, d: nat, newTip: Handle, oldTip: Handle, news: seq<Block>,
                             n: nat, chain: seq<Entry<S>>, popped: seq<Entry<S>>, skip: bool,
                             r: SwitchResult, after: seq<Entry<S>>, head: Option<Handle>)
    requires n <= |chain| && d >= n && popped == chain[..|chain| - n]
    ensures
      var es := NewEntries(rules, o, popped, news, |popped|, skip);
      && (|es| == |news| ==> r.Switched? && after == popped + es && head == Some(newTip))
      && (|es| != |news| ==>
            if d - n >= |es| then
              AllPlain(chain[|popped|..]) && !skip ==> r.Recovered? && after == chain && head == Some(oldTip)
            else r.Threw? && after == popped + es[..|es| - (d - n)]) ==>
        RealEnd(rules, o, d, newTip, oldTip, news, n, chain, skip, r, after, head)
  {
    hide Gained;
    PrefixAt(o, chain, popped);
  }

  /** Popping the old branch threw already. */
  lemma RealThrown<S(!new)>(rules: Rules<S>, o: Origin<S>, d: nat, newTip: Handle, oldTip: Handle, news: seq<Block>,
                            n: nat, chain: seq<Entry<S>>, skip: bool, after: seq<Entry<S>>, head: Option<Handle>)
    requires d < n <= |chain| && after == chain[..|chain| - d]
    ensures RealEnd(rules, o, d, newTip, oldTip, news, n, chain, skip, Threw, after, head)
  {
  }

  /** The end of a switch whose fork point is below the irreversible block `lib`: the old branch is
      popped down to that block, or as far as the fork database's head can be popped. */
  ghost predicate LibEnd<S(!new)>(o: Origin<S>, d: nat, lib: nat, chain: seq<Entry<S>>, r: SwitchResult,
                                  after: seq<Entry<S>>)
    requires o.id.num <= lib <= o.id.num + |chain|
  {
    var kept := lib - o.id.num;
    r.Threw? && after == if d >= |chain| - kept then chain[..kept] else chain[..|chain| - d]
  }

  /** The end of a switch whose fork point is below a committed block that the recorded irreversible block has not
      reached: the fork database's head is popped as far as it goes, but committed blocks are not undone. */
  ghost predicate StuckEnd<S(!new)>(o: Origin<S>, d: nat, committed: nat, chain: seq<Entry<S>>, r: SwitchResult,
                                    after: seq<Entry<S>>)
  {
    var floor := committed - o.id.num;
    r.Threw? && if |chain| <= floor then after == chain
                else 0 <= floor && after == chain[..if |chain| - d < floor then floor else |chain| - d]
  }

  /** The entries of an extension during which the schedule check was skipped: the slot counter
      is corrected in the last state. */
  function Corrected<S>(rules: Rules<S>, es: seq<Entry<S>>): seq<Entry<S>>
    requires es != []
  {
    var e := es[|es| - 1];
    es[..|es| - 1] + [Entry(e.block, rules.correctSlot(e.state, e.block), false)]
  }

  /** The end of a switch that only extends the present head by `news`. */
  ghost predicate LinearEnd<S(!new)>(rules: Rules<S>, o: Origin<S>, d: nat, newTip: Handle, oldTip: Handle,
                                     news: seq<Block>, chain: seq<Entry<S>>, skip: bool,
                                     r: SwitchResult, relaxed: bool, after: seq<Entry<S>>, head: Option<Handle>)
  {
    var es := NewEntries(rules, o, chain, news, |chain|, skip);
    if |es| == |news| then
      && r.Switched? && head == Some(newTip) && (relaxed ==> es != [])
      && (relaxed <==> Mismatched(rules, StateAt(o, chain, |chain|), news, skip, es, |news|))
      && after == chain + (if relaxed then Corrected(rules, es) else es)
    else if d >= |es| then r.Recovered? && after == chain && head == Some(oldTip)
    else r.Threw? && after == chain + es[..|es| - d]
  }

  lemma LinearFailed<S(!new)>(rules: Rules<S>, o: Origin<S>, d: nat, newTip: Handle, oldTip: Handle, news: seq<Block>,
                              chain: seq<Entry<S>>, skip: bool, r: SwitchResult, relaxed: bool, full: seq<Entry<S>>,
                              after: seq<Entry<S>>, head: Option<Handle>)
    requires |NewEntries(rules, o, chain, news, |chain|, skip)| < |news|
    requires full == chain + NewEntries(rules, o, chain, news, |chain|, skip)
    ensures
      (if d >= |full| - |chain| then r.Recovered? && after == full[..|chain|] && head == Some(oldTip)
       else r.Threw? && after == full[..|full| - d]) ==>
        LinearEnd(rules, o, d, newTip, oldTip, news, chain, skip, r, relaxed, after, head)
  {
    hide NewEntries;
    var es := NewEntries(rules, o, chain, news, |chain|, skip);
    assert |es| > d ==> full[..|full| - d] == chain + es[..|es| - d];
  }

  lemma LinearDone<S(!new)>(rules: Rules<S>, o: Origin<S>, d: nat, newTip: Handle, oldTip: Handle, news: seq<Block>,
                            chain: seq<Entry<S>>, skip: bool, relaxed: bool, full: seq<Entry<S>>,
                            after: seq<Entry<S>>, head: Option<Handle>)
    requires |NewEntries(rules, o, chain, news, |chain|, skip)| == |news| && news != [] && head == Some(newTip)
    requires full == chain + NewEntries(rules, o, chain, news, |chain|, skip)
    requires after == if relaxed then Corrected(rules, full) else full
    requires
      var es := NewEntries(rules, o, chain, news, |chain|, skip);
      relaxed <==> Mismatched(rules, StateAt(o, chain, |chain|), news, skip, es, |news|)
    ensures LinearEnd(rules, o, d, newTip, oldTip, news, chain, skip, Switched, relaxed, after, head)
    ensures |after| == |full| && after[|after| - 1].block == full[|full| - 1].block && chain <= after
  {
    hide NewEntries;
    var es := NewEntries(rules, o, chain, news, |chain|, skip);
    assert full[..|full| - 1] == chain + es[..|es| - 1] && full[|full| - 1] == es[|es| - 1];
  }

  lemma NothingToExtend<S(!new)>(rules: Rules<S>, o: Origin<S>, d: nat, newTip: Handle, oldTip: Handle,
                                 chain: seq<Entry<S>>, skip: bool, head: Option<Handle>)
    requires head == Some(newTip)
    ensures LinearEnd(rules, o, d, newTip, oldTip, [], chain, skip, Switched, false, chain, head)
  {
    assert chain + [] == chain;
  }

  /** The end of a switch from the branch `s` of the head to the branch `f` of `newTip`, computed in
      the fork database `v`. */
  ghost predicate SwitchEnds<S(!new)>(rules: Rules<S>, o: Origin<S>, v: View, newTip: Handle, f: seq<Handle>,
                                      s: seq<Handle>, chain: seq<Entry<S>>, committed: nat, skip: bool,
                                      r: SwitchResult, relaxed: bool, after: seq<Entry<S>>, head: Option<Handle>)
    requires v.Valid() && f != [] && s != []
    requires (forall h :: h in f ==> h in v.items) && (forall h :: h in s ==> h in v.items)
  {
    var news, olds, d := OldestFirst(v, f), OldestFirst(v, s), HeadDepth(v);
    var lib := rules.libOf(StateAt(o, chain, |chain|));
    NoCollision(v, chain) && Indexed(v, f) ==>
      if news[0].Id() == olds[0].Id() then
        committed <= o.id.num + |chain| &&
        CommitsUpTo(rules, StateAt(o, chain, |chain|), IdAt(o, chain, |chain|), news[1..], skip, o.id.num + |chain|) ==>
          LinearEnd(rules, o, d, newTip, s[0], news[1..], chain, skip, r, relaxed, after, head)
      else
        |s| <= |chain| ==>
          var t := |chain| - |s|;
          && (Reversible(rules, o, chain, committed, news, t, skip) ==>
                RealEnd(rules, o, d, newTip, s[0], news, |s|, chain, skip, r, after, head))
          && (o.id.num + t < lib <= o.id.num + |chain| && committed <= lib ==> LibEnd(o, d, lib, chain, r, after))
          && (o.id.num + t < committed && lib < committed && lib < o.id.num + |chain| ==>
                StuckEnd(o, d, committed, chain, r, after))
  }

  /** A switch adopts the whole new branch when every block of it links and applies, after a schedule mismatch
      with the check off, and the fork database's head can be popped through the old branch. */
  lemma SwitchAdopts<S(!new)>(rules: Rules<S>, o: Origin<S>, v: View, newTip: Handle, f: seq<Handle>, s: seq<Handle>,
                              chain: seq<Entry<S>>, committed: nat, skip: bool, r: SwitchResult, relaxed: bool,
                              after: seq<Entry<S>>, head: Option<Handle>, es: seq<Entry<S>>)
    requires v.Valid() && f != [] && s != [] && |s| <= |chain|
    requires (forall h :: h in f ==> h in v.items) && (forall h :: h in s ==> h in v.items)
    requires SwitchEnds(rules, o, v, newTip, f, s, chain, committed, skip, r, relaxed, after, head)
    requires NoCollision(v, chain) && Indexed(v, f)
    ensures
      var news, olds, t := OldestFirst(v, f), OldestFirst(v, s), |chain| - |s|;
      && (news[0].Id() != olds[0].Id() && HeadDepth(v) >= |s| && Reversible(rules, o, chain, committed, news, t, skip)
          && Follows(rules, StateAt(o, chain, t), IdAt(o, chain, t), news, skip, es) ==>
            r.Switched? && head == Some(newTip) && after == chain[..t] + es)
      && (news[0].Id() == olds[0].Id() && Reversible(rules, o, chain, committed, news[1..], |chain|, skip)
          && Follows(rules, StateAt(o, chain, |chain|), IdAt(o, chain, |chain|), news[1..], skip, es) ==>
            && r.Switched? && head == Some(newTip) && (relaxed ==> es != [])
            && (relaxed <==> Mismatched(rules, StateAt(o, chain, |chain|), news[1..], skip, es, |es|))
            && after == chain + if relaxed then Corrected(rules, es) else es)
  {
    hide Gained, Follows, HeadDepth, NoCollision, Indexed, OldestFirst, CommitsUpTo, Corrected, Mismatched;
    var news, t := OldestFirst(v, f), |chain| - |s|;
    GainedWhole(rules, StateAt(o, chain, t), IdAt(o, chain, t), news, skip, es);
    GainedWhole(rules, StateAt(o, chain, |chain|), IdAt(o, chain, |chain|), news[1..], skip, es);
  }

  /** The branch of the head in the fork database is the top of the chain, block for
      block, if no two blocks share an id. */
  lemma {:induction false} BranchIsTop<S(!new)>(v: View, p: seq<Handle>, rules: Rules<S>, o: Origin<S>,
                                                chain: seq<Entry<S>>, i: nat)
    requires v.Valid() && IsPath(v, p) && Chained(rules, o, chain) && |p| <= |chain| && i < |p|
    requires v.BlockOf(p[0]).Id() == IdAt(o, chain, |chain|) && NoCollision(v, chain)
    ensures v.BlockOf(p[i]) == chain[|chain| - 1 - i].block
    decreases i
  {
    if i > 0 {
      BranchIsTop(v, p, rules, o, chain, i - 1);
      assert v.Parent(p[i - 1]) == Some(p[(i - 1) + 1]);
      ParentNum(v, p[i - 1]);
      assert EntryOk(rules, o, chain, |chain| - i);
    }
  }

  // ---------------------------------------------------------------------------
  // Cascades
  // ---------------------------------------------------------------------------

  /** The entries gained from a branch when a schedule mismatch is a failure. */
  function Kept<S>(rules: Rules<S>, s: S, tip: BlockId, branch: seq<Block>, skip: bool): (es: seq<Entry<S>>)
    ensures |es| <= |branch|
    decreases |branch|
  {
    if branch == [] || branch[0].previous != tip then [] else
    match rules.apply(s, branch[0], skip)
    case Applied(t) => [Entry(branch[0], t, !skip)] + Kept(rules, t, branch[0].Id(), branch[1..], skip)
    case _ => []
  }

  /** The state and tip after the first `k` kept entries. */
  lemma {:induction false} KeptStep<S>(rules: Rules<S>, s: S, tip: BlockId, branch: seq<Block>, skip: bool, k: nat)
    requires k <= |Kept(rules, s, tip, branch, skip)| && k < |branch|
    ensures
      var es := Kept(rules, s, tip, branch, skip);
      var s' := if k == 0 then s else es[k - 1].state;
      var tip' := if k == 0 then tip else es[k - 1].block.Id();
      var next := rules.apply(s', branch[k], skip);
      && (k > 0 ==> es[k - 1].block == branch[k - 1])
      && (k < |es| <==> branch[k].previous == tip' && next.Applied?)
      && (k < |es| ==> es[k] == Entry(branch[k], next.state, !skip))
    decreases k
  {
    if k > 0 {
      KeptStep(rules, rules.apply(s, branch[0], skip).state, branch[0].Id(), branch[1..], skip, k - 1);
    }
  }

  lemma {:induction false} KeptBlocks<S>(rules: Rules<S>, s: S, tip: BlockId, branch: seq<Block>, skip: bool, k: nat)
    requires k < |Kept(rules, s, tip, branch, skip)|
    ensures Kept(rules, s, tip, branch, skip)[k].block == branch[k]
    decreases k
  {
    if k > 0 {
      KeptBlocks(rules, rules.apply(s, branch[0], skip).state, branch[0].Id(), branch[1..], skip, k - 1);
    }
  }

  /** Nothing that happens while the branch is applied commits above number `x`. */
  ghost predicate KeepsUpTo<S>(rules: Rules<S>, s: S, tip: BlockId, branch: seq<Block>, skip: bool, x: nat) {
    var es := Kept(rules, s, tip, branch, skip);
    && (forall e :: e in es ==> rules.libOf(e.state) <= x)
    && (|es| < |branch| ==>
          match rules.apply(if es == [] then s else es[|es| - 1].state, branch[|es|], skip)
          case Rejected(c) => c <= x
          case _ => true)
  }

  lemma KeptBound<S>(rules: Rules<S>, s: S, tip: BlockId, branch: seq<Block>, skip: bool, x: nat, k: nat)
    requires k <= |Kept(rules, s, tip, branch, skip)| && k < |branch|
    ensures KeepsUpTo(rules, s, tip, branch, skip, x) ==>
      var es := Kept(rules, s, tip, branch, skip);
      if k < |es| then rules.libOf(es[k].state) <= x
      else
        match rules.apply(if k == 0 then s else es[k - 1].state, branch[k], skip)
        case Rejected(c) => c <= x
        case _ => true
  {
  }

  lemma KeptTop<S>(rules: Rules<S>, s: S, tip: BlockId, branch: seq<Block>, skip: bool, x: nat)
    ensures
      var es := Kept(rules, s, tip, branch, skip);
      KeepsUpTo(rules, s, tip, branch, skip, x) && es != [] ==> rules.libOf(es[|es| - 1].state) <= x
  {
  }

  /** Another block at the height of `b` that waits for an unknown parent. */
  predicate Stale(v: View, b: Block, id: BlockId)
    requires v.Keyed() && id in v.index
  {
    var previous := v.items[v.index[id]].block.previous;
    id.num == b.Num() && id != b.Id() && previous !in v.index && previous !in v.unlinked
  }

  ghost function Pruned(v: View, b: Block): (w: View)
    requires v.Keyed()
  {
    v.(index := map id | id in v.index && !Stale(v, b, id) :: v.index[id])
  }

  /** The branches of two ids, if both are linked and their chains meet. */
  ghost function Between(v: View, a: BlockId, b: BlockId): (r: Option<(seq<Handle>, seq<Handle>)>)
    requires v.Valid()
  {
    if a in v.index && b in v.index then Branches(v, v.index[a], v.index[b]) else None
  }

  lemma BetweenConverge(v: View, a: BlockId, b: BlockId)
    requires v.Valid() && Between(v, a, b).Some?
    ensures
      var (f, s) := Between(v, a, b).value;
      && IsPath(v, f) && IsPath(v, s) && f[0] == v.index[a] && s[0] == v.index[b]
      && |f| - |s| == a.num - b.num && v.BlockOf(f[0]).Id() == a && v.BlockOf(s[0]).Id() == b
      && (forall h :: h in f ==> h in v.items && v.Alive(h)) && (forall h :: h in s ==> h in v.items && v.Alive(h))
  {
    BranchesConverge(v, v.index[a], v.index[b]);
    var (f, s) := Between(v, a, b).value;
    PathAlive(v, f);
    PathAlive(v, s);
  }

  lemma PathAlive(v: View, p: seq<Handle>)
    requires v.Valid() && IsPath(v, p) && v.Alive(p[0])
    ensures forall h :: h in p ==> h in v.items && v.Alive(h)
  {
    forall i | 0 <= i < |p|
      ensures v.Alive(p[i])
    {
      if i > 0 {
        assert v.Parent(p[i - 1]) == Some(p[(i - 1) + 1]);
      }
    }
  }

  /** The fork database was restarted and holds one block, its head. */
  ghost predicate StartedAt(v: View, id: BlockId) {
    && v.head.Some? && v.head.value in v.items && v.BlockOf(v.head.value).Id() == id
    && v.index == map[id := v.head.value] && v.unlinked == map[]
  }

  /** The blocks between the block `hid` and the item `top`, if the one extends the other; nothing to apply if it
      does not, and no answer if they are not connected. */
  ghost function NewsAbove(v: View, top: Handle, hid: BlockId): Option<seq<Block>>
    requires v.Valid() && top in v.items
  {
    var branches := Between(v, v.BlockOf(top).Id(), hid);
    if branches.None? then None
    else
      BetweenConverge(v, v.BlockOf(top).Id(), hid);
      var (f, s) := branches.value;
      var news := OldestFirst(v, f);
      if |s| != 1 || news[0].Id() != hid then Some([]) else Some(news[1..])
  }

  /** What is applied above the head is a chain of blocks from it up to the fork database's head. It is all there
      when the one descends from the other. */
  lemma NewsLink(v: View, top: Handle, hid: BlockId)
    requires v.Valid() && top in v.items && v.BlockOf(top).Id() in v.index && hid in v.index
    ensures
      var x, y := v.index[v.BlockOf(top).Id()], v.index[hid];
      AncestorAt(v, x, v.NumOf(y)) == Some(y) ==>
        NewsAbove(v, top, hid).Some? && |NewsAbove(v, top, hid).value| == v.NumOf(x) - v.NumOf(y)
    ensures
      var news := NewsAbove(v, top, hid);
      news.Some? && news.value != [] ==>
        && |news.value| == v.NumOf(top) - hid.num && news.value[|news.value| - 1].Id() == v.BlockOf(top).Id()
        && forall i :: 0 <= i < |news.value| ==>
            news.value[i].previous == if i == 0 then hid else news.value[i - 1].Id()
  {
    hide Branches, AncestorAt, LinksNameParents;
    var x, y := v.index[v.BlockOf(top).Id()], v.index[hid];
    if AncestorAt(v, x, v.NumOf(y)) == Some(y) {
      BranchesAncestor(v, x, y);
    }
    var branches := Between(v, v.BlockOf(top).Id(), hid);
    if branches.Some? {
      BetweenConverge(v, v.BlockOf(top).Id(), hid);
      var (f, s) := branches.value;
      PathLinks(v, f);
    }
  }

  lemma PathLinks(v: View, p: seq<Handle>)
    requires v.Valid() && IsPath(v, p)
    ensures
      var bs := OldestFirst(v, p);
      forall i :: 0 < i < |bs| ==> bs[i].previous == bs[i - 1].Id()
  {
    var bs := OldestFirst(v, p);
    forall i | 0 < i < |bs|
      ensures bs[i].previous == bs[i - 1].Id()
    {
      var j := |p| - 1 - i;
      assert v.Parent(p[j]) == Some(p[j + 1]);
      ParentNum(v, p[j]);
    }
  }

  /** Exactly the other blocks of that height whose parent is not held are dropped, and nothing else changes. */
  lemma PrunedMeans(v: View, b: Block, id: BlockId)
    requires v.Keyed() && id in v.index
    ensures
      var w, parent := Pruned(v, b), v.items[v.index[id]].block.previous;
      && (id in w.index <==> id.num != b.Num() || id == b.Id() || parent in v.index || parent in v.unlinked)
      && (id in w.index ==> w.index[id] == v.index[id])
      && w.items == v.items && w.unlinked == v.unlinked && w.head == v.head
  {
  }

  /** The end of applying what became linked above the head. Either all of it is applied or none. After a
      failure the fork database restarts from the block at which the cascade failed, above the head it returned to. */
  ghost predicate CascadeEnds<S(!new)>(rules: Rules<S>, o: Origin<S>, v: View, chain: seq<Entry<S>>, committed: nat,
                                       skip: bool, threw: bool, after: seq<Entry<S>>, commits: nat, w: View)
    requires v.Valid()
  {
    var hid, state, num := IdAt(o, chain, |chain|), StateAt(o, chain, |chain|), o.id.num + |chain|;
    if v.head.None? || v.NumOf(v.head.value) <= num || (hid !in v.index && hid !in v.unlinked) then
      !threw && after == chain && commits == committed && w == v
    else
      match NewsAbove(v, v.head.value, hid)
      case None => !threw && after == chain && StartedAt(w, hid)
      case Some(news) =>
        var es := Kept(rules, state, hid, news, skip);
        if |es| == |news| then !threw && after == chain + es && w == v
        else
          committed <= num && rules.libOf(state) <= num && KeepsUpTo(rules, state, hid, news, skip, num) ==>
            if HeadDepth(v) >= |es| then !threw && after == chain && StartedAt(w, IdAt(o, chain + es, |chain| + |es|))
            else threw && after == chain + es[..|es| - HeadDepth(v)]
  }

  lemma CascadeQuiet<S(!new)>(rules: Rules<S>, o: Origin<S>, v: View, chain: seq<Entry<S>>, committed: nat, skip: bool)
    requires v.Valid()
    requires
      var hid := IdAt(o, chain, |chain|);
      v.head.None? || v.NumOf(v.head.value) <= o.id.num + |chain| || (hid !in v.index && hid !in v.unlinked)
    ensures CascadeEnds(rules, o, v, chain, committed, skip, false, chain, committed, v)
  {
  }

  lemma CascadeApplied<S(!new)>(rules: Rules<S>, o: Origin<S>, v: View, chain: seq<Entry<S>>, committed: nat,
                                skip: bool, commits: nat, news: seq<Block>)
    requires v.Valid() && v.head.Some? && v.NumOf(v.head.value) > o.id.num + |chain|
    requires NewsAbove(v, v.head.value, IdAt(o, chain, |chain|)) == Some(news)
    ensures
      var es := Kept(rules, StateAt(o, chain, |chain|), IdAt(o, chain, |chain|), news, skip);
      |es| == |news| && (IdAt(o, chain, |chain|) in v.index || IdAt(o, chain, |chain|) in v.unlinked) ==>
        CascadeEnds(rules, o, v, chain, committed, skip, false, chain + es, commits, v)
  {
    hide NewsAbove, Kept, KeepsUpTo, View.Keyed, LinksNameParents;
  }

  lemma CascadeFailed<S(!new)>(rules: Rules<S>, o: Origin<S>, v: View, chain: seq<Entry<S>>, committed: nat,
                               skip: bool, threw: bool, after: seq<Entry<S>>, commits: nat, w: View)
    requires v.Valid() && v.head.Some? && v.NumOf(v.head.value) > o.id.num + |chain|
    requires IdAt(o, chain, |chain|) in v.index || IdAt(o, chain, |chain|) in v.unlinked
    requires
      var hid, state, num := IdAt(o, chain, |chain|), StateAt(o, chain, |chain|), o.id.num + |chain|;
      match NewsAbove(v, v.head.value, hid)
      case None => !threw && after == chain && StartedAt(w, hid)
      case Some(news) =>
        var es := Kept(rules, state, hid, news, skip);
        && |es| != |news|
        && (committed <= num && rules.libOf(state) <= num && KeepsUpTo(rules, state, hid, news, skip, num) ==>
              if HeadDepth(v) >= |es| then !threw && after == chain && StartedAt(w, IdAt(o, chain + es, |chain| + |es|))
              else threw && after == chain + es[..|es| - HeadDepth(v)])
    ensures CascadeEnds(rules, o, v, chain, committed, skip, threw, after, commits, w)
  {
    hide NewsAbove, Kept, KeepsUpTo, View.Keyed, LinksNameParents, HeadDepth, StartedAt;
  }

  /** The end of applying `b` on the head, and then what became linked above it. */
  ghost predicate ExtendEnds<S(!new)>(rules: Rules<S>, o: Origin<S>, v: View, b: Block, chain: seq<Entry<S>>,
                                      committed: nat,
                                      skip: bool, r: PushResult, after: seq<Entry<S>>, commits: nat, w: View)
    requires v.Valid()
  {
    if b.previous != IdAt(o, chain, |chain|) then
      r.Exception? && after == chain && commits == committed && w == v.(index := v.index - {b.Id()})
    else
      match rules.apply(StateAt(o, chain, |chain|), b, skip)
      case WrongSchedule => r.Refused? && after == chain && commits == committed && w == v
      case Rejected(c) =>
        r.Exception? && after == chain && commits == Max(committed, c) && w == v.(index := v.index - {b.Id()})
      case Applied(state) =>
        && !r.Refused? && Pruned(v, b).Valid()
        && CascadeEnds(rules, o, Pruned(v, b), chain + [Entry(b, state, !skip)], Max(committed, rules.libOf(state)),
                       skip, r.Exception?, after, commits, w)
  }

  function Max(a: nat, b: nat): nat {
    if a > b then a else b
  }

  // ---------------------------------------------------------------------------
  // Handling an incoming block
  // ---------------------------------------------------------------------------

  /** The rule for leaving the head: by the votes behind the branches since hardfork 12, by
      height before it. */
  ghost predicate Wanted<S(!new)>(rules: Rules<S>, state: S, v: View, candidate: BlockId, current: BlockId)
    requires v.Valid()
  {
    if rules.hardfork12(state) then ShouldSwitch(v, candidate, current, rules.votesOf(state), rules.emergencyOf(state))
    else candidate.num > current.num
  }

  lemma WantedHeight<S(!new)>(rules: Rules<S>, state: S, v: View, candidate: BlockId, current: BlockId)
    requires v.Valid()
    ensures Wanted(rules, state, v, candidate, current) ==> candidate.num >= current.num && candidate != current
  {
    if rules.hardfork12(state) {
      PreferenceAntisymmetric(v, candidate, candidate, rules.votesOf(state), rules.emergencyOf(state));
    }
  }

  /** The branches of the switch that is made for the tip, if one is made. */
  ghost function Chosen<S(!new)>(rules: Rules<S>, state: S, v: View, tip: BlockId, hid: BlockId)
    : Option<(seq<Handle>, seq<Handle>)>
    requires v.Valid()
  {
    if Wanted(rules, state, v, tip, hid) then Between(v, tip, hid) else None
  }

  /** The fork database while the caller holds both branches. */
  ghost function Holding(v: View, f: seq<Handle>, s: seq<Handle>): View {
    v.(held := v.held + (set h | h in f) + (set h | h in s))
  }

  lemma {:induction false} BranchesFrame(v: View, w: View, x: Handle, y: Handle)
    requires v.Valid() && w.Valid() && w.items == v.items && x in v.items && y in v.items
    requires forall h :: h in v.items ==> (v.Alive(h) <==> w.Alive(h))
    ensures Branches(w, x, y) == Branches(v, x, y)
    decreases v.NumOf(x) + v.NumOf(y)
  {
    assert LinkOk(v.items, x) && LinkOk(v.items, y);
    if v.NumOf(x) > v.NumOf(y) {
      if v.Parent(x).Some? {
        ParentNum(v, x);
        BranchesFrame(v, w, v.Parent(x).value, y);
      }
    } else if v.NumOf(y) > v.NumOf(x) {
      if v.Parent(y).Some? {
        ParentNum(v, y);
        BranchesFrame(v, w, x, v.Parent(y).value);
      }
    } else if v.BlockOf(x).previous != v.BlockOf(y).previous && v.Parent(x).Some? && v.Parent(y).Some? {
      ParentNum(v, x);
      ParentNum(v, y);
      BranchesFrame(v, w, v.Parent(x).value, v.Parent(y).value);
    }
  }

  lemma HoldingBranches(v: View, f: seq<Handle>, s: seq<Handle>)
    requires v.Valid() && f != [] && s != [] && f[0] in v.items && s[0] in v.items
    requires (forall h :: h in f ==> v.Alive(h)) && (forall h :: h in s ==> v.Alive(h))
    ensures Holding(v, f, s).Valid() && Branches(Holding(v, f, s), f[0], s[0]) == Branches(v, f[0], s[0])
  {
    BranchesFrame(v, Holding(v, f, s), f[0], s[0]);
  }

  /** A switch was made for `tip` in the fork database `v` with these branches, and ended so. */
  ghost predicate SwitchLogged<S(!new)>(rules: Rules<S>, o: Origin<S>, v: View, tip: Handle,
                                        branches: (seq<Handle>, seq<Handle>), chain: seq<Entry<S>>,
                                        committed: nat, skip: bool,
                                        r: PushResult, relaxed: bool, after: seq<Entry<S>>, head: Option<Handle>)
  {
    var (f, s) := branches;
    && tip in v.items && f != [] && s != []
    && (forall h :: h in f ==> h in v.items) && (forall h :: h in s ==> h in v.items)
    && Holding(v, f, s).Valid()
    && SwitchEnds(rules, o, Holding(v, f, s), tip, f, s, chain, committed, skip, AsSwitch(r), relaxed, after, head)
  }

  /** What the handling of a block did: how the block entered the fork database (if it got that far), what the
      fork database held then, and the branches of the switch that followed (if one did). */
  datatype Log = Log(pushed: Option<Status>, steps: seq<Step>, view: View, branches: Option<(seq<Handle>, seq<Handle>)>)
  {
    /** The fork database's head at that moment, which a switch goes to. */
    ghost function Target(): BlockId
      requires view.Valid() && view.head.Some?
    {
      view.BlockOf(view.head.value).Id()
    }
  }

  /** Once a block is linked it extends the head, or the branch of the fork database's head may be switched to. */
  ghost predicate Decided<S(!new)>(rules: Rules<S>, o: Origin<S>, v: View, b: Block, chain: seq<Entry<S>>,
                                   committed: nat, skip: bool, branches: Option<(seq<Handle>, seq<Handle>)>,
                                   r: PushResult, after: seq<Entry<S>>, commits: nat, w: View)
    requires v.Valid() && v.head.Some?
  {
    var hid, state := IdAt(o, chain, |chain|), StateAt(o, chain, |chain|);
    var tip := v.BlockOf(v.head.value);
    if b.previous != hid && tip.previous != hid then
      && branches == Chosen(rules, state, v, tip.Id(), hid)
      && (!Wanted(rules, state, v, tip.Id(), hid) ==> r.Refused? && after == chain && commits == committed && w == v)
    else branches.None? && ExtendEnds(rules, o, v, b, chain, committed, skip, r, after, commits, w)
  }

  /** The handling of a block that the fork database is asked about. */
  ghost predicate Handled<S(!new)>(rules: Rules<S>, o: Origin<S>, v: View, next: Handle, b: Block, chain: seq<Entry<S>>,
                                   committed: nat, skip: bool, emergency: bool, log: Log,
                                   r: PushResult, after: seq<Entry<S>>, commits: nat, w: View)
  {
    && log.pushed.Some? && log.view.Valid()
    && Pushed(v, next, b, log.pushed.value, log.steps, log.view.(held := v.held), emergency)
    && (v.NothingLinkable() && !log.pushed.value.CascadeTooOld? ==> log.view.NothingLinkable())
    && (log.pushed.value.Unlinkable? ==> after == chain && commits == committed && w == log.view && !r.Accepted?)
    && ((log.pushed.value.Known? || log.pushed.value.Linked?) && log.view.head.Some? ==>
          Decided(rules, o, log.view, b, chain, committed, skip, log.branches, r, after, commits, w))
  }

  /** Outside emergency mode linking moves the head only to a higher block. */
  ghost predicate Rises(v: View, w: View) {
    && (forall h :: h in v.items ==> h in w.items && w.items[h].block == v.items[h].block)
    && (v.head.Some? && v.head.value in v.items ==>
          && w.head.Some? && w.head.value in w.items
          && (w.head == v.head || w.NumOf(w.head.value) > v.NumOf(v.head.value)))
  }

  lemma RisesSelf(v: View)
    ensures Rises(v, v)
  {
  }

  lemma RisesTransitive(a: View, b: View, c: View)
    ensures Rises(a, b) && Rises(b, c) ==> Rises(a, c)
  {
  }

  /** A fork database whose head was the head of the chain asks only for higher branches. */
  lemma SwitchRises<S(!new)>(rules: Rules<S>, state: S, v: View, w: View, hid: BlockId)
    requires w.Valid() && w.head.Some? && Rises(v, w) && Wanted(rules, state, w, w.BlockOf(w.head.value).Id(), hid)
    ensures v.head.Some? && v.head.value in v.items && v.BlockOf(v.head.value).Id() == hid ==>
      w.BlockOf(w.head.value).Id().num > hid.num
  {
    hide ShouldSwitch;
    WantedHeight(rules, state, w, w.BlockOf(w.head.value).Id(), hid);
  }

  lemma StepRises(v: View, s: Step)
    requires v.Valid() && CanStep(v, s)
    ensures Rises(v, StepView(v, s, false))
  {
  }

  lemma {:induction false} RunRises(v: View, steps: seq<Step>)
    requires v.Valid() && CanRun(v, steps, false)
    ensures Rises(v, Run(v, steps, false))
    decreases |steps|
  {
    hide LinksNameParents, StepView, CanStep, Rises;
    if steps != [] {
      var w := StepView(v, steps[0], false);
      StepRises(v, steps[0]);
      RunRises(w, steps[1..]);
      RisesTransitive(v, w, Run(v, steps, false));
    } else {
      RisesSelf(v);
    }
  }

  lemma AllocRises(v: View, h: Handle, b: Block, w: View)
    requires h !in v.items && w.items == Alloc(v, h, b).items && w.head == v.head
    ensures Rises(v, w)
  {
  }

  lemma EnterRises(v: View, h: Handle, b: Block)
    requires h !in v.items && Alloc(v, h, b).Keyed() && Alloc(v, h, b).CanEnter(h)
    ensures Rises(v, Alloc(v, h, b).Enter(h, false))
  {
  }

  lemma PushRises(v: View, h: Handle, b: Block, status: Status, steps: seq<Step>, w: View)
    requires v.Valid() && h !in v.items && Pushed(v, h, b, status, steps, w, false)
    ensures Rises(v, w)
  {
    hide LinksNameParents, CanRun, Run, View.Keyed, View.CanEnter, View.Enter, Rises;
    if status.Linked? || status.CascadeTooOld? {
      EnterRises(v, h, b);
      RunRises(Alloc(v, h, b).Enter(h, false), steps);
      RisesTransitive(v, Alloc(v, h, b).Enter(h, false), w);
    } else {
      AllocRises(v, h, b, w);
    }
  }

  /** The fork database's head rose, or it stands on `hid` or above it. */
  ghost predicate Lifts(v: View, w: View, hid: BlockId) {
    Rises(v, w) || StandsOn(w, hid)
  }

  ghost predicate StandsOn(w: View, hid: BlockId) {
    w.head.Some? && w.head.value in w.items && (w.BlockOf(w.head.value).Id() == hid || w.NumOf(w.head.value) > hid.num)
  }

  lemma LiftsThenRises(v: View, u: View, w: View, hid: BlockId)
    requires Lifts(v, u, hid) && Rises(u, w)
    ensures Lifts(v, w, hid)
  {
    RisesTransitive(v, u, w);
  }

  lemma RisesThenLifts(v: View, u: View, w: View, hid: BlockId)
    requires Rises(v, u) && Lifts(u, w, hid)
    ensures Lifts(v, w, hid)
  {
    RisesTransitive(v, u, w);
  }

  /** Only the index or what is held has changed. */
  lemma SameHeadRises(v: View, w: View)
    requires w.items == v.items && w.head == v.head
    ensures Rises(v, w)
  {
  }

  lemma RepairedRises(v: View, parent: Handle)
    requires parent in v.items
    ensures Rises(v, Repaired(v, parent))
  {
  }

  /** Entering a base and linking what waited for it moves the head only to a higher block. */
  lemma BaseRises(v: View, h: Handle, b: Block, steps: seq<Step>, w: View)
    requires h !in v.items && Reaches(Based(Alloc(v, h, b), h), steps, w, false)
    ensures Rises(v, w)
  {
    hide LinksNameParents, CanRun, Run, View.Keyed, Rises;
    var a := Based(Alloc(v, h, b), h);
    AllocRises(v, h, b, a);
    RunRises(a, steps);
    RisesTransitive(v, a, w);
  }

  lemma HeadHolds(v: View)
    requires v.Valid()
    ensures v.head.Some? ==> v.head.value in v.items
  {
  }

  /** Holding more items keeps a view valid. */
  lemma HeldValid(u: View, w: View)
    requires u.Valid() && w == u.(held := w.held)
    ensures w.Valid() && (u.NothingLinkable() <==> w.NothingLinkable())
  {
  }
}
