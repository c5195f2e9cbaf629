/** Choosing between two branches by the votes behind their producers. */
module ForkChoice {
  import opened Config
  import opened Options
  import opened Blocks
  import opened ForkView
  import opened ForkBranches
  import opened ForkDb
  import opened Sums

  /** The elected producers of a branch, each once. */
  function Producers(v: View, branch: seq<Handle>): set<string>
    requires forall h :: h in branch ==> h in v.items
  {
    set h | h in branch && v.BlockOf(h).validator != COMMITTEE :: v.BlockOf(h).validator
  }

  predicate HasEmergencyBlock(v: View, branch: seq<Handle>)
    requires forall h :: h in branch ==> h in v.items
  {
    exists h :: h in branch && v.BlockOf(h).validator == COMMITTEE
  }

  /** The votes for a producer; none if it is not a registered validator. */
  function VotesOf(votes: map<string, nat>, name: string): nat {
    if name in votes then votes[name] else 0
  }

  ghost function WeightOf(votes: map<string, nat>, names: set<string>): int {
    Sum(map n | n in names :: VotesOf(votes, n))
  }

  lemma WeightAdd(votes: map<string, nat>, names: set<string>, n: string)
    ensures WeightOf(votes, names + {n}) == WeightOf(votes, names) + (if n in names then 0 else VotesOf(votes, n))
  {
    var m := map k | k in names :: VotesOf(votes, k);
    assert (map k | k in names + {n} :: VotesOf(votes, k)) == m[n := VotesOf(votes, n)];
    SumUpdate(m, n, VotesOf(votes, n));
  }

  /** Walks a branch once, counting every elected producer's votes once. */
  method BranchInfo(v: View, branch: seq<Handle>, votes: map<string, nat>) returns (weight: nat, emergency: bool)
    requires forall h :: h in branch ==> h in v.items
    ensures weight == WeightOf(votes, Producers(v, branch))
    ensures emergency <==> HasEmergencyBlock(v, branch)
  {
    hide Producers, HasEmergencyBlock, WeightOf;
    var seen := {};
    weight, emergency := 0, false;
    NoProducers(v, branch, votes);
    for i := 0 to |branch|
      invariant seen == Producers(v, branch[..i])
      invariant weight == WeightOf(votes, seen)
      invariant emergency <==> HasEmergencyBlock(v, branch[..i])
    {
      ProducersStep(v, branch, i);
      var name := v.BlockOf(branch[i]).validator;
      if name == COMMITTEE {
        emergency := true;
      } else {
        WeightAdd(votes, seen, name);
        if name !in seen {
          seen := seen + {name};
          weight := weight + VotesOf(votes, name);
        }
      }
    }
    assert branch[..|branch|] == branch;
  }

  lemma NoProducers(v: View, branch: seq<Handle>, votes: map<string, nat>)
    requires forall h :: h in branch ==> h in v.items
    ensures Producers(v, branch[..0]) == {} && WeightOf(votes, {}) == 0 && !HasEmergencyBlock(v, branch[..0])
  {
  }

  lemma ProducersStep(v: View, branch: seq<Handle>, i: nat)
    requires (forall h :: h in branch ==> h in v.items) && i < |branch|
    ensures
      var name, seen := v.BlockOf(branch[i]).validator, Producers(v, branch[..i]);
      && Producers(v, branch[..i + 1]) == (if name == COMMITTEE || name in seen then seen else seen + {name})
      && (HasEmergencyBlock(v, branch[..i + 1]) <==> HasEmergencyBlock(v, branch[..i]) || name == COMMITTEE)
  {
    assert branch[..i + 1] == branch[..i] + [branch[i]];
  }

  /** The verdict on two branches: positive for the first, negative for the second. In
      emergency mode a branch with committee blocks beats one without; otherwise the
      higher tip gets a tenth more weight and the heavier branch wins. */
  function Verdict(active: bool, wa: int, ea: bool, na: nat, wb: int, eb: bool, nb: nat): int {
    if active && ea && !eb then 1
    else if active && !ea && eb then -1
    else
      var a := if na > nb then wa + wa / 10 else wa;
      var b := if nb > na then wb + wb / 10 else wb;
      if a > b then 1 else if b > a then -1 else 0
  }

  /** The preference between two tips; zero when they cannot be compared. */
  ghost function Preference(v: View, a: BlockId, b: BlockId, votes: map<string, nat>, active: bool): int
    requires v.Valid()
  {
    if a !in v.index || b !in v.index || Branches(v, v.index[a], v.index[b]).None? then 0
    else
      BranchesConverge(v, v.index[a], v.index[b]);
      var (f, s) := Branches(v, v.index[a], v.index[b]).value;
      Verdict(active, WeightOf(votes, Producers(v, f)), HasEmergencyBlock(v, f), a.num,
              WeightOf(votes, Producers(v, s)), HasEmergencyBlock(v, s), b.num)
  }

  /** Compares the branches of two tips (`compare_fork_branches`). */
  method Compare(db: ForkDatabase, a: BlockId, b: BlockId, votes: map<string, nat>, active: bool) returns (r: int)
    requires db.Valid()
    ensures r == Preference(db.State(), a, b, votes, active)
  {
    if !db.IsKnown(a) || !db.IsKnown(b) {
      return 0;
    }
    var branches := db.FetchBranchFrom(a, b);
    if branches.None? {
      return 0;
    }
    var v := db.State();
    BranchesConverge(v, v.index[a], v.index[b]);
    var (f, s) := branches.value;
    var wa, ea := BranchInfo(v, f, votes);
    var wb, eb := BranchInfo(v, s, votes);
    r := Verdict(active, wa, ea, a.num, wb, eb, b.num);
  }

  /** Comparison is antisymmetric for every pair of tips, comparable or not. */
  lemma PreferenceAntisymmetric(v: View, a: BlockId, b: BlockId, votes: map<string, nat>, active: bool)
    requires v.Valid()
    ensures Preference(v, a, b, votes, active) == -Preference(v, b, a, votes, active)
  {
    if a in v.index && b in v.index {
      BranchesSwap(v, v.index[a], v.index[b]);
    }
  }

  /** Votes count once for every elected producer of a branch, and blocks of the committee not at all. */
  lemma ProducersMeans(v: View, branch: seq<Handle>, name: string)
    requires forall h :: h in branch ==> h in v.items
    ensures name in Producers(v, branch) <==>
      name != COMMITTEE && exists i :: 0 <= i < |branch| && v.BlockOf(branch[i]).validator == name
    ensures HasEmergencyBlock(v, branch) <==>
      exists i :: 0 <= i < |branch| && v.BlockOf(branch[i]).validator == COMMITTEE
  {
  }

  /** In emergency mode the one of two branches that has committee blocks is preferred, whatever their weights. */
  lemma CommitteePreferred(v: View, a: BlockId, b: BlockId, votes: map<string, nat>, f: seq<Handle>, s: seq<Handle>)
    requires v.Valid() && a in v.index && b in v.index && Branches(v, v.index[a], v.index[b]) == Some((f, s))
    ensures IsPath(v, f) && IsPath(v, s)
    ensures
      var ours := exists h :: h in f && v.BlockOf(h).validator == COMMITTEE;
      var theirs := exists h :: h in s && v.BlockOf(h).validator == COMMITTEE;
      && (ours && !theirs ==> Preference(v, a, b, votes, true) > 0)
      && (!ours && theirs ==> Preference(v, a, b, votes, true) < 0)
  {
    BranchesConverge(v, v.index[a], v.index[b]);
  }

  /** Otherwise the heavier branch is preferred, where the branch of the higher tip counts with a tenth more. */
  lemma HeavierPreferred(v: View, a: BlockId, b: BlockId, votes: map<string, nat>, active: bool, f: seq<Handle>,
                         s: seq<Handle>)
    requires v.Valid() && a in v.index && b in v.index && Branches(v, v.index[a], v.index[b]) == Some((f, s))
    ensures IsPath(v, f) && IsPath(v, s)
    ensures
      var ours := exists h :: h in f && v.BlockOf(h).validator == COMMITTEE;
      var theirs := exists h :: h in s && v.BlockOf(h).validator == COMMITTEE;
      var x, y := WeightOf(votes, Producers(v, f)), WeightOf(votes, Producers(v, s));
      var p := Preference(v, a, b, votes, active);
      !(active && ours != theirs) ==>
        if a.num == b.num then (p > 0 <==> x > y) && (p < 0 <==> x < y)
        else if a.num > b.num then (p > 0 <==> 11 * x >= 10 * (y + 1)) && (p < 0 <==> 11 * x < 10 * y)
        else (p > 0 <==> 11 * y < 10 * x) && (p < 0 <==> 11 * y >= 10 * (x + 1))
  {
    hide Producers, WeightOf, LinksNameParents, View.Keyed, Verdict, Branches;
    IndexHolds(v, a);
    IndexHolds(v, b);
    BranchesConverge(v, v.index[a], v.index[b]);
    VerdictMeans(active, WeightOf(votes, Producers(v, f)), HasEmergencyBlock(v, f), a.num,
                 WeightOf(votes, Producers(v, s)), HasEmergencyBlock(v, s), b.num);
  }

  lemma VerdictMeans(active: bool, x: int, ours: bool, na: nat, y: int, theirs: bool, nb: nat)
    ensures
      var p := Verdict(active, x, ours, na, y, theirs, nb);
      !(active && ours != theirs) ==>
        if na == nb then (p > 0 <==> x > y) && (p < 0 <==> x < y)
        else if na > nb then (p > 0 <==> 11 * x >= 10 * (y + 1)) && (p < 0 <==> 11 * x < 10 * y)
        else (p > 0 <==> 11 * y < 10 * x) && (p < 0 <==> 11 * y >= 10 * (x + 1))
  {
  }

  /** The switch rule: the candidate is at least as high and either wins the comparison
      or ties with a strictly higher tip. */
  ghost predicate ShouldSwitch(v: View, candidate: BlockId, current: BlockId, votes: map<string, nat>, active: bool)
    requires v.Valid()
  {
    && candidate.num >= current.num && (current in v.index || current in v.unlinked)
    && (Preference(v, candidate, current, votes, active) > 0
        || (Preference(v, candidate, current, votes, active) == 0 && candidate.num > current.num))
  }

  /** Which tips of one tree are switched to: never a lower one; among tips without a committee block or outside
      emergency mode, one of the same height exactly when its branch is heavier, and a higher one unless the other
      branch has more than a tenth more weight. */
  lemma SwitchRule(v: View, candidate: BlockId, current: BlockId, votes: map<string, nat>, active: bool,
                   f: seq<Handle>, s: seq<Handle>)
    requires v.Valid() && candidate in v.index && current in v.index
    requires Branches(v, v.index[candidate], v.index[current]) == Some((f, s))
    ensures IsPath(v, f) && IsPath(v, s)
    ensures
      var ours := exists h :: h in f && v.BlockOf(h).validator == COMMITTEE;
      var theirs := exists h :: h in s && v.BlockOf(h).validator == COMMITTEE;
      var x, y := WeightOf(votes, Producers(v, f)), WeightOf(votes, Producers(v, s));
      ShouldSwitch(v, candidate, current, votes, active) <==>
        && candidate.num >= current.num
        && if active && ours != theirs then ours
           else if candidate.num == current.num then x > y else 11 * x >= 10 * y
  {
    hide Producers, WeightOf, LinksNameParents, View.Keyed, Preference;
    CommitteePreferred(v, candidate, current, votes, f, s);
    HeavierPreferred(v, candidate, current, votes, active, f, s);
  }

  /** The branches are read off the parent links: a later fork database that still finds branches between two
      items finds the same ones. */
  lemma {:induction false} BranchesSame(v: View, w: View, x: Handle, y: Handle)
    requires v.Valid() && w.Valid() && Extends(v, w) && x in v.items && y in v.items
    requires Branches(v, x, y).Some? && Branches(w, x, y).Some?
    ensures Branches(w, x, y) == Branches(v, x, y)
    decreases v.NumOf(x) + v.NumOf(y)
  {
    hide LinksNameParents, View.Keyed;
    if v.NumOf(x) > v.NumOf(y) {
      ParentNum(v, x);
      BranchesSame(v, w, v.Parent(x).value, y);
    } else if v.NumOf(y) > v.NumOf(x) {
      ParentNum(v, y);
      BranchesSame(v, w, x, v.Parent(y).value);
    } else if v.BlockOf(x).previous != v.BlockOf(y).previous {
      ParentNum(v, x);
      ParentNum(v, y);
      BranchesSame(v, w, v.Parent(x).value, v.Parent(y).value);
    }
  }

  /** A node that switched never switches straight back, whatever blocks have arrived meanwhile and wherever
      the fork database's head has moved. */
  lemma NoSwitchBack(v: View, w: View, candidate: BlockId, current: BlockId, votes: map<string, nat>, active: bool)
    requires v.Valid() && w.Valid() && Extends(v, w) && ShouldSwitch(v, candidate, current, votes, active)
    ensures !ShouldSwitch(w, current, candidate, votes, active)
  {
    hide Branches, Verdict, LinksNameParents, Producers, WeightOf, HasEmergencyBlock, View.Keyed;
    PreferenceAntisymmetric(v, candidate, current, votes, active);
    if ShouldSwitch(w, current, candidate, votes, active) {
      PreferenceSame(v, w, current, candidate, votes, active);
    }
  }

  lemma PreferenceSame(v: View, w: View, a: BlockId, b: BlockId, votes: map<string, nat>, active: bool)
    requires v.Valid() && w.Valid() && Extends(v, w)
    requires Preference(v, a, b, votes, active) != 0 && Preference(w, a, b, votes, active) != 0
    ensures Preference(w, a, b, votes, active) == Preference(v, a, b, votes, active)
  {
    hide Branches, Verdict, LinksNameParents, WeightOf, View.Keyed;
    assert v.index[a] in v.items && v.index[b] in v.items by { IndexHolds(v, a); IndexHolds(v, b); }
    BranchesSame(v, w, v.index[a], v.index[b]);
    BranchesConverge(v, v.index[a], v.index[b]);
    var (f, s) := Branches(v, v.index[a], v.index[b]).value;
    assert Producers(w, f) == Producers(v, f) && Producers(w, s) == Producers(v, s);
  }

  lemma IndexHolds(v: View, id: BlockId)
    requires v.Valid() && id in v.index
    ensures v.index[id] in v.items
  {
  }

  // ---------------------------------------------------------------------------
  // Preference is not transitive
  // ---------------------------------------------------------------------------

  /** Three tips at one height: `x` and `y` fork above block `s`, and `z` forks below it.
      The producer of `s` also produced `x`, so its votes count in `s`-`x` only once. */
  ghost function CycleView(): View {
    var r := Block(BlockId(6, 1), 10, "v0");
    var s := Block(r.Id(), 20, "v1");
    var x := Block(s.Id(), 30, "v1");
    var y := Block(s.Id(), 31, "v2");
    var c := Block(r.Id(), 21, "v3");
    var z := Block(c.Id(), 32, "v3");
    View(map[0 := Item(r, None), 1 := Item(s, Some(0)), 2 := Item(x, Some(1)), 3 := Item(y, Some(1)),
             4 := Item(c, Some(0)), 5 := Item(z, Some(4))],
         map[r.Id() := 0, s.Id() := 1, x.Id() := 2, y.Id() := 3, c.Id() := 4, z.Id() := 5],
         map[], Some(2), {})
  }

  const CYCLE_VOTES: map<string, nat> := map["v1" := 10, "v2" := 9, "v3" := 15]

  lemma CycleViewValid()
    ensures CycleView().Valid()
  {
    var v := CycleView();
    forall h | h in v.items
      ensures LinkOk(v.items, h)
    {
    }
  }

  lemma WeightOfOne(votes: map<string, nat>, n: string)
    ensures WeightOf(votes, {n}) == VotesOf(votes, n)
  {
    var empty: set<string> := {};
    assert WeightOf(votes, empty) == 0 by {
      assert (map k | k in empty :: VotesOf(votes, k)) == map[];
    }
    WeightAdd(votes, empty, n);
    assert empty + {n} == {n};
  }

  lemma WeightOfTwo(votes: map<string, nat>, n: string, m: string)
    requires n != m
    ensures WeightOf(votes, {n, m}) == VotesOf(votes, n) + VotesOf(votes, m)
  {
    WeightOfOne(votes, n);
    WeightAdd(votes, {n}, m);
    assert {n} + {m} == {n, m};
  }

  lemma CycleBranches()
    ensures
      var v := CycleView();
      && v.Valid()
      && Branches(v, 2, 3) == Some(([2], [3]))
      && Branches(v, 3, 5) == Some(([3, 1], [5, 4]))
      && Branches(v, 5, 2) == Some(([5, 4], [2, 1]))
  {
    CycleViewValid();
    var v := CycleView();
    assert v.Parent(2) == Some(1) && v.Parent(3) == Some(1) && v.Parent(5) == Some(4);
    assert v.Parent(1) == Some(0) && v.Parent(4) == Some(0);
    assert Branches(v, 1, 4) == Some(([1], [4]));
    assert Branches(v, 4, 1) == Some(([4], [1]));
    assert [3] + [1] == [3, 1] && [5] + [4] == [5, 4] && [2] + [1] == [2, 1];
  }

  lemma CycleTips()
    ensures
      var v := CycleView();
      var x, y, z := BlockId(9, 30), BlockId(9, 31), BlockId(9, 32);
      && x in v.index && y in v.index && z in v.index
      && v.index[x] == 2 && v.index[y] == 3 && v.index[z] == 5
      && forall h :: 0 <= h < 6 ==> h in v.items
  {
  }

  lemma CycleProducers()
    ensures
      var v := CycleView();
      && (forall h :: 0 <= h < 6 ==> h in v.items)
      && Producers(v, [2]) == {"v1"} && Producers(v, [3]) == {"v2"}
      && Producers(v, [3, 1]) == {"v2", "v1"} && Producers(v, [5, 4]) == {"v3"}
      && Producers(v, [2, 1]) == {"v1"}
  {
    assert 2 in [2] && 3 in [3] && 3 in [3, 1] && 1 in [3, 1] && 5 in [5, 4] && 2 in [2, 1];
  }

  lemma CycleWeights()
    ensures
      var v := CycleView();
      && (forall h :: 0 <= h < 6 ==> h in v.items)
      && WeightOf(CYCLE_VOTES, Producers(v, [2])) == 10 && WeightOf(CYCLE_VOTES, Producers(v, [3])) == 9
      && WeightOf(CYCLE_VOTES, Producers(v, [3, 1])) == 19 && WeightOf(CYCLE_VOTES, Producers(v, [5, 4])) == 15
      && WeightOf(CYCLE_VOTES, Producers(v, [2, 1])) == 10
  {
    hide CycleView; hide Producers; hide WeightOf;
    CycleTips();
    CycleProducers();
    WeightOfOne(CYCLE_VOTES, "v1");
    WeightOfOne(CYCLE_VOTES, "v2");
    WeightOfOne(CYCLE_VOTES, "v3");
    WeightOfTwo(CYCLE_VOTES, "v2", "v1");
  }

  /** Outside emergency mode the heavier of two branches with equally high tips wins. */
  lemma HeavierWins(v: View, a: BlockId, b: BlockId, votes: map<string, nat>, f: seq<Handle>, s: seq<Handle>)
    requires v.Valid() && a in v.index && b in v.index && a.num == b.num
    requires Branches(v, v.index[a], v.index[b]) == Some((f, s))
    requires (forall h :: h in f ==> h in v.items) && (forall h :: h in s ==> h in v.items)
    requires WeightOf(votes, Producers(v, f)) > WeightOf(votes, Producers(v, s))
    ensures ShouldSwitch(v, a, b, votes, false)
  {
  }

  /** Three tips of one height, with votes fixed and no emergency: a node on any of them would leave it for
      the next one, if that one were the candidate. */
  lemma PreferenceHasCycle()
    ensures
      var v := CycleView();
      var x, y, z := BlockId(9, 30), BlockId(9, 31), BlockId(9, 32);
      && v.Valid()
      && ShouldSwitch(v, x, y, CYCLE_VOTES, false)
      && ShouldSwitch(v, y, z, CYCLE_VOTES, false)
      && ShouldSwitch(v, z, x, CYCLE_VOTES, false)
  {
    hide *;
    CycleTips();
    CycleBranches();
    CycleWeights();
    var v := CycleView();
    var x, y, z := BlockId(9, 30), BlockId(9, 31), BlockId(9, 32);
    HeavierWins(v, x, y, CYCLE_VOTES, [2], [3]);
    HeavierWins(v, y, z, CYCLE_VOTES, [3, 1], [5, 4]);
    HeavierWins(v, z, x, CYCLE_VOTES, [5, 4], [2, 1]);
  }

  /** Three tips at one height fork at one point: each one's branch is the same in both
      of its comparisons. */
  ghost predicate SharedForkPoint(v: View, a: BlockId, b: BlockId, c: BlockId)
    requires v.Valid()
  {
    && a in v.index && b in v.index && c in v.index && a.num == b.num == c.num
    && exists fa, fb, fc :: OneForkPoint(v, a, b, c, fa, fb, fc)
  }

  /** The branch of each of three tips is the same in both of its comparisons. */
  ghost predicate OneForkPoint(v: View, a: BlockId, b: BlockId, c: BlockId, fa: seq<Handle>, fb: seq<Handle>,
                               fc: seq<Handle>)
    requires v.Valid() && a in v.index && b in v.index && c in v.index
  {
    && Branches(v, v.index[a], v.index[b]) == Some((fa, fb))
    && Branches(v, v.index[b], v.index[c]) == Some((fb, fc))
    && Branches(v, v.index[a], v.index[c]) == Some((fa, fc))
  }

  /** Among tips of one height that fork at one point, preference is transitive. */
  lemma PreferenceTransitive(v: View, a: BlockId, b: BlockId, c: BlockId, votes: map<string, nat>, active: bool)
    requires v.Valid() && SharedForkPoint(v, a, b, c)
    requires Preference(v, a, b, votes, active) >= 0 && Preference(v, b, c, votes, active) >= 0
    ensures Preference(v, a, c, votes, active) >= 0
    ensures Preference(v, a, b, votes, active) > 0 ==> Preference(v, a, c, votes, active) > 0
  {
    hide Branches, Producers, WeightOf, HasEmergencyBlock, LinksNameParents, View.Keyed;
    var fa, fb, fc :| OneForkPoint(v, a, b, c, fa, fb, fc);
    IndexHolds(v, a);
    IndexHolds(v, b);
    IndexHolds(v, c);
    BranchesConverge(v, v.index[a], v.index[b]);
    BranchesConverge(v, v.index[b], v.index[c]);
  }

  /** Tips that a node would leave for one another in a circle are of one height and fork at different points. */
  lemma CircleNeedsTwoForks(v: View, a: BlockId, b: BlockId, c: BlockId, votes: map<string, nat>, active: bool)
    requires v.Valid() && ShouldSwitch(v, a, b, votes, active) && ShouldSwitch(v, b, c, votes, active)
    requires ShouldSwitch(v, c, a, votes, active)
    ensures a.num == b.num == c.num && !SharedForkPoint(v, a, b, c)
  {
    if SharedForkPoint(v, a, b, c) {
      PreferenceTransitive(v, a, b, c, votes, active);
      PreferenceAntisymmetric(v, a, c, votes, active);
    }
  }

  // ---------------------------------------------------------------------------
  // Tips of different heights
  // ---------------------------------------------------------------------------

  /** Three branches of one, two and three blocks above block `r`, each by one producer. */
  ghost function StairsView(): View {
    var r := Block(BlockId(1, 1), 10, "v0");
    var z := Block(r.Id(), 20, "vz");
    var y1 := Block(r.Id(), 30, "vy");
    var y2 := Block(y1.Id(), 31, "vy");
    var x1 := Block(r.Id(), 40, "vx");
    var x2 := Block(x1.Id(), 41, "vx");
    var x3 := Block(x2.Id(), 42, "vx");
    View(map[0 := Item(r, None), 1 := Item(z, Some(0)), 2 := Item(y1, Some(0)), 3 := Item(y2, Some(2)),
             4 := Item(x1, Some(0)), 5 := Item(x2, Some(4)), 6 := Item(x3, Some(5))],
         map[r.Id() := 0, z.Id() := 1, y1.Id() := 2, y2.Id() := 3, x1.Id() := 4, x2.Id() := 5, x3.Id() := 6],
         map[], Some(6), {})
  }

  const STAIRS_VOTES: map<string, nat> := map["vx" := 100, "vy" := 109, "vz" := 118]

  lemma StairsLinks()
    ensures
      var v := StairsView();
      && v.Valid() && (forall h :: 0 <= h < 7 ==> h in v.items)
      && v.NumOf(1) == 3 && v.NumOf(2) == 3 && v.NumOf(3) == 4 && v.NumOf(4) == 3 && v.NumOf(5) == 4 && v.NumOf(6) == 5
      && v.BlockOf(1).previous == v.BlockOf(2).previous == v.BlockOf(4).previous
      && v.BlockOf(3).previous != v.BlockOf(5).previous
      && v.Parent(3) == Some(2) && v.Parent(5) == Some(4) && v.Parent(6) == Some(5)
  {
    var v := StairsView();
    forall h | h in v.items
      ensures LinkOk(v.items, h)
    {
    }
  }

  lemma StairsBranches()
    ensures
      var v := StairsView();
      && v.Valid() && (forall h :: 0 <= h < 7 ==> h in v.items)
      && Branches(v, 6, 3) == Some(([6, 5, 4], [3, 2]))
      && Branches(v, 3, 1) == Some(([3, 2], [1]))
      && Branches(v, 6, 1) == Some(([6, 5, 4], [1]))
  {
    hide StairsView; hide View.Parent; hide View.Keyed; hide LinksNameParents;
    StairsLinks();
    var v := StairsView();
    assert Branches(v, 4, 2) == Some(([4], [2])) && Branches(v, 2, 1) == Some(([2], [1]));
    assert Branches(v, 4, 1) == Some(([4], [1]));
    assert Branches(v, 5, 3) == Prepend([5], [3], Branches(v, 4, 2));
    assert Branches(v, 5, 1) == Prepend([5], [], Branches(v, 4, 1));
    assert [5] + [4] == [5, 4] && [6] + [5, 4] == [6, 5, 4] && [3] + [2] == [3, 2] && [] + [1] == [1];
    assert [] + [3, 2] == [3, 2];
  }

  lemma StairsProducers()
    ensures
      var v := StairsView();
      && v.Keyed() && (forall h :: 0 <= h < 7 ==> h in v.items)
      && BlockId(5, 42) in v.index && BlockId(4, 31) in v.index && BlockId(3, 20) in v.index
      && v.index[BlockId(5, 42)] == 6 && v.index[BlockId(4, 31)] == 3 && v.index[BlockId(3, 20)] == 1
      && Producers(v, [6, 5, 4]) == {"vx"} && Producers(v, [3, 2]) == {"vy"} && Producers(v, [1]) == {"vz"}
  {
    assert 6 in [6, 5, 4] && 3 in [3, 2] && 1 in [1];
  }

  /** One fork point, three heights: the bonus of a tenth for the higher tip makes the five-high tip beat the
      four-high one, that one the three-high one, and that one the five-high one. */
  lemma StairsCycle()
    ensures
      var v := StairsView();
      var x, y, z := BlockId(5, 42), BlockId(4, 31), BlockId(3, 20);
      && v.Valid() && x in v.index && y in v.index && z in v.index
      && OneForkPoint(v, x, y, z, [6, 5, 4], [3, 2], [1])
      && Preference(v, x, y, STAIRS_VOTES, false) == 1
      && Preference(v, y, z, STAIRS_VOTES, false) == 1
      && Preference(v, z, x, STAIRS_VOTES, false) == 1
  {
    hide StairsView; hide Producers; hide WeightOf; hide Branches; hide View.Keyed; hide LinksNameParents;
    StairsBranches();
    StairsProducers();
    WeightOfOne(STAIRS_VOTES, "vx");
    WeightOfOne(STAIRS_VOTES, "vy");
    WeightOfOne(STAIRS_VOTES, "vz");
    PreferenceAntisymmetric(StairsView(), BlockId(3, 20), BlockId(5, 42), STAIRS_VOTES, false);
  }
}
