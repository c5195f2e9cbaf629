/** Walking parent links: ancestors, the two branches down to a fork point, and the
    lookup of a main-branch block by number. */
module ForkBranches {
  import opened Options
  import opened Blocks
  import opened ForkView

  lemma ParentNum(v: View, h: Handle)
    requires v.Valid() && h in v.items && v.Parent(h).Some?
    ensures v.BlockOf(v.Parent(h).value).Id() == v.BlockOf(h).previous
    ensures v.NumOf(v.Parent(h).value) == v.NumOf(h) - 1
  {
    assert LinkOk(v.items, h);
  }

  /** The ancestor of `h` with number `n` found by following live parent links. */
  function AncestorAt(v: View, h: Handle, n: nat): (a: Option<Handle>)
    requires v.Valid() && h in v.items
    ensures a.Some? ==> a.value in v.items && v.NumOf(a.value) == n <= v.NumOf(h)
    decreases v.NumOf(h)
  {
    if v.NumOf(h) < n then None
    else if v.NumOf(h) == n then Some(h)
    else if v.Parent(h).None? then None
    else
      ParentNum(v, h);
      AncestorAt(v, v.Parent(h).value, n)
  }

  /** How many live parent links can be followed from `h`. */
  ghost function Depth(v: View, h: Handle): nat
    requires v.Valid() && h in v.items
    decreases v.NumOf(h)
  {
    if v.Parent(h).None? then 0
    else
      ParentNum(v, h);
      1 + Depth(v, v.Parent(h).value)
  }

  /** The depth below `h` depends only on which lower items are alive. */
  lemma {:induction false} DepthFrame(v: View, w: View, h: Handle)
    requires v.Valid() && w.Valid() && h in v.items && w.items == v.items
    requires forall k :: k in v.items && v.NumOf(k) < v.NumOf(h) ==> (v.Alive(k) <==> w.Alive(k))
    ensures Depth(v, h) == Depth(w, h)
    decreases v.NumOf(h)
  {
    assert LinkOk(v.items, h);
    if v.Parent(h).Some? {
      ParentNum(v, h);
      DepthFrame(v, w, v.Parent(h).value);
    }
  }

  /** Moving the head to its parent shortens the walk by one. */
  lemma DepthPop(v: View, p: Handle)
    requires v.Valid() && v.head.Some? && v.Parent(v.head.value) == Some(p)
    ensures v.(head := Some(p)).Valid()
    ensures Depth(v.(head := Some(p)), p) + 1 == Depth(v, v.head.value)
  {
    ParentNum(v, v.head.value);
    DepthFrame(v, v.(head := Some(p)), p);
  }

  /** The branches of `x` and `y` down to two blocks with one `previous`, tip first;
      nothing if a parent link is broken on the way. */
  function Branches(v: View, x: Handle, y: Handle): (r: Option<(seq<Handle>, seq<Handle>)>)
    requires v.Valid() && x in v.items && y in v.items
    decreases v.NumOf(x) + v.NumOf(y)
  {
    var up := v.Parent(x);
    var vp := v.Parent(y);
    if v.NumOf(x) > v.NumOf(y) then
      if up.None? then None else
      ParentNum(v, x);
      Prepend([x], [], Branches(v, up.value, y))
    else if v.NumOf(y) > v.NumOf(x) then
      if vp.None? then None else
      ParentNum(v, y);
      Prepend([], [y], Branches(v, x, vp.value))
    else if v.BlockOf(x).previous != v.BlockOf(y).previous then
      if up.None? || vp.None? then None else
      ParentNum(v, x);
      ParentNum(v, y);
      Prepend([x], [y], Branches(v, up.value, vp.value))
    else
      Some(([x], [y]))
  }

  function Prepend(a: seq<Handle>, b: seq<Handle>,
                   r: Option<(seq<Handle>, seq<Handle>)>): Option<(seq<Handle>, seq<Handle>)> {
    if r.None? then None else Some((a + r.value.0, b + r.value.1))
  }

  lemma PrependAssoc(f: seq<Handle>, s: seq<Handle>, a: seq<Handle>, b: seq<Handle>,
                     r: Option<(seq<Handle>, seq<Handle>)>)
    ensures Prepend(f, s, Prepend(a, b, r)) == Prepend(f + a, s + b, r)
  {
    if r.Some? {
      assert f + (a + r.value.0) == f + a + r.value.0;
      assert s + (b + r.value.1) == s + b + r.value.1;
    }
  }

  lemma PrependNothing(r: Option<(seq<Handle>, seq<Handle>)>)
    ensures Prepend([], [], r) == r
  {
    if r.Some? {
      assert [] + r.value.0 == r.value.0 && [] + r.value.1 == r.value.1;
    }
  }

  /** A non-empty parent-linked path, tip first. */
  ghost predicate IsPath(v: View, p: seq<Handle>) {
    && |p| > 0
    && (forall i :: 0 <= i < |p| ==> p[i] in v.items)
    && (forall i :: 0 <= i < |p| - 1 ==> v.Parent(p[i]) == Some(p[i + 1]))
  }

  /** Two parent-linked paths from the tips whose last blocks have one number and one
      `previous`. */
  ghost predicate Converge(v: View, x: Handle, y: Handle, f: seq<Handle>, s: seq<Handle>)
    requires v.Valid() && x in v.items && y in v.items
  {
    && IsPath(v, f) && IsPath(v, s) && f[0] == x && s[0] == y
    && |f| - |s| == v.NumOf(x) - v.NumOf(y)
    && v.BlockOf(f[|f| - 1]).previous == v.BlockOf(s[|s| - 1]).previous
  }

  /** The paths share no block except possibly their last one. */
  ghost predicate ShareOnlyLast(v: View, f: seq<Handle>, s: seq<Handle>)
    requires IsPath(v, f) && IsPath(v, s)
  {
    forall i, j :: 0 <= i < |f| && 0 <= j < |s| && (i < |f| - 1 || j < |s| - 1) ==>
      v.BlockOf(f[i]) != v.BlockOf(s[j])
  }

  lemma {:induction false} PathNums(v: View, p: seq<Handle>, i: nat)
    requires v.Valid() && IsPath(v, p) && i < |p|
    ensures v.NumOf(p[i]) == v.NumOf(p[0]) - i
  {
    if i > 0 {
      PathNums(v, p, i - 1);
      assert v.Parent(p[i - 1]) == Some(p[(i - 1) + 1]);
      ParentNum(v, p[i - 1]);
    }
  }

  lemma {:induction false} BranchesConverge(v: View, x: Handle, y: Handle)
    requires v.Valid() && x in v.items && y in v.items && Branches(v, x, y).Some?
    ensures Converge(v, x, y, Branches(v, x, y).value.0, Branches(v, x, y).value.1)
    decreases v.NumOf(x) + v.NumOf(y)
  {
    if v.NumOf(x) > v.NumOf(y) {
      ParentNum(v, x);
      BranchesConverge(v, v.Parent(x).value, y);
    } else if v.NumOf(y) > v.NumOf(x) {
      ParentNum(v, y);
      BranchesConverge(v, x, v.Parent(y).value);
    } else if v.BlockOf(x).previous != v.BlockOf(y).previous {
      ParentNum(v, x);
      ParentNum(v, y);
      BranchesConverge(v, v.Parent(x).value, v.Parent(y).value);
    }
  }

  /** A block above everything on a path is not on it. */
  lemma PathBelow(v: View, p: seq<Handle>, b: Block)
    requires v.Valid() && IsPath(v, p) && b.Num() > v.NumOf(p[0])
    ensures forall i :: 0 <= i < |p| ==> v.BlockOf(p[i]) != b
  {
    forall i | 0 <= i < |p|
      ensures v.BlockOf(p[i]) != b
    {
      PathNums(v, p, i);
    }
  }

  lemma {:induction false} BranchesShareOnlyLast(v: View, x: Handle, y: Handle)
    requires v.Valid() && x in v.items && y in v.items && Branches(v, x, y).Some?
    ensures
      var (f, s) := Branches(v, x, y).value;
      Converge(v, x, y, f, s) && ShareOnlyLast(v, f, s)
    decreases v.NumOf(x) + v.NumOf(y)
  {
    BranchesConverge(v, x, y);
    var (f, s) := Branches(v, x, y).value;
    if v.NumOf(x) > v.NumOf(y) {
      ParentNum(v, x);
      BranchesShareOnlyLast(v, v.Parent(x).value, y);
      PathBelow(v, s, v.BlockOf(x));
    } else if v.NumOf(y) > v.NumOf(x) {
      ParentNum(v, y);
      BranchesShareOnlyLast(v, x, v.Parent(y).value);
      PathBelow(v, f, v.BlockOf(y));
    } else if v.BlockOf(x).previous != v.BlockOf(y).previous {
      ParentNum(v, x);
      ParentNum(v, y);
      BranchesShareOnlyLast(v, v.Parent(x).value, v.Parent(y).value);
      PathBelow(v, f[1..], v.BlockOf(y));
      PathBelow(v, s[1..], v.BlockOf(x));
    }
  }

  /** Branches with more than one block each end in different blocks. */
  lemma {:induction false} LastDiffers(v: View, x: Handle, y: Handle)
    requires v.Valid() && x in v.items && y in v.items && Branches(v, x, y).Some?
    ensures
      var (f, s) := Branches(v, x, y).value;
      && Converge(v, x, y, f, s)
      && (|f| > 1 && |s| > 1 ==> v.BlockOf(f[|f| - 1]).Id() != v.BlockOf(s[|s| - 1]).Id())
    decreases v.NumOf(x) + v.NumOf(y)
  {
    BranchesConverge(v, x, y);
    if v.NumOf(x) > v.NumOf(y) {
      ParentNum(v, x);
      LastDiffers(v, v.Parent(x).value, y);
    } else if v.NumOf(y) > v.NumOf(x) {
      ParentNum(v, y);
      LastDiffers(v, x, v.Parent(y).value);
    } else if v.BlockOf(x).previous != v.BlockOf(y).previous {
      ParentNum(v, x);
      ParentNum(v, y);
      LastDiffers(v, v.Parent(x).value, v.Parent(y).value);
    }
  }

  /** Exchanging the tips exchanges the branches, and the computation fails for both
      orders or for neither. */
  lemma {:induction false} BranchesSwap(v: View, x: Handle, y: Handle)
    requires v.Valid() && x in v.items && y in v.items
    ensures Branches(v, x, y).None? <==> Branches(v, y, x).None?
    ensures Branches(v, x, y).Some? ==>
      Branches(v, y, x).value == (Branches(v, x, y).value.1, Branches(v, x, y).value.0)
    decreases v.NumOf(x) + v.NumOf(y)
  {
    if v.NumOf(x) > v.NumOf(y) {
      if v.Parent(x).Some? {
        ParentNum(v, x);
        BranchesSwap(v, v.Parent(x).value, y);
      }
    } else if v.NumOf(y) > v.NumOf(x) {
      if v.Parent(y).Some? {
        ParentNum(v, y);
        BranchesSwap(v, x, v.Parent(y).value);
      }
    } else if v.BlockOf(x).previous != v.BlockOf(y).previous {
      if v.Parent(x).Some? && v.Parent(y).Some? {
        ParentNum(v, x);
        ParentNum(v, y);
        BranchesSwap(v, v.Parent(x).value, v.Parent(y).value);
      }
    }
  }

  /** Both tips have an ancestor with number `n`, and the two share one `previous`. */
  ghost predicate MeetAt(v: View, x: Handle, y: Handle, n: nat)
    requires v.Valid() && x in v.items && y in v.items
  {
    var a, b := AncestorAt(v, x, n), AncestorAt(v, y, n);
    a.Some? && b.Some? && v.BlockOf(a.value).previous == v.BlockOf(b.value).previous
  }

  /** The branches exist exactly when the two ancestor chains meet somewhere. */
  lemma {:induction false} BranchesExist(v: View, x: Handle, y: Handle)
    requires v.Valid() && x in v.items && y in v.items
    ensures Branches(v, x, y).Some? <==> exists n: nat :: MeetAt(v, x, y, n)
    decreases v.NumOf(x) + v.NumOf(y)
  {
    if v.NumOf(x) > v.NumOf(y) {
      if v.Parent(x).Some? {
        ParentNum(v, x);
        BranchesExist(v, v.Parent(x).value, y);
        forall n: nat
          ensures MeetAt(v, x, y, n) <==> MeetAt(v, v.Parent(x).value, y, n)
        {
        }
      }
    } else if v.NumOf(y) > v.NumOf(x) {
      if v.Parent(y).Some? {
        ParentNum(v, y);
        BranchesExist(v, x, v.Parent(y).value);
        forall n: nat
          ensures MeetAt(v, x, y, n) <==> MeetAt(v, x, v.Parent(y).value, n)
        {
        }
      }
    } else if v.BlockOf(x).previous != v.BlockOf(y).previous {
      if v.Parent(x).Some? && v.Parent(y).Some? {
        ParentNum(v, x);
        ParentNum(v, y);
        BranchesExist(v, v.Parent(x).value, v.Parent(y).value);
        forall n: nat
          ensures MeetAt(v, x, y, n) <==> MeetAt(v, v.Parent(x).value, v.Parent(y).value, n)
        {
        }
      }
    } else {
      assert MeetAt(v, x, y, v.NumOf(x));
    }
  }

  /** The branches of a block and one of its ancestors: the way between them, and the ancestor alone. */
  lemma {:induction false} BranchesAncestor(v: View, x: Handle, y: Handle)
    requires v.Valid() && x in v.items && y in v.items && AncestorAt(v, x, v.NumOf(y)) == Some(y)
    ensures Branches(v, x, y).Some?
    ensures
      var (f, s) := Branches(v, x, y).value;
      Converge(v, x, y, f, s) && s == [y] && |f| == v.NumOf(x) - v.NumOf(y) + 1 && f[|f| - 1] == y
    decreases v.NumOf(x)
  {
    if v.NumOf(x) > v.NumOf(y) {
      ParentNum(v, x);
      BranchesAncestor(v, v.Parent(x).value, y);
      BranchesConverge(v, x, y);
    }
  }

  /** Every linked block above `base` is linked to a linked parent, and so is the head. */
  ghost predicate ClosedFrom(v: View, base: nat)
    requires v.Keyed()
  {
    && v.head.Some? && v.Holds(v.index, v.head.value)
    && forall id :: id in v.index && id.num > base ==>
         var p := v.items[v.index[id]].prev; p.Some? && v.Holds(v.index, p.value)
  }

  /** In a closed tree the walk from any linked block reaches every number down to the
      base, and stays in the index. */
  lemma {:induction false} ClosedWalk(v: View, base: nat, h: Handle, n: nat)
    requires v.Valid() && ClosedFrom(v, base) && v.Holds(v.index, h) && base <= n <= v.NumOf(h)
    ensures AncestorAt(v, h, n).Some? && v.Holds(v.index, AncestorAt(v, h, n).value)
    decreases v.NumOf(h)
  {
    if v.NumOf(h) > n {
      assert v.items[h].block.Id() in v.index;
      ParentNum(v, h);
      ClosedWalk(v, base, v.Parent(h).value, n);
    }
  }

  /** The linked blocks with number `n`. */
  function AtNumber(v: View, n: nat): set<BlockId> {
    set id | id in v.index && id.num == n
  }

  lemma SingletonExists<T>(s: set<T>)
    requires |s| == 1
    ensures exists x :: s == {x}
  {
    var x :| x in s;
    assert |s - {x}| == 0;
    assert s == {x};
  }

  /** The answer of the by-number lookup: the only block of that number if there is
      just one, else the result of walking down from the head. */
  ghost function MainBranchLookup(v: View, n: nat): Option<Handle>
    requires v.Valid() && v.head.Some?
  {
    if |AtNumber(v, n)| == 1 then
      SingletonExists(AtNumber(v, n));
      var id :| AtNumber(v, n) == {id};
      assert id in AtNumber(v, n);
      Some(v.index[id])
    else if |AtNumber(v, n)| == 0 then None
    else AncestorAt(v, v.head.value, n)
  }

  /** In a closed tree the fast lookup always returns the head's ancestor. */
  lemma LookupIsAncestor(v: View, base: nat, n: nat)
    requires v.Valid() && ClosedFrom(v, base) && base <= n <= v.NumOf(v.head.value)
    ensures MainBranchLookup(v, n) == AncestorAt(v, v.head.value, n)
  {
    ClosedWalk(v, base, v.head.value, n);
    var a := AncestorAt(v, v.head.value, n).value;
    assert v.BlockOf(a).Id() in AtNumber(v, n);
  }
}
