/** The tree object a Space keeps: every command replaces its root in place. */
module Tree {
  import opened Basics
  import opened Geometry
  import opened BspNode
  import opened BspSync
  import opened BspAlgebra
  import opened BspResize

  class BspTree {
    var root: Option<Node>

    ghost function Order(): seq<WindowId>
      reads this
    {
      TreeLeaves(root)
    }

    constructor ()
      ensures root == None
    {
      root := None;
    }

    predicate Has(w: WindowId)
      reads this
      ensures Has(w) <==> w in TreeLeaves(root)
    {
      root.Some? && Contains(root.value, w)
    }

    /** A window joins at the end of the order, once. */
    method Insert(w: WindowId) returns (inserted: bool)
      modifies this
      ensures root == InsertTree(old(root), w)
      ensures inserted <==> w !in old(Order())
      ensures Order() == if inserted then old(Order()) + [w] else old(Order())
    {
      if Has(w) {
        return false;
      }
      if root.Some? {
        InsertLeaves(root.value, w, 0);
      }
      root := if root.None? then Some(Leaf(w)) else Some(InsertRightmost(root.value, w, 0));
      return true;
    }

    method Remove(w: WindowId) returns (removed: bool)
      modifies this
      ensures root == PruneTree(old(root), {w})
      ensures removed <==> w in old(Order())
      ensures Order() == Keep(old(Order()), Elements(old(Order())) - {w})
    {
      if root.Some? {
        RemoveIsPrune(root.value, w);
        RemoveLeaves(root.value, w);
      }
      if !Has(w) {
        if root.Some? {
          PruneNothing(root.value, {w});
        }
        return false;
      }
      root := match root.value case Leaf(_) => None case node => BspNode.Remove(node, w);
      return true;
    }

    /** Exchange two windows; the frames follow the positions. */
    method Swap(a: WindowId, b: WindowId) returns (swapped: bool)
      modifies this
      ensures swapped <==> a != b && a in old(Order()) && b in old(Order())
      ensures !swapped ==> root == old(root)
      ensures swapped ==> root == Some(BspNode.Swap(old(root).value, a, b))
    {
      if a == b || !Has(a) || !Has(b) {
        return false;
      }
      root := Some(BspNode.Swap(root.value, a, b));
      return true;
    }

    /** Put `w` right beside `target`. The removal in between can never lose the target. */
    method Warp(w: WindowId, target: WindowId, before: bool) returns (warped: bool)
      modifies this
      ensures warped <==> w != target && target in old(Order())
      ensures !warped ==> root == old(root)
      ensures warped ==> root == Warped(old(root).value, w, target, before)
      ensures warped ==> Order() == Beside(Keep(old(Order()), Elements(old(Order())) - {w}), target, w, before)
    {
      if w == target || !Has(target) {
        return false;
      }
      ghost var n := root.value;
      WarpedLeaves(n, w, target, before);
      RemoveIsPrune(n, w);
      if Has(w) {
        var _ := Remove(w);
        if !Has(target) {
          assert false;
        }
      }
      root := Some(InsertSibling(root.value, w, target, before, 0));
      return true;
    }

    method Balance()
      modifies this
      ensures Order() == old(Order())
      ensures root.Some? ==> old(root).Some? && root.value == BspNode.Balance(old(root).value) && AllHalves(root.value)
    {
      if root.Some? {
        BalanceEvens(root.value);
        root := Some(BspNode.Balance(root.value));
      }
    }

    method Rotate()
      modifies this
      ensures Order() == old(Order())
      ensures root == if old(root).None? then None else Some(BspNode.Rotate(old(root).value))
    {
      if root.Some? {
        RotateTransposes(root.value, Rect(0.0, 0.0, 0.0, 0.0), 0.0);
        root := Some(BspNode.Rotate(root.value));
      }
    }

    method Mirror()
      modifies this
      ensures Order() == Reversed(old(Order()))
      ensures root == if old(root).None? then None else Some(BspNode.Mirror(old(root).value))
    {
      if root.Some? {
        MirrorLeaves(root.value);
        root := Some(BspNode.Mirror(root.value));
      }
    }

    /** Move the nearest boundary that is this edge; the order never changes. */
    method ResizeEdge(w: WindowId, edge: Direction, delta: real, area: Rect, gap: real) returns (changed: bool)
      modifies this
      ensures Order() == old(Order())
      ensures old(root).None? ==> root == None && !changed
      ensures old(root).Some? ==> root.Some? && (root.value, changed) == BspNode.ResizeEdge(old(root).value, w, edge, delta, area, gap)
    {
      if root.None? {
        return false;
      }
      ResizeIsLocal(root.value, w, edge, delta, area, gap);
      var (n, moved) := BspNode.ResizeEdge(root.value, w, edge, delta, area, gap);
      root := Some(n);
      return moved;
    }

    /**
     * Forget windows that are gone, then append the new ones in ascending order. The hash set's
     * iteration order does not matter.
     */
    method SyncWithWindows(windows: set<WindowId>)
      modifies this
      ensures root == Synced(old(root), windows)
    {
      var leaves := TreeLeaves(root);
      ghost var drop: set<WindowId> := {};
      if root.Some? {
        PruneNothing(root.value, {});
      }
      for i := 0 to |leaves|
        invariant drop == (set w | w in leaves[..i] && w !in windows)
        invariant root == PruneTree(old(root), drop)
      {
        assert leaves[..i + 1] == leaves[..i] + [leaves[i]];
        if leaves[i] !in windows {
          if old(root).Some? {
            PruneCompose(old(root).value, drop, {leaves[i]});
          }
          drop := drop + {leaves[i]};
          var _ := Remove(leaves[i]);
        }
      }
      assert leaves[..|leaves|] == leaves;
      assert drop == Elements(TreeLeaves(old(root))) - windows;
      PrunedLeaves(old(root), windows);
      var missing := CollectMissing(windows);
      assert Elements(missing) == windows - Elements(TreeLeaves(old(root)));
      NatTotal(Elements(missing));
      missing := SortSeq(missing, NatLe);
      ghost var pruned := root;
      for i := 0 to |missing|
        invariant InsertAll(root, missing[i..]) == InsertAll(pruned, missing)
      {
        assert missing[i..][0] == missing[i] && missing[i..][1..] == missing[i + 1..];
        var _ := Insert(missing[i]);
      }
    }

    /** The windows the tree does not hold, in the order a hash set happens to yield them. */
    method CollectMissing(windows: set<WindowId>) returns (missing: seq<WindowId>)
      ensures Elements(missing) == windows - Elements(Order()) && NoDup(missing)
    {
      missing := [];
      var rest := windows;
      while rest != {}
        invariant rest <= windows && NoDup(missing)
        invariant forall w :: w in missing <==> w in windows && w !in rest && w !in Order()
        decreases |rest|
      {
        var w :| w in rest;
        if !Has(w) {
          missing := missing + [w];
        }
        rest := rest - {w};
      }
    }
  }

  lemma BalanceEvens(n: Node)
    ensures AllHalves(BspNode.Balance(n)) && Leaves(BspNode.Balance(n)) == Leaves(n)
  {
  }
}
