/**
 * Walks over the category tree. A category points at its parent by id; the
 * tree is flattened root first, then each child's subtree in the order the
 * children appear, and the expenses of a subtree are summed recursively.
 *
 * The source recurses without a guard against cycles in the parent links.
 * The model asks for a ghost `rank` on ids that every parent outranks its
 * children by: that is exactly the absence of cycles, and it is the measure
 * that makes the recursion terminate.
 */
module Recursion {
  import opened Domain
  import opened Transforms

  /** No cycles: every category's parent ranks strictly above it. */
  ghost predicate RankedBy(cats: seq<Category>, rank: string -> nat)
  {
    forall c :: c in cats && c.parentId.Some? ==> rank(c.id) < rank(c.parentId.value)
  }

  /** Category ids are pairwise distinct. */
  ghost predicate UniqueCategoryIds(cats: seq<Category>)
  {
    forall i, j :: 0 <= i < j < |cats| ==> cats[i].id != cats[j].id
  }

  /** `[c for c in cats if c.parent_id == parent]` */
  function Children(cats: seq<Category>, parent: string): (r: seq<Category>)
    ensures forall c :: c in r ==> c in cats && c.parentId == Some(parent)
  {
    if cats == [] then []
    else
      var last := cats[|cats| - 1];
      Children(cats[..|cats| - 1], parent) + (if last.parentId == Some(parent) then [last] else [])
  }

  /** `[c for c in cats if c.parent_id is None]` */
  function TopLevel(cats: seq<Category>): (r: seq<Category>)
    ensures forall c :: c in r ==> c in cats && c.parentId.None?
  {
    if cats == [] then []
    else
      var last := cats[|cats| - 1];
      TopLevel(cats[..|cats| - 1]) + (if last.parentId.None? then [last] else [])
  }

  /**
   * `flatten_categories(cats, root_id)` for a given root: the first category
   * with that id, then the subtrees of its children; `()` when no category
   * has the id.
   */
  function Flatten(cats: seq<Category>, rootId: string, ghost rank: string -> nat): (r: seq<Category>)
    requires RankedBy(cats, rank)
    ensures r == [] <==> FindCategory(cats, rootId).None?
    ensures r != [] ==> r[0] == FindCategory(cats, rootId).value && r[0].id == rootId
    ensures forall c :: c in r ==> c in cats
    decreases rank(rootId), 1
  {
    match FindCategory(cats, rootId)
    case None => []
    case Some(root) => [root] + FlattenChildren(cats, Children(cats, rootId), rank, rank(rootId))
  }

  /** The loop over the children: each child's subtree, in the children's order. */
  function FlattenChildren(cats: seq<Category>, kids: seq<Category>, ghost rank: string -> nat, ghost bound: nat): (r: seq<Category>)
    requires RankedBy(cats, rank)
    requires forall k :: k in kids ==> rank(k.id) < bound
    ensures forall c :: c in r ==> c in cats
    decreases bound, 0, |kids|
  {
    if kids == [] then []
    else Flatten(cats, kids[0].id, rank) + FlattenChildren(cats, kids[1..], rank, bound)
  }

  /** The loop over the top-level categories, for `root_id is None`. */
  function FlattenEach(cats: seq<Category>, roots: seq<Category>, ghost rank: string -> nat): (r: seq<Category>)
    requires RankedBy(cats, rank)
    ensures forall c :: c in r ==> c in cats
  {
    if roots == [] then []
    else Flatten(cats, roots[0].id, rank) + FlattenEach(cats, roots[1..], rank)
  }

  /**
   * `flatten_categories(cats, root_id)`: from one root, or from every
   * top-level category in order when no root is given.
   */
  function FlattenCategories(cats: seq<Category>, rootId: Option<string>, ghost rank: string -> nat): (r: seq<Category>)
    requires RankedBy(cats, rank)
    ensures forall c :: c in r ==> c in cats
    ensures rootId.Some? ==> (r == [] <==> FindCategory(cats, rootId.value).None?)
  {
    match rootId
    case None => FlattenEach(cats, TopLevel(cats), rank)
    case Some(id) => Flatten(cats, id, rank)
  }

  /** `sum(t.amount for t in trans if t.cat_id == catId)`: signed, income included. */
  function DirectSum(trans: seq<Transaction>, catId: string): int
  {
    if trans == [] then 0
    else
      var last := trans[|trans| - 1];
      DirectSum(trans[..|trans| - 1], catId) + (if last.catId == catId then last.amount else 0)
  }

  /**
   * `sum_expenses_recursive`: the root's own sum plus each child's recursive
   * sum. The root need not exist; its children are found by parent id alone.
   */
  function SumExpensesRecursive(cats: seq<Category>, trans: seq<Transaction>, rootId: string, ghost rank: string -> nat): int
    requires RankedBy(cats, rank)
    decreases rank(rootId), 1
  {
    DirectSum(trans, rootId) + SumChildren(cats, trans, Children(cats, rootId), rank, rank(rootId))
  }

  function SumChildren(cats: seq<Category>, trans: seq<Transaction>, kids: seq<Category>, ghost rank: string -> nat, ghost bound: nat): int
    requires RankedBy(cats, rank)
    requires forall k :: k in kids ==> rank(k.id) < bound
    decreases bound, 0, |kids|
  {
    if kids == [] then 0
    else SumExpensesRecursive(cats, trans, kids[0].id, rank) + SumChildren(cats, trans, kids[1..], rank, bound)
  }

  /** The own sums of a list of categories, added up. */
  function SumDirect(cs: seq<Category>, trans: seq<Transaction>): int
  {
    if cs == [] then 0 else DirectSum(trans, cs[0].id) + SumDirect(cs[1..], trans)
  }

  lemma {:induction false} SumDirectConcat(a: seq<Category>, b: seq<Category>, trans: seq<Transaction>)
    ensures SumDirect(a + b, trans) == SumDirect(a, trans) + SumDirect(b, trans)
    decreases |a|
  {
    if a == [] {
      assert a + b == b;
    } else {
      assert (a + b)[1..] == a[1..] + b;
      SumDirectConcat(a[1..], b, trans);
    }
  }

  /**
   * The recursive sum is the root's own sum plus the own sums of every
   * category the flattening lists below the root.
   */
  lemma {:induction false} SumIsOverFlattening(cats: seq<Category>, trans: seq<Transaction>, rootId: string, rank: string -> nat)
    requires RankedBy(cats, rank)
    ensures SumExpensesRecursive(cats, trans, rootId, rank)
         == DirectSum(trans, rootId) + SumDirect(FlattenChildren(cats, Children(cats, rootId), rank, rank(rootId)), trans)
    decreases rank(rootId), 1
  {
    SumChildrenIsOverFlattening(cats, trans, Children(cats, rootId), rank, rank(rootId));
  }

  lemma {:induction false} SumChildrenIsOverFlattening(cats: seq<Category>, trans: seq<Transaction>, kids: seq<Category>, rank: string -> nat, bound: nat)
    requires RankedBy(cats, rank)
    requires forall k :: k in kids ==> rank(k.id) < bound && k in cats
    ensures SumChildren(cats, trans, kids, rank, bound) == SumDirect(FlattenChildren(cats, kids, rank, bound), trans)
    decreases bound, 0, |kids|
  {
    if kids != [] {
      var k := kids[0];
      assert k in kids;
      SumIsOverFlattening(cats, trans, k.id, rank);
      SumChildrenIsOverFlattening(cats, trans, kids[1..], rank, bound);
      var f := Flatten(cats, k.id, rank);
      SumDirectConcat(f, FlattenChildren(cats, kids[1..], rank, bound), trans);
      assert FindCategory(cats, k.id).Some? by { assert k in cats; }
      var below := FlattenChildren(cats, Children(cats, k.id), rank, rank(k.id));
      assert f == [f[0]] + below;
      SumDirectConcat([f[0]], below, trans);
      assert SumDirect([f[0]], trans) == DirectSum(trans, k.id) by {
        assert [f[0]][1..] == [];
      }
    }
  }

  /** For an existing root the recursive sum is the sum of the own sums over its flattening. */
  lemma SumOfExistingRoot(cats: seq<Category>, trans: seq<Transaction>, rootId: string, rank: string -> nat)
    requires RankedBy(cats, rank)
    requires exists c :: c in cats && c.id == rootId
    ensures SumExpensesRecursive(cats, trans, rootId, rank) == SumDirect(Flatten(cats, rootId, rank), trans)
  {
    var root := FindCategory(cats, rootId).value;
    var below := FlattenChildren(cats, Children(cats, rootId), rank, rank(rootId));
    assert Flatten(cats, rootId, rank) == [root] + below;
    SumIsOverFlattening(cats, trans, rootId, rank);
    SumDirectConcat([root], below, trans);
    assert SumDirect([root], trans) == DirectSum(trans, rootId) by {
      assert [root][1..] == [];
    }
  }

  /**
   * `id` lies in the subtree of `root`: it is the root, or lies in the
   * subtree of one of the root's children.
   */
  ghost predicate InSubtree(cats: seq<Category>, id: string, root: string, rank: string -> nat)
    requires RankedBy(cats, rank)
    decreases rank(root)
  {
    id == root || exists k :: k in Children(cats, root) && InSubtree(cats, id, k.id, rank)
  }

  /** A category is in the flattened children exactly when it is in one child's flattening. */
  lemma {:induction false} FlattenChildrenMembers(cats: seq<Category>, kids: seq<Category>, rank: string -> nat, bound: nat)
    requires RankedBy(cats, rank)
    requires forall k :: k in kids ==> rank(k.id) < bound
    ensures forall c :: c in FlattenChildren(cats, kids, rank, bound) <==> exists k :: k in kids && c in Flatten(cats, k.id, rank)
    decreases |kids|
  {
    if kids != [] {
      FlattenChildrenMembers(cats, kids[1..], rank, bound);
      assert forall k :: k in kids <==> k == kids[0] || k in kids[1..];
    }
  }

  /**
   * With distinct ids, flattening from an existing root lists exactly the
   * categories of its subtree.
   */
  lemma {:induction false} FlattenIsSubtree(cats: seq<Category>, rootId: string, rank: string -> nat)
    requires RankedBy(cats, rank) && UniqueCategoryIds(cats)
    ensures forall c :: c in Flatten(cats, rootId, rank) <==>
              c in cats && FindCategory(cats, rootId).Some? && InSubtree(cats, c.id, rootId, rank)
    decreases rank(rootId)
  {
    if FindCategory(cats, rootId).Some? {
      var root := FindCategory(cats, rootId).value;
      var kids := Children(cats, rootId);
      FlattenChildrenMembers(cats, kids, rank, rank(rootId));
      forall k | k in kids
        ensures forall c :: c in Flatten(cats, k.id, rank) <==> c in cats && InSubtree(cats, c.id, k.id, rank)
      {
        FlattenIsSubtree(cats, k.id, rank);
        assert FindCategory(cats, k.id).Some? by { assert k in cats; }
      }
      forall c ensures c in Flatten(cats, rootId, rank) <==> c in cats && InSubtree(cats, c.id, rootId, rank) {
        if c in cats && c.id == rootId {
          OnlyOneWithId(cats, c, root);
        }
      }
    }
  }

  /** `TopLevel` keeps exactly the categories without a parent. */
  lemma {:induction false} TopLevelMembers(cats: seq<Category>)
    ensures forall c :: c in TopLevel(cats) <==> c in cats && c.parentId.None?
  {
    if cats != [] {
      TopLevelMembers(cats[..|cats| - 1]);
      assert cats == cats[..|cats| - 1] + [cats[|cats| - 1]];
    }
  }

  lemma {:induction false} FlattenEachMembers(cats: seq<Category>, roots: seq<Category>, rank: string -> nat)
    requires RankedBy(cats, rank)
    ensures forall c :: c in FlattenEach(cats, roots, rank) <==> exists x :: x in roots && c in Flatten(cats, x.id, rank)
  {
    if roots != [] {
      FlattenEachMembers(cats, roots[1..], rank);
      assert forall x :: x in roots <==> x == roots[0] || x in roots[1..];
    }
  }

  /**
   * With distinct ids and no root given, every top-level category is listed,
   * and the categories listed are exactly the descendants of the top-level
   * categories.
   */
  lemma FlattenAllFromTopLevel(cats: seq<Category>, rank: string -> nat)
    requires RankedBy(cats, rank) && UniqueCategoryIds(cats)
    ensures forall c :: c in cats && c.parentId.None? ==> c in FlattenCategories(cats, None, rank)
    ensures forall c :: c in FlattenCategories(cats, None, rank) <==>
              c in cats && exists x :: x in cats && x.parentId.None? && InSubtree(cats, c.id, x.id, rank)
  {
    TopLevelMembers(cats);
    FlattenEachMembers(cats, TopLevel(cats), rank);
    forall x | x in cats
      ensures forall c :: c in Flatten(cats, x.id, rank) <==> c in cats && InSubtree(cats, c.id, x.id, rank)
    {
      FlattenIsSubtree(cats, x.id, rank);
    }
    forall c | c in cats && c.parentId.None? ensures c in FlattenCategories(cats, None, rank) {
      assert InSubtree(cats, c.id, c.id, rank);
      assert c in TopLevel(cats);
    }
  }

  /** With distinct ids, two categories with the same id are the same category. */
  lemma OnlyOneWithId(cats: seq<Category>, a: Category, b: Category)
    requires UniqueCategoryIds(cats) && a in cats && b in cats && a.id == b.id
    ensures a == b
  {
    var i :| 0 <= i < |cats| && cats[i] == a;
    var j :| 0 <= j < |cats| && cats[j] == b;
    assert i == j;
  }

  /** `Children` keeps exactly the categories whose parent is `parent`. */
  lemma {:induction false} ChildrenMembers(cats: seq<Category>, parent: string)
    ensures forall c :: c in Children(cats, parent) <==> c in cats && c.parentId == Some(parent)
  {
    if cats != [] {
      ChildrenMembers(cats[..|cats| - 1], parent);
      SnocCategories(cats);
    }
  }

  lemma SnocCategories(cats: seq<Category>)
    requires cats != []
    ensures cats == cats[..|cats| - 1] + [cats[|cats| - 1]]
  {
  }

  /** Ids along a list of categories are pairwise distinct. */
  ghost predicate DistinctIds(cs: seq<Category>)
  {
    forall i, j :: 0 <= i < j < |cs| ==> cs[i].id != cs[j].id
  }

  /** With distinct ids in `cats`, the children of any parent have distinct ids. */
  lemma {:induction false} ChildrenDistinct(cats: seq<Category>, parent: string)
    requires UniqueCategoryIds(cats)
    ensures DistinctIds(Children(cats, parent))
  {
    if cats != [] {
      var init, last := cats[..|cats| - 1], cats[|cats| - 1];
      assert UniqueCategoryIds(init) by {
        forall i, j | 0 <= i < j < |init| ensures init[i].id != init[j].id {
          assert init[i] == cats[i] && init[j] == cats[j];
        }
      }
      ChildrenDistinct(init, parent);
      var ch := Children(init, parent);
      forall c | c in ch ensures c.id != last.id {
        var m :| 0 <= m < |init| && init[m] == c;
        assert cats[m] == c;
      }
    }
  }

  /** Being in a subtree never raises the rank: `id` ranks no higher than the root. */
  lemma {:induction false} InSubtreeRank(cats: seq<Category>, id: string, root: string, rank: string -> nat)
    requires RankedBy(cats, rank) && InSubtree(cats, id, root, rank)
    ensures rank(id) <= rank(root)
    decreases rank(root)
  {
    if id != root {
      var k :| k in Children(cats, root) && InSubtree(cats, id, k.id, rank);
      InSubtreeRank(cats, id, k.id, rank);
    }
  }

  /**
   * Below the root, `id` is a category whose parent is itself in the
   * subtree: the subtree can be climbed one parent link at a time.
   */
  lemma {:induction false} InSubtreeParent(cats: seq<Category>, id: string, root: string, rank: string -> nat)
    requires RankedBy(cats, rank) && InSubtree(cats, id, root, rank) && id != root
    ensures exists c :: c in cats && c.id == id && c.parentId.Some? && InSubtree(cats, c.parentId.value, root, rank)
    decreases rank(root)
  {
    var k :| k in Children(cats, root) && InSubtree(cats, id, k.id, rank);
    assert k in cats && k.parentId == Some(root);
    if id == k.id {
      assert InSubtree(cats, root, root, rank);
    } else {
      InSubtreeParent(cats, id, k.id, rank);
      var c :| c in cats && c.id == id && c.parentId.Some? && InSubtree(cats, c.parentId.value, k.id, rank);
      assert InSubtree(cats, c.parentId.value, root, rank);
    }
  }

  /** Two sibling categories with distinct ids have disjoint subtrees. */
  lemma {:induction false} SiblingSubtreesDisjoint(cats: seq<Category>, ka: Category, kb: Category, id: string, rank: string -> nat)
    requires RankedBy(cats, rank) && UniqueCategoryIds(cats)
    requires ka in cats && kb in cats && ka.parentId.Some? && ka.parentId == kb.parentId && ka.id != kb.id
    ensures !(InSubtree(cats, id, ka.id, rank) && InSubtree(cats, id, kb.id, rank))
    decreases rank(ka.id) - rank(id)
  {
    if InSubtree(cats, id, ka.id, rank) && InSubtree(cats, id, kb.id, rank) {
      InSubtreeRank(cats, id, ka.id, rank);
      var p := ka.parentId.value;
      if id == ka.id {
        ParentOfSiblingOutside(cats, ka, kb, rank);
        assert false;
      } else if id == kb.id {
        ParentOfSiblingOutside(cats, kb, ka, rank);
        assert false;
      } else {
        InSubtreeParent(cats, id, ka.id, rank);
        InSubtreeParent(cats, id, kb.id, rank);
        var c1 :| c1 in cats && c1.id == id && c1.parentId.Some? && InSubtree(cats, c1.parentId.value, ka.id, rank);
        var c2 :| c2 in cats && c2.id == id && c2.parentId.Some? && InSubtree(cats, c2.parentId.value, kb.id, rank);
        OnlyOneWithId(cats, c1, c2);
        SiblingSubtreesDisjoint(cats, ka, kb, c1.parentId.value, rank);
        assert false;
      }
    }
  }

  /** A category never lies in the subtree of its own sibling. */
  lemma ParentOfSiblingOutside(cats: seq<Category>, ka: Category, kb: Category, rank: string -> nat)
    requires RankedBy(cats, rank) && UniqueCategoryIds(cats)
    requires ka in cats && kb in cats && ka.parentId.Some? && ka.parentId == kb.parentId && ka.id != kb.id
    ensures !InSubtree(cats, ka.id, kb.id, rank)
  {
    if InSubtree(cats, ka.id, kb.id, rank) {
      InSubtreeParent(cats, ka.id, kb.id, rank);
      var c :| c in cats && c.id == ka.id && c.parentId.Some? && InSubtree(cats, c.parentId.value, kb.id, rank);
      OnlyOneWithId(cats, c, ka);
      InSubtreeRank(cats, ka.parentId.value, kb.id, rank);
      assert false;
    }
  }

  /** The signed amounts of the transactions whose category lies in the subtree of `root`. */
  ghost function SubtreeTotal(cats: seq<Category>, trans: seq<Transaction>, root: string, rank: string -> nat): int
    requires RankedBy(cats, rank)
  {
    if trans == [] then 0
    else
      var last := trans[|trans| - 1];
      SubtreeTotal(cats, trans[..|trans| - 1], root, rank) + (if InSubtree(cats, last.catId, root, rank) then last.amount else 0)
  }

  /** With no transactions every recursive sum is zero. */
  lemma {:induction false} SumRecursiveEmpty(cats: seq<Category>, root: string, rank: string -> nat)
    requires RankedBy(cats, rank)
    ensures SumExpensesRecursive(cats, [], root, rank) == 0
    decreases rank(root), 1
  {
    SumChildrenEmpty(cats, Children(cats, root), rank, rank(root));
  }

  lemma {:induction false} SumChildrenEmpty(cats: seq<Category>, kids: seq<Category>, rank: string -> nat, bound: nat)
    requires RankedBy(cats, rank)
    requires forall k :: k in kids ==> rank(k.id) < bound
    ensures SumChildren(cats, [], kids, rank, bound) == 0
    decreases bound, 0, |kids|
  {
    if kids != [] {
      SumRecursiveEmpty(cats, kids[0].id, rank);
      SumChildrenEmpty(cats, kids[1..], rank, bound);
    }
  }

  /**
   * One more transaction adds its amount to the recursive sum of `root`
   * exactly when its category lies in the subtree of `root`: with distinct
   * ids it is counted once, never twice.
   */
  lemma {:induction false} SumRecursiveStep(cats: seq<Category>, trans: seq<Transaction>, t: Transaction, root: string, rank: string -> nat)
    requires RankedBy(cats, rank) && UniqueCategoryIds(cats)
    ensures SumExpensesRecursive(cats, trans + [t], root, rank)
         == SumExpensesRecursive(cats, trans, root, rank) + (if InSubtree(cats, t.catId, root, rank) then t.amount else 0)
    decreases rank(root), 1
  {
    var kids := Children(cats, root);
    ChildrenDistinct(cats, root);
    SumChildrenStep(cats, trans, t, kids, rank, rank(root), root);
    assert (trans + [t])[..|trans|] == trans;
    if t.catId == root {
      forall k | k in kids ensures !InSubtree(cats, t.catId, k.id, rank) {
        if InSubtree(cats, t.catId, k.id, rank) {
          InSubtreeRank(cats, t.catId, k.id, rank);
          assert false;
        }
      }
    }
  }

  lemma {:induction false} SumChildrenStep(cats: seq<Category>, trans: seq<Transaction>, t: Transaction, kids: seq<Category>, rank: string -> nat, bound: nat, parent: string)
    requires RankedBy(cats, rank) && UniqueCategoryIds(cats)
    requires forall k :: k in kids ==> rank(k.id) < bound && k in cats && k.parentId == Some(parent)
    requires DistinctIds(kids)
    ensures SumChildren(cats, trans + [t], kids, rank, bound)
         == SumChildren(cats, trans, kids, rank, bound)
            + (if exists k :: k in kids && InSubtree(cats, t.catId, k.id, rank) then t.amount else 0)
    decreases bound, 0, |kids|
  {
    if kids != [] {
      var k0, rest := kids[0], kids[1..];
      assert k0 in kids;
      assert DistinctIds(rest) by {
        forall i, j | 0 <= i < j < |rest| ensures rest[i].id != rest[j].id {
          assert rest[i] == kids[i + 1] && rest[j] == kids[j + 1];
        }
      }
      SumRecursiveStep(cats, trans, t, k0.id, rank);
      SumChildrenStep(cats, trans, t, rest, rank, bound, parent);
      forall k | k in rest ensures !(InSubtree(cats, t.catId, k0.id, rank) && InSubtree(cats, t.catId, k.id, rank)) {
        var j :| 0 <= j < |rest| && rest[j] == k;
        assert kids[j + 1] == k;
        SiblingSubtreesDisjoint(cats, k0, k, t.catId, rank);
      }
      assert forall k :: k in kids <==> k == k0 || k in rest;
    }
  }

  /**
   * The recursive sum of `root` is the sum of the signed amounts of exactly
   * the transactions whose category lies in the subtree of `root`.
   */
  lemma {:induction false} SumIsSubtreeTotal(cats: seq<Category>, trans: seq<Transaction>, root: string, rank: string -> nat)
    requires RankedBy(cats, rank) && UniqueCategoryIds(cats)
    ensures SumExpensesRecursive(cats, trans, root, rank) == SubtreeTotal(cats, trans, root, rank)
  {
    if trans == [] {
      SumRecursiveEmpty(cats, root, rank);
    } else {
      var init, last := trans[..|trans| - 1], trans[|trans| - 1];
      SumIsSubtreeTotal(cats, init, root, rank);
      SumRecursiveStep(cats, init, last, root, rank);
      assert init + [last] == trans;
    }
  }

  /** No transaction in the subtree: the recursive sum is zero. */
  lemma SumOutsideSubtreeIsZero(cats: seq<Category>, trans: seq<Transaction>, root: string, rank: string -> nat)
    requires RankedBy(cats, rank) && UniqueCategoryIds(cats)
    requires forall t :: t in trans ==> !InSubtree(cats, t.catId, root, rank)
    ensures SumExpensesRecursive(cats, trans, root, rank) == 0
  {
    SumIsSubtreeTotal(cats, trans, root, rank);
    SubtreeTotalNone(cats, trans, root, rank);
  }

  lemma {:induction false} SubtreeTotalNone(cats: seq<Category>, trans: seq<Transaction>, root: string, rank: string -> nat)
    requires RankedBy(cats, rank)
    requires forall t :: t in trans ==> !InSubtree(cats, t.catId, root, rank)
    ensures SubtreeTotal(cats, trans, root, rank) == 0
  {
    if trans != [] {
      SubtreeTotalNone(cats, trans[..|trans| - 1], root, rank);
    }
  }

  /** Concatenating two lists with distinct ids and no shared id keeps the ids distinct. */
  lemma DistinctConcat(a: seq<Category>, b: seq<Category>)
    requires DistinctIds(a) && DistinctIds(b)
    requires forall x, y :: x in a && y in b ==> x.id != y.id
    ensures DistinctIds(a + b)
  {
    forall i, j | 0 <= i < j < |a + b| ensures (a + b)[i].id != (a + b)[j].id {
      if j < |a| {
      } else if i >= |a| {
        assert (a + b)[i] == b[i - |a|] && (a + b)[j] == b[j - |a|];
      } else {
        assert (a + b)[i] in a && (a + b)[j] in b;
      }
    }
  }

  /** With distinct ids in `cats`, a flattening lists no category twice. */
  lemma {:induction false} FlattenDistinct(cats: seq<Category>, rootId: string, rank: string -> nat)
    requires RankedBy(cats, rank) && UniqueCategoryIds(cats)
    ensures DistinctIds(Flatten(cats, rootId, rank))
    decreases rank(rootId), 1
  {
    if FindCategory(cats, rootId).Some? {
      var root := FindCategory(cats, rootId).value;
      var kids := Children(cats, rootId);
      var below := FlattenChildren(cats, kids, rank, rank(rootId));
      ChildrenDistinct(cats, rootId);
      FlattenChildrenDistinct(cats, kids, rank, rank(rootId), rootId);
      FlattenChildrenMembers(cats, kids, rank, rank(rootId));
      forall y | y in below ensures root.id != y.id {
        var k :| k in kids && y in Flatten(cats, k.id, rank);
        FlattenIsSubtree(cats, k.id, rank);
        InSubtreeRank(cats, y.id, k.id, rank);
      }
      DistinctConcat([root], below);
    }
  }

  lemma {:induction false} FlattenChildrenDistinct(cats: seq<Category>, kids: seq<Category>, rank: string -> nat, bound: nat, parent: string)
    requires RankedBy(cats, rank) && UniqueCategoryIds(cats)
    requires forall k :: k in kids ==> rank(k.id) < bound && k in cats && k.parentId == Some(parent)
    requires DistinctIds(kids)
    ensures DistinctIds(FlattenChildren(cats, kids, rank, bound))
    decreases bound, 0, |kids|
  {
    if kids != [] {
      var k0, rest := kids[0], kids[1..];
      assert k0 in kids;
      assert DistinctIds(rest) by {
        forall i, j | 0 <= i < j < |rest| ensures rest[i].id != rest[j].id {
          assert rest[i] == kids[i + 1] && rest[j] == kids[j + 1];
        }
      }
      FlattenDistinct(cats, k0.id, rank);
      FlattenChildrenDistinct(cats, rest, rank, bound, parent);
      FlattenChildrenMembers(cats, rest, rank, bound);
      FlattenIsSubtree(cats, k0.id, rank);
      forall x, y | x in Flatten(cats, k0.id, rank) && y in FlattenChildren(cats, rest, rank, bound)
        ensures x.id != y.id
      {
        var k :| k in rest && y in Flatten(cats, k.id, rank);
        FlattenIsSubtree(cats, k.id, rank);
        var j :| 0 <= j < |rest| && rest[j] == k;
        assert kids[j + 1] == k;
        SiblingSubtreesDisjoint(cats, k0, k, x.id, rank);
      }
      DistinctConcat(Flatten(cats, k0.id, rank), FlattenChildren(cats, rest, rank, bound));
    }
  }
}
