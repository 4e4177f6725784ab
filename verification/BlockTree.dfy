/** The tree of blocks.

    Hashing is injective, so a block hash stands for the block and its whole
    ancestry.  A block is therefore modelled by its ancestry: two blocks have
    the same hash exactly when they are the same value.  Header verification
    fixes the number of a block to one more than the number of its parent, so
    the number is the depth. */
module BlockTree {

  datatype Option<+T> = None | Some(value: T)

  datatype Block =
    | Genesis(root: nat)
    | Child(parent: Block, root: nat, salt: nat)
  {
    function Number(): nat {
      if Genesis? then 0 else parent.Number() + 1
    }

    /** The ancestor at height n, the block itself included. */
    function At(n: nat): (a: Block)
      requires n <= Number()
      ensures a.Number() == n
    {
      if n == Number() then this else parent.At(n)
    }

    /** Is a an ancestor of this block, or the block itself? */
    predicate DescendsFrom(a: Block) {
      a.Number() <= Number() && At(a.Number()) == a
    }

    /** Neither block is an ancestor of the other. */
    predicate ConflictsWith(b: Block) {
      !DescendsFrom(b) && !b.DescendsFrom(this)
    }
  }

  /** An ancestor's ancestors are the block's own. */
  lemma {:induction false} AtAt(b: Block, n: nat, m: nat)
    requires m <= n <= b.Number()
    ensures b.At(n).At(m) == b.At(m)
    decreases b
  {
    if n != b.Number() {
      AtAt(b.parent, n, m);
    }
  }

  /** Heights follow parents. */
  lemma {:induction false} AtParent(b: Block, n: nat)
    requires 0 < n <= b.Number()
    ensures b.At(n).Child? && b.At(n).parent == b.At(n - 1)
    decreases b
  {
    if n != b.Number() {
      AtParent(b.parent, n);
    }
  }

  lemma DescendsTrans(c: Block, b: Block, a: Block)
    requires c.DescendsFrom(b) && b.DescendsFrom(a)
    ensures c.DescendsFrom(a)
  {
    AtAt(c, b.Number(), a.Number());
  }

  /** Two ancestors of the same block are comparable. */
  lemma AncestorsComparable(c: Block, a: Block, b: Block)
    requires c.DescendsFrom(a) && c.DescendsFrom(b) && a.Number() <= b.Number()
    ensures b.DescendsFrom(a)
  {
    AtAt(c, b.Number(), a.Number());
  }

  /** The canonical number-to-hash index of the chain that ends in b. */
  function Canonical(b: Block): map<nat, Block> {
    map n: nat | 0 <= n <= b.Number() :: b.At(n)
  }

  /** The highest block both chains share. */
  function Common(x: Block, y: Block): Option<Block>
    decreases x.Number() + y.Number()
  {
    if x == y then Some(x)
    else if x.Number() > y.Number() then Common(x.parent, y)
    else if y.Number() > x.Number() then Common(x, y.parent)
    else if x.Genesis? then None
    else Common(x.parent, y.parent)
  }

  /** Common finds a shared ancestor, and no shared ancestor is higher. */
  lemma {:induction false} CommonIsHighest(x: Block, y: Block)
    ensures Common(x, y).Some? ==>
              x.DescendsFrom(Common(x, y).value) && y.DescendsFrom(Common(x, y).value)
    ensures forall a: Block :: x.DescendsFrom(a) && y.DescendsFrom(a) ==>
              Common(x, y).Some? && Common(x, y).value.DescendsFrom(a)
    decreases x.Number() + y.Number()
  {
    if x == y {
    } else if x.Number() > y.Number() {
      CommonIsHighest(x.parent, y);
    } else if y.Number() > x.Number() {
      CommonIsHighest(x, y.parent);
    } else {
      assert forall a: Block :: x.DescendsFrom(a) && y.DescendsFrom(a) ==> a.Number() < x.Number();
      if x.Child? {
        CommonIsHighest(x.parent, y.parent);
        assert forall a: Block :: x.DescendsFrom(a) && y.DescendsFrom(a) ==>
            x.parent.DescendsFrom(a) && y.parent.DescendsFrom(a);
      }
    }
  }
}
