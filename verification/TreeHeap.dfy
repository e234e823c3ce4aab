/** The search tree on heap nodes that are rewired in place. */
module TreeHeap {
  import opened ContactData
  import opened Options
  import opened SearchTree

  class TreeNode {
    var con: Contact
    var left: TreeNode?
    var right: TreeNode?

    ghost var repr: set<TreeNode>  // the nodes of this subtree
    ghost var tree: Tree           // its shape

    /** The two subtrees are valid, do not overlap and do not hold this node: no sharing and no cycle. */
    ghost predicate Valid()
      reads this, repr
      ensures Valid() ==> this in repr
      decreases repr
    {
      && this in repr
      && (left != null ==> left in repr && left.repr <= repr && this !in left.repr && left.Valid())
      && (right != null ==> right in repr && right.repr <= repr && this !in right.repr && right.Valid())
      && ReprOf(left) !! ReprOf(right)
      && repr == {this} + ReprOf(left) + ReprOf(right)
      && tree == Node(TreeOf(left), con, TreeOf(right))
    }

    constructor (c: Contact)
      ensures Valid() && repr == {this} && tree == Node(Leaf, c, Leaf)
    {
      con := c;
      left, right := null, null;
      repr, tree := {this}, Node(Leaf, c, Leaf);
    }
  }

  /** n->left = l, with the ghost fields brought up to date. */
  method SetLeft(n: TreeNode, l: TreeNode?)
    requires ValidRoot(l) && ValidRoot(n.right) && ReprOf(l) !! ReprOf(n.right)
    requires n !in ReprOf(l) && n !in ReprOf(n.right)
    modifies n`left, n`repr, n`tree
    ensures n.Valid() && n.repr == {n} + old(ReprOf(l)) + old(ReprOf(n.right))
    ensures n.tree == Node(old(TreeOf(l)), n.con, old(TreeOf(n.right)))
  {
    n.left := l;
    n.repr := {n} + ReprOf(n.left) + ReprOf(n.right);
    n.tree := Node(TreeOf(n.left), n.con, TreeOf(n.right));
  }

  /** n->right = r, likewise. */
  method SetRight(n: TreeNode, r: TreeNode?)
    requires ValidRoot(n.left) && ValidRoot(r) && ReprOf(n.left) !! ReprOf(r)
    requires n !in ReprOf(n.left) && n !in ReprOf(r)
    modifies n`right, n`repr, n`tree
    ensures n.Valid() && n.repr == {n} + old(ReprOf(n.left)) + old(ReprOf(r))
    ensures n.tree == Node(old(TreeOf(n.left)), n.con, old(TreeOf(r)))
  {
    n.right := r;
    n.repr := {n} + ReprOf(n.left) + ReprOf(n.right);
    n.tree := Node(TreeOf(n.left), n.con, TreeOf(n.right));
  }

  ghost function TreeOf(n: TreeNode?): Tree
    reads n
  {
    if n == null then Leaf else n.tree
  }

  ghost function ReprOf(n: TreeNode?): set<TreeNode>
    reads n
  {
    if n == null then {} else n.repr
  }

  ghost predicate ValidRoot(n: TreeNode?)
    reads n, ReprOf(n)
  {
    n != null ==> n.Valid()
  }

  method InsertNode(root: TreeNode?, c: Contact) returns (r: TreeNode)
    requires ValidRoot(root)
    modifies ReprOf(root)
    ensures ValidRoot(r) && fresh(ReprOf(r) - old(ReprOf(root)))
    ensures root != null ==> r == root
    ensures TreeOf(r) == Insert(old(TreeOf(root)), c)
    decreases ReprOf(root)
  {
    if root == null {
      r := new TreeNode(c);
      return;
    }
    if c.id < root.con.id {
      ghost var other := root.right;
      assert ReprOf(other) !! ReprOf(root.left);
      var l := InsertNode(root.left, c);
      assert unchanged(ReprOf(other)) && ValidRoot(other);
      SetLeft(root, l);
    } else if c.id > root.con.id {
      ghost var other := root.left;
      assert ReprOf(other) !! ReprOf(root.right);
      var x := InsertNode(root.right, c);
      assert unchanged(ReprOf(other)) && ValidRoot(other);
      SetRight(root, x);
    }
    r := root;
  }

  method SearchNode(root: TreeNode?, id: int) returns (n: TreeNode?)
    requires ValidRoot(root)
    ensures n == null <==> Search(TreeOf(root), id).None?
    ensures n != null ==> n in ReprOf(root) && Search(TreeOf(root), id) == Some(n.con)
    decreases ReprOf(root)
  {
    if root == null || root.con.id == id {
      return root;
    }
    if id < root.con.id {
      n := SearchNode(root.left, id);
    } else {
      n := SearchNode(root.right, id);
    }
  }

  method FindMin(node: TreeNode) returns (n: TreeNode)
    requires node.Valid()
    ensures n in node.repr && n.con == Min(node.tree)
  {
    n := node;
    while n.left != null
      invariant n in node.repr && n.Valid() && n.repr <= node.repr
      invariant Min(n.tree) == Min(node.tree)
      decreases n.repr
    {
      n := n.left;
    }
  }

  /** Called where the recursion does not reach a null pointer: by `DeleteRefinesMap`, in an ordered tree, for an
      id that is present. */
  method DeleteNode(root: TreeNode?, id: int) returns (r: TreeNode?)
    requires ValidRoot(root) && Delete(TreeOf(root), id).Some?
    modifies ReprOf(root)
    ensures ValidRoot(r) && ReprOf(r) <= old(ReprOf(root))
    ensures Delete(old(TreeOf(root)), id) == Some(TreeOf(r))
    decreases ReprOf(root), 1
  {
    if id < root.con.id {
      ghost var other := root.right;
      assert ReprOf(other) !! ReprOf(root.left);
      var l := DeleteNode(root.left, id);
      assert unchanged(ReprOf(other)) && ValidRoot(other);
      SetLeft(root, l);
    } else if id > root.con.id {
      ghost var other := root.left;
      assert ReprOf(other) !! ReprOf(root.right);
      var x := DeleteNode(root.right, id);
      assert unchanged(ReprOf(other)) && ValidRoot(other);
      SetRight(root, x);
    } else {
      if root.left == null {
        return root.right;
      } else if root.right == null {
        return root.left;
      }
      PullUpSuccessor(root);
    }
    r := root;
  }

  /** The two-children case: the successor's contact moves up and its node is deleted below. */
  method PullUpSuccessor(root: TreeNode)
    requires root.Valid() && root.left != null && root.right != null && Delete(root.tree, root.con.id).Some?
    modifies root.repr
    ensures root.Valid() && root.repr <= old(root.repr)
    ensures Delete(old(root.tree), old(root.con.id)) == Some(root.tree)
    decreases root.repr, 0
  {
    ghost var other := root.left;
    assert ReprOf(other) !! ReprOf(root.right);
    var temp := FindMin(root.right);
    root.con := temp.con;
    var x := DeleteNode(root.right, temp.con.id);
    assert unchanged(ReprOf(other)) && ValidRoot(other);
    SetRight(root, x);
  }

  /** addContact without the dialogue. */
  method AddContact(root: TreeNode?, c: Contact) returns (r: TreeNode?)
    requires ValidRoot(root) && Ordered(TreeOf(root))
    modifies ReprOf(root)
    ensures ValidRoot(r) && Ordered(TreeOf(r)) && fresh(ReprOf(r) - old(ReprOf(root)))
    ensures var m := old(Contents(TreeOf(root)));
            Contents(TreeOf(r)) == if c.id in m then m else m[c.id := c]
  {
    InsertRefinesMap(TreeOf(root), c);
    r := InsertNode(root, c);
  }

  /** As many nodes as the shape has. */
  lemma {:induction false} NodesOfShape(n: TreeNode?)
    requires ValidRoot(n)
    ensures |ReprOf(n)| == Size(TreeOf(n))
    decreases ReprOf(n)
  {
    if n != null {
      NodesOfShape(n.left);
      NodesOfShape(n.right);
      CountNodes(ReprOf(n.left), ReprOf(n.right), n);
    }
  }

  lemma CountNodes(a: set<TreeNode>, b: set<TreeNode>, n: TreeNode)
    requires a !! b && n !in a && n !in b
    ensures |{n} + a + b| == |a| + 1 + |b|
  {
    assert |{n} + a| == 1 + |a|;
    assert |({n} + a) + b| == |{n} + a| + |b|;
  }

  /** deleteContact without the dialogue: any id may be given. */
  method DeleteContact(root: TreeNode?, id: int) returns (r: TreeNode?, found: bool)
    requires ValidRoot(root) && Ordered(TreeOf(root))
    modifies ReprOf(root)
    ensures ValidRoot(r) && Ordered(TreeOf(r)) && ReprOf(r) <= old(ReprOf(root))
    ensures found <==> id in old(Contents(TreeOf(root)))
    ensures Contents(TreeOf(r)) == old(Contents(TreeOf(root))) - {id}
    ensures |ReprOf(r)| == |old(ReprOf(root))| - (if found then 1 else 0)
    ensures !found ==> r == root && TreeOf(r) == old(TreeOf(root))
  {
    SearchLooksUp(TreeOf(root), id);
    DeleteRefinesMap(TreeOf(root), id);
    var n := SearchNode(root, id);
    if n != null {
      DeleteFreesOne(TreeOf(root), id);
      NodesOfShape(root);
      r := DeleteNode(root, id);
      NodesOfShape(r);
      found := true;
    } else {
      r, found := root, false;
      assert Contents(TreeOf(root)) - {id} == Contents(TreeOf(root));
    }
  }

  /** Any sequence of the menu's commands, from the empty tree. */
  method RunCommands(cs: seq<Command>) returns (root: TreeNode?)
    ensures ValidRoot(root) && Ordered(TreeOf(root)) && Contents(TreeOf(root)) == DoAllMap(cs)
  {
    root := null;
    for i := 0 to |cs|
      invariant fresh(ReprOf(root)) && ValidRoot(root) && Ordered(TreeOf(root))
      invariant Contents(TreeOf(root)) == DoAllMap(cs[..i])
    {
      match cs[i] {
        case Add(con) => root := AddContact(root, con);
        case Remove(id) =>
          var found;
          root, found := DeleteContact(root, id);
      }
      assert cs[..i + 1][..i] == cs[..i];
    }
    assert cs[..|cs|] == cs;
  }
}
