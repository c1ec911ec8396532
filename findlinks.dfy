/** e5.1: collect the `href` values of the `a` elements of a document, in document order,
    by recursion over the first-child / next-sibling lists (`visit`, `nextNode`) and by the
    original loop over the children (`visitOG`). */
module FindLinks {
  import opened Base
  import opened HtmlTree

  /** The attribute loop shared by `visit` and `visitOG`: append the hrefs of an `a` element. */
  method AppendOwn(links: seq<string>, n: Node) returns (r: seq<string>)
    ensures r == links + Own(n)
  {
    r := links;
    if n.typ == ElementNode && n.data == "a" {
      var i := 0;
      while i < |n.attr|
        invariant 0 <= i <= |n.attr|
        invariant r == links + Hrefs(n.attr[..i])
      {
        assert n.attr[..i + 1][..i] == n.attr[..i];
        if n.attr[i].key == "href" {
          r := r + [n.attr[i].val];
        }
        i := i + 1;
      }
      assert n.attr[..i] == n.attr;
    }
  }

  /** `visit(links, n)`: the incoming links, then the links of `n`'s subtree in document order. */
  method Visit(links: seq<string>, n: Node) returns (r: seq<string>)
    ensures r == links + LinksOf(PreOrder(n))
    decreases n, 1
  {
    r := AppendOwn(links, n);
    var last;
    r, last := NextNode(r, n.firstChild);
    SubtreeLinks(n);
  }

  /** `nextNode(links, current)`: the links of `current`'s subtree and of its later siblings;
      it always hands back a nil node. */
  method NextNode(links: seq<string>, current: Option<Node>) returns (r: seq<string>, last: Option<Node>)
    ensures r == links + LinksOf(Chain(current))
    ensures last == None
    decreases current, 0
  {
    if current.Some? {
      r := Visit(links, current.value);
      var next := current.value.nextSibling;
      r, last := NextNode(r, next);
      ChainLinks(current.value);
    } else {
      r, last := links, current;
    }
  }

  /** One turn of `visitOG`'s child loop: visiting `child` and moving to its next sibling
      keeps the links still to come, and `child`'s subtree is smaller than the whole. */
  lemma ChildStep(child: Node, r: seq<string>, target: seq<string>, bound: nat)
    requires r + LinksOf(Chain(Some(child))) == target
    requires |Chain(Some(child))| < bound
    ensures (r + LinksOf(PreOrder(child))) + LinksOf(Chain(child.nextSibling)) == target
    ensures |Chain(child.nextSibling)| < bound && |PreOrder(child)| < bound
  {
    ChainLinks(child);
    assert Chain(Some(child)) == PreOrder(child) + Chain(child.nextSibling);
  }

  /** `visitOG(links, n)`: the same list, with a `for` loop over the children. */
  method VisitOG(links: seq<string>, n: Node) returns (r: seq<string>)
    ensures r == links + LinksOf(PreOrder(n))
    decreases |PreOrder(n)|
  {
    r := AppendOwn(links, n);
    SubtreeLinks(n);
    var c := n.firstChild;
    ghost var target := links + LinksOf(PreOrder(n));
    ghost var bound := |PreOrder(n)|;
    assert PreOrder(n) == [n] + Chain(c);
    while c.Some?
      invariant r + LinksOf(Chain(c)) == target
      invariant |Chain(c)| < bound
      decreases |Chain(c)|
    {
      var child := c.value;
      ChildStep(child, r, target, bound);
      r := VisitOG(r, child);
      c := child.nextSibling;
    }
  }
}
