/** The parsed HTML document as the traversals see it: a node with a type, its tag name or
    text (`Data`), its attributes, and the first-child / next-sibling links. The parser is
    not part of this model; a document is given as a value of this type. */
module HtmlTree {
  import opened Base

  datatype NodeType = ErrorNode | TextNode | DocumentNode | ElementNode | CommentNode | DoctypeNode | RawNode

  datatype Attribute = Attribute(namespace: string, key: string, val: string)

  datatype Node = Node(
    typ: NodeType,
    data: string,
    attr: seq<Attribute>,
    firstChild: Option<Node>,
    nextSibling: Option<Node>)

  /** The nodes of the subtree rooted at `n` in document (pre-)order: `n`, then the subtrees
      of its children, first child first. `n`'s own siblings are not part of it. */
  function PreOrder(n: Node): seq<Node>
    decreases n, 1
  {
    [n] + Chain(n.firstChild)
  }

  /** The subtrees of a sibling list starting at `o`, one after the other. */
  function Chain(o: Option<Node>): seq<Node>
    decreases o, 0
  {
    match o
    case None => []
    case Some(c) => PreOrder(c) + Chain(c.nextSibling)
  }

  /** The `Val` of each `href` attribute, in attribute order. */
  function Hrefs(attrs: seq<Attribute>): seq<string>
  {
    if attrs == [] then []
    else
      var a := attrs[|attrs| - 1];
      Hrefs(attrs[..|attrs| - 1]) + (if a.key == "href" then [a.val] else [])
  }

  /** The links a node contributes itself: the hrefs of an `a` element, nothing otherwise. */
  function Own(n: Node): seq<string>
  {
    if n.typ == ElementNode && n.data == "a" then Hrefs(n.attr) else []
  }

  /** The links of a sequence of nodes, node by node. */
  function LinksOf(nodes: seq<Node>): seq<string>
  {
    if nodes == [] then [] else LinksOf(nodes[..|nodes| - 1]) + Own(nodes[|nodes| - 1])
  }

  /** The tag names of the element nodes among `nodes`, in order; other nodes give nothing. */
  function ElementNames(nodes: seq<Node>): seq<string>
  {
    if nodes == [] then []
    else
      var x := nodes[|nodes| - 1];
      ElementNames(nodes[..|nodes| - 1]) + (if x.typ == ElementNode then [x.data] else [])
  }

  /** How many element nodes named `t` there are among `nodes`. */
  function TagCount(nodes: seq<Node>, t: string): nat
  {
    |set k | 0 <= k < |nodes| && nodes[k].typ == ElementNode && nodes[k].data == t|
  }

  /** Exactly the values of `href` attributes are listed, and only they. */
  lemma {:induction false} HrefsMembership(attrs: seq<Attribute>, v: string)
    ensures v in Hrefs(attrs) <==> exists k | 0 <= k < |attrs| :: attrs[k].key == "href" && attrs[k].val == v
  {
    if attrs != [] {
      var init := attrs[..|attrs| - 1];
      HrefsMembership(init, v);
      if exists k | 0 <= k < |attrs| :: attrs[k].key == "href" && attrs[k].val == v {
        var k :| 0 <= k < |attrs| && attrs[k].key == "href" && attrs[k].val == v;
        if k < |init| {
          assert init[k] == attrs[k];
        }
      }
      if exists k | 0 <= k < |init| :: init[k].key == "href" && init[k].val == v {
        var k :| 0 <= k < |init| && init[k].key == "href" && init[k].val == v;
        assert attrs[k] == init[k];
      }
    }
  }

  lemma {:induction false} LinksOfAppend(a: seq<Node>, b: seq<Node>)
    ensures LinksOf(a + b) == LinksOf(a) + LinksOf(b)
    decreases |b|
  {
    if b != [] {
      var init := b[..|b| - 1];
      assert (a + b)[..|a + b| - 1] == a + init;
      LinksOfAppend(a, init);
    } else {
      assert a + b == a;
    }
  }

  /** A node's own links come first, then those of its children's subtrees in sibling order. */
  lemma SubtreeLinks(n: Node)
    ensures LinksOf(PreOrder(n)) == Own(n) + LinksOf(Chain(n.firstChild))
  {
    LinksOfCons(n, Chain(n.firstChild));
  }

  lemma LinksOfCons(n: Node, rest: seq<Node>)
    ensures LinksOf([n] + rest) == Own(n) + LinksOf(rest)
  {
    LinksOfAppend([n], rest);
    assert [n][..0] == [];
  }

  /** The links of a sibling list: the first sibling's subtree, then the rest of the list. */
  lemma ChainLinks(c: Node)
    ensures LinksOf(Chain(Some(c))) == LinksOf(PreOrder(c)) + LinksOf(Chain(c.nextSibling))
  {
    LinksOfAppend(PreOrder(c), Chain(c.nextSibling));
  }

  lemma {:induction false} ElementNamesAppend(a: seq<Node>, b: seq<Node>)
    ensures ElementNames(a + b) == ElementNames(a) + ElementNames(b)
    decreases |b|
  {
    if b != [] {
      var init := b[..|b| - 1];
      assert (a + b)[..|a + b| - 1] == a + init;
      ElementNamesAppend(a, init);
    } else {
      assert a + b == a;
    }
  }

  /** Appending one node adds one to its tag's element count if it is an element. */
  lemma TagCountStep(nodes: seq<Node>, t: string)
    requires nodes != []
    ensures TagCount(nodes, t) == TagCount(nodes[..|nodes| - 1], t) +
              (if nodes[|nodes| - 1].typ == ElementNode && nodes[|nodes| - 1].data == t then 1 else 0)
  {
    var init := nodes[..|nodes| - 1];
    var x := nodes[|nodes| - 1];
    var s := set k | 0 <= k < |init| && init[k].typ == ElementNode && init[k].data == t;
    var s' := set k | 0 <= k < |nodes| && nodes[k].typ == ElementNode && nodes[k].data == t;
    var extra: set<int> := if x.typ == ElementNode && x.data == t then {|init|} else {};
    forall k
      ensures k in s' <==> k in s || k in extra
    {
      if 0 <= k < |init| {
        assert nodes[k] == init[k];
      }
    }
    assert s' == s + extra;
    assert s !! extra;
  }

  /** The names listed for `nodes` hold each tag `t` once per element node named `t`. */
  lemma {:induction false} ElementNamesCount(nodes: seq<Node>, t: string)
    ensures multiset(ElementNames(nodes))[t] == TagCount(nodes, t)
    decreases |nodes|
  {
    if nodes != [] {
      var init := nodes[..|nodes| - 1];
      ElementNamesCount(init, t);
      TagCountStep(nodes, t);
    }
  }

  /** Only element nodes are named: a text, comment or other node never contributes. */
  lemma {:induction false} ElementNamesOnlyElements(nodes: seq<Node>, t: string)
    requires t in ElementNames(nodes)
    ensures exists k | 0 <= k < |nodes| :: nodes[k].typ == ElementNode && nodes[k].data == t
    decreases |nodes|
  {
    var init := nodes[..|nodes| - 1];
    var x := nodes[|nodes| - 1];
    if t in ElementNames(init) {
      ElementNamesOnlyElements(init, t);
      var k :| 0 <= k < |init| && init[k].typ == ElementNode && init[k].data == t;
      assert nodes[k] == init[k];
    } else {
      assert x.typ == ElementNode && x.data == t;
    }
  }
}
