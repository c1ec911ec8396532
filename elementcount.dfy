/** e5.2: count the element nodes of a document per tag name into a map shared by every
    call (`eleMap[n.Data]++`), by the same recursion as e5.1. */
module ElementCount {
  import opened Base
  import opened Counting
  import opened HtmlTree

  /** The shared `eleMap` every call of `visit` updates in place. */
  class ElementCounter {
    var eleMap: map<string, int>

    constructor ()
      ensures eleMap == map[]
    {
      eleMap := map[];
    }

    /** `visit(eleMap, n)`: count `n` if it is an element, then its children's subtrees. */
    method Visit(n: Node)
      modifies this
      ensures eleMap == IncrementAll(old(eleMap), ElementNames(PreOrder(n)))
      decreases n, 1
    {
      ghost var m0 := eleMap;
      if n.typ == ElementNode {
        eleMap := Increment(eleMap, n.data);
      }
      var last := NextNode(n.firstChild);
      ElementNamesAppend([n], Chain(n.firstChild));
      assert [n][..0] == [];
      assert IncrementAll(m0, ElementNames([n])) == (if n.typ == ElementNode then Increment(m0, n.data) else m0) by {
        assert ElementNames([n]) == if n.typ == ElementNode then [n.data] else [];
      }
      IncrementAllAppend(m0, ElementNames([n]), ElementNames(Chain(n.firstChild)));
    }

    /** `nextNode(eleMap, current)`: count the subtrees of `current` and its later siblings;
        a nil node leaves the map as it is and is handed back. */
    method NextNode(current: Option<Node>) returns (last: Option<Node>)
      modifies this
      ensures eleMap == IncrementAll(old(eleMap), ElementNames(Chain(current)))
      ensures last == None
      decreases current, 0
    {
      if current.Some? {
        ghost var m0 := eleMap;
        Visit(current.value);
        var next := current.value.nextSibling;
        last := NextNode(next);
        ElementNamesAppend(PreOrder(current.value), Chain(next));
        IncrementAllAppend(m0, ElementNames(PreOrder(current.value)), ElementNames(Chain(next)));
      } else {
        last := current;
      }
    }
  }

  /** After `visit(eleMap, n)`: each tag's count grew by the number of element nodes with that
      name in the subtree; tags absent from it keep their entry (or stay absent). */
  lemma VisitCounts(m: map<string, int>, n: Node, t: string)
    ensures Get(IncrementAll(m, ElementNames(PreOrder(n))), t) == Get(m, t) + TagCount(PreOrder(n), t)
    ensures TagCount(PreOrder(n), t) == 0 ==>
              (t in IncrementAll(m, ElementNames(PreOrder(n))) <==> t in m)
  {
    IncrementAllCounts(m, ElementNames(PreOrder(n)), t);
    ElementNamesCount(PreOrder(n), t);
  }

  /** After `visit(eleMap, n)`: the counts add up to the old total plus the number of element
      nodes in the subtree. */
  lemma VisitTotal(m: map<string, int>, n: Node)
    ensures Sum(IncrementAll(m, ElementNames(PreOrder(n)))) == Sum(m) + |ElementNames(PreOrder(n))|
  {
    SumIncrementAll(m, ElementNames(PreOrder(n)));
  }
}
