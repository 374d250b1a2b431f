/**
 * The parsed stylesheet the transform walks: at-rules that nest further
 * nodes, and rules holding declarations. Parsing and serialisation are
 * not part of this model.
 */
module CssTree {

  datatype Decl = Decl(prop: string, value: string)

  datatype Node =
    | Rule(selector: string, decls: seq<Decl>)
    | AtRule(name: string, params: string, children: seq<Node>)

  /** The name and parameters of an enclosing at-rule (`@media`, `screen and (...)`). */
  datatype AtHead = AtHead(name: string, params: string)

  /** A rule together with the chain of at-rules around it, outermost first. */
  datatype Placed = Placed(ancestry: seq<AtHead>, selector: string, decls: seq<Decl>)

  /** The same rules one at-rule deeper. */
  function Under(h: AtHead, ps: seq<Placed>): seq<Placed> {
    seq(|ps|, i requires 0 <= i < |ps| => ps[i].(ancestry := [h] + ps[i].ancestry))
  }

  /** The rules of one node, with their at-rule ancestry inside it. */
  function FlatNode(n: Node): seq<Placed>
    decreases n
  {
    match n
    case Rule(sel, ds) => [Placed([], sel, ds)]
    case AtRule(name, params, ch) => Under(AtHead(name, params), Flat(ch))
  }

  /** Every rule of a forest, in document order, with its at-rule ancestry. */
  function Flat(ns: seq<Node>): seq<Placed>
    decreases ns
  {
    if ns == [] then [] else FlatNode(ns[0]) + Flat(ns[1..])
  }

  lemma {:induction false} FlatConcat(a: seq<Node>, b: seq<Node>)
    ensures Flat(a + b) == Flat(a) + Flat(b)
    decreases |a|
  {
    if a == [] {
      assert a + b == b;
    } else {
      assert (a + b)[0] == a[0];
      assert (a + b)[1..] == a[1..] + b;
      FlatConcat(a[1..], b);
    }
  }

  lemma UnderConcat(h: AtHead, a: seq<Placed>, b: seq<Placed>)
    ensures Under(h, a + b) == Under(h, a) + Under(h, b)
  {
  }

  lemma UnderSingle(h: AtHead, p: Placed)
    ensures Under(h, [p]) == [p.(ancestry := [h] + p.ancestry)]
  {
  }

  /** Going one at-rule deeper keeps the first rule first and the rest after it. */
  lemma UnderCons(h: AtHead, ps: seq<Placed>)
    requires ps != []
    ensures Under(h, ps) != [] && Under(h, ps)[0] == ps[0].(ancestry := [h] + ps[0].ancestry)
    ensures Under(h, ps)[1..] == Under(h, ps[1..])
  {
  }

  /** The at-rule structure of a forest with its rules erased. */
  datatype Shape = Shape(head: AtHead, inner: seq<Shape>)

  function ShapeOf(n: Node): seq<Shape>
    decreases n
  {
    match n
    case Rule(_, _) => []
    case AtRule(name, params, ch) => [Shape(AtHead(name, params), Skeleton(ch))]
  }

  function Skeleton(ns: seq<Node>): seq<Shape>
    decreases ns
  {
    if ns == [] then [] else ShapeOf(ns[0]) + Skeleton(ns[1..])
  }

  lemma SkeletonSingle(n: Node)
    ensures Skeleton([n]) == ShapeOf(n)
  {
    assert [n][1..] == [];
    assert ShapeOf(n) + [] == ShapeOf(n);
  }

  lemma {:induction false} SkeletonConcat(a: seq<Node>, b: seq<Node>)
    ensures Skeleton(a + b) == Skeleton(a) + Skeleton(b)
    decreases |a|
  {
    if a == [] {
      assert a + b == b;
    } else {
      assert (a + b)[0] == a[0];
      assert (a + b)[1..] == a[1..] + b;
      SkeletonConcat(a[1..], b);
    }
  }
}
