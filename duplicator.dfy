/**
 * The rule duplicator: for every rule with an eligible image declaration,
 * a webp-variant rule scoped under the webp class, appended after all
 * original nodes inside fresh copies of its at-rule ancestry; with a
 * no-webp class, the image declarations also move into a no-webp clone
 * that takes the original rule's place.
 */
module Duplicator {
  import opened Wrappers
  import opened Options
  import opened UrlValue
  import opened Selector
  import opened CssTree

  predicate IsImageDecl(cfg: Config, d: Decl) {
    HasEligibleRef(cfg, d.value)
  }

  /** The rule has a declaration that calls for a webp variant. */
  predicate IsImageRule(cfg: Config, ds: seq<Decl>) {
    exists i :: 0 <= i < |ds| && IsImageDecl(cfg, ds[i])
  }

  /** How a rule's declarations classify it before any clone is made. */
  datatype RuleClass = NoImageRefs | HasEligibleRefs | HasOnlyIneligibleRefs

  function ClassifyRule(cfg: Config, ds: seq<Decl>): (c: RuleClass)
    ensures c == HasEligibleRefs <==> IsImageRule(cfg, ds)
    ensures c == NoImageRefs <==> forall i :: 0 <= i < |ds| ==> !HasRef(ds[i].value)
  {
    if IsImageRule(cfg, ds) then HasEligibleRefs
    else if exists i :: 0 <= i < |ds| && HasRef(ds[i].value) then HasOnlyIneligibleRefs
    else
      assert forall i :: 0 <= i < |ds| ==> !HasRef(ds[i].value);
      NoImageRefs
  }

  /** The image declarations of a rule, in order. */
  function ImageDecls(cfg: Config, ds: seq<Decl>): seq<Decl>
    decreases |ds|
  {
    if ds == [] then []
    else (if IsImageDecl(cfg, ds[0]) then [ds[0]] else []) + ImageDecls(cfg, ds[1..])
  }

  /** The remaining declarations of a rule, in order. */
  function OtherDecls(cfg: Config, ds: seq<Decl>): seq<Decl>
    decreases |ds|
  {
    if ds == [] then []
    else (if IsImageDecl(cfg, ds[0]) then [] else [ds[0]]) + OtherDecls(cfg, ds[1..])
  }

  function RewriteDecl(cfg: Config, d: Decl): Decl {
    Decl(d.prop, RewriteValue(cfg, d.value))
  }

  predicate IsCopiedSize(cfg: Config, d: Decl) {
    cfg.copyBackgroundSize && d.prop == "background-size"
  }

  /**
   * The declarations of the webp variant: the image declarations
   * rewritten, and `background-size` as written when it is copied.
   */
  function VariantDecls(cfg: Config, ds: seq<Decl>): seq<Decl>
    decreases |ds|
  {
    if ds == [] then []
    else
      (if IsImageDecl(cfg, ds[0]) then [RewriteDecl(cfg, ds[0])]
       else if IsCopiedSize(cfg, ds[0]) then [ds[0]]
       else [])
      + VariantDecls(cfg, ds[1..])
  }

  function WebpVariant(cfg: Config, sel: string, ds: seq<Decl>): Node {
    Rule(ScopeSelector(cfg.webpClass, sel), VariantDecls(cfg, ds))
  }

  /**
   * What stands in a rule's place among the originals: the rule itself,
   * or, with a no-webp class and an image declaration, the no-webp clone
   * followed by the rule with its remaining declarations, if any remain.
   */
  function SplitRule(cfg: Config, sel: string, ds: seq<Decl>): seq<Node> {
    if cfg.noWebpClass.Some? && IsImageRule(cfg, ds) then
      var clone := Rule(ScopeSelector(cfg.noWebpClass.value, sel), ImageDecls(cfg, ds));
      var rest := OtherDecls(cfg, ds);
      if rest == [] then [clone] else [clone, Rule(sel, rest)]
    else [Rule(sel, ds)]
  }

  function SplitNode(cfg: Config, n: Node): seq<Node>
    decreases n
  {
    match n
    case Rule(sel, ds) => SplitRule(cfg, sel, ds)
    case AtRule(name, params, ch) => [AtRule(name, params, SplitForest(cfg, ch))]
  }

  /** The original nodes after the no-webp splits, at every depth. */
  function SplitForest(cfg: Config, ns: seq<Node>): seq<Node>
    decreases ns
  {
    if ns == [] then [] else SplitNode(cfg, ns[0]) + SplitForest(cfg, ns[1..])
  }

  /**
   * The variant structure a node contributes: the variant of an image rule,
   * or a fresh copy of an at-rule holding the variants found inside it
   * (nothing, when there are none).
   */
  function VariantNode(cfg: Config, n: Node): seq<Node>
    decreases n
  {
    match n
    case Rule(sel, ds) => if IsImageRule(cfg, ds) then [WebpVariant(cfg, sel, ds)] else []
    case AtRule(name, params, ch) =>
      var inner := VariantForest(cfg, ch);
      if inner == [] then [] else [AtRule(name, params, inner)]
  }

  function VariantForest(cfg: Config, ns: seq<Node>): seq<Node>
    decreases ns
  {
    if ns == [] then [] else VariantNode(cfg, ns[0]) + VariantForest(cfg, ns[1..])
  }

  /** The stylesheet `transform` produces: the originals, then every variant. */
  function Transformed(cfg: Config, ns: seq<Node>): seq<Node> {
    SplitForest(cfg, ns) + VariantForest(cfg, ns)
  }

  lemma {:induction false} SplitForestConcat(cfg: Config, a: seq<Node>, b: seq<Node>)
    ensures SplitForest(cfg, a + b) == SplitForest(cfg, a) + SplitForest(cfg, b)
    decreases |a|
  {
    if a == [] {
      assert a + b == b;
    } else {
      assert (a + b)[0] == a[0];
      assert (a + b)[1..] == a[1..] + b;
      SplitForestConcat(cfg, a[1..], b);
    }
  }

  lemma {:induction false} VariantForestConcat(cfg: Config, a: seq<Node>, b: seq<Node>)
    ensures VariantForest(cfg, a + b) == VariantForest(cfg, a) + VariantForest(cfg, b)
    decreases |a|
  {
    if a == [] {
      assert a + b == b;
    } else {
      assert (a + b)[0] == a[0];
      assert (a + b)[1..] == a[1..] + b;
      VariantForestConcat(cfg, a[1..], b);
    }
  }

  /**
   * A rule classified as having no eligible reference, whether it has no
   * url() at all or only ineligible ones, stays where it is as written and
   * contributes no variant.
   */
  lemma UnaffectedRuleKept(cfg: Config, sel: string, ds: seq<Decl>)
    requires ClassifyRule(cfg, ds) != HasEligibleRefs
    ensures SplitForest(cfg, [Rule(sel, ds)]) == [Rule(sel, ds)]
    ensures VariantForest(cfg, [Rule(sel, ds)]) == []
  {
    assert [Rule(sel, ds)][1..] == [];
  }

  lemma SplitOfImageRule(cfg: Config, sel: string, ds: seq<Decl>)
    requires cfg.noWebpClass.Some? && IsImageRule(cfg, ds)
    ensures var clone := Rule(ScopeSelector(cfg.noWebpClass.value, sel), ImageDecls(cfg, ds));
      var rest := OtherDecls(cfg, ds);
      SplitNode(cfg, Rule(sel, ds)) == if rest == [] then [clone] else [clone, Rule(sel, rest)]
  {
  }

  /** Walking one more top-level node extends the originals by that node's split. */
  lemma WalkSplitStep(cfg: Config, done: seq<Node>, n: Node)
    ensures SplitForest(cfg, done + [n]) == SplitForest(cfg, done) + SplitNode(cfg, n)
  {
    SplitForestConcat(cfg, done, [n]);
    assert [n][1..] == [];
    assert SplitForest(cfg, [n]) == SplitNode(cfg, n) + SplitForest(cfg, []);
  }

  /** Walking one more top-level node extends the queued variants by that node's. */
  lemma WalkVariantStep(cfg: Config, done: seq<Node>, n: Node)
    ensures VariantForest(cfg, done + [n]) == VariantForest(cfg, done) + VariantNode(cfg, n)
  {
    VariantForestConcat(cfg, done, [n]);
    assert [n][1..] == [];
    assert VariantForest(cfg, [n]) == VariantNode(cfg, n) + VariantForest(cfg, []);
  }

  /** The state of the walk after visiting `done`, with `todo` still ahead. */
  ghost predicate Walking(cfg: Config, orig: seq<Node>, done: seq<Node>, todo: seq<Node>,
                          nodes: seq<Node>, i: nat, queued: seq<Node>)
  {
    && orig == done + todo
    && nodes == SplitForest(cfg, done) + todo
    && i == |SplitForest(cfg, done)|
    && queued == VariantForest(cfg, done)
  }

  lemma ConsumeFirst(done: seq<Node>, todo: seq<Node>)
    requires todo != []
    ensures done + todo == (done + [todo[0]]) + todo[1..]
  {
    assert todo == [todo[0]] + todo[1..];
  }

  lemma ReplaceFirst(done: seq<Node>, todo: seq<Node>, share: seq<Node>)
    requires todo != []
    ensures (done + todo)[..|done|] == done && (done + todo)[|done|] == todo[0] && (done + todo)[|done| + 1..] == todo[1..]
    ensures (done + todo)[..|done|] + share + (done + todo)[|done| + 1..] == (done + share) + todo[1..]
  {
  }

  /**
   * The top-level walk over a stylesheet's root, which the transform
   * updates in place.
   */
  class Stylesheet {
    var nodes: seq<Node>

    constructor (nodes: seq<Node>)
      ensures this.nodes == nodes
    {
      this.nodes := nodes;
    }

    /** `root.insertBefore(nodes[i], n)`. */
    method InsertBefore(i: nat, n: Node)
      requires i <= |nodes|
      modifies this
      ensures nodes == old(nodes)[..i] + [n] + old(nodes)[i..]
    {
      nodes := nodes[..i] + [n] + nodes[i..];
    }

    /** `nodes[i].replaceWith(n)`. */
    method ReplaceAt(i: nat, n: Node)
      requires i < |nodes|
      modifies this
      ensures nodes == old(nodes)[..i] + [n] + old(nodes)[i + 1..]
    {
      nodes := nodes[..i] + [n] + nodes[i + 1..];
    }

    /** `nodes[i].remove()`. */
    method RemoveAt(i: nat)
      requires i < |nodes|
      modifies this
      ensures nodes == old(nodes)[..i] + old(nodes)[i + 1..]
    {
      nodes := nodes[..i] + nodes[i + 1..];
    }

    /** `root.append(...ns)`. */
    method Append(ns: seq<Node>)
      modifies this
      ensures nodes == old(nodes) + ns
    {
      nodes := nodes + ns;
    }

    /**
     * Processes the node at position `i` where it stands: an image rule is
     * split when a no-webp class is set, an at-rule has its children split.
     * Returns how many nodes now stand in its place.
     */
    method SplitAt(cfg: Config, i: nat) returns (width: nat)
      requires i < |nodes|
      modifies this
      ensures nodes == old(nodes)[..i] + SplitNode(cfg, old(nodes)[i]) + old(nodes)[i + 1..]
      ensures width == |SplitNode(cfg, old(nodes)[i])|
    {
      var n := nodes[i];
      if n.Rule? && cfg.noWebpClass.Some? && IsImageRule(cfg, n.decls) {
        width := SplitImageRuleAt(cfg, i);
      } else if n.Rule? {
        assert SplitNode(cfg, n) == [n];
        assert nodes == nodes[..i] + [n] + nodes[i + 1..];
        width := 1;
      } else {
        ReplaceAt(i, AtRule(n.name, n.params, SplitForest(cfg, n.children)));
        width := 1;
      }
    }

    /**
     * Inserts the no-webp clone before the image rule at `i`, then removes
     * the rule or leaves it with its remaining declarations.
     */
    method SplitImageRuleAt(cfg: Config, i: nat) returns (width: nat)
      requires i < |nodes| && nodes[i].Rule?
      requires cfg.noWebpClass.Some? && IsImageRule(cfg, nodes[i].decls)
      modifies this
      ensures nodes == old(nodes)[..i] + SplitNode(cfg, old(nodes)[i]) + old(nodes)[i + 1..]
      ensures width == |SplitNode(cfg, old(nodes)[i])|
    {
      var n := nodes[i];
      var clone := Rule(ScopeSelector(cfg.noWebpClass.value, n.selector), ImageDecls(cfg, n.decls));
      var rest := OtherDecls(cfg, n.decls);
      SplitOfImageRule(cfg, n.selector, n.decls);
      if rest == [] {
        InsertAndRemove(i, clone);
        width := 1;
      } else {
        InsertAndReplace(i, clone, Rule(n.selector, rest));
        width := 2;
      }
    }

    /** Puts `a` before the node at `i` and removes that node. */
    method InsertAndRemove(i: nat, a: Node)
      requires i < |nodes|
      modifies this
      ensures nodes == old(nodes)[..i] + [a] + old(nodes)[i + 1..]
    {
      ghost var pre, post := nodes[..i], nodes[i + 1..];
      assert nodes == pre + [nodes[i]] + post;
      InsertBefore(i, a);
      assert nodes[..i + 1] == pre + [a] && nodes[i + 2..] == post;
      RemoveAt(i + 1);
    }

    /** Puts `a` before the node at `i` and replaces that node with `b`. */
    method InsertAndReplace(i: nat, a: Node, b: Node)
      requires i < |nodes|
      modifies this
      ensures nodes == old(nodes)[..i] + [a, b] + old(nodes)[i + 1..]
    {
      ghost var pre, post := nodes[..i], nodes[i + 1..];
      assert nodes == pre + [nodes[i]] + post;
      InsertBefore(i, a);
      assert nodes[..i + 1] == pre + [a] && nodes[i + 2..] == post;
      ReplaceAt(i + 1, b);
      assert nodes == pre + [a] + [b] + post;
    }

    /** One step of the walk: splits the first node not yet visited. */
    method Visit(cfg: Config, i: nat, queued: seq<Node>, ghost orig: seq<Node>, ghost done: seq<Node>, ghost todo: seq<Node>)
      returns (next: nat, queued': seq<Node>)
      requires todo != [] && Walking(cfg, orig, done, todo, nodes, i, queued)
      modifies this
      ensures Walking(cfg, orig, done + [todo[0]], todo[1..], nodes, next, queued')
    {
      var n := nodes[i];
      ghost var before := SplitForest(cfg, done);
      ReplaceFirst(before, todo, SplitNode(cfg, n));
      ConsumeFirst(done, todo);
      WalkSplitStep(cfg, done, n);
      WalkVariantStep(cfg, done, n);
      queued' := queued + VariantNode(cfg, n);
      var width := SplitAt(cfg, i);
      next := i + width;
    }

    /**
     * Walks the root, splitting each top-level node in place when a no-webp
     * class is set and collecting the webp variants, then appends the
     * variants after everything else.
     */
    method Transform(cfg: Config)
      modifies this
      ensures nodes == Transformed(cfg, old(nodes))
    {
      ghost var done, todo := [], nodes;
      var i: nat := 0;
      var queued: seq<Node> := [];
      while i < |nodes|
        invariant Walking(cfg, old(nodes), done, todo, nodes, i, queued)
        decreases |todo|
      {
        i, queued := Visit(cfg, i, queued, old(nodes), done, todo);
        done, todo := done + [todo[0]], todo[1..];
      }
      assert todo == [] && done + todo == done;
      Append(queued);
    }
  }
}
