/**
 * What the rule duplicator promises about a whole stylesheet, stated on
 * the flat view of its rules (each with its at-rule ancestry) and on its
 * at-rule skeleton.
 */
module DuplicatorFacts {
  import opened Wrappers
  import opened Options
  import opened UrlValue
  import opened Selector
  import opened CssTree
  import opened Duplicator

  // ----- Declarations -----

  /**
   * The no-webp clone and the rule left behind share out the declarations:
   * together they hold each declaration exactly once.
   */
  lemma {:induction false} PartitionDecls(cfg: Config, ds: seq<Decl>)
    ensures multiset(ImageDecls(cfg, ds)) + multiset(OtherDecls(cfg, ds)) == multiset(ds)
    decreases |ds|
  {
    if ds != [] {
      var d, tl := ds[0], ds[1..];
      PartitionDecls(cfg, tl);
      assert ds == [d] + tl;
      MultisetCons(d, tl);
      if IsImageDecl(cfg, d) {
        assert ImageDecls(cfg, ds) == [d] + ImageDecls(cfg, tl);
        assert OtherDecls(cfg, ds) == [] + OtherDecls(cfg, tl);
      } else {
        assert ImageDecls(cfg, ds) == [] + ImageDecls(cfg, tl);
        assert OtherDecls(cfg, ds) == [d] + OtherDecls(cfg, tl);
      }
      PartitionStep(d, tl, ImageDecls(cfg, tl), OtherDecls(cfg, tl), ImageDecls(cfg, ds), OtherDecls(cfg, ds));
    }
  }

  /** One declaration goes to exactly one side of a partition. */
  lemma PartitionStep(d: Decl, tl: seq<Decl>, img: seq<Decl>, oth: seq<Decl>, img': seq<Decl>, oth': seq<Decl>)
    requires multiset(img) + multiset(oth) == multiset(tl)
    requires (img' == [d] + img && oth' == [] + oth) || (img' == [] + img && oth' == [d] + oth)
    ensures multiset(img') + multiset(oth') == multiset{d} + multiset(tl)
  {
    MultisetCons(d, img);
    MultisetCons(d, oth);
    assert [] + img == img && [] + oth == oth;
  }

  lemma MultisetCons(d: Decl, ds: seq<Decl>)
    ensures multiset([d] + ds) == multiset{d} + multiset(ds)
  {
  }

  /** The clone holds exactly the image declarations of the rule. */
  lemma {:induction false} ImageDeclsMembers(cfg: Config, ds: seq<Decl>)
    ensures forall d :: d in ImageDecls(cfg, ds) <==> d in ds && IsImageDecl(cfg, d)
    decreases |ds|
  {
    if ds != [] {
      ImageDeclsMembers(cfg, ds[1..]);
      assert ds == [ds[0]] + ds[1..];
      assert forall d :: d in ds <==> d == ds[0] || d in ds[1..];
      if IsImageDecl(cfg, ds[0]) {
        assert ImageDecls(cfg, ds) == [ds[0]] + ImageDecls(cfg, ds[1..]);
      } else {
        assert ImageDecls(cfg, ds) == ImageDecls(cfg, ds[1..]);
      }
    }
  }

  /** The rule left behind holds exactly the other declarations. */
  lemma {:induction false} OtherDeclsMembers(cfg: Config, ds: seq<Decl>)
    ensures forall d :: d in OtherDecls(cfg, ds) <==> d in ds && !IsImageDecl(cfg, d)
    decreases |ds|
  {
    if ds != [] {
      OtherDeclsMembers(cfg, ds[1..]);
      assert ds == [ds[0]] + ds[1..];
      assert forall d :: d in ds <==> d == ds[0] || d in ds[1..];
      if IsImageDecl(cfg, ds[0]) {
        assert OtherDecls(cfg, ds) == OtherDecls(cfg, ds[1..]);
      } else {
        assert OtherDecls(cfg, ds) == [ds[0]] + OtherDecls(cfg, ds[1..]);
      }
    }
  }

  /** A rule has image declarations to move exactly when it is an image rule. */
  lemma ImageDeclsEmpty(cfg: Config, ds: seq<Decl>)
    ensures ImageDecls(cfg, ds) == [] <==> !IsImageRule(cfg, ds)
  {
    ImageDeclsMembers(cfg, ds);
    if IsImageRule(cfg, ds) {
      var i :| 0 <= i < |ds| && IsImageDecl(cfg, ds[i]);
      assert ds[i] in ImageDecls(cfg, ds);
    }
  }

  /** The declarations of a rule, each with its url() tokens rewritten. */
  function RewriteDecls(cfg: Config, ds: seq<Decl>): (r: seq<Decl>)
    ensures |r| == |ds|
    ensures forall i :: 0 <= i < |ds| ==> r[i] == Decl(ds[i].prop, RewriteValue(cfg, ds[i].value))
    decreases |ds|
  {
    if ds == [] then [] else [RewriteDecl(cfg, ds[0])] + RewriteDecls(cfg, ds[1..])
  }

  /**
   * A variant holds its rule's image declarations, rewritten and in
   * order, and nothing else while `background-size` is not copied.
   */
  lemma {:induction false} VariantWithoutSizeCopy(cfg: Config, ds: seq<Decl>)
    requires !cfg.copyBackgroundSize
    ensures VariantDecls(cfg, ds) == RewriteDecls(cfg, ImageDecls(cfg, ds))
    decreases |ds|
  {
    if ds != [] {
      VariantWithoutSizeCopy(cfg, ds[1..]);
      if IsImageDecl(cfg, ds[0]) {
        assert ImageDecls(cfg, ds) == [ds[0]] + ImageDecls(cfg, ds[1..]);
        assert RewriteDecls(cfg, [ds[0]] + ImageDecls(cfg, ds[1..]))
          == [RewriteDecl(cfg, ds[0])] + RewriteDecls(cfg, ImageDecls(cfg, ds[1..]));
      } else {
        assert ImageDecls(cfg, ds) == ImageDecls(cfg, ds[1..]);
      }
    }
  }

  /** `d` is the rewrite of an image declaration of `ds`. */
  ghost predicate RewrittenFrom(cfg: Config, ds: seq<Decl>, d: Decl) {
    exists e :: e in ds && IsImageDecl(cfg, e) && d == RewriteDecl(cfg, e)
  }

  lemma RewrittenFromCons(cfg: Config, ds: seq<Decl>, d: Decl)
    requires ds != []
    ensures RewrittenFrom(cfg, ds, d) <==>
      (IsImageDecl(cfg, ds[0]) && d == RewriteDecl(cfg, ds[0])) || RewrittenFrom(cfg, ds[1..], d)
  {
    assert forall e :: e in ds <==> e == ds[0] || e in ds[1..] by {
      assert ds == [ds[0]] + ds[1..];
    }
  }

  /** The first declaration's share of a variant. */
  function VariantHead(cfg: Config, d: Decl): seq<Decl> {
    if IsImageDecl(cfg, d) then [RewriteDecl(cfg, d)] else if IsCopiedSize(cfg, d) then [d] else []
  }

  /**
   * What a variant's declarations are: the rewritten image declarations
   * of the rule, and the rule's own `background-size` declarations when
   * they are copied.
   */
  lemma {:induction false} VariantDeclsMembers(cfg: Config, ds: seq<Decl>, d: Decl)
    ensures d in VariantDecls(cfg, ds) <==>
      RewrittenFrom(cfg, ds, d) || (d in ds && !IsImageDecl(cfg, d) && IsCopiedSize(cfg, d))
    decreases |ds|
  {
    if ds != [] {
      VariantDeclsMembers(cfg, ds[1..], d);
      RewrittenFromCons(cfg, ds, d);
      VariantDeclsCons(cfg, ds);
      InCons(ds, d);
      VariantHeadMembers(cfg, ds[0], d);
    }
  }

  lemma VariantDeclsCons(cfg: Config, ds: seq<Decl>)
    requires ds != []
    ensures VariantDecls(cfg, ds) == VariantHead(cfg, ds[0]) + VariantDecls(cfg, ds[1..])
  {
  }

  lemma InCons(ds: seq<Decl>, d: Decl)
    requires ds != []
    ensures d in ds <==> d == ds[0] || d in ds[1..]
  {
    assert ds == [ds[0]] + ds[1..];
  }

  lemma VariantHeadMembers(cfg: Config, e: Decl, d: Decl)
    ensures d in VariantHead(cfg, e) <==>
      (IsImageDecl(cfg, e) && d == RewriteDecl(cfg, e)) || (d == e && !IsImageDecl(cfg, e) && IsCopiedSize(cfg, e))
  {
  }

  // ----- The flat view -----

  /** No placed rule has an image declaration. */
  predicate NoImageRules(cfg: Config, ps: seq<Placed>) {
    forall i :: 0 <= i < |ps| ==> !IsImageRule(cfg, ps[i].decls)
  }

  lemma NoImageRulesConcat(cfg: Config, a: seq<Placed>, b: seq<Placed>)
    ensures NoImageRules(cfg, a + b) <==> NoImageRules(cfg, a) && NoImageRules(cfg, b)
  {
    assert forall i :: 0 <= i < |b| ==> b[i] == (a + b)[|a| + i];
    assert forall i :: 0 <= i < |a + b| ==> (a + b)[i] == if i < |a| then a[i] else b[i - |a|];
  }

  lemma FlatSingle(n: Node)
    ensures Flat([n]) == FlatNode(n)
  {
    assert Flat([n]) == FlatNode(n) + Flat([]);
  }

  lemma FlatPair(a: Node, b: Node)
    ensures Flat([a, b]) == FlatNode(a) + FlatNode(b)
  {
    assert [a, b][1..] == [b];
    FlatSingle(b);
  }

  /** A node without image rules is left as it is and adds no variant. */
  lemma {:induction false} UntouchedNode(cfg: Config, n: Node)
    requires NoImageRules(cfg, FlatNode(n))
    ensures SplitNode(cfg, n) == [n] && VariantNode(cfg, n) == []
    decreases n
  {
    match n
    case Rule(sel, ds) =>
      assert FlatNode(n)[0].decls == ds;
    case AtRule(name, params, ch) =>
      assert NoImageRules(cfg, Flat(ch)) by {
        forall i | 0 <= i < |Flat(ch)| ensures !IsImageRule(cfg, Flat(ch)[i].decls) {
          assert FlatNode(n)[i].decls == Flat(ch)[i].decls;
        }
      }
      UntouchedForest(cfg, ch);
  }

  lemma {:induction false} UntouchedForest(cfg: Config, ns: seq<Node>)
    requires NoImageRules(cfg, Flat(ns))
    ensures SplitForest(cfg, ns) == ns && VariantForest(cfg, ns) == []
    decreases ns
  {
    if ns != [] {
      NoImageRulesConcat(cfg, FlatNode(ns[0]), Flat(ns[1..]));
      UntouchedNode(cfg, ns[0]);
      UntouchedForest(cfg, ns[1..]);
      assert ns == [ns[0]] + ns[1..];
    }
  }

  /** A stylesheet without an eligible url() token comes out unchanged. */
  lemma NoImageLeavesStylesheet(cfg: Config, ns: seq<Node>)
    requires NoImageRules(cfg, Flat(ns))
    ensures Transformed(cfg, ns) == ns
  {
    UntouchedForest(cfg, ns);
    assert ns + [] == ns;
  }

  /** The webp variant a placed rule contributes, under the same ancestry. */
  function VariantOfPlaced(cfg: Config, p: Placed): seq<Placed> {
    if IsImageRule(cfg, p.decls) then
      [Placed(p.ancestry, ScopeSelector(cfg.webpClass, p.selector), VariantDecls(cfg, p.decls))]
    else []
  }

  /** The variants of placed rules, one per image rule, in document order. */
  function VariantsOfPlaced(cfg: Config, ps: seq<Placed>): seq<Placed>
    decreases |ps|
  {
    if ps == [] then [] else VariantOfPlaced(cfg, ps[0]) + VariantsOfPlaced(cfg, ps[1..])
  }

  lemma {:induction false} VariantsOfPlacedConcat(cfg: Config, a: seq<Placed>, b: seq<Placed>)
    ensures VariantsOfPlaced(cfg, a + b) == VariantsOfPlaced(cfg, a) + VariantsOfPlaced(cfg, b)
    decreases |a|
  {
    if a == [] {
      assert a + b == b;
    } else {
      VariantsOfPlacedConcat(cfg, a[1..], b);
      PlacedConsConcat(a, b);
      VariantsOfPlacedCons(cfg, a + b);
      VariantsOfPlacedCons(cfg, a);
      PlacedAssoc(VariantOfPlaced(cfg, a[0]), VariantsOfPlaced(cfg, a[1..]), VariantsOfPlaced(cfg, b));
    }
  }

  lemma VariantsOfPlacedCons(cfg: Config, ps: seq<Placed>)
    requires ps != []
    ensures VariantsOfPlaced(cfg, ps) == VariantOfPlaced(cfg, ps[0]) + VariantsOfPlaced(cfg, ps[1..])
  {
  }

  lemma PlacedConsConcat(a: seq<Placed>, b: seq<Placed>)
    requires a != []
    ensures (a + b)[0] == a[0] && (a + b)[1..] == a[1..] + b
  {
  }

  lemma PlacedAssoc(a: seq<Placed>, b: seq<Placed>, c: seq<Placed>)
    ensures a + (b + c) == a + b + c
  {
  }

  lemma VariantOfPlacedUnder(cfg: Config, h: AtHead, p: Placed)
    ensures VariantOfPlaced(cfg, p.(ancestry := [h] + p.ancestry)) == Under(h, VariantOfPlaced(cfg, p))
  {
    if IsImageRule(cfg, p.decls) {
      UnderSingle(h, Placed(p.ancestry, ScopeSelector(cfg.webpClass, p.selector), VariantDecls(cfg, p.decls)));
    }
  }

  lemma {:induction false} VariantsOfPlacedUnder(cfg: Config, h: AtHead, ps: seq<Placed>)
    ensures VariantsOfPlaced(cfg, Under(h, ps)) == Under(h, VariantsOfPlaced(cfg, ps))
    decreases |ps|
  {
    if ps != [] {
      UnderCons(h, ps);
      VariantsOfPlacedUnder(cfg, h, ps[1..]);
      VariantOfPlacedUnder(cfg, h, ps[0]);
      UnderConcat(h, VariantOfPlaced(cfg, ps[0]), VariantsOfPlaced(cfg, ps[1..]));
    }
  }

  lemma {:induction false} FlatVariantNode(cfg: Config, n: Node)
    ensures Flat(VariantNode(cfg, n)) == VariantsOfPlaced(cfg, FlatNode(n))
    decreases n
  {
    match n
    case Rule(sel, ds) =>
      assert VariantsOfPlaced(cfg, FlatNode(n)) == VariantOfPlaced(cfg, FlatNode(n)[0]) + [];
      if IsImageRule(cfg, ds) {
        FlatSingle(WebpVariant(cfg, sel, ds));
      }
    case AtRule(name, params, ch) =>
      var h := AtHead(name, params);
      FlatVariantForest(cfg, ch);
      VariantsOfPlacedUnder(cfg, h, Flat(ch));
      var inner := VariantForest(cfg, ch);
      if inner != [] {
        FlatSingle(AtRule(name, params, inner));
      }
  }

  /** The variants keep the originals' ancestry and document order, one per image rule. */
  lemma {:induction false} FlatVariantForest(cfg: Config, ns: seq<Node>)
    ensures Flat(VariantForest(cfg, ns)) == VariantsOfPlaced(cfg, Flat(ns))
    decreases ns
  {
    if ns != [] {
      FlatConcat(VariantNode(cfg, ns[0]), VariantForest(cfg, ns[1..]));
      FlatVariantNode(cfg, ns[0]);
      FlatVariantForest(cfg, ns[1..]);
      VariantsOfPlacedConcat(cfg, FlatNode(ns[0]), Flat(ns[1..]));
    }
  }

  lemma {:induction false} VariantsOfPlacedEmpty(cfg: Config, ps: seq<Placed>)
    ensures VariantsOfPlaced(cfg, ps) == [] <==> NoImageRules(cfg, ps)
    decreases |ps|
  {
    if ps != [] {
      VariantsOfPlacedEmpty(cfg, ps[1..]);
      VariantsOfPlacedCons(cfg, ps);
      NoImageRulesCons(cfg, ps);
    }
  }

  lemma NoImageRulesCons(cfg: Config, ps: seq<Placed>)
    requires ps != []
    ensures NoImageRules(cfg, ps) <==> !IsImageRule(cfg, ps[0].decls) && NoImageRules(cfg, ps[1..])
  {
    assert ps == [ps[0]] + ps[1..];
    NoImageRulesConcat(cfg, [ps[0]], ps[1..]);
  }

  /** Some variant is emitted exactly when some rule, at any depth, is an image rule. */
  lemma VariantsExactlyForImageRules(cfg: Config, ns: seq<Node>)
    ensures VariantForest(cfg, ns) == [] <==> NoImageRules(cfg, Flat(ns))
  {
    if NoImageRules(cfg, Flat(ns)) {
      UntouchedForest(cfg, ns);
    } else {
      FlatVariantForest(cfg, ns);
      VariantsOfPlacedEmpty(cfg, Flat(ns));
    }
  }

  /**
   * What stands for a placed rule among the originals: the no-webp clone
   * and the rule with its remaining declarations, under the same ancestry.
   */
  function SplitOfPlaced(cfg: Config, p: Placed): seq<Placed> {
    if cfg.noWebpClass.Some? && IsImageRule(cfg, p.decls) then
      var rest := OtherDecls(cfg, p.decls);
      [Placed(p.ancestry, ScopeSelector(cfg.noWebpClass.value, p.selector), ImageDecls(cfg, p.decls))]
      + (if rest == [] then [] else [Placed(p.ancestry, p.selector, rest)])
    else [p]
  }

  function SplitsOfPlaced(cfg: Config, ps: seq<Placed>): seq<Placed>
    decreases |ps|
  {
    if ps == [] then [] else SplitOfPlaced(cfg, ps[0]) + SplitsOfPlaced(cfg, ps[1..])
  }

  lemma {:induction false} SplitsOfPlacedConcat(cfg: Config, a: seq<Placed>, b: seq<Placed>)
    ensures SplitsOfPlaced(cfg, a + b) == SplitsOfPlaced(cfg, a) + SplitsOfPlaced(cfg, b)
    decreases |a|
  {
    if a == [] {
      assert a + b == b;
    } else {
      assert (a + b)[0] == a[0];
      assert (a + b)[1..] == a[1..] + b;
      SplitsOfPlacedConcat(cfg, a[1..], b);
    }
  }

  lemma SplitOfPlacedUnder(cfg: Config, h: AtHead, p: Placed)
    ensures SplitOfPlaced(cfg, p.(ancestry := [h] + p.ancestry)) == Under(h, SplitOfPlaced(cfg, p))
  {
    if cfg.noWebpClass.Some? && IsImageRule(cfg, p.decls) {
      var rest := OtherDecls(cfg, p.decls);
      var clone := Placed(p.ancestry, ScopeSelector(cfg.noWebpClass.value, p.selector), ImageDecls(cfg, p.decls));
      var tail := if rest == [] then [] else [Placed(p.ancestry, p.selector, rest)];
      UnderSingle(h, clone);
      UnderConcat(h, [clone], tail);
      if rest != [] {
        UnderSingle(h, Placed(p.ancestry, p.selector, rest));
      }
    } else {
      UnderSingle(h, p);
    }
  }

  lemma {:induction false} SplitsOfPlacedUnder(cfg: Config, h: AtHead, ps: seq<Placed>)
    ensures SplitsOfPlaced(cfg, Under(h, ps)) == Under(h, SplitsOfPlaced(cfg, ps))
    decreases |ps|
  {
    if ps != [] {
      UnderCons(h, ps);
      SplitsOfPlacedUnder(cfg, h, ps[1..]);
      SplitOfPlacedUnder(cfg, h, ps[0]);
      UnderConcat(h, SplitOfPlaced(cfg, ps[0]), SplitsOfPlaced(cfg, ps[1..]));
    }
  }

  lemma FlatSplitRule(cfg: Config, sel: string, ds: seq<Decl>)
    ensures Flat(SplitRule(cfg, sel, ds)) == SplitOfPlaced(cfg, Placed([], sel, ds))
  {
    if cfg.noWebpClass.Some? && IsImageRule(cfg, ds) {
      var clone := Rule(ScopeSelector(cfg.noWebpClass.value, sel), ImageDecls(cfg, ds));
      var rest := OtherDecls(cfg, ds);
      if rest == [] {
        FlatSingle(clone);
      } else {
        FlatPair(clone, Rule(sel, rest));
      }
    } else {
      FlatSingle(Rule(sel, ds));
    }
  }

  lemma {:induction false} FlatSplitNode(cfg: Config, n: Node)
    ensures Flat(SplitNode(cfg, n)) == SplitsOfPlaced(cfg, FlatNode(n))
    decreases n
  {
    match n
    case Rule(sel, ds) =>
      FlatSplitRule(cfg, sel, ds);
      assert SplitsOfPlaced(cfg, FlatNode(n)) == SplitOfPlaced(cfg, FlatNode(n)[0]) + [];
    case AtRule(name, params, ch) =>
      FlatSplitForest(cfg, ch);
      SplitsOfPlacedUnder(cfg, AtHead(name, params), Flat(ch));
      FlatSingle(AtRule(name, params, SplitForest(cfg, ch)));
  }

  /** The originals after the split: each rule replaced where it stands, ancestry kept. */
  lemma {:induction false} FlatSplitForest(cfg: Config, ns: seq<Node>)
    ensures Flat(SplitForest(cfg, ns)) == SplitsOfPlaced(cfg, Flat(ns))
    decreases ns
  {
    if ns != [] {
      FlatConcat(SplitNode(cfg, ns[0]), SplitForest(cfg, ns[1..]));
      FlatSplitNode(cfg, ns[0]);
      FlatSplitForest(cfg, ns[1..]);
      SplitsOfPlacedConcat(cfg, FlatNode(ns[0]), Flat(ns[1..]));
    }
  }

  /**
   * The transformed stylesheet read rule by rule: the originals, split in
   * place, then one variant per image rule in document order, each under
   * a copy of its original's at-rule ancestry.
   */
  lemma TransformedRules(cfg: Config, ns: seq<Node>)
    ensures Flat(Transformed(cfg, ns)) == SplitsOfPlaced(cfg, Flat(ns)) + VariantsOfPlaced(cfg, Flat(ns))
  {
    FlatConcat(SplitForest(cfg, ns), VariantForest(cfg, ns));
    FlatSplitForest(cfg, ns);
    FlatVariantForest(cfg, ns);
  }

  // ----- Without a no-webp class -----

  lemma {:induction false} NoSplitNode(cfg: Config, n: Node)
    requires cfg.noWebpClass.None?
    ensures SplitNode(cfg, n) == [n]
    decreases n
  {
    match n
    case Rule(_, _) =>
    case AtRule(_, _, ch) => NoSplitForest(cfg, ch);
  }

  /** Without a no-webp class the originals are not touched at all. */
  lemma {:induction false} NoSplitForest(cfg: Config, ns: seq<Node>)
    requires cfg.noWebpClass.None?
    ensures SplitForest(cfg, ns) == ns
    decreases ns
  {
    if ns != [] {
      NoSplitNode(cfg, ns[0]);
      NoSplitForest(cfg, ns[1..]);
      assert ns == [ns[0]] + ns[1..];
    }
  }

  /** Without a no-webp class the output is the input followed by the variants. */
  lemma OriginalsThenVariants(cfg: Config, ns: seq<Node>)
    requires cfg.noWebpClass.None?
    ensures Transformed(cfg, ns) == ns + VariantForest(cfg, ns)
    ensures Flat(Transformed(cfg, ns)) == Flat(ns) + VariantsOfPlaced(cfg, Flat(ns))
  {
    NoSplitForest(cfg, ns);
    FlatConcat(ns, VariantForest(cfg, ns));
    FlatVariantForest(cfg, ns);
  }

  // ----- The at-rule skeleton -----

  lemma {:induction false} SplitNodeShape(cfg: Config, n: Node)
    ensures Skeleton(SplitNode(cfg, n)) == ShapeOf(n)
    decreases n
  {
    match n
    case Rule(sel, ds) =>
      SplitRuleIsRules(cfg, sel, ds);
      RulesHaveNoShape(SplitRule(cfg, sel, ds));
    case AtRule(name, params, ch) =>
      SplitForestShape(cfg, ch);
      SkeletonSingle(AtRule(name, params, SplitForest(cfg, ch)));
  }

  lemma SplitRuleIsRules(cfg: Config, sel: string, ds: seq<Decl>)
    ensures forall i :: 0 <= i < |SplitRule(cfg, sel, ds)| ==> SplitRule(cfg, sel, ds)[i].Rule?
  {
    var r := SplitRule(cfg, sel, ds);
    if cfg.noWebpClass.Some? && IsImageRule(cfg, ds) {
      var clone := Rule(ScopeSelector(cfg.noWebpClass.value, sel), ImageDecls(cfg, ds));
      var rest := OtherDecls(cfg, ds);
      assert r == if rest == [] then [clone] else [clone, Rule(sel, rest)];
    } else {
      assert r == [Rule(sel, ds)];
    }
  }

  lemma {:induction false} RulesHaveNoShape(ns: seq<Node>)
    requires forall i :: 0 <= i < |ns| ==> ns[i].Rule?
    ensures Skeleton(ns) == []
    decreases |ns|
  {
    if ns != [] {
      RulesHaveNoShape(ns[1..]);
    }
  }

  /** The split keeps every at-rule where it was, with the same name and params. */
  lemma {:induction false} SplitForestShape(cfg: Config, ns: seq<Node>)
    ensures Skeleton(SplitForest(cfg, ns)) == Skeleton(ns)
    decreases ns
  {
    if ns != [] {
      SkeletonConcat(SplitNode(cfg, ns[0]), SplitForest(cfg, ns[1..]));
      SplitNodeShape(cfg, ns[0]);
      SplitForestShape(cfg, ns[1..]);
    }
  }
}
