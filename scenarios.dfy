/**
 * The input/output pairs of the transform's test suite, stated on the
 * parsed stylesheet: each lemma gives the nodes a test feeds in and the
 * nodes it expects back.
 */
module Scenarios {
  import opened Wrappers
  import opened Strings
  import opened Options
  import opened UrlValue
  import opened UrlValueFacts
  import opened Selector
  import opened CssTree
  import opened Duplicator
  import opened DuplicatorFacts

  // ----- Steps shared by the tests: values -----

  /** Options that rename with the default pattern and `.webp`. */
  predicate DefaultRename(cfg: Config) {
    cfg.replaceFrom == DefaultPattern && cfg.replaceTo == Template(".webp")
  }

  /** The url a bare or quoted token names. */
  lemma UnquoteToken(q: string, u: string)
    requires q == "" || q == "'" || q == "\""
    requires u != [] && u[0] != '\'' && u[0] != '"'
    ensures Unquote(q + u + q) == u
  {
    if q != "" {
      var inner := q + u + q;
      assert inner[0] == q[0] && inner[|inner| - 1] == q[0];
      assert inner[1..|inner| - 1] == u;
    } else {
      assert q + u + q == u;
    }
  }

  /** An eligible token, bare or quoted, after plain text `a`: the value holds an eligible token. */
  lemma TokenEligible(cfg: Config, a: string, q: string, u: string, rest: string, v: string)
    requires q == "" || q == "'" || q == "\""
    requires u != [] && u[0] != '\'' && u[0] != '"'
    requires '(' !in a && ')' !in u
    requires Eligible(cfg, u)
    requires v == a + "url(" + (q + u + q) + ")" + rest
    ensures HasEligibleRef(cfg, v)
  {
    UnquoteToken(q, u);
    assert ')' !in q;
    EligibleToken(cfg, a, q + u + q, rest);
  }

  /**
   * An eligible token, bare or quoted, after plain text `a` and before the
   * rest of the value: it comes out unquoted with its new url `nu`.
   */
  lemma TokenThen(cfg: Config, a: string, q: string, u: string, rest: string, nu: string, wrest: string,
                  v: string, w: string)
    requires q == "" || q == "'" || q == "\""
    requires u != [] && u[0] != '\'' && u[0] != '"'
    requires '(' !in a && ')' !in u
    requires Eligible(cfg, u) && NewUrl(cfg, u) == nu
    requires RewriteValue(cfg, rest) == wrest
    requires v == a + "url(" + (q + u + q) + ")" + rest
    requires w == a + ("url(" + nu + ")") + wrest
    ensures RewriteValue(cfg, v) == w
  {
    var inner := q + u + q;
    UnquoteToken(q, u);
    assert ')' !in q;
    RewriteToken(cfg, a, inner, rest);
    RewriteEligibleToken(cfg, inner);
  }

  /** A token that is not eligible stays as written, and the rest decides. */
  lemma SkipThen(cfg: Config, a: string, inner: string, rest: string, wrest: string, v: string, w: string)
    requires '(' !in a && ')' !in inner
    requires !Eligible(cfg, Unquote(inner))
    requires RewriteValue(cfg, rest) == wrest
    requires v == a + "url(" + inner + ")" + rest
    requires w == a + ("url(" + inner + ")") + wrest
    ensures RewriteValue(cfg, v) == w
  {
    RewriteToken(cfg, a, inner, rest);
    assert RewritePiece(cfg, Ref(inner)) == Ref(inner);
  }

  /** A token that is not eligible leaves the question to the rest of the value. */
  lemma SkipEligible(cfg: Config, a: string, inner: string, rest: string, v: string)
    requires '(' !in a && ')' !in inner
    requires !Eligible(cfg, Unquote(inner))
    requires v == a + "url(" + inner + ")" + rest
    ensures HasEligibleRef(cfg, v) == HasEligibleRef(cfg, rest)
  {
    EligibleToken(cfg, a, inner, rest);
  }

  /** The default renaming turns `base.png`, `base.jpg`, `base.jpeg` into `base.webp`. */
  lemma RasterUrl(cfg: Config, base: string, e: string, u: string, nu: string)
    requires DefaultRename(cfg)
    requires e == "png" || e == "jpg" || e == "jpeg"
    requires !HasMatch(DefaultPattern, base)
    requires u == base + "." + e && nu == base + ".webp"
    ensures HasMatch(cfg.replaceFrom, u) && NewUrl(cfg, u) == nu
  {
    DefaultMatchesRasterExtensions(e);
    HasMatchInSuffix(DefaultPattern, base, "." + e);
    assert base + ("." + e) == u;
    DefaultSwapsToWebp(base, e);
    assert NewUrl(cfg, u) == NewUrl(Defaults(), u);
  }

  /** Under the default pattern, `base.png`, `base.jpg` and `base.jpeg` match. */
  lemma RasterMatch(base: string, e: string, u: string)
    requires e == "png" || e == "jpg" || e == "jpeg"
    requires u == base + "." + e
    ensures HasMatch(DefaultPattern, u)
  {
    DefaultMatchesRasterExtensions(e);
    HasMatchInSuffix(DefaultPattern, base, "." + e);
    assert base + ("." + e) == u;
  }

  /** A name with no dot in it matches nothing. */
  lemma PlainName(p: Pattern, base: string)
    requires '.' !in base
    ensures !HasMatch(p, base)
  {
    HasMatchSkipsDotFreeText(p, base, []);
    assert base + [] == base;
  }

  /** A local png, jpg or jpeg file with a dot-free name that passes the size gate is eligible. */
  lemma LocalRasterEligible(cfg: Config, base: string, e: string, u: string)
    requires cfg.replaceFrom == DefaultPattern
    requires e == "png" || e == "jpg" || e == "jpeg"
    requires base != [] && base[0] != 'd' && base[0] != '/' && base[0] != 'h'
    requires u == base + "." + e && SizeGate(cfg, u)
    ensures Eligible(cfg, u)
  {
    assert u[0] == base[0];
    LocalKind(u);
    RasterMatch(base, e, u);
  }

  /** ... and the default renaming gives it the `.webp` extension. */
  lemma LocalRasterUrl(cfg: Config, base: string, e: string, u: string)
    requires DefaultRename(cfg)
    requires e == "png" || e == "jpg" || e == "jpeg"
    requires '.' !in base && base != [] && base[0] != 'd' && base[0] != '/' && base[0] != 'h'
    requires u == base + "." + e && SizeGate(cfg, u)
    ensures Eligible(cfg, u) && NewUrl(cfg, u) == base + ".webp"
  {
    LocalRasterEligible(cfg, base, e, u);
    PlainName(DefaultPattern, base);
    RasterUrl(cfg, base, e, u, base + ".webp");
  }

  /** A value holding one eligible token between plain texts. */
  lemma UrlToken(cfg: Config, a: string, q: string, u: string, nu: string, b: string, v: string, w: string)
    requires q == "" || q == "'" || q == "\""
    requires u != [] && u[0] != '\'' && u[0] != '"'
    requires '(' !in a && '(' !in b && ')' !in u
    requires Eligible(cfg, u) && NewUrl(cfg, u) == nu
    requires v == a + "url(" + (q + u + q) + ")" + b
    requires w == a + ("url(" + nu + ")") + b
    ensures HasEligibleRef(cfg, v) && RewriteValue(cfg, v) == w
  {
    TokenEligible(cfg, a, q, u, b, v);
    RewritePlain(cfg, b);
    TokenThen(cfg, a, q, u, b, nu, b, v, w);
  }

  /** A value that is one bare eligible token and nothing else. */
  lemma BareToken(cfg: Config, u: string, nu: string)
    requires u != [] && u[0] != '\'' && u[0] != '"' && ')' !in u
    requires Eligible(cfg, u) && NewUrl(cfg, u) == nu
    ensures HasEligibleRef(cfg, "url(" + u + ")") && RewriteValue(cfg, "url(" + u + ")") == "url(" + nu + ")"
  {
    assert "url(" + u + ")" == "" + "url(" + ("" + u + "") + ")" + "";
    assert "url(" + nu + ")" == "" + ("url(" + nu + ")") + "";
    UrlToken(cfg, "", "", u, nu, "", "url(" + u + ")", "url(" + nu + ")");
  }

  /** A lone local png, jpg or jpeg token: the variant has it unquoted and ending in `.webp`. */
  lemma LocalRaster(cfg: Config, a: string, q: string, base: string, e: string, b: string, v: string, w: string)
    requires DefaultRename(cfg) && SizeGate(cfg, base + "." + e)
    requires q == "" || q == "'" || q == "\""
    requires e == "png" || e == "jpg" || e == "jpeg"
    requires '.' !in base && ')' !in base
    requires base != [] && base[0] != '\'' && base[0] != '"' && base[0] != 'd' && base[0] != '/' && base[0] != 'h'
    requires '(' !in a && '(' !in b
    requires v == a + "url(" + (q + (base + "." + e) + q) + ")" + b
    requires w == a + ("url(" + (base + ".webp") + ")") + b
    ensures HasEligibleRef(cfg, v) && RewriteValue(cfg, v) == w
  {
    var u := base + "." + e;
    assert u[0] == base[0] && ')' !in e;
    LocalRasterUrl(cfg, base, e, u);
    UrlToken(cfg, a, q, u, base + ".webp", b, v, w);
  }

  /** A lone token that is not eligible: the value holds no eligible token. */
  lemma IneligibleToken(cfg: Config, a: string, inner: string, b: string, v: string)
    requires '(' !in a && '(' !in b && ')' !in inner
    requires !Eligible(cfg, Unquote(inner))
    requires v == a + "url(" + inner + ")" + b
    ensures !HasEligibleRef(cfg, v)
  {
    RewritePlain(cfg, b);
    SkipEligible(cfg, a, inner, b, v);
  }

  /** A url the pattern does not match is not eligible, whatever its kind. */
  lemma UnmatchedNotEligible(cfg: Config, u: string)
    requires !HasMatch(cfg.replaceFrom, u)
    ensures !Eligible(cfg, u)
  {
  }

  /** The default pattern does not match a `.gif` file with a dot-free name. */
  lemma GifUnmatched(base: string, u: string)
    requires '.' !in base && u == base + ".gif"
    ensures !HasMatch(DefaultPattern, u)
  {
    HasMatchSkipsDotFreeText(DefaultPattern, base, ".gif");
    assert ".gif" == "." + "gif";
    DefaultNoMatchAt("gif");
    HasMatchSkipsDot(DefaultPattern, "gif");
    PlainName(DefaultPattern, "gif");
  }

  /** A local file `base.e` whose extension the pattern matches at its dot is eligible. */
  lemma PatternEligible(cfg: Config, base: string, e: string)
    requires MatchAt(cfg.replaceFrom, "." + e) == Some(e)
    requires base != [] && base[0] != 'd' && base[0] != '/' && base[0] != 'h'
    requires SizeGate(cfg, base + "." + e)
    ensures Eligible(cfg, base + "." + e)
  {
    var u := base + "." + e;
    assert u[0] == base[0];
    LocalKind(u);
    HasMatchInSuffix(cfg.replaceFrom, base, "." + e);
    assert base + ("." + e) == u;
  }

  /** With no match in `base`, the template replaces just `.e`. */
  lemma PatternNewUrl(cfg: Config, base: string, e: string, t: string)
    requires DotFree(cfg.replaceFrom) && MatchAt(cfg.replaceFrom, "." + e) == Some(e)
    requires cfg.replaceTo == Template(t) && !HasMatch(cfg.replaceFrom, base)
    ensures NewUrl(cfg, base + "." + e) == base + Expand(t, if cfg.replaceFrom.capturing then Some(e) else None)
  {
    SwapExtension(cfg.replaceFrom, base, e, t);
  }

  lemma RemoteShape(prefix: string, a: string, b: string, e: string)
    ensures prefix + a + "." + b + "." + e == prefix + (a + "." + b + "." + e)
    ensures prefix + a + "." + b + "." + e == (prefix + a + "." + b) + ("." + e)
    ensures prefix + a + "." + b == (prefix + a) + ("." + b)
  {
  }

  lemma PrefixStart(prefix: string, rest: string)
    ensures StartsWith(prefix + rest, prefix)
  {
    assert (prefix + rest)[..|prefix|] == prefix;
  }

  /** A remote `a.b.e` behind a `//`, `http://` or `https://` prefix, with dot-free `a` and `b`. */
  lemma RemoteRaster(cfg: Config, prefix: string, a: string, b: string, e: string)
    requires DefaultRename(cfg) && cfg.replaceRemoteImage
    requires prefix == "//" || prefix == "http://" || prefix == "https://"
    requires '.' !in a && '.' !in b && b != [] && b[0] != 'p' && b[0] != 'j'
    requires e == "png" || e == "jpg" || e == "jpeg"
    ensures var base := prefix + a + "." + b;
      Eligible(cfg, base + "." + e) && NewUrl(cfg, base + "." + e) == base + ".webp"
  {
    var base := prefix + a + "." + b;
    var u := base + "." + e;
    RemoteShape(prefix, a, b, e);
    PrefixStart(prefix, a + "." + b + "." + e);
    RemoteKind(u);
    DefaultMatchesRasterExtensions(e);
    HasMatchInSuffix(DefaultPattern, base, "." + e);
    assert '.' !in prefix + a;
    HasMatchSkipsDotFreeText(DefaultPattern, prefix + a, "." + b);
    DefaultNoMatchAt(b);
    HasMatchSkipsDot(DefaultPattern, b);
    PlainName(DefaultPattern, b);
    assert Eligible(cfg, u);
    SwapExtension(DefaultPattern, base, e, ".webp");
    ExpandWithoutDollar(".webp", Some(e));
    assert NewUrl(cfg, u) == ReplaceAll(cfg.replaceFrom, u, ".webp");
  }

  /** A token that is not eligible, then text `a` and a local png, jpg or jpeg token. */
  lemma KeptThenRaster(cfg: Config, x: string, a: string, q: string, base: string, e: string, v: string, w: string)
    requires DefaultRename(cfg) && SizeGate(cfg, base + "." + e)
    requires ')' !in x && !Eligible(cfg, Unquote(x))
    requires '(' !in a
    requires q == "" || q == "'" || q == "\""
    requires e == "png" || e == "jpg" || e == "jpeg"
    requires BaseName(base)
    requires v == "" + "url(" + x + ")" + (a + "url(" + (q + (base + "." + e) + q) + ")" + "")
    requires w == "" + ("url(" + x + ")") + (a + ("url(" + (base + ".webp") + ")") + "")
    ensures HasEligibleRef(cfg, v) && RewriteValue(cfg, v) == w
  {
    var rest := a + "url(" + (q + (base + "." + e) + q) + ")" + "";
    var wrest := a + ("url(" + (base + ".webp") + ")") + "";
    LocalRaster(cfg, a, q, base, e, "", rest, wrest);
    SkipThen(cfg, "", x, rest, wrest, v, w);
    SkipEligible(cfg, "", x, rest, v);
  }

  // ----- Steps shared by the tests: selectors -----

  /** A selector not led by `html` gets the class as an ancestor. */
  lemma ScopePlainSelector(cls: string, c: string, r: string)
    requires ',' !in c && IsTrimmed(c) && c != [] && c[0] != 'h'
    requires !StartsWithClass(c, cls)
    requires r == cls + " " + c
    ensures ScopeSelector(cls, c) == r
  {
    NotStartsWith(c, "html");
    SplitFree(c, ',');
    TrimOfTrimmed(c);
    assert Components(c) == [c];
  }

  /** A class selector under a class that differs from it in its first letter. */
  lemma ScopeClassSelector(cls: string, c: string, r: string)
    requires |cls| >= 2 && |c| >= 2 && c[0] == '.' && c[1] != cls[1]
    requires ',' !in c && IsTrimmed(c)
    requires r == cls + " " + c
    ensures ScopeSelector(cls, c) == r
  {
    DiffersAt(c, cls, 1);
    ScopePlainSelector(cls, c, r);
  }

  /** A selector led by `html` gets the class glued onto `html`. */
  lemma ScopeHtmlSelector(cls: string, c: string, r: string)
    requires ',' !in c && IsTrimmed(c)
    requires !StartsWithClass(c, cls) && HtmlLed(c)
    requires r == "html" + cls + c[4..]
    ensures ScopeSelector(cls, c) == r
  {
    SplitFree(c, ',');
    TrimOfTrimmed(c);
    assert Components(c) == [c];
  }

  /** Two selectors, each scoped, joined again with `, `. */
  lemma ScopeTwoSelectors(cls: string, c1: string, c2: string)
    requires ',' !in c1 && IsTrimmed(c1) && c1 != [] && c1[0] != 'h' && !StartsWithClass(c1, cls)
    requires ',' !in c2 && IsTrimmed(c2) && c2 != [] && c2[0] != 'h' && !StartsWithClass(c2, cls)
    ensures ScopeSelector(cls, c1 + ", " + c2) == (cls + " " + c1) + ", " + (cls + " " + c2)
  {
    TwoComponents(c1, c2);
    assert ScopeAll(cls, [c1, c2]) == [cls + " " + c1, cls + " " + c2] by {
      NotStartsWith(c1, "html");
      NotStartsWith(c2, "html");
    }
    JoinTwo(cls + " " + c1, cls + " " + c2, ", ");
  }

  lemma TwoComponents(c1: string, c2: string)
    requires ',' !in c1 && IsTrimmed(c1) && ',' !in c2 && IsTrimmed(c2)
    ensures Components(c1 + ", " + c2) == [c1, c2]
  {
    JoinTwo(c1, c2, ", ");
    ReadBack([c1, c2]);
  }

  lemma JoinTwo(a: string, b: string, sep: string)
    ensures Join([a, b], sep) == a + sep + b
  {
    assert [a, b][1..] == [b];
  }

  lemma WebpTest()
    ensures ScopeSelector(".webp", ".test") == ".webp .test"
  {
    ScopeClassSelector(".webp", ".test", ".webp .test");
  }

  // ----- Steps shared by the tests: declarations and nodes -----

  /** A declaration whose value holds an eligible token, and its rewrite. */
  lemma ImageValue(cfg: Config, prop: string, v: string, w: string)
    requires HasEligibleRef(cfg, v) && RewriteValue(cfg, v) == w
    ensures IsImageDecl(cfg, Decl(prop, v)) && RewriteDecl(cfg, Decl(prop, v)) == Decl(prop, w)
  {
  }

  lemma OneImageDecl(cfg: Config, d: Decl)
    requires IsImageDecl(cfg, d)
    ensures IsImageRule(cfg, [d])
    ensures ImageDecls(cfg, [d]) == [d] && OtherDecls(cfg, [d]) == []
    ensures VariantDecls(cfg, [d]) == [RewriteDecl(cfg, d)]
  {
    assert [d][0] == d;
    assert [d][1..] == [];
  }

  lemma OneOtherDecl(cfg: Config, d: Decl)
    requires !IsImageDecl(cfg, d)
    ensures !IsImageRule(cfg, [d])
  {
    assert [d][0] == d;
  }

  lemma ImageThenOther(cfg: Config, d1: Decl, d2: Decl)
    requires IsImageDecl(cfg, d1) && !IsImageDecl(cfg, d2)
    ensures IsImageRule(cfg, [d1, d2])
    ensures ImageDecls(cfg, [d1, d2]) == [d1] && OtherDecls(cfg, [d1, d2]) == [d2]
    ensures VariantDecls(cfg, [d1, d2]) == [RewriteDecl(cfg, d1)] + (if IsCopiedSize(cfg, d2) then [d2] else [])
  {
    assert [d1, d2][0] == d1;
    TwoImageDecls(cfg, d1, d2);
    TwoOtherDecls(cfg, d1, d2);
    TwoVariantDecls(cfg, d1, d2);
  }

  lemma OtherThenImage(cfg: Config, d1: Decl, d2: Decl)
    requires !IsImageDecl(cfg, d1) && IsImageDecl(cfg, d2)
    ensures IsImageRule(cfg, [d1, d2])
    ensures VariantDecls(cfg, [d1, d2]) == (if IsCopiedSize(cfg, d1) then [d1] else []) + [RewriteDecl(cfg, d2)]
  {
    assert [d1, d2][1] == d2;
    TwoVariantDecls(cfg, d1, d2);
  }

  lemma TwoImageDecls(cfg: Config, d1: Decl, d2: Decl)
    ensures ImageDecls(cfg, [d1, d2])
      == (if IsImageDecl(cfg, d1) then [d1] else []) + (if IsImageDecl(cfg, d2) then [d2] else [])
  {
    var h2 := if IsImageDecl(cfg, d2) then [d2] else [];
    assert [d1, d2][1..] == [d2] && [d2][1..] == [];
    assert ImageDecls(cfg, [d2]) == h2 by {
      assert h2 + [] == h2;
    }
  }

  lemma TwoOtherDecls(cfg: Config, d1: Decl, d2: Decl)
    ensures OtherDecls(cfg, [d1, d2])
      == (if IsImageDecl(cfg, d1) then [] else [d1]) + (if IsImageDecl(cfg, d2) then [] else [d2])
  {
    var h2 := if IsImageDecl(cfg, d2) then [] else [d2];
    assert [d1, d2][1..] == [d2] && [d2][1..] == [];
    assert OtherDecls(cfg, [d2]) == h2 by {
      assert h2 + [] == h2;
    }
  }

  lemma TwoVariantDecls(cfg: Config, d1: Decl, d2: Decl)
    ensures VariantDecls(cfg, [d1, d2]) == VariantHead(cfg, d1) + VariantHead(cfg, d2)
  {
    assert [d1, d2][1..] == [d2] && [d2][1..] == [];
    VariantDeclsCons(cfg, [d1, d2]);
    VariantDeclsCons(cfg, [d2]);
    assert VariantHead(cfg, d2) + [] == VariantHead(cfg, d2);
  }

  lemma SingleNode(cfg: Config, n: Node)
    ensures SplitForest(cfg, [n]) == SplitNode(cfg, n)
    ensures VariantForest(cfg, [n]) == VariantNode(cfg, n)
  {
    assert [n][1..] == [];
    assert SplitForest(cfg, [n]) == SplitNode(cfg, n) + [];
    assert VariantForest(cfg, [n]) == VariantNode(cfg, n) + [];
  }

  lemma TwoNodes(cfg: Config, n1: Node, n2: Node)
    ensures SplitForest(cfg, [n1, n2]) == SplitNode(cfg, n1) + SplitNode(cfg, n2)
    ensures VariantForest(cfg, [n1, n2]) == VariantNode(cfg, n1) + VariantNode(cfg, n2)
  {
    assert [n1, n2][1..] == [n2];
    SingleNode(cfg, n2);
  }

  /** The variant of an image rule. */
  lemma RuleVariant(cfg: Config, sel: string, ds: seq<Decl>, scoped: string, vds: seq<Decl>)
    requires IsImageRule(cfg, ds)
    requires ScopeSelector(cfg.webpClass, sel) == scoped && VariantDecls(cfg, ds) == vds
    ensures VariantNode(cfg, Rule(sel, ds)) == [Rule(scoped, vds)]
  {
  }

  /** With a no-webp class, an image rule gives way to its clone and what remains of it. */
  lemma RuleSplit(cfg: Config, sel: string, ds: seq<Decl>, noSel: string, imgs: seq<Decl>, others: seq<Decl>)
    requires cfg.noWebpClass.Some? && IsImageRule(cfg, ds)
    requires ScopeSelector(cfg.noWebpClass.value, sel) == noSel
    requires ImageDecls(cfg, ds) == imgs && OtherDecls(cfg, ds) == others
    ensures SplitNode(cfg, Rule(sel, ds)) ==
      if others == [] then [Rule(noSel, imgs)] else [Rule(noSel, imgs), Rule(sel, others)]
  {
  }

  /** An at-rule holding variants gets a copy that holds only them. */
  lemma AtRuleVariant(cfg: Config, name: string, params: string, ch: seq<Node>, vch: seq<Node>)
    requires VariantForest(cfg, ch) == vch && vch != []
    ensures VariantNode(cfg, AtRule(name, params, ch)) == [AtRule(name, params, vch)]
  {
  }

  lemma AtRuleSplit(cfg: Config, name: string, params: string, ch: seq<Node>, sch: seq<Node>)
    requires SplitForest(cfg, ch) == sch
    ensures SplitNode(cfg, AtRule(name, params, ch)) == [AtRule(name, params, sch)]
  {
  }

  /** A stylesheet of one node: its split share, then its variants. */
  lemma OneNode(cfg: Config, n: Node, split: seq<Node>, variants: seq<Node>)
    requires SplitNode(cfg, n) == split && VariantNode(cfg, n) == variants
    ensures Transformed(cfg, [n]) == split + variants
  {
    SingleNode(cfg, n);
  }

  /** Without a no-webp class, one node with one variant: the node, then the variant. */
  lemma KeptWithVariant(cfg: Config, n: Node, v: Node)
    requires cfg.noWebpClass.None? && VariantNode(cfg, n) == [v]
    ensures Transformed(cfg, [n]) == [n, v]
  {
    NoSplitNode(cfg, n);
    SingleNode(cfg, n);
  }

  /** The variant of a rule with one image declaration. */
  lemma OneImageVariant(cfg: Config, sel: string, d: Decl, scoped: string, d': Decl)
    requires IsImageDecl(cfg, d)
    requires ScopeSelector(cfg.webpClass, sel) == scoped && RewriteDecl(cfg, d) == d'
    ensures VariantNode(cfg, Rule(sel, [d])) == [Rule(scoped, [d'])]
  {
    OneImageDecl(cfg, d);
    RuleVariant(cfg, sel, [d], scoped, [d']);
  }

  // ----- Steps shared by the tests: what one node contributes -----

  /** What node `n` leaves among the originals, and the webp variants it adds. */
  predicate Parts(cfg: Config, n: Node, split: seq<Node>, variants: seq<Node>) {
    SplitNode(cfg, n) == split && VariantNode(cfg, n) == variants
  }

  /** A rule whose one declaration holds no eligible url: kept, and no variant. */
  lemma KeptRuleParts(cfg: Config, sel: string, prop: string, v: string)
    requires !HasEligibleRef(cfg, v)
    ensures Parts(cfg, Rule(sel, [Decl(prop, v)]), [Rule(sel, [Decl(prop, v)])], [])
  {
    OneOtherDecl(cfg, Decl(prop, v));
  }

  /** Without a no-webp class, a rule with one image declaration: kept, and one variant. */
  lemma ImageRuleParts(cfg: Config, sel: string, scoped: string, prop: string, v: string, w: string)
    requires cfg.noWebpClass.None?
    requires HasEligibleRef(cfg, v) && RewriteValue(cfg, v) == w
    requires ScopeSelector(cfg.webpClass, sel) == scoped
    ensures Parts(cfg, Rule(sel, [Decl(prop, v)]), [Rule(sel, [Decl(prop, v)])], [Rule(scoped, [Decl(prop, w)])])
  {
    ImageValue(cfg, prop, v, w);
    NoSplitNode(cfg, Rule(sel, [Decl(prop, v)]));
    OneImageVariant(cfg, sel, Decl(prop, v), scoped, Decl(prop, w));
  }

  /** With a no-webp class, a rule with one image declaration becomes its no-webp clone. */
  lemma SplitImageParts(cfg: Config, sel: string, noSel: string, scoped: string, prop: string, v: string, w: string)
    requires cfg.noWebpClass.Some?
    requires HasEligibleRef(cfg, v) && RewriteValue(cfg, v) == w
    requires ScopeSelector(cfg.noWebpClass.value, sel) == noSel && ScopeSelector(cfg.webpClass, sel) == scoped
    ensures Parts(cfg, Rule(sel, [Decl(prop, v)]), [Rule(noSel, [Decl(prop, v)])], [Rule(scoped, [Decl(prop, w)])])
  {
    var d := Decl(prop, v);
    ImageValue(cfg, prop, v, w);
    OneImageDecl(cfg, d);
    RuleSplit(cfg, sel, [d], noSel, [d], []);
    OneImageVariant(cfg, sel, d, scoped, Decl(prop, w));
  }

  /**
   * With a no-webp class, an image declaration then another one: the clone
   * takes the first, the rule keeps the second.
   */
  lemma SplitImageOtherParts(cfg: Config, sel: string, noSel: string, scoped: string, prop: string, v: string, w: string,
                             d2: Decl)
    requires cfg.noWebpClass.Some?
    requires HasEligibleRef(cfg, v) && RewriteValue(cfg, v) == w
    requires !IsImageDecl(cfg, d2) && !IsCopiedSize(cfg, d2)
    requires ScopeSelector(cfg.noWebpClass.value, sel) == noSel && ScopeSelector(cfg.webpClass, sel) == scoped
    ensures Parts(cfg, Rule(sel, [Decl(prop, v), d2]), [Rule(noSel, [Decl(prop, v)]), Rule(sel, [d2])],
                  [Rule(scoped, [Decl(prop, w)])])
  {
    var d1 := Decl(prop, v);
    ImageValue(cfg, prop, v, w);
    ImageThenOther(cfg, d1, d2);
    RuleSplit(cfg, sel, [d1, d2], noSel, [d1], [d2]);
    assert [Decl(prop, w)] + [] == [Decl(prop, w)];
    RuleVariant(cfg, sel, [d1, d2], scoped, [Decl(prop, w)]);
  }

  /** Without a no-webp class, an image declaration then another one. */
  lemma ImageOtherParts(cfg: Config, sel: string, scoped: string, prop: string, v: string, w: string, d2: Decl)
    requires cfg.noWebpClass.None?
    requires HasEligibleRef(cfg, v) && RewriteValue(cfg, v) == w
    requires !IsImageDecl(cfg, d2)
    requires ScopeSelector(cfg.webpClass, sel) == scoped
    ensures Parts(cfg, Rule(sel, [Decl(prop, v), d2]), [Rule(sel, [Decl(prop, v), d2])],
                  [Rule(scoped, [Decl(prop, w)] + (if IsCopiedSize(cfg, d2) then [d2] else []))])
  {
    var d1 := Decl(prop, v);
    ImageValue(cfg, prop, v, w);
    ImageThenOther(cfg, d1, d2);
    NoSplitNode(cfg, Rule(sel, [d1, d2]));
    RuleVariant(cfg, sel, [d1, d2], scoped, [Decl(prop, w)] + (if IsCopiedSize(cfg, d2) then [d2] else []));
  }

  /** Without a no-webp class, another declaration then an image declaration. */
  lemma OtherImageParts(cfg: Config, sel: string, scoped: string, d1: Decl, prop: string, v: string, w: string)
    requires cfg.noWebpClass.None?
    requires !IsImageDecl(cfg, d1)
    requires HasEligibleRef(cfg, v) && RewriteValue(cfg, v) == w
    requires ScopeSelector(cfg.webpClass, sel) == scoped
    ensures Parts(cfg, Rule(sel, [d1, Decl(prop, v)]), [Rule(sel, [d1, Decl(prop, v)])],
                  [Rule(scoped, (if IsCopiedSize(cfg, d1) then [d1] else []) + [Decl(prop, w)])])
  {
    var d2 := Decl(prop, v);
    ImageValue(cfg, prop, v, w);
    OtherThenImage(cfg, d1, d2);
    NoSplitNode(cfg, Rule(sel, [d1, d2]));
    RuleVariant(cfg, sel, [d1, d2], scoped, (if IsCopiedSize(cfg, d1) then [d1] else []) + [Decl(prop, w)]);
  }

  /** As `ImageOtherParts`, for a second declaration that stays out of the variant. */
  lemma ImageThenPlainParts(cfg: Config, sel: string, scoped: string, prop: string, v: string, w: string, d2: Decl)
    requires cfg.noWebpClass.None?
    requires HasEligibleRef(cfg, v) && RewriteValue(cfg, v) == w
    requires !IsImageDecl(cfg, d2) && !IsCopiedSize(cfg, d2)
    requires ScopeSelector(cfg.webpClass, sel) == scoped
    ensures Parts(cfg, Rule(sel, [Decl(prop, v), d2]), [Rule(sel, [Decl(prop, v), d2])], [Rule(scoped, [Decl(prop, w)])])
  {
    ImageOtherParts(cfg, sel, scoped, prop, v, w, d2);
    assert [Decl(prop, w)] + [] == [Decl(prop, w)];
  }

  /** As `ImageOtherParts`, for a copied `background-size` declaration. */
  lemma ImageThenSizeParts(cfg: Config, sel: string, scoped: string, prop: string, v: string, w: string, d2: Decl)
    requires cfg.noWebpClass.None?
    requires HasEligibleRef(cfg, v) && RewriteValue(cfg, v) == w
    requires !IsImageDecl(cfg, d2) && IsCopiedSize(cfg, d2)
    requires ScopeSelector(cfg.webpClass, sel) == scoped
    ensures Parts(cfg, Rule(sel, [Decl(prop, v), d2]), [Rule(sel, [Decl(prop, v), d2])], [Rule(scoped, [Decl(prop, w), d2])])
  {
    ImageOtherParts(cfg, sel, scoped, prop, v, w, d2);
    assert [Decl(prop, w)] + [d2] == [Decl(prop, w), d2];
  }

  /** As `OtherImageParts`, for a first declaration that stays out of the variant. */
  lemma PlainThenImageParts(cfg: Config, sel: string, scoped: string, d1: Decl, prop: string, v: string, w: string)
    requires cfg.noWebpClass.None?
    requires !IsImageDecl(cfg, d1) && !IsCopiedSize(cfg, d1)
    requires HasEligibleRef(cfg, v) && RewriteValue(cfg, v) == w
    requires ScopeSelector(cfg.webpClass, sel) == scoped
    ensures Parts(cfg, Rule(sel, [d1, Decl(prop, v)]), [Rule(sel, [d1, Decl(prop, v)])], [Rule(scoped, [Decl(prop, w)])])
  {
    OtherImageParts(cfg, sel, scoped, d1, prop, v, w);
    assert [] + [Decl(prop, w)] == [Decl(prop, w)];
  }

  /** An at-rule around nodes with variants: its children split in place, and one copy holding the variants. */
  lemma AtRuleParts(cfg: Config, name: string, params: string, ch: seq<Node>, split: seq<Node>, variants: seq<Node>)
    requires SplitForest(cfg, ch) == split && VariantForest(cfg, ch) == variants && variants != []
    ensures Parts(cfg, AtRule(name, params, ch), [AtRule(name, params, split)], [AtRule(name, params, variants)])
  {
    AtRuleSplit(cfg, name, params, ch, split);
    AtRuleVariant(cfg, name, params, ch, variants);
  }

  /** A forest of one node. */
  lemma OneParts(cfg: Config, n: Node, split: seq<Node>, variants: seq<Node>)
    requires Parts(cfg, n, split, variants)
    ensures SplitForest(cfg, [n]) == split && VariantForest(cfg, [n]) == variants
  {
    SingleNode(cfg, n);
  }

  /** A forest of two nodes. */
  lemma TwoParts(cfg: Config, n1: Node, s1: seq<Node>, v1: seq<Node>, n2: Node, s2: seq<Node>, v2: seq<Node>)
    requires Parts(cfg, n1, s1, v1) && Parts(cfg, n2, s2, v2)
    ensures SplitForest(cfg, [n1, n2]) == s1 + s2 && VariantForest(cfg, [n1, n2]) == v1 + v2
  {
    TwoNodes(cfg, n1, n2);
  }

  /** A forest of two nodes kept in place, of which only the second has variants. */
  lemma KeptThenVariantParts(cfg: Config, n1: Node, n2: Node, v2: seq<Node>)
    requires Parts(cfg, n1, [n1], []) && Parts(cfg, n2, [n2], v2)
    ensures SplitForest(cfg, [n1, n2]) == [n1, n2] && VariantForest(cfg, [n1, n2]) == v2
  {
    TwoParts(cfg, n1, [n1], [], n2, [n2], v2);
    assert [n1] + [n2] == [n1, n2] && [] + v2 == v2;
  }

  /** The output for two nodes: both split shares, then both nodes' variants. */
  lemma TwoNodesTransformed(cfg: Config, n1: Node, s1: seq<Node>, v1: seq<Node>, n2: Node, s2: seq<Node>, v2: seq<Node>)
    requires Parts(cfg, n1, s1, v1) && Parts(cfg, n2, s2, v2)
    ensures Transformed(cfg, [n1, n2]) == s1 + s2 + (v1 + v2)
  {
    TwoParts(cfg, n1, s1, v1, n2, s2, v2);
    TransformedParts(cfg, [n1, n2], s1 + s2, v1 + v2);
  }

  /** Two kept nodes with one variant each: both nodes, then both variants. */
  lemma TwoKeptWithVariants(cfg: Config, n1: Node, m1: Node, n2: Node, m2: Node)
    requires Parts(cfg, n1, [n1], [m1]) && Parts(cfg, n2, [n2], [m2])
    ensures Transformed(cfg, [n1, n2]) == [n1, n2, m1, m2]
  {
    TwoNodesTransformed(cfg, n1, [n1], [m1], n2, [n2], [m2]);
    FourNodes(n1, n2, m1, m2);
  }

  lemma FourNodes(a: Node, b: Node, c: Node, d: Node)
    ensures [a] + [b] + ([c] + [d]) == [a, b, c, d]
  {
  }

  /** The output is the split share followed by the variants. */
  lemma TransformedParts(cfg: Config, ns: seq<Node>, split: seq<Node>, variants: seq<Node>)
    requires SplitForest(cfg, ns) == split && VariantForest(cfg, ns) == variants
    ensures Transformed(cfg, ns) == split + variants
  {
  }

  // ----- Values of the tests -----

  /** `url('test.png')` under the default renaming. */
  lemma QuotedTestPng(cfg: Config)
    requires DefaultRename(cfg) && cfg.minAddClassFileSize == 0
    ensures HasEligibleRef(cfg, "url('test.png')")
    ensures RewriteValue(cfg, "url('test.png')") == "url(test.webp)"
  {
    assert "url('test.png')" == "" + "url(" + ("'" + ("test" + "." + "png") + "'") + ")" + "";
    assert "url(test.webp)" == "" + ("url(" + ("test" + ".webp") + ")") + "";
    LocalRaster(cfg, "", "'", "test", "png", "", "url('test.png')", "url(test.webp)");
  }

  /** `url(test.png)`, `url(test.jpg)` and `url(test.jpeg)` under the default renaming. */
  lemma BareTest(cfg: Config, e: string, v: string)
    requires DefaultRename(cfg) && cfg.minAddClassFileSize == 0
    requires e == "png" || e == "jpg" || e == "jpeg"
    requires v == "url(test." + e + ")"
    ensures HasEligibleRef(cfg, v) && RewriteValue(cfg, v) == "url(test.webp)"
  {
    assert v == "" + "url(" + ("" + ("test" + "." + e) + "") + ")" + "";
    assert "url(test.webp)" == "" + ("url(" + ("test" + ".webp") + ")") + "";
    LocalRaster(cfg, "", "", "test", e, "", v, "url(test.webp)");
  }

  /** `transparent url(test.png)` and the plain text after it, under the default renaming. */
  lemma TransparentTestPng(cfg: Config, b: string)
    requires DefaultRename(cfg) && cfg.minAddClassFileSize == 0 && '(' !in b
    ensures HasEligibleRef(cfg, "transparent url(test.png)" + b)
    ensures RewriteValue(cfg, "transparent url(test.png)" + b) == "transparent url(test.webp)" + b
  {
    var v, w := "transparent url(test.png)" + b, "transparent url(test.webp)" + b;
    assert "transparent url(test.png)" == "transparent " + "url(" + ("" + ("test" + "." + "png") + "") + ")";
    assert "transparent url(test.webp)" == "transparent " + ("url(" + ("test" + ".webp") + ")");
    assert v == "transparent " + "url(" + ("" + ("test" + "." + "png") + "") + ")" + b;
    assert w == "transparent " + ("url(" + ("test" + ".webp") + ")") + b;
    LocalRaster(cfg, "transparent ", "", "test", "png", b, v, w);
  }

  /** An eligible token `url(s)` whose url `u` is written `s` (bare or quoted) and rewritten to `nu`. */
  predicate Layer(cfg: Config, q: string, u: string, s: string, nu: string)
  {
    (q == "" || q == "'" || q == "\"")
    && u != [] && u[0] != '\'' && u[0] != '"' && ')' !in u && s == q + u + q
    && Eligible(cfg, u) && NewUrl(cfg, u) == nu
  }

  /** Three eligible layers `url(s)`, the first two followed by plain text. */
  lemma ThreeTokens(cfg: Config, q1: string, u1: string, s1: string, nu1: string, t1: string,
                    q2: string, u2: string, s2: string, nu2: string, t2: string,
                    q3: string, u3: string, s3: string, nu3: string)
    requires Layer(cfg, q1, u1, s1, nu1) && Layer(cfg, q2, u2, s2, nu2) && Layer(cfg, q3, u3, s3, nu3)
    requires '(' !in t1 && '(' !in t2
    ensures var v := ("url(" + s1 + ")" + t1) + ("url(" + s2 + ")" + t2) + ("url(" + s3 + ")");
      HasEligibleRef(cfg, v)
      && RewriteValue(cfg, v) == ("url(" + nu1 + ")" + t1) + ("url(" + nu2 + ")" + t2) + ("url(" + nu3 + ")")
  {
    var v3, w3 := t2 + "url(" + (q3 + u3 + q3) + ")" + "", t2 + ("url(" + nu3 + ")") + "";
    var v2, w2 := t1 + "url(" + (q2 + u2 + q2) + ")" + v3, t1 + ("url(" + nu2 + ")") + w3;
    var v1, w1 := "" + "url(" + (q1 + u1 + q1) + ")" + v2, "" + ("url(" + nu1 + ")") + w2;
    RewritePlain(cfg, "");
    TokenThen(cfg, t2, q3, u3, "", nu3, "", v3, w3);
    TokenThen(cfg, t1, q2, u2, v3, nu2, w3, v2, w2);
    TokenEligible(cfg, "", q1, u1, v2, v1);
    TokenThen(cfg, "", q1, u1, v2, nu1, w2, v1, w1);
    RegroupLayers(s1, t1, s2, t2, s3);
    RegroupResults(nu1, t1, nu2, t2, nu3);
  }

  lemma RegroupLayers(s1: string, t1: string, s2: string, t2: string, s3: string)
    ensures ("url(" + s1 + ")" + t1) + ("url(" + s2 + ")" + t2) + ("url(" + s3 + ")")
         == "" + "url(" + s1 + ")" + (t1 + "url(" + s2 + ")" + (t2 + "url(" + s3 + ")" + ""))
  {
  }

  lemma RegroupResults(s1: string, t1: string, s2: string, t2: string, s3: string)
    ensures ("url(" + s1 + ")" + t1) + ("url(" + s2 + ")" + t2) + ("url(" + s3 + ")")
         == "" + ("url(" + s1 + ")") + (t1 + ("url(" + s2 + ")") + (t2 + ("url(" + s3 + ")") + ""))
  {
  }

  /** A file name without a dot, without `)`, and not starting like a data, remote or quoted url. */
  predicate BaseName(base: string)
  {
    '.' !in base && ')' !in base && base != []
    && base[0] != 'd' && base[0] != '/' && base[0] != 'h' && base[0] != '\'' && base[0] != '"'
  }

  /** `s` is the png, jpg or jpeg file `base`, bare or in quotes `q`; `nu` is its webp name. */
  predicate RasterTokenBy(s: string, base: string, nu: string, q: string, e: string)
  {
    (q == "" || q == "'" || q == "\"") && (e == "png" || e == "jpg" || e == "jpeg")
    && BaseName(base) && s == q + (base + "." + e) + q && nu == base + ".webp"
  }

  ghost predicate RasterToken(s: string, base: string, nu: string)
  {
    exists q, e :: RasterTokenBy(s, base, nu, q, e)
  }

  /** A local png, jpg or jpeg token, bare or quoted, renamed to `.webp` by default. */
  lemma RasterLayer(cfg: Config, q: string, base: string, e: string, u: string, s: string, nu: string)
    requires DefaultRename(cfg)
    requires q == "" || q == "'" || q == "\""
    requires e == "png" || e == "jpg" || e == "jpeg"
    requires BaseName(base)
    requires u == base + "." + e && s == q + u + q && nu == base + ".webp" && SizeGate(cfg, u)
    ensures Layer(cfg, q, u, s, nu)
  {
    LocalRasterUrl(cfg, base, e, u);
    assert u[0] == base[0];
    assert ')' !in "." + e;
  }

  /** Three local png, jpg or jpeg layers, bare or quoted, the first two followed by plain text. */
  lemma ThreeRasterLayers(cfg: Config, s1: string, b1: string, nu1: string, t1: string,
                          s2: string, b2: string, nu2: string, t2: string, s3: string, b3: string, nu3: string)
    requires DefaultRename(cfg) && cfg.minAddClassFileSize == 0
    requires RasterToken(s1, b1, nu1) && RasterToken(s2, b2, nu2) && RasterToken(s3, b3, nu3)
    requires '(' !in t1 && '(' !in t2
    ensures var v := ("url(" + s1 + ")" + t1) + ("url(" + s2 + ")" + t2) + ("url(" + s3 + ")");
      HasEligibleRef(cfg, v)
      && RewriteValue(cfg, v) == ("url(" + nu1 + ")" + t1) + ("url(" + nu2 + ")" + t2) + ("url(" + nu3 + ")")
  {
    var q1, e1 :| RasterTokenBy(s1, b1, nu1, q1, e1);
    var q2, e2 :| RasterTokenBy(s2, b2, nu2, q2, e2);
    var q3, e3 :| RasterTokenBy(s3, b3, nu3, q3, e3);
    RasterLayer(cfg, q1, b1, e1, b1 + "." + e1, s1, nu1);
    RasterLayer(cfg, q2, b2, e2, b2 + "." + e2, s2, nu2);
    RasterLayer(cfg, q3, b3, e3, b3 + "." + e3, s3, nu3);
    ThreeTokens(cfg, q1, b1 + "." + e1, s1, nu1, t1, q2, b2 + "." + e2, s2, nu2, t2, q3, b3 + "." + e3, s3, nu3);
  }

  lemma NumberLayerLiterals()
    ensures RasterToken("number.png", "number", "number.webp") && '(' !in " 600px 10px no-repeat,\n"
  {
    assert RasterTokenBy("number.png", "number", "number.webp", "", "png");
  }

  lemma ThingyLayerLiterals()
    ensures RasterToken("\"thingy.png\"", "thingy", "thingy.webp") && '(' !in " 10px 10px no-repeat,\n"
  {
    assert RasterTokenBy("\"thingy.png\"", "thingy", "thingy.webp", "\"", "png");
  }

  lemma PaperLayerLiterals()
    ensures RasterToken("'Paper-4.png'", "Paper-4", "Paper-4.webp")
  {
    assert RasterTokenBy("'Paper-4.png'", "Paper-4", "Paper-4.webp", "'", "png");
  }

  /** The three urls of a layered background, each rewritten where it stands. */
  lemma ThreeLayers(cfg: Config)
    requires DefaultRename(cfg) && cfg.minAddClassFileSize == 0
    ensures var t1, t2 := " 600px 10px no-repeat,\n", " 10px 10px no-repeat,\n";
      var v := ("url(" + "number.png" + ")" + t1) + ("url(" + "\"thingy.png\"" + ")" + t2) + ("url(" + "'Paper-4.png'" + ")");
      HasEligibleRef(cfg, v)
      && RewriteValue(cfg, v) == ("url(" + "number.webp" + ")" + t1) + ("url(" + "thingy.webp" + ")" + t2) + ("url(" + "Paper-4.webp" + ")")
  {
    NumberLayerLiterals();
    ThingyLayerLiterals();
    PaperLayerLiterals();
    ThreeRasterLayers(cfg, "number.png", "number", "number.webp", " 600px 10px no-repeat,\n",
                      "\"thingy.png\"", "thingy", "thingy.webp", " 10px 10px no-repeat,\n",
                      "'Paper-4.png'", "Paper-4", "Paper-4.webp");
  }
}
