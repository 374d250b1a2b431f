/**
 * The cases of the transform's test suite (test/main_spec.js), each stated
 * on the parsed stylesheet: the nodes a test feeds in, and the nodes it
 * expects back, in order.
 */
module TestSuite {
  import opened Wrappers
  import opened Strings
  import opened Options
  import opened UrlValue
  import opened UrlValueFacts
  import opened Selector
  import opened CssTree
  import opened Duplicator
  import opened DuplicatorFacts
  import opened Scenarios

  /** `.test { backround: red; }` is left as it is. */
  lemma NotModifySample(cfg: Config)
    requires cfg == Defaults()
    ensures Transformed(cfg, [Rule(".test", [Decl("backround", "red")])])
      == [Rule(".test", [Decl("backround", "red")])]
  {
    RewritePlain(cfg, "red");
    KeptRuleParts(cfg, ".test", "backround", "red");
    OneNode(cfg, Rule(".test", [Decl("backround", "red")]), [Rule(".test", [Decl("backround", "red")])], []);
  }

  /** `html.test` becomes `html.webp.test`, and the quotes of the url go. */
  lemma HtmlTag(cfg: Config)
    requires cfg == Defaults()
    ensures Transformed(cfg, [Rule("html.test", [Decl("background", "url('test.png')")])])
      == [Rule("html.test", [Decl("background", "url('test.png')")]),
          Rule("html.webp.test", [Decl("background", "url(test.webp)")])]
  {
    NotStartsWith("html.test", ".webp");
    assert "html.webp.test" == "html" + ".webp" + "html.test"[4..];
    ScopeHtmlSelector(".webp", "html.test", "html.webp.test");
    QuotedTestPng(cfg);
    ImageRuleParts(cfg, "html.test", "html.webp.test", "background", "url('test.png')", "url(test.webp)");
    KeptWithVariant(cfg, Rule("html.test", [Decl("background", "url('test.png')")]),
                    Rule("html.webp.test", [Decl("background", "url(test.webp)")]));
  }

  /** `border-image` urls are replaced like `background` ones. */
  lemma BorderImage(cfg: Config)
    requires cfg == Defaults()
    ensures Transformed(cfg, [Rule(".test", [Decl("border-image", "url('test.png')")])])
      == [Rule(".test", [Decl("border-image", "url('test.png')")]),
          Rule(".webp .test", [Decl("border-image", "url(test.webp)")])]
  {
    WebpTest();
    QuotedTestPng(cfg);
    ImageRuleParts(cfg, ".test", ".webp .test", "border-image", "url('test.png')", "url(test.webp)");
    KeptWithVariant(cfg, Rule(".test", [Decl("border-image", "url('test.png')")]),
                    Rule(".webp .test", [Decl("border-image", "url(test.webp)")]));
  }

  /** A class named `.html` is not the `html` element. */
  lemma HtmlClassName(cfg: Config)
    requires cfg == Defaults()
    ensures Transformed(cfg, [Rule(".html.test", [Decl("background", "url('test.png')")])])
      == [Rule(".html.test", [Decl("background", "url('test.png')")]),
          Rule(".webp .html.test", [Decl("background", "url(test.webp)")])]
  {
    assert ".webp .html.test" == ".webp" + " " + ".html.test";
    ScopeClassSelector(".webp", ".html.test", ".webp .html.test");
    QuotedTestPng(cfg);
    ImageRuleParts(cfg, ".html.test", ".webp .html.test", "background", "url('test.png')", "url(test.webp)");
    KeptWithVariant(cfg, Rule(".html.test", [Decl("background", "url('test.png')")]),
                    Rule(".webp .html.test", [Decl("background", "url(test.webp)")]));
  }

  /** Each selector of a list is scoped. */
  lemma MultipleSelectors(cfg: Config)
    requires cfg == Defaults()
    ensures Transformed(cfg, [Rule(".test1, .test2", [Decl("background", "url('test.png')")])])
      == [Rule(".test1, .test2", [Decl("background", "url('test.png')")]),
          Rule(".webp .test1, .webp .test2", [Decl("background", "url(test.webp)")])]
  {
    assert ".test1, .test2" == ".test1" + ", " + ".test2";
    assert ".webp .test1, .webp .test2" == (".webp" + " " + ".test1") + ", " + (".webp" + " " + ".test2");
    DiffersAt(".test1", ".webp", 1);
    DiffersAt(".test2", ".webp", 1);
    ScopeTwoSelectors(".webp", ".test1", ".test2");
    QuotedTestPng(cfg);
    ImageRuleParts(cfg, ".test1, .test2", ".webp .test1, .webp .test2", "background", "url('test.png')",
                   "url(test.webp)");
    KeptWithVariant(cfg, Rule(".test1, .test2", [Decl("background", "url('test.png')")]),
                    Rule(".webp .test1, .webp .test2", [Decl("background", "url(test.webp)")]));
  }

  /** `url(test.jpg)` in `background-image`. */
  lemma DefaultJpg(cfg: Config)
    requires cfg == Defaults()
    ensures Transformed(cfg, [Rule(".test", [Decl("background-image", "url(test.jpg)")])])
      == [Rule(".test", [Decl("background-image", "url(test.jpg)")]),
          Rule(".webp .test", [Decl("background-image", "url(test.webp)")])]
  {
    BareTest(cfg, "jpg", "url(test.jpg)");
    WebpTest();
    ImageRuleParts(cfg, ".test", ".webp .test", "background-image", "url(test.jpg)", "url(test.webp)");
    KeptWithVariant(cfg, Rule(".test", [Decl("background-image", "url(test.jpg)")]),
                    Rule(".webp .test", [Decl("background-image", "url(test.webp)")]));
  }

  /** `url(test.jpeg)` in `background`. */
  lemma DefaultJpeg(cfg: Config)
    requires cfg == Defaults()
    ensures Transformed(cfg, [Rule(".test", [Decl("background", "url(test.jpeg)")])])
      == [Rule(".test", [Decl("background", "url(test.jpeg)")]),
          Rule(".webp .test", [Decl("background", "url(test.webp)")])]
  {
    BareTest(cfg, "jpeg", "url(test.jpeg)");
    WebpTest();
    ImageRuleParts(cfg, ".test", ".webp .test", "background", "url(test.jpeg)", "url(test.webp)");
    KeptWithVariant(cfg, Rule(".test", [Decl("background", "url(test.jpeg)")]),
                    Rule(".webp .test", [Decl("background", "url(test.webp)")]));
  }

  /** The text around the url stays where it is. */
  lemma UrlWithParams(cfg: Config)
    requires cfg == Defaults()
    ensures Transformed(cfg, [Rule(".test", [Decl("background", "transparent url(test.png) no-repeat")])])
      == [Rule(".test", [Decl("background", "transparent url(test.png) no-repeat")]),
          Rule(".webp .test", [Decl("background", "transparent url(test.webp) no-repeat")])]
  {
    assert "transparent url(test.png) no-repeat" == "transparent url(test.png)" + " no-repeat";
    assert "transparent url(test.webp) no-repeat" == "transparent url(test.webp)" + " no-repeat";
    TransparentTestPng(cfg, " no-repeat");
    WebpTest();
    ImageRuleParts(cfg, ".test", ".webp .test", "background", "transparent url(test.png) no-repeat",
                   "transparent url(test.webp) no-repeat");
    KeptWithVariant(cfg, Rule(".test", [Decl("background", "transparent url(test.png) no-repeat")]),
                    Rule(".webp .test", [Decl("background", "transparent url(test.webp) no-repeat")]));
  }

  /** Every url of a layered `background` is replaced where it stands. */
  lemma MultipleUrls(cfg: Config)
    requires cfg == Defaults()
    ensures var t1, t2 := " 600px 10px no-repeat,\n", " 10px 10px no-repeat,\n";
      var v := ("url(" + "number.png" + ")" + t1) + ("url(" + "\"thingy.png\"" + ")" + t2) + ("url(" + "'Paper-4.png'" + ")");
      var w := ("url(" + "number.webp" + ")" + t1) + ("url(" + "thingy.webp" + ")" + t2) + ("url(" + "Paper-4.webp" + ")");
      Transformed(cfg, [Rule(".img_play_photo_multiple", [Decl("background", v)])])
        == [Rule(".img_play_photo_multiple", [Decl("background", v)]),
            Rule(".webp .img_play_photo_multiple", [Decl("background", w)])]
  {
    var t1, t2 := " 600px 10px no-repeat,\n", " 10px 10px no-repeat,\n";
    var v := ("url(" + "number.png" + ")" + t1) + ("url(" + "\"thingy.png\"" + ")" + t2) + ("url(" + "'Paper-4.png'" + ")");
    var w := ("url(" + "number.webp" + ")" + t1) + ("url(" + "thingy.webp" + ")" + t2) + ("url(" + "Paper-4.webp" + ")");
    ThreeLayers(cfg);
    WebpImgPlayPhotoMultiple();
    ImageRuleParts(cfg, ".img_play_photo_multiple", ".webp .img_play_photo_multiple", "background", v, w);
    KeptWithVariant(cfg, Rule(".img_play_photo_multiple", [Decl("background", v)]),
                    Rule(".webp .img_play_photo_multiple", [Decl("background", w)]));
  }

  /** Two rules: both originals first, then both variants. */
  lemma MixedClasses(cfg: Config)
    requires cfg == Defaults()
    ensures Transformed(cfg, [Rule(".test1", [Decl("background", "url(\"test1.jpeg\")")]),
                                     Rule(".test2", [Decl("background-image", "url('test2.png')")])])
      == [Rule(".test1", [Decl("background", "url(\"test1.jpeg\")")]),
          Rule(".test2", [Decl("background-image", "url('test2.png')")]),
          Rule(".webp .test1", [Decl("background", "url(test1.webp)")]),
          Rule(".webp .test2", [Decl("background-image", "url(test2.webp)")])]
  {
    var n1, n2 := Rule(".test1", [Decl("background", "url(\"test1.jpeg\")")]),
                  Rule(".test2", [Decl("background-image", "url('test2.png')")]);
    var m1, m2 := Rule(".webp .test1", [Decl("background", "url(test1.webp)")]),
                  Rule(".webp .test2", [Decl("background-image", "url(test2.webp)")]);
    QuotedTest1Jpeg(cfg);
    QuotedTest2Png(cfg);
    WebpTest1AndTest2();
    ImageRuleParts(cfg, ".test1", ".webp .test1", "background", "url(\"test1.jpeg\")", "url(test1.webp)");
    ImageRuleParts(cfg, ".test2", ".webp .test2", "background-image", "url('test2.png')", "url(test2.webp)");
    TwoKeptWithVariants(cfg, n1, m1, n2, m2);
  }

  /** A gif is not in the default pattern: nothing changes. */
  lemma DefaultGifKept(cfg: Config)
    requires cfg == Defaults()
    ensures Transformed(cfg, [Rule(".test", [Decl("background", "url(test.gif)")])])
      == [Rule(".test", [Decl("background", "url(test.gif)")])]
  {
    assert "url(test.gif)" == "" + "url(" + "test.gif" + ")" + "";
    assert Unquote("test.gif") == "test.gif";
    GifUnmatched("test", "test.gif");
    UnmatchedNotEligible(cfg, "test.gif");
    IneligibleToken(cfg, "", "test.gif", "", "url(test.gif)");
    KeptRuleParts(cfg, ".test", "background", "url(test.gif)");
    OneNode(cfg, Rule(".test", [Decl("background", "url(test.gif)")]),
            [Rule(".test", [Decl("background", "url(test.gif)")])], []);
  }

  /** In a list of urls, only the jpg is replaced. */
  lemma DefaultGifAndJpg(cfg: Config)
    requires cfg == Defaults()
    ensures var v, w := "url(test.gif)" + ", url(\"test1.jpg\")", "url(test.gif)" + ", url(test1.webp)";
      Transformed(cfg, [Rule(".test", [Decl("background", v)])])
        == [Rule(".test", [Decl("background", v)]), Rule(".webp .test", [Decl("background", w)])]
  {
    var v, w := "url(test.gif)" + ", url(\"test1.jpg\")", "url(test.gif)" + ", url(test1.webp)";
    GifAndJpgValue(cfg);
    WebpTest();
    ImageRuleParts(cfg, ".test", ".webp .test", "background", v, w);
    KeptWithVariant(cfg, Rule(".test", [Decl("background", v)]), Rule(".webp .test", [Decl("background", w)]));
  }

  /** A custom `webpClass` scopes the variant. */
  lemma CustomWebpClass(cfg: Config)
    requires cfg == Defaults().(webpClass := ".webp1")
    ensures Transformed(cfg, [Rule(".test", [Decl("background-image", "url(test.png)")])])
      == [Rule(".test", [Decl("background-image", "url(test.png)")]),
          Rule(".webp1 .test", [Decl("background-image", "url(test.webp)")])]
  {
    BareTest(cfg, "png", "url(test.png)");
    Webp1Test();
    ImageRuleParts(cfg, ".test", ".webp1 .test", "background-image", "url(test.png)", "url(test.webp)");
    KeptWithVariant(cfg, Rule(".test", [Decl("background-image", "url(test.png)")]),
                    Rule(".webp1 .test", [Decl("background-image", "url(test.webp)")]));
  }

  /** With a no-webp class the rule itself is scoped under it, in place. */
  lemma NoWebpBackgroundImage(cfg: Config)
    requires cfg == Defaults().(noWebpClass := Some(".no-webp"))
    ensures Transformed(cfg, [Rule(".test", [Decl("background-image", "url(test.png)")])])
      == [Rule(".no-webp .test", [Decl("background-image", "url(test.png)")]),
          Rule(".webp .test", [Decl("background-image", "url(test.webp)")])]
  {
    BareTest(cfg, "png", "url(test.png)");
    NoWebpTest();
    WebpTest();
    SplitImageParts(cfg, ".test", ".no-webp .test", ".webp .test", "background-image", "url(test.png)", "url(test.webp)");
    OneNode(cfg, Rule(".test", [Decl("background-image", "url(test.png)")]),
            [Rule(".no-webp .test", [Decl("background-image", "url(test.png)")])],
            [Rule(".webp .test", [Decl("background-image", "url(test.webp)")])]);
  }

  /** The same in a `background` shorthand. */
  lemma NoWebpBackground(cfg: Config)
    requires cfg == Defaults().(noWebpClass := Some(".no-webp"))
    ensures Transformed(cfg, [Rule(".test", [Decl("background", "transparent url(test.png)")])])
      == [Rule(".no-webp .test", [Decl("background", "transparent url(test.png)")]),
          Rule(".webp .test", [Decl("background", "transparent url(test.webp)")])]
  {
    TransparentLiterals();
    TransparentTestPng(cfg, "");
    NoWebpTest();
    WebpTest();
    SplitImageParts(cfg, ".test", ".no-webp .test", ".webp .test", "background", "transparent url(test.png)",
                    "transparent url(test.webp)");
    OneNode(cfg, Rule(".test", [Decl("background", "transparent url(test.png)")]),
            [Rule(".no-webp .test", [Decl("background", "transparent url(test.png)")])],
            [Rule(".webp .test", [Decl("background", "transparent url(test.webp)")])]);
  }

  /** The other declarations stay under the bare selector, in a rule of their own after the scoped one. */
  lemma NoWebpOtherDecl(cfg: Config)
    requires cfg == Defaults().(noWebpClass := Some(".no-webp"))
    ensures Transformed(cfg, [Rule(".test", [Decl("background", "transparent url(test.png)"), Decl("color", "red")])])
      == [Rule(".no-webp .test", [Decl("background", "transparent url(test.png)")]),
          Rule(".test", [Decl("color", "red")]),
          Rule(".webp .test", [Decl("background", "transparent url(test.webp)")])]
  {
    TransparentLiterals();
    PlainLiterals();
    TransparentTestPng(cfg, "");
    RewritePlain(cfg, "red");
    NoWebpTest();
    WebpTest();
    SplitImageOtherParts(cfg, ".test", ".no-webp .test", ".webp .test", "background", "transparent url(test.png)",
                         "transparent url(test.webp)", Decl("color", "red"));
    OneNode(cfg, Rule(".test", [Decl("background", "transparent url(test.png)"), Decl("color", "red")]),
            [Rule(".no-webp .test", [Decl("background", "transparent url(test.png)")]), Rule(".test", [Decl("color", "red")])],
            [Rule(".webp .test", [Decl("background", "transparent url(test.webp)")])]);
  }

  /** The split happens inside the `@media` block; the variant goes in a copy of the block, after it. */
  lemma NoWebpInMedia(cfg: Config)
    requires cfg == Defaults().(noWebpClass := Some(".no-webp"))
    ensures var m := "screen and (min-width: 500px)";
      Transformed(cfg, [AtRule("media", m, [Rule(".test", [Decl("background", "transparent url(test.png)"), Decl("color", "red")])])])
      == [AtRule("media", m, [Rule(".no-webp .test", [Decl("background", "transparent url(test.png)")]),
                              Rule(".test", [Decl("color", "red")])]),
          AtRule("media", m, [Rule(".webp .test", [Decl("background", "transparent url(test.webp)")])])]
  {
    var m := "screen and (min-width: 500px)";
    var n := Rule(".test", [Decl("background", "transparent url(test.png)"), Decl("color", "red")]);
    var split := [Rule(".no-webp .test", [Decl("background", "transparent url(test.png)")]), Rule(".test", [Decl("color", "red")])];
    var variants := [Rule(".webp .test", [Decl("background", "transparent url(test.webp)")])];
    TransparentLiterals();
    PlainLiterals();
    TransparentTestPng(cfg, "");
    RewritePlain(cfg, "red");
    NoWebpTest();
    WebpTest();
    SplitImageOtherParts(cfg, ".test", ".no-webp .test", ".webp .test", "background", "transparent url(test.png)",
                         "transparent url(test.webp)", Decl("color", "red"));
    OneParts(cfg, n, split, variants);
    AtRuleParts(cfg, "media", m, [n], split, variants);
    OneNode(cfg, AtRule("media", m, [n]), [AtRule("media", m, split)], [AtRule("media", m, variants)]);
  }

  /** `replace_from: /\.gif/g` makes gif urls eligible and renames them. */
  lemma ReplaceFromGif(cfg: Config)
    requires cfg == Defaults().(replaceFrom := Pattern(["gif"], false))
    ensures Transformed(cfg, [Rule(".test", [Decl("background", "url(test.gif)")])])
      == [Rule(".test", [Decl("background", "url(test.gif)")]),
          Rule(".webp .test", [Decl("background", "url(test.webp)")])]
  {
    GifPatternValue(cfg);
    WebpTest();
    ImageRuleParts(cfg, ".test", ".webp .test", "background", "url(test.gif)", "url(test.webp)");
    KeptWithVariant(cfg, Rule(".test", [Decl("background", "url(test.gif)")]),
                    Rule(".webp .test", [Decl("background", "url(test.webp)")]));
  }

  /** Remote urls behind `//`, `http://` and `https://` are replaced by default. */
  lemma RemoteReplaced(cfg: Config, prefix: string)
    requires cfg == Defaults()
    requires prefix == "//" || prefix == "http://" || prefix == "https://"
    ensures var v, w := "url(" + (prefix + "foo.com/test.jpg") + ")", "url(" + (prefix + "foo.com/test.webp") + ")";
      Transformed(cfg, [Rule(".test", [Decl("background-image", v)])])
        == [Rule(".test", [Decl("background-image", v)]), Rule(".webp .test", [Decl("background-image", w)])]
  {
    var v, w := "url(" + (prefix + "foo.com/test.jpg") + ")", "url(" + (prefix + "foo.com/test.webp") + ")";
    RemoteValue(cfg, prefix);
    WebpTest();
    ImageRuleParts(cfg, ".test", ".webp .test", "background-image", v, w);
    KeptWithVariant(cfg, Rule(".test", [Decl("background-image", v)]), Rule(".webp .test", [Decl("background-image", w)]));
  }

  /** With `replaceRemoteImage: false` the same stylesheets are left as they are. */
  lemma RemoteKept(cfg: Config, prefix: string)
    requires cfg == Defaults().(replaceRemoteImage := false)
    requires prefix == "//" || prefix == "http://" || prefix == "https://"
    ensures var v := "url(" + (prefix + "foo.com/test.jpg") + ")";
      Transformed(cfg, [Rule(".test", [Decl("background-image", v)])])
        == [Rule(".test", [Decl("background-image", v)])]
  {
    var v := "url(" + (prefix + "foo.com/test.jpg") + ")";
    RemoteKeptValue(cfg, prefix);
    KeptRuleParts(cfg, ".test", "background-image", v);
    OneNode(cfg, Rule(".test", [Decl("background-image", v)]), [Rule(".test", [Decl("background-image", v)])], []);
  }

  /** `background-size` stays out of the variant by default. */
  lemma BackgroundSizeNotCopied(cfg: Config)
    requires cfg == Defaults()
    ensures Transformed(cfg, [Rule(".test", [Decl("background-image", "url(test.jpg)"), Decl("background-size", "auto")])])
      == [Rule(".test", [Decl("background-image", "url(test.jpg)"), Decl("background-size", "auto")]),
          Rule(".webp .test", [Decl("background-image", "url(test.webp)")])]
  {
    PlainLiterals();
    BareTest(cfg, "jpg", "url(test.jpg)");
    RewritePlain(cfg, "auto");
    WebpTest();
    assert !IsCopiedSize(cfg, Decl("background-size", "auto"));
    ImageThenPlainParts(cfg, ".test", ".webp .test", "background-image", "url(test.jpg)", "url(test.webp)",
                    Decl("background-size", "auto"));
    KeptWithVariant(cfg, Rule(".test", [Decl("background-image", "url(test.jpg)"), Decl("background-size", "auto")]),
                    Rule(".webp .test", [Decl("background-image", "url(test.webp)")]));
  }

  /** With `copyBackgroundSize: true` the variant carries `background-size` too. */
  lemma BackgroundSizeCopied(cfg: Config)
    requires cfg == Defaults().(copyBackgroundSize := true)
    ensures Transformed(cfg, [Rule(".test", [Decl("background-image", "url(test.jpg)"), Decl("background-size", "auto")])])
      == [Rule(".test", [Decl("background-image", "url(test.jpg)"), Decl("background-size", "auto")]),
          Rule(".webp .test", [Decl("background-image", "url(test.webp)"), Decl("background-size", "auto")])]
  {
    PlainLiterals();
    BareTest(cfg, "jpg", "url(test.jpg)");
    RewritePlain(cfg, "auto");
    WebpTest();
    assert IsCopiedSize(cfg, Decl("background-size", "auto"));
    ImageThenSizeParts(cfg, ".test", ".webp .test", "background-image", "url(test.jpg)", "url(test.webp)",
                    Decl("background-size", "auto"));
    KeptWithVariant(cfg, Rule(".test", [Decl("background-image", "url(test.jpg)"), Decl("background-size", "auto")]),
                    Rule(".webp .test", [Decl("background-image", "url(test.webp)"), Decl("background-size", "auto")]));
  }

  /** `replace_to: ".other"` replaces the matched extension with that text. */
  lemma ReplaceToText(cfg: Config)
    requires cfg == Defaults().(replaceTo := Template(".other"))
    ensures Transformed(cfg, [Rule(".test", [Decl("background-image", "url(test.jpg)")])])
      == [Rule(".test", [Decl("background-image", "url(test.jpg)")]),
          Rule(".webp .test", [Decl("background-image", "url(test.other)")])]
  {
    OtherTemplateValue(cfg);
    WebpTest();
    ImageRuleParts(cfg, ".test", ".webp .test", "background-image", "url(test.jpg)", "url(test.other)");
    KeptWithVariant(cfg, Rule(".test", [Decl("background-image", "url(test.jpg)")]),
                    Rule(".webp .test", [Decl("background-image", "url(test.other)")]));
  }

  /** A `replace_to` callback is handed the url and its answer is the new url, whatever it is. */
  lemma ReplaceToFunction(cfg: Config, f: string -> string)
    requires cfg == Defaults().(replaceTo := Call(f))
    ensures Transformed(cfg, [Rule(".test", [Decl("background-image", "url(test.jpg)")])])
      == [Rule(".test", [Decl("background-image", "url(test.jpg)")]),
          Rule(".webp .test", [Decl("background-image", "url(" + f("test.jpg") + ")")])]
  {
    CallbackValue(cfg, f);
    WebpTest();
    ImageRuleParts(cfg, ".test", ".webp .test", "background-image", "url(test.jpg)", "url(" + f("test.jpg") + ")");
    KeptWithVariant(cfg, Rule(".test", [Decl("background-image", "url(test.jpg)")]),
                    Rule(".webp .test", [Decl("background-image", "url(" + f("test.jpg") + ")")]));
  }

  /** `replace_to: ".$1.webp"` keeps the old extension in front of `.webp`; `color` stays out of the variant. */
  lemma ReplaceToGroup(cfg: Config)
    requires cfg == Defaults().(replaceTo := Template(".$1.webp"))
    ensures Transformed(cfg, [Rule(".icon", [Decl("color", "#222"), Decl("background-image", "url('../images/icon.png')")])])
      == [Rule(".icon", [Decl("color", "#222"), Decl("background-image", "url('../images/icon.png')")]),
          Rule(".webp .icon", [Decl("background-image", "url(../images/icon.png.webp)")])]
  {
    PlainLiterals();
    GroupTemplateValue(cfg);
    RewritePlain(cfg, "#222");
    WebpIcon();
    assert !IsCopiedSize(cfg, Decl("color", "#222"));
    PlainThenImageParts(cfg, ".icon", ".webp .icon", Decl("color", "#222"), "background-image", "url('../images/icon.png')",
                    "url(../images/icon.png.webp)");
    KeptWithVariant(cfg, Rule(".icon", [Decl("color", "#222"), Decl("background-image", "url('../images/icon.png')")]),
                    Rule(".webp .icon", [Decl("background-image", "url(../images/icon.png.webp)")]));
  }

  /** A rule inside `@media`: the variant goes in a copy of the block, after the block. */
  lemma MediaQuery(cfg: Config)
    requires cfg == Defaults()
    ensures var m := "all and (min-width:100px)";
      Transformed(cfg, [AtRule("media", m, [Rule(".test", [Decl("background-image", "url(test.jpg)")])])])
        == [AtRule("media", m, [Rule(".test", [Decl("background-image", "url(test.jpg)")])]),
            AtRule("media", m, [Rule(".webp .test", [Decl("background-image", "url(test.webp)")])])]
  {
    var m := "all and (min-width:100px)";
    var n, nv := Rule(".test", [Decl("background-image", "url(test.jpg)")]), Rule(".webp .test", [Decl("background-image", "url(test.webp)")]);
    BareTest(cfg, "jpg", "url(test.jpg)");
    WebpTest();
    ImageRuleParts(cfg, ".test", ".webp .test", "background-image", "url(test.jpg)", "url(test.webp)");
    OneParts(cfg, n, [n], [nv]);
    AtRuleParts(cfg, "media", m, [n], [n], [nv]);
    OneNode(cfg, AtRule("media", m, [n]), [AtRule("media", m, [n])], [AtRule("media", m, [nv])]);
  }

  /** Nested `@media` blocks: the variant is wrapped in copies of both, outermost first. */
  lemma NestedMediaQueries(cfg: Config)
    requires cfg == Defaults()
    ensures var m1, m2 := "all and (max-width:200px)", "all and (min-width:100px)";
      var n, nv := Rule(".test", [Decl("background-image", "url(test.jpg)")]), Rule(".webp .test", [Decl("background-image", "url(test.webp)")]);
      Transformed(cfg, [AtRule("media", m1, [AtRule("media", m2, [n])])])
        == [AtRule("media", m1, [AtRule("media", m2, [n])]), AtRule("media", m1, [AtRule("media", m2, [nv])])]
  {
    var m1, m2 := "all and (max-width:200px)", "all and (min-width:100px)";
    var n, nv := Rule(".test", [Decl("background-image", "url(test.jpg)")]), Rule(".webp .test", [Decl("background-image", "url(test.webp)")]);
    var inner, innerV := AtRule("media", m2, [n]), AtRule("media", m2, [nv]);
    BareTest(cfg, "jpg", "url(test.jpg)");
    WebpTest();
    ImageRuleParts(cfg, ".test", ".webp .test", "background-image", "url(test.jpg)", "url(test.webp)");
    OneParts(cfg, n, [n], [nv]);
    AtRuleParts(cfg, "media", m2, [n], [n], [nv]);
    OneParts(cfg, inner, [inner], [innerV]);
    AtRuleParts(cfg, "media", m1, [inner], [inner], [innerV]);
    OneNode(cfg, AtRule("media", m1, [inner]), [AtRule("media", m1, [inner])], [AtRule("media", m1, [innerV])]);
  }

  /** The inner block of the next test: its image rule, without `color`, in a copy of the block. */
  lemma InnerMediaParts(cfg: Config)
    requires cfg == Defaults()
    ensures var n := Rule(".test", [Decl("background-image", "url(test.jpg)"), Decl("color", "red")]);
      var nv := Rule(".webp .test", [Decl("background-image", "url(test.webp)")]);
      Parts(cfg, AtRule("media", "all and (min-width:100px)", [n]), [AtRule("media", "all and (min-width:100px)", [n])],
            [AtRule("media", "all and (min-width:100px)", [nv])])
  {
    var n := Rule(".test", [Decl("background-image", "url(test.jpg)"), Decl("color", "red")]);
    var nv := Rule(".webp .test", [Decl("background-image", "url(test.webp)")]);
    PlainLiterals();
    BareTest(cfg, "jpg", "url(test.jpg)");
    RewritePlain(cfg, "red");
    WebpTest();
    assert !IsCopiedSize(cfg, Decl("color", "red"));
    ImageThenPlainParts(cfg, ".test", ".webp .test", "background-image", "url(test.jpg)", "url(test.webp)", Decl("color", "red"));
    OneParts(cfg, n, [n], [nv]);
    AtRuleParts(cfg, "media", "all and (min-width:100px)", [n], [n], [nv]);
  }

  /**
   * Nested `@media` blocks beside a rule with no image: that rule stays out
   * of the copies, and so does the `color` of the image rule.
   */
  lemma NestedMediaWithOtherRule(cfg: Config)
    requires cfg == Defaults()
    ensures var m1, m2 := "all and (max-width:200px)", "all and (min-width:100px)";
      var g := Rule(".garbage", [Decl("color", "blue")]);
      var n := Rule(".test", [Decl("background-image", "url(test.jpg)"), Decl("color", "red")]);
      var nv := Rule(".webp .test", [Decl("background-image", "url(test.webp)")]);
      Transformed(cfg, [AtRule("media", m1, [g, AtRule("media", m2, [n])])])
        == [AtRule("media", m1, [g, AtRule("media", m2, [n])]), AtRule("media", m1, [AtRule("media", m2, [nv])])]
  {
    var m1, m2 := "all and (max-width:200px)", "all and (min-width:100px)";
    var g := Rule(".garbage", [Decl("color", "blue")]);
    var n := Rule(".test", [Decl("background-image", "url(test.jpg)"), Decl("color", "red")]);
    var nv := Rule(".webp .test", [Decl("background-image", "url(test.webp)")]);
    var inner, innerV := AtRule("media", m2, [n]), AtRule("media", m2, [nv]);
    assert '(' !in "blue";
    RewritePlain(cfg, "blue");
    KeptRuleParts(cfg, ".garbage", "color", "blue");
    InnerMediaParts(cfg);
    KeptThenVariantParts(cfg, g, inner, [innerV]);
    AtRuleParts(cfg, "media", m1, [g, inner], [g, inner], [innerV]);
    OneNode(cfg, AtRule("media", m1, [g, inner]), [AtRule("media", m1, [g, inner])], [AtRule("media", m1, [innerV])]);
  }

  /**
   * An inline svg (base64 or content uri) or webp image is left alone, whatever
   * its payload.
   */
  lemma InlineSvgOrWebpKept(cfg: Config, u: string)
    requires cfg == Defaults()
    requires StartsWith(u, "data:image/svg") || StartsWith(u, "data:image/webp")
    requires ')' !in u
    ensures Transformed(cfg, [Rule(".test", [Decl("background", "url(" + u + ")" + " no-repeat")])])
      == [Rule(".test", [Decl("background", "url(" + u + ")" + " no-repeat")])]
  {
    var v := "url(" + u + ")" + " no-repeat";
    assert '(' !in " no-repeat";
    assert u[0] == 'd';
    assert Unquote(u) == u;
    assert v == "" + "url(" + u + ")" + " no-repeat";
    WebpAndSvgDataNeverEligible(cfg, u);
    IneligibleToken(cfg, "", u, " no-repeat", v);
    KeptRuleParts(cfg, ".test", "background", v);
    OneNode(cfg, Rule(".test", [Decl("background", v)]), [Rule(".test", [Decl("background", v)])], []);
  }

  /** An image at least `minAddClassFileSize` bytes large gets its variant. */
  lemma SizeAboveMinimum(cfg: Config, sizes: map<string, nat>)
    requires cfg == Defaults().(minAddClassFileSize := 1, imageSize := sizes)
    requires "avatar.png" in sizes && sizes["avatar.png"] >= 1
    ensures Transformed(cfg, [Rule(".test", [Decl("background", "url(avatar.png)")])])
      == [Rule(".test", [Decl("background", "url(avatar.png)")]),
          Rule(".webp .test", [Decl("background", "url(avatar.webp)")])]
  {
    AvatarLiterals();
    LocalRaster(cfg, "", "", "avatar", "png", "", "url(avatar.png)", "url(avatar.webp)");
    WebpTest();
    ImageRuleParts(cfg, ".test", ".webp .test", "background", "url(avatar.png)", "url(avatar.webp)");
    KeptWithVariant(cfg, Rule(".test", [Decl("background", "url(avatar.png)")]),
                    Rule(".webp .test", [Decl("background", "url(avatar.webp)")]));
  }

  /** An image smaller than `minAddClassFileSize` bytes, or of unknown size, gets none. */
  lemma SizeBelowMinimum(cfg: Config, sizes: map<string, nat>)
    requires cfg == Defaults().(minAddClassFileSize := 1024 * 1024, imageSize := sizes)
    requires "avatar.png" in sizes ==> sizes["avatar.png"] < 1024 * 1024
    ensures Transformed(cfg, [Rule(".test", [Decl("background", "url(avatar.png)")])])
      == [Rule(".test", [Decl("background", "url(avatar.png)")])]
  {
    AvatarLiterals();
    LocalKind("avatar.png");
    assert !SizeGate(cfg, "avatar.png");
    assert Unquote("avatar.png") == "avatar.png";
    IneligibleToken(cfg, "", "avatar.png", "", "url(avatar.png)");
    KeptRuleParts(cfg, ".test", "background", "url(avatar.png)");
    OneNode(cfg, Rule(".test", [Decl("background", "url(avatar.png)")]), [Rule(".test", [Decl("background", "url(avatar.png)")])], []);
  }

  /** A `~/`-led url of a preprocessor, large enough: its variant keeps the whole path. */
  lemma TildeSizeAboveMinimum(cfg: Config, sizes: map<string, nat>)
    requires cfg == Defaults().(minAddClassFileSize := 1, imageSize := sizes)
    requires "~/path/to/avatar.png" in sizes && sizes["~/path/to/avatar.png"] >= 1
    ensures Transformed(cfg, [Rule(".test", [Decl("background", "url(~/path/to/avatar.png)")])])
      == [Rule(".test", [Decl("background", "url(~/path/to/avatar.png)")]),
          Rule(".webp .test", [Decl("background", "url(~/path/to/avatar.webp)")])]
  {
    TildeLiterals();
    TildeValueLiterals();
    TildeVariantLiterals();
    LocalRaster(cfg, "", "", "~/path/to/avatar", "png", "", "url(~/path/to/avatar.png)", "url(~/path/to/avatar.webp)");
    WebpTest();
    ImageRuleParts(cfg, ".test", ".webp .test", "background", "url(~/path/to/avatar.png)", "url(~/path/to/avatar.webp)");
    KeptWithVariant(cfg, Rule(".test", [Decl("background", "url(~/path/to/avatar.png)")]),
                    Rule(".webp .test", [Decl("background", "url(~/path/to/avatar.webp)")]));
  }

  /** The same url, too small: no variant. */
  lemma TildeSizeBelowMinimum(cfg: Config, sizes: map<string, nat>)
    requires cfg == Defaults().(minAddClassFileSize := 1024 * 1024, imageSize := sizes)
    requires "~/path/to/avatar.png" in sizes ==> sizes["~/path/to/avatar.png"] < 1024 * 1024
    ensures Transformed(cfg, [Rule(".test", [Decl("background", "url(~/path/to/avatar.png)")])])
      == [Rule(".test", [Decl("background", "url(~/path/to/avatar.png)")])]
  {
    TildeLiterals();
    TildeValueLiterals();
    LocalKind("~/path/to/avatar.png");
    assert !SizeGate(cfg, "~/path/to/avatar.png");
    assert Unquote("~/path/to/avatar.png") == "~/path/to/avatar.png";
    IneligibleToken(cfg, "", "~/path/to/avatar.png", "", "url(~/path/to/avatar.png)");
    KeptRuleParts(cfg, ".test", "background", "url(~/path/to/avatar.png)");
    OneNode(cfg, Rule(".test", [Decl("background", "url(~/path/to/avatar.png)")]),
            [Rule(".test", [Decl("background", "url(~/path/to/avatar.png)")])], []);
  }

  // ----- The selectors and values of the tests -----

  lemma WebpImgPlayPhotoMultiple()
    ensures ScopeSelector(".webp", ".img_play_photo_multiple") == ".webp .img_play_photo_multiple"
  {
    assert ".webp .img_play_photo_multiple" == ".webp" + " " + ".img_play_photo_multiple";
    ScopeClassSelector(".webp", ".img_play_photo_multiple", ".webp .img_play_photo_multiple");
  }

  lemma WebpTest1AndTest2()
    ensures ScopeSelector(".webp", ".test1") == ".webp .test1"
    ensures ScopeSelector(".webp", ".test2") == ".webp .test2"
  {
    assert ".webp .test1" == ".webp" + " " + ".test1" && ".webp .test2" == ".webp" + " " + ".test2";
    ScopeClassSelector(".webp", ".test1", ".webp .test1");
    ScopeClassSelector(".webp", ".test2", ".webp .test2");
  }

  lemma Webp1Test()
    ensures ScopeSelector(".webp1", ".test") == ".webp1 .test"
  {
    assert ".webp1 .test" == ".webp1" + " " + ".test";
    ScopeClassSelector(".webp1", ".test", ".webp1 .test");
  }

  lemma QuotedTest1Jpeg(cfg: Config)
    requires DefaultRename(cfg) && cfg.minAddClassFileSize == 0
    ensures HasEligibleRef(cfg, "url(\"test1.jpeg\")") && RewriteValue(cfg, "url(\"test1.jpeg\")") == "url(test1.webp)"
  {
    assert "url(\"test1.jpeg\")" == "" + "url(" + ("\"" + ("test1" + "." + "jpeg") + "\"") + ")" + "";
    assert "url(test1.webp)" == "" + ("url(" + ("test1" + ".webp") + ")") + "";
    LocalRaster(cfg, "", "\"", "test1", "jpeg", "", "url(\"test1.jpeg\")", "url(test1.webp)");
  }

  lemma QuotedTest2Png(cfg: Config)
    requires DefaultRename(cfg) && cfg.minAddClassFileSize == 0
    ensures HasEligibleRef(cfg, "url('test2.png')") && RewriteValue(cfg, "url('test2.png')") == "url(test2.webp)"
  {
    assert "url('test2.png')" == "" + "url(" + ("'" + ("test2" + "." + "png") + "'") + ")" + "";
    assert "url(test2.webp)" == "" + ("url(" + ("test2" + ".webp") + ")") + "";
    LocalRaster(cfg, "", "'", "test2", "png", "", "url('test2.png')", "url(test2.webp)");
  }

  lemma GifAndJpgLiterals()
    ensures "url(test.gif)" == "" + "url(" + "test.gif" + ")"
    ensures "url(test.gif)" == "" + ("url(" + "test.gif" + ")")
    ensures ", url(\"test1.jpg\")" == ", " + "url(" + ("\"" + ("test1" + "." + "jpg") + "\"") + ")" + ""
    ensures ", url(test1.webp)" == ", " + ("url(" + ("test1" + ".webp") + ")") + ""
    ensures ')' !in "test.gif" && '(' !in ", " && '.' !in "test1"
  {
  }

  lemma GifAndJpgValue(cfg: Config)
    requires DefaultRename(cfg) && cfg.minAddClassFileSize == 0
    ensures var v := "url(test.gif)" + ", url(\"test1.jpg\")";
      HasEligibleRef(cfg, v) && RewriteValue(cfg, v) == "url(test.gif)" + ", url(test1.webp)"
  {
    GifAndJpgLiterals();
    assert Unquote("test.gif") == "test.gif";
    GifUnmatched("test", "test.gif");
    UnmatchedNotEligible(cfg, "test.gif");
    assert SizeGate(cfg, "test1" + "." + "jpg");
    assert !Eligible(cfg, Unquote("test.gif"));
    assert BaseName("test1");
    assert "url(test.gif)" + ", url(\"test1.jpg\")" == "" + "url(" + "test.gif" + ")" + (", " + "url(" + ("\"" + ("test1" + "." + "jpg") + "\"") + ")" + "");
    assert "url(test.gif)" + ", url(test1.webp)" == "" + ("url(" + "test.gif" + ")") + (", " + ("url(" + ("test1" + ".webp") + ")") + "");
    KeptThenRaster(cfg, "test.gif", ", ", "\"", "test1", "jpg", "url(test.gif)" + ", url(\"test1.jpg\")",
                   "url(test.gif)" + ", url(test1.webp)");
  }

  lemma TransparentLiterals()
    ensures "transparent url(test.png)" + "" == "transparent url(test.png)"
    ensures "transparent url(test.webp)" + "" == "transparent url(test.webp)"
    ensures '(' !in ""
  {
  }

  lemma PlainLiterals()
    ensures '(' !in "red" && '(' !in "auto" && '(' !in "#222"
  {
  }

  lemma AvatarLiterals()
    ensures "avatar.png" == "avatar" + "." + "png" && '.' !in "avatar" && ')' !in "avatar"
    ensures "url(avatar.png)" == "" + "url(" + ("" + ("avatar" + "." + "png") + "") + ")" + ""
    ensures "url(avatar.webp)" == "" + ("url(" + ("avatar" + ".webp") + ")") + ""
    ensures "url(avatar.png)" == "" + "url(" + "avatar.png" + ")" + "" && ')' !in "avatar.png" && '(' !in ""
  {
  }

  lemma TildeLiterals()
    ensures "~/path/to/avatar.png" == "~/path/to/avatar" + "." + "png"
    ensures '.' !in "~/path/to/avatar" && ')' !in "~/path/to/avatar" && ')' !in "~/path/to/avatar.png" && '(' !in ""
  {
  }

  lemma TildeValueLiterals()
    ensures "url(~/path/to/avatar.png)" == "" + "url(" + ("" + ("~/path/to/avatar" + "." + "png") + "") + ")" + ""
    ensures "url(~/path/to/avatar.png)" == "" + "url(" + "~/path/to/avatar.png" + ")" + ""
  {
  }

  lemma TildeVariantLiterals()
    ensures "url(~/path/to/avatar.webp)" == "" + ("url(" + ("~/path/to/avatar" + ".webp") + ")") + ""
  {
  }

  lemma NoWebpTest()
    ensures ScopeSelector(".no-webp", ".test") == ".no-webp .test"
  {
    assert ".no-webp .test" == ".no-webp" + " " + ".test";
    ScopeClassSelector(".no-webp", ".test", ".no-webp .test");
  }

  lemma WebpIcon()
    ensures ScopeSelector(".webp", ".icon") == ".webp .icon"
  {
    assert ".webp .icon" == ".webp" + " " + ".icon";
    ScopeClassSelector(".webp", ".icon", ".webp .icon");
  }

  lemma GifPatternLiterals()
    ensures "url(test.gif)" == "" + "url(" + ("" + "test.gif" + "") + ")" + ""
    ensures "url(test.webp)" == "" + ("url(" + "test.webp" + ")") + ""
    ensures "test.gif" == "test" + "." + "gif" && "test.webp" == "test" + ".webp"
    ensures ".gif"[1..] == "gif" && "." + "gif" == ".gif" && '.' !in "test" && ')' !in "test.gif"
  {
  }

  /** `url(test.gif)` under `replace_from: /\.gif/g`. */
  lemma GifPatternValue(cfg: Config)
    requires cfg.replaceFrom == Pattern(["gif"], false) && cfg.replaceTo == Template(".webp")
    requires cfg.minAddClassFileSize == 0
    ensures HasEligibleRef(cfg, "url(test.gif)") && RewriteValue(cfg, "url(test.gif)") == "url(test.webp)"
  {
    GifPatternLiterals();
    assert MatchAt(cfg.replaceFrom, "." + "gif") == Some("gif");
    PlainName(cfg.replaceFrom, "test");
    PatternEligible(cfg, "test", "gif");
    PatternNewUrl(cfg, "test", "gif", ".webp");
    UrlToken(cfg, "", "", "test.gif", "test.webp", "", "url(test.gif)", "url(test.webp)");
  }

  lemma OtherTemplateLiterals()
    ensures "url(test.jpg)" == "" + "url(" + ("" + "test.jpg" + "") + ")" + ""
    ensures "url(test.other)" == "" + ("url(" + "test.other" + ")") + ""
    ensures "test.jpg" == "test" + "." + "jpg" && "test.other" == "test" + ".other"
    ensures '$' !in ".other" && '.' !in "test" && ')' !in "test.jpg"
  {
  }

  /** `url(test.jpg)` under `replace_to: ".other"`. */
  lemma OtherTemplateValue(cfg: Config)
    requires cfg.replaceFrom == DefaultPattern && cfg.replaceTo == Template(".other")
    requires cfg.minAddClassFileSize == 0
    ensures HasEligibleRef(cfg, "url(test.jpg)") && RewriteValue(cfg, "url(test.jpg)") == "url(test.other)"
  {
    OtherTemplateLiterals();
    ExpandWithoutDollar(".other", Some("jpg"));
    DefaultMatchesRasterExtensions("jpg");
    PlainName(cfg.replaceFrom, "test");
    PatternEligible(cfg, "test", "jpg");
    PatternNewUrl(cfg, "test", "jpg", ".other");
    assert Eligible(cfg, "test.jpg") && NewUrl(cfg, "test.jpg") == "test.other";
    UrlToken(cfg, "", "", "test.jpg", "test.other", "", "url(test.jpg)", "url(test.other)");
  }

  /** `url(test.jpg)` under a `replace_to` callback: the callback gets `test.jpg`. */
  lemma CallbackValue(cfg: Config, f: string -> string)
    requires cfg.replaceFrom == DefaultPattern && cfg.replaceTo == Call(f)
    requires cfg.minAddClassFileSize == 0
    ensures HasEligibleRef(cfg, "url(test.jpg)") && RewriteValue(cfg, "url(test.jpg)") == "url(" + f("test.jpg") + ")"
  {
    OtherTemplateLiterals();
    assert "url(" + f("test.jpg") + ")" == "" + ("url(" + f("test.jpg") + ")") + "";
    LocalRasterEligible(cfg, "test", "jpg", "test.jpg");
    UrlToken(cfg, "", "", "test.jpg", f("test.jpg"), "", "url(test.jpg)", "url(" + f("test.jpg") + ")");
  }

  lemma GroupLiterals()
    ensures ".$1.webp"[1..] == "$1.webp" && "$1.webp"[2..] == ".webp" && '$' !in ".webp"
    ensures "png" + ".webp" == "png.webp" && ['.'] + "png.webp" == ".png.webp"
  {
  }

  /** `$1` in `.$1.webp` stands for the matched extension `png`. */
  lemma GroupExpansion()
    ensures Expand(".$1.webp", Some("png")) == ".png.webp"
  {
    GroupLiterals();
    ExpandWithoutDollar(".webp", Some("png"));
    assert Expand("$1.webp", Some("png")) == "png" + ".webp";
    assert Expand(".$1.webp", Some("png")) == ['.'] + "png.webp";
  }

  lemma IconValueLiterals()
    ensures "url('../images/icon.png')" == "" + "url(" + ("'" + "../images/icon.png" + "'") + ")" + ""
    ensures "url(../images/icon.png.webp)" == "" + ("url(" + "../images/icon.png.webp" + ")") + ""
  {
  }

  lemma IconLiterals()
    ensures "../images/icon.png" == "../images/icon" + "." + "png"
    ensures "../images/icon.png.webp" == "../images/icon" + ".png.webp"
    ensures "../images/icon.png"[0] == '.' && ')' !in "../images/icon.png"
  {
  }

  lemma IconBaseLiterals()
    ensures "../images/icon" == "." + "./images/icon" && "./images/icon" == "." + "/images/icon"
    ensures '.' !in "/images/icon"
  {
  }

  /** No extension of the default pattern is matched inside `../images/icon`. */
  lemma IconBaseUnmatched()
    ensures !HasMatch(DefaultPattern, "../images/icon")
  {
    IconBaseLiterals();
    PlainName(DefaultPattern, "/images/icon");
    DefaultNoMatchAt("/images/icon");
    HasMatchSkipsDot(DefaultPattern, "/images/icon");
    DefaultNoMatchAt("./images/icon");
    HasMatchSkipsDot(DefaultPattern, "./images/icon");
  }

  /** `url('../images/icon.png')` under `replace_to: ".$1.webp"`: `$1` is the matched extension. */
  lemma GroupTemplateValue(cfg: Config)
    requires cfg.replaceFrom == DefaultPattern && cfg.replaceTo == Template(".$1.webp")
    requires cfg.minAddClassFileSize == 0
    ensures HasEligibleRef(cfg, "url('../images/icon.png')")
      && RewriteValue(cfg, "url('../images/icon.png')") == "url(../images/icon.png.webp)"
  {
    var base, u, nu := "../images/icon", "../images/icon.png", "../images/icon.png.webp";
    IconValueLiterals();
    IconLiterals();
    IconBaseUnmatched();
    GroupExpansion();
    DefaultMatchesRasterExtensions("png");
    PatternEligible(cfg, base, "png");
    PatternNewUrl(cfg, base, "png", ".$1.webp");
    assert Eligible(cfg, u) && NewUrl(cfg, u) == nu;
    UrlToken(cfg, "", "'", u, nu, "", "url('../images/icon.png')", "url(../images/icon.png.webp)");
  }

  /** The remote url of the tests behind each of its prefixes, cut at its dots. */
  lemma RemoteUrls(prefix: string)
    ensures prefix + "foo.com/test.jpg" == prefix + "foo" + "." + "com/test" + "." + "jpg"
    ensures prefix + "foo.com/test.webp" == prefix + "foo" + "." + "com/test" + ".webp"
  {
    assert "foo.com/test.jpg" == "foo" + "." + "com/test" + "." + "jpg";
    assert "foo.com/test.webp" == "foo" + "." + "com/test" + ".webp";
    RemoteShape(prefix, "foo", "com/test", "jpg");
    assert prefix + "foo" + "." + "com/test" + ".webp" == prefix + ("foo" + "." + "com/test" + ".webp");
  }

  /** `url(<prefix>foo.com/test.jpg)` with remote images replaced. */
  lemma RemoteValue(cfg: Config, prefix: string)
    requires DefaultRename(cfg) && cfg.replaceRemoteImage
    requires prefix == "//" || prefix == "http://" || prefix == "https://"
    ensures var v := "url(" + (prefix + "foo.com/test.jpg") + ")";
      HasEligibleRef(cfg, v) && RewriteValue(cfg, v) == "url(" + (prefix + "foo.com/test.webp") + ")"
  {
    var u, nu := prefix + "foo.com/test.jpg", prefix + "foo.com/test.webp";
    assert ')' !in prefix && ')' !in "foo.com/test.jpg" && u[0] == prefix[0];
    assert ')' !in u;
    RemoteUrls(prefix);
    RemoteRaster(cfg, prefix, "foo", "com/test", "jpg");
    assert Eligible(cfg, u) && NewUrl(cfg, u) == nu;
    BareToken(cfg, u, nu);
  }

  /** `url(<prefix>foo.com/test.jpg)` with remote images not replaced. */
  lemma RemoteKeptValue(cfg: Config, prefix: string)
    requires !cfg.replaceRemoteImage
    requires prefix == "//" || prefix == "http://" || prefix == "https://"
    ensures !HasEligibleRef(cfg, "url(" + (prefix + "foo.com/test.jpg") + ")")
  {
    var u := prefix + "foo.com/test.jpg";
    assert ')' !in prefix && ')' !in "foo.com/test.jpg" && u[0] == prefix[0];
    assert "url(" + u + ")" == "" + "url(" + u + ")" + "";
    assert Unquote(u) == u;
    PrefixStart(prefix, "foo.com/test.jpg");
    RemoteNotEligibleWhenDisabled(cfg, u);
    IneligibleToken(cfg, "", u, "", "url(" + u + ")");
  }
}
