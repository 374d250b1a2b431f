/**
 * The url() side of the transform: finding the `url(...)` tokens of a
 * declaration value, deciding which of them are eligible, and rewriting the
 * eligible ones while every other character of the value stays as written.
 */
module UrlValue {
  import opened Wrappers
  import opened Strings
  import opened Options

  /** A declaration value cut into verbatim text and `url(...)` tokens. */
  datatype Piece = Text(text: string) | Ref(inner: string)

  function RenderPiece(p: Piece): string {
    match p
    case Text(t) => t
    case Ref(inner) => "url(" + inner + ")"
  }

  function Render(ps: seq<Piece>): string
    decreases |ps|
  {
    if ps == [] then "" else RenderPiece(ps[0]) + Render(ps[1..])
  }

  lemma {:induction false} RenderConcat(a: seq<Piece>, b: seq<Piece>)
    ensures Render(a + b) == Render(a) + Render(b)
    decreases |a|
  {
    if a == [] {
      assert a + b == b;
    } else {
      assert (a + b)[0] == a[0] && (a + b)[1..] == a[1..] + b;
      RenderConcat(a[1..], b);
      calc {
        Render(a + b);
        RenderPiece(a[0]) + Render(a[1..] + b);
        RenderPiece(a[0]) + (Render(a[1..]) + Render(b));
        (RenderPiece(a[0]) + Render(a[1..])) + Render(b);
      }
    }
  }

  function Lead(t: string): (ps: seq<Piece>)
    ensures Render(ps) == t
  {
    if t == [] then [] else [Text(t)]
  }

  /** Every token of a scan has no `)` inside; every text piece is non-empty. */
  ghost predicate WellFormed(ps: seq<Piece>) {
    forall i :: 0 <= i < |ps| ==>
      match ps[i]
      case Text(t) => t != []
      case Ref(inner) => ')' !in inner
  }

  /** No text piece holds a complete `url(...)` token that the scan passed over. */
  ghost predicate Complete(ps: seq<Piece>) {
    forall i :: 0 <= i < |ps| && ps[i].Text? ==> NoClosedToken(ps[i].text)
  }

  /** No `url(` of `t` has a `)` anywhere after it. */
  ghost predicate NoClosedToken(t: string) {
    forall j: nat :: OccursAt(t, "url(", j) ==> ')' !in t[j + 4..]
  }

  /**
   * Cuts `s` at each `url(` and the first `)` after it. Text with no
   * closing parenthesis after its `url(` is verbatim text.
   */
  function Scan(s: string): (ps: seq<Piece>)
    ensures WellFormed(ps)
    decreases |s|
  {
    match IndexOf(s, "url(")
    case None => Lead(s)
    case Some(j) =>
      var after := s[j + 4..];
      match IndexOf(after, ")")
      case None => Lead(s)
      case Some(k) =>
        NoCloseBefore(after, k);
        var rest := Scan(after[k + 1..]);
        WellFormedToken(s[..j], after[..k], rest);
        Lead(s[..j]) + [Ref(after[..k])] + rest
  }

  lemma NoCloseBefore(after: string, k: nat)
    requires IndexOf(after, ")") == Some(k)
    ensures ')' !in after[..k]
  {
    forall i | 0 <= i < k ensures after[..k][i] != ')' {
      assert !OccursAt(after, ")", i);
      assert after[i..i + 1] == [after[i]];
    }
  }

  /** The text before the first `url(` holds none. */
  lemma NoTokenBefore(s: string, j: nat)
    requires j <= |s| && forall k: nat :: k < j ==> !OccursAt(s, "url(", k)
    ensures NoClosedToken(s[..j])
  {
    var pre := s[..j];
    forall i: nat | i + 4 <= |pre| ensures !OccursAt(pre, "url(", i) {
      assert pre[i..i + 4] == s[i..i + 4];
      assert !OccursAt(s, "url(", i);
    }
  }

  /** When the first `url(` is never closed, no later one is either. */
  lemma UnclosedFirst(s: string, j: nat)
    requires IndexOf(s, "url(") == Some(j) && IndexOf(s[j + 4..], ")") == None
    ensures NoClosedToken(s)
  {
    var after := s[j + 4..];
    forall i: nat | OccursAt(s, "url(", i) ensures ')' !in s[i + 4..] {
      assert i >= j;
      var tail := s[i + 4..];
      forall m | 0 <= m < |tail| ensures tail[m] != ')' {
        var k: nat := i - j + m;
        assert after[k..k + 1] == [tail[m]];
        assert !OccursAt(after, ")", k);
      }
    }
  }

  lemma WellFormedToken(pre: string, inner: string, rest: seq<Piece>)
    requires ')' !in inner && WellFormed(rest)
    ensures WellFormed(Lead(pre) + [Ref(inner)] + rest)
  {
    var ps := Lead(pre) + [Ref(inner)] + rest;
    forall i | |ps| - |rest| <= i < |ps| ensures ps[i] == rest[i - (|ps| - |rest|)] {
    }
  }

  /**
   * The scan finds every token: no text piece it leaves holds a `url(`
   * with a `)` after it.
   */
  lemma {:induction false} ScanComplete(s: string)
    ensures Complete(Scan(s))
    decreases |s|
  {
    match IndexOf(s, "url(")
    case None =>
    case Some(j) =>
      var after := s[j + 4..];
      match IndexOf(after, ")")
      case None =>
        UnclosedFirst(s, j);
      case Some(k) =>
        ScanStep(s, j, k);
        NoTokenBefore(s, j);
        ScanComplete(after[k + 1..]);
        CompleteToken(s[..j], after[..k], Scan(after[k + 1..]));
  }

  lemma CompleteToken(pre: string, inner: string, rest: seq<Piece>)
    requires NoClosedToken(pre) && Complete(rest)
    ensures Complete(Lead(pre) + [Ref(inner)] + rest)
  {
    var ps := Lead(pre) + [Ref(inner)] + rest;
    forall i | |ps| - |rest| <= i < |ps| ensures ps[i] == rest[i - (|ps| - |rest|)] {
    }
  }

  /** Rendering a scan gives back exactly the scanned value. */
  lemma {:induction false} ScanRender(s: string)
    ensures Render(Scan(s)) == s
    decreases |s|
  {
    match IndexOf(s, "url(")
    case None =>
    case Some(j) =>
      var after := s[j + 4..];
      match IndexOf(after, ")")
      case None =>
      case Some(k) =>
        var pre, inner, rest := s[..j], after[..k], after[k + 1..];
        ScanStep(s, j, k);
        ScanRender(rest);
        RenderMiddle(Lead(pre), Ref(inner), Scan(rest));
        SplitAround(s, j, after, k);
  }

  /** One step of the scan: the text before the first token, the token, and a scan of the rest. */
  lemma ScanStep(s: string, j: nat, k: nat)
    requires IndexOf(s, "url(") == Some(j) && IndexOf(s[j + 4..], ")") == Some(k)
    ensures Scan(s) == Lead(s[..j]) + [Ref(s[j + 4..][..k])] + Scan(s[j + 4..][k + 1..])
  {
  }

  /** Rendering pieces around one piece in the middle. */
  lemma RenderMiddle(a: seq<Piece>, p: Piece, b: seq<Piece>)
    ensures Render(a + [p] + b) == Render(a) + RenderPiece(p) + Render(b)
  {
    assert a + [p] + b == a + ([p] + b);
    assert Render([p] + b) == RenderPiece(p) + Render(b) by {
      assert ([p] + b)[0] == p && ([p] + b)[1..] == b;
    }
    RenderConcat(a, [p] + b);
  }

  lemma SplitAround(s: string, j: nat, after: string, k: nat)
    requires OccursAt(s, "url(", j) && after == s[j + 4..] && OccursAt(after, ")", k)
    ensures s == s[..j] + RenderPiece(Ref(after[..k])) + after[k + 1..]
  {
    var x, y := after[..k], after[k + 1..];
    assert after == x + ")" + y;
    assert s == s[..j] + "url(" + after;
    Regroup(s[..j], "url(", x, ")", y);
  }

  lemma Regroup(p: string, q: string, x: string, r: string, y: string)
    ensures p + (q + x + r) + y == p + q + (x + r + y)
  {
  }

  /** The url a token names: its text with one pair of matching quotes removed. */
  function Unquote(inner: string): (url: string)
    ensures |url| <= |inner|
  {
    if Quoted(inner) then inner[1..|inner| - 1] else inner
  }

  /**
   * Unquoting removes exactly the pair of quotes: putting it back gives the
   * token text, and a token without quotes is its own url.
   */
  lemma UnquoteRequote(inner: string)
    ensures Quoted(inner) ==> inner == [inner[0]] + Unquote(inner) + [inner[0]]
    ensures !Quoted(inner) ==> Unquote(inner) == inner
  {
    if Quoted(inner) {
      assert inner == [inner[0]] + inner[1..|inner| - 1] + [inner[|inner| - 1]];
    }
  }

  /** The token text is wrapped in a matching pair of single or double quotes. */
  predicate Quoted(inner: string) {
    |inner| >= 2 && (inner[0] == '\'' || inner[0] == '"') && inner[|inner| - 1] == inner[0]
  }

  datatype UrlKind = DataWebp | DataSvg | DataOther | Remote | Local

  function Kind(url: string): UrlKind {
    if StartsWith(url, "data:image/webp") then DataWebp
    else if StartsWith(url, "data:image/svg") then DataSvg
    else if StartsWith(url, "data:") then DataOther
    else if StartsWith(url, "//") || StartsWith(url, "http://") || StartsWith(url, "https://") then Remote
    else Local
  }

  /** The first extension of `exts` that `s` starts with. */
  function FirstExtension(exts: seq<string>, s: string): (r: Option<string>)
    ensures r.Some? ==> exists i :: FirstMatchIn(exts, s, i) && exts[i] == r.value
    ensures r.None? ==> forall e :: e in exts ==> !StartsWith(s, e)
    decreases |exts|
  {
    if exts == [] then None
    else if StartsWith(s, exts[0]) then Some(exts[0])
    else
      var r := FirstExtension(exts[1..], s);
      assert forall e :: e in exts ==> e == exts[0] || e in exts[1..];
      if r.Some? then
        var i :| FirstMatchIn(exts[1..], s, i) && exts[1..][i] == r.value;
        assert FirstMatchIn(exts, s, i + 1) by {
          assert forall j :: 0 < j < i + 1 ==> exts[j] == exts[1..][j - 1];
        }
        r
      else r
  }

  /** `exts[i]` is a prefix of `s`, and no extension listed before it is. */
  predicate FirstMatchIn(exts: seq<string>, s: string, i: int) {
    0 <= i < |exts| && StartsWith(s, exts[i]) && forall j :: 0 <= j < i ==> !StartsWith(s, exts[j])
  }

  /** The extension the pattern matches at the very start of `s`, if any. */
  function MatchAt(p: Pattern, s: string): (r: Option<string>)
    ensures r.Some? ==> r.value in p.extensions && StartsWith(s, "." + r.value)
    ensures r.None? ==> forall e :: e in p.extensions ==> !StartsWith(s, "." + e)
  {
    if s == [] || s[0] != '.' then
      assert forall e :: StartsWith(s, "." + e) ==> s[0] == ("." + e)[0] == '.';
      None
    else
      var r := FirstExtension(p.extensions, s[1..]);
      assert r.Some? ==> s == "." + s[1..] && s[1..][..|r.value|] == s[1..1 + |r.value|];
      assert forall e :: StartsWith(s, "." + e) ==> StartsWith(s[1..], e) by {
        forall e | StartsWith(s, "." + e) ensures StartsWith(s[1..], e) {
          assert s[1..][..|e|] == s[..|e| + 1][1..] == ("." + e)[1..] == e;
        }
      }
      r
  }

  /** The pattern matches somewhere in `s` (`replace_from.test(url)`). */
  predicate HasMatch(p: Pattern, s: string)
    decreases |s|
  {
    s != [] && (MatchAt(p, s).Some? || HasMatch(p, s[1..]))
  }

  /** A `replace_to` string with each `$1` replaced by group 1, when the pattern has one. */
  function Expand(t: string, group: Option<string>): string
    decreases |t|
  {
    if group.None? || t == [] then t
    else if |t| >= 2 && t[0] == '$' && t[1] == '1' then group.value + Expand(t[2..], group)
    else [t[0]] + Expand(t[1..], group)
  }

  /** `s.replace(p, t)` for a global pattern: every match, left to right. */
  function ReplaceAll(p: Pattern, s: string, t: string): string
    decreases |s|
  {
    if s == [] then ""
    else
      match MatchAt(p, s)
      case Some(e) =>
        Expand(t, if p.capturing then Some(e) else None) + ReplaceAll(p, s[1 + |e|..], t)
      case None => [s[0]] + ReplaceAll(p, s[1..], t)
  }

  /** The url an eligible reference is rewritten to. */
  function NewUrl(cfg: Config, url: string): string {
    match cfg.replaceTo
    case Template(t) => ReplaceAll(cfg.replaceFrom, url, t)
    case Call(f) => f(url)
  }

  /**
   * The `minAddClassFileSize` gate for a local url: no threshold lets
   * every url through without a lookup; a threshold needs the image's
   * size to be known and at least the threshold.
   */
  predicate SizeGate(cfg: Config, url: string) {
    cfg.minAddClassFileSize == 0
    || (url in cfg.imageSize && cfg.imageSize[url] >= cfg.minAddClassFileSize)
  }

  /** Whether a url is rewritten into the webp variant. */
  predicate Eligible(cfg: Config, url: string) {
    match Kind(url)
    case DataWebp => false
    case DataSvg => false
    case DataOther => false
    case Remote => cfg.replaceRemoteImage && HasMatch(cfg.replaceFrom, url)
    case Local => HasMatch(cfg.replaceFrom, url) && SizeGate(cfg, url)
  }

  predicate EligiblePiece(cfg: Config, p: Piece) {
    p.Ref? && Eligible(cfg, Unquote(p.inner))
  }

  /** An eligible token loses its quotes and gets its new url; any other piece is kept. */
  function RewritePiece(cfg: Config, p: Piece): Piece {
    if EligiblePiece(cfg, p) then Ref(NewUrl(cfg, Unquote(p.inner))) else p
  }

  function RewritePieces(cfg: Config, ps: seq<Piece>): seq<Piece>
    decreases |ps|
  {
    if ps == [] then [] else [RewritePiece(cfg, ps[0])] + RewritePieces(cfg, ps[1..])
  }

  /** The value of a declaration in the webp variant. */
  function RewriteValue(cfg: Config, v: string): string {
    Render(RewritePieces(cfg, Scan(v)))
  }

  /** The declaration value holds at least one eligible url() token. */
  predicate HasEligibleRef(cfg: Config, v: string) {
    var ps := Scan(v);
    exists i :: 0 <= i < |ps| && EligiblePiece(cfg, ps[i])
  }

  /** The value holds at least one url() token, eligible or not. */
  predicate HasRef(v: string) {
    var ps := Scan(v);
    exists i :: 0 <= i < |ps| && ps[i].Ref?
  }
}

/** What the url() rewriter promises about a whole value. */
module UrlValueFacts {
  import opened Wrappers
  import opened Strings
  import opened Options
  import opened UrlValue

  /**
   * The rewrite keeps the value's shape: one piece for one piece; text and
   * tokens that are not eligible come out as they went in, and each
   * eligible token becomes `url(<new url>)` with its quotes gone.
   */
  lemma {:induction false} RewritePiecesPointwise(cfg: Config, ps: seq<Piece>)
    ensures |RewritePieces(cfg, ps)| == |ps|
    ensures forall i :: 0 <= i < |ps| && !EligiblePiece(cfg, ps[i]) ==> RewritePieces(cfg, ps)[i] == ps[i]
    ensures forall i :: 0 <= i < |ps| && EligiblePiece(cfg, ps[i]) ==>
      RewritePieces(cfg, ps)[i] == Ref(NewUrl(cfg, Unquote(ps[i].inner)))
    decreases |ps|
  {
    if ps != [] {
      RewritePiecesPointwise(cfg, ps[1..]);
      var r := RewritePieces(cfg, ps);
      assert forall i :: 1 <= i < |ps| ==> r[i] == RewritePieces(cfg, ps[1..])[i - 1] && ps[i] == ps[1..][i - 1];
    }
  }

  /** A value with no eligible url() token is copied unchanged. */
  lemma {:induction false} RewriteWithoutEligibleIsIdentity(cfg: Config, v: string)
    requires !HasEligibleRef(cfg, v)
    ensures RewriteValue(cfg, v) == v
  {
    var ps := Scan(v);
    RewritePiecesPointwise(cfg, ps);
    assert RewritePieces(cfg, ps) == ps;
    ScanRender(v);
  }

  /** Urls that are already webp or svg data URIs are never eligible, whatever the options. */
  lemma WebpAndSvgDataNeverEligible(cfg: Config, url: string)
    requires StartsWith(url, "data:image/webp") || StartsWith(url, "data:image/svg")
    ensures !Eligible(cfg, url)
  {
  }

  /** With `replaceRemoteImage` off, no remote url is eligible. */
  lemma RemoteNotEligibleWhenDisabled(cfg: Config, url: string)
    requires !cfg.replaceRemoteImage
    requires StartsWith(url, "//") || StartsWith(url, "http://") || StartsWith(url, "https://")
    ensures !Eligible(cfg, url)
  {
    assert !StartsWith(url, "data:") by {
      if StartsWith(url, "//") { assert url[0] == '/'; }
      else { assert url[0] == 'h'; }
      assert "data:"[0] == 'd';
    }
  }

  /** A larger size threshold never makes a url eligible that a smaller one rejects. */
  lemma SizeGateMonotone(cfg: Config, url: string, lower: nat)
    requires lower <= cfg.minAddClassFileSize
    requires Eligible(cfg, url)
    ensures Eligible(cfg.(minAddClassFileSize := lower), url)
  {
  }

  /** No extension of the pattern contains a dot (true of the default). */
  predicate DotFree(p: Pattern) {
    forall e :: e in p.extensions ==> '.' !in e
  }

  /**
   * A part of the url the pattern does not match is kept verbatim, as long
   * as what follows cannot complete a match that starts inside it.
   */
  lemma {:induction false} ReplaceKeepsUnmatchedPrefix(p: Pattern, base: string, suffix: string, t: string)
    requires !HasMatch(p, base)
    requires suffix == [] || (suffix[0] == '.' && DotFree(p))
    ensures ReplaceAll(p, base + suffix, t) == base + ReplaceAll(p, suffix, t)
    decreases |base|
  {
    if base != [] {
      var s := base + suffix;
      assert s[1..] == base[1..] + suffix;
      NoMatchAtFront(p, base, suffix);
      ReplaceKeepsUnmatchedPrefix(p, base[1..], suffix, t);
      assert base == [base[0]] + base[1..];
    } else {
      assert base + suffix == suffix;
    }
  }

  lemma NoMatchAtFront(p: Pattern, base: string, suffix: string)
    requires base != [] && !HasMatch(p, base)
    requires suffix == [] || (suffix[0] == '.' && DotFree(p))
    ensures MatchAt(p, base + suffix).None? && !HasMatch(p, base[1..])
  {
    var s := base + suffix;
    if s[0] == '.' {
      assert s[1..] == base[1..] + suffix;
      assert MatchAt(p, base).None?;
      assert forall e :: e in p.extensions ==> !StartsWith(base[1..], e);
      forall e | e in p.extensions ensures !StartsWith(s[1..], e) {
        NoMatchAcrossDot(base[1..], suffix, e);
      }
    }
  }

  lemma NoMatchAcrossDot(x: string, suffix: string, e: string)
    requires !StartsWith(x, e)
    requires suffix == [] || (suffix[0] == '.' && '.' !in e)
    ensures !StartsWith(x + suffix, e)
  {
    if |e| <= |x| {
      assert (x + suffix)[..|e|] == x[..|e|];
    } else if suffix != [] && |e| <= |x + suffix| {
      assert (x + suffix)[..|e|][|x|] == '.';
    }
  }

  /** A url the pattern does not match is left as it is. */
  lemma NoMatchNoChange(p: Pattern, url: string, t: string)
    requires !HasMatch(p, url)
    ensures ReplaceAll(p, url, t) == url
  {
    ReplaceKeepsUnmatchedPrefix(p, url, [], t);
    assert url + [] == url;
  }

  /**
   * The extension swap: when the only match is the final `.<ext>`, the url
   * keeps everything before the dot and the match becomes the expanded
   * `replace_to` string.
   */
  lemma SwapExtension(p: Pattern, base: string, e: string, t: string)
    requires DotFree(p) && !HasMatch(p, base)
    requires MatchAt(p, "." + e) == Some(e)
    ensures ReplaceAll(p, base + "." + e, t) == base + Expand(t, if p.capturing then Some(e) else None)
  {
    ReplaceKeepsUnmatchedPrefix(p, base, "." + e, t);
    assert base + "." + e == base + ("." + e);
    assert ("." + e)[1 + |e|..] == [];
    assert ReplaceAll(p, "." + e, t) == Expand(t, if p.capturing then Some(e) else None) + ReplaceAll(p, [], t);
  }

  /** Text with no dot in it holds no match, so a match must start after it. */
  lemma {:induction false} HasMatchSkipsDotFreeText(p: Pattern, a: string, b: string)
    requires '.' !in a
    ensures HasMatch(p, a + b) == HasMatch(p, b)
    decreases |a|
  {
    if a != [] {
      assert (a + b)[0] == a[0];
      assert (a + b)[1..] == a[1..] + b;
      HasMatchSkipsDotFreeText(p, a[1..], b);
    } else {
      assert a + b == b;
    }
  }

  /** The default pattern matches `.png`, `.jpg` and `.jpeg` as themselves. */
  lemma DefaultMatchesRasterExtensions(e: string)
    requires e == "png" || e == "jpg" || e == "jpeg"
    ensures MatchAt(DefaultPattern, "." + e) == Some(e)
    ensures DotFree(DefaultPattern)
  {
    assert ("." + e)[1..] == e;
    if e == "jpg" {
      assert !StartsWith(e, "png") by { assert e[0] != "png"[0]; }
    } else if e == "jpeg" {
      assert !StartsWith(e, "png") by { assert e[0] != "png"[0]; }
      assert !StartsWith(e, "jpg") by { assert e[..3][2] != "jpg"[2]; }
    }
  }

  /**
   * With the default options, `base.png`, `base.jpg` and `base.jpeg` become
   * `base.webp` when nothing earlier in the url matches.
   */
  lemma DefaultSwapsToWebp(base: string, e: string)
    requires e == "png" || e == "jpg" || e == "jpeg"
    requires !HasMatch(DefaultPattern, base)
    ensures NewUrl(Defaults(), base + "." + e) == base + ".webp"
  {
    DefaultMatchesRasterExtensions(e);
    SwapExtension(DefaultPattern, base, e, ".webp");
    assert Expand(".webp", Some(e)) == ".webp" by {
      assert ".webp"[0] != '$';
      assert ".webp"[1..] == "webp";
      ExpandWithoutDollar("webp", Some(e));
    }
  }

  lemma {:induction false} ExpandWithoutDollar(t: string, group: Option<string>)
    requires '$' !in t
    ensures Expand(t, group) == t
    decreases |t|
  {
    if group.Some? && t != [] {
      ExpandWithoutDollar(t[1..], group);
      assert t == [t[0]] + t[1..];
    }
  }

  // ----- Values built token by token -----

  /** Text without `(` holds no url() token and is one verbatim piece. */
  lemma ScanPlain(s: string)
    requires '(' !in s
    ensures Scan(s) == Lead(s)
  {
    NoTokenWithoutParen(s);
  }

  lemma NoTokenWithoutParen(s: string)
    requires '(' !in s
    ensures forall k: nat :: !OccursAt(s, "url(", k)
  {
    forall k: nat ensures !OccursAt(s, "url(", k) {
      if k + 4 <= |s| {
        assert s[k..k + 4][3] == s[k + 3];
      }
    }
  }

  /**
   * A value cut at its first url() token: the text before it, the token,
   * and a scan of the rest.
   */
  lemma ScanToken(a: string, inner: string, b: string)
    requires '(' !in a && ')' !in inner
    ensures Scan(a + "url(" + inner + ")" + b) == Lead(a) + [Ref(inner)] + Scan(b)
  {
    var s := a + "url(" + inner + ")" + b;
    var t := "url(" + inner + ")" + b;
    TokenSlices(a, inner, b);
    TokenAfterPlain(a, t);
    CloseAfterInner(inner, b);
    ScanStep(s, |a|, |inner|);
  }

  lemma TokenSlices(a: string, inner: string, b: string)
    ensures var s, t := a + "url(" + inner + ")" + b, "url(" + inner + ")" + b;
      s == a + t && |t| >= 4 && t[..4] == "url(" && s[..|a|] == a && s[|a| + 4..] == inner + ")" + b
      && (inner + ")" + b)[..|inner|] == inner && (inner + ")" + b)[|inner| + 1..] == b
  {
    var s, t := a + "url(" + inner + ")" + b, "url(" + inner + ")" + b;
    assert s == a + t;
    assert t[..4] == "url(";
    assert s[|a| + 4..] == inner + ")" + b;
    assert (inner + ")" + b)[..|inner|] == inner;
  }

  /** The first `url(` of a text without `(` followed by a token is that token. */
  lemma TokenAfterPlain(a: string, t: string)
    requires '(' !in a && |t| >= 4 && t[..4] == "url("
    ensures IndexOf(a + t, "url(") == Some(|a|)
  {
    var s := a + t;
    assert s[|a|..|a| + 4] == "url(";
    forall k: nat | k < |a| ensures !OccursAt(s, "url(", k) {
      if k + 4 <= |s| {
        assert s[k..k + 4][3] == s[k + 3];
        if k + 3 >= |a| {
          assert s[k + 3] == t[k + 3 - |a|] == t[..4][k + 3 - |a|];
        }
      }
    }
    IndexOfFirst(s, "url(", |a|);
  }

  /** The first `)` after a token's text without `)` closes it. */
  lemma CloseAfterInner(inner: string, b: string)
    requires ')' !in inner
    ensures IndexOf(inner + ")" + b, ")") == Some(|inner|)
  {
    var after := inner + ")" + b;
    assert after[|inner|..|inner| + 1] == ")";
    forall k: nat | k < |inner| ensures !OccursAt(after, ")", k) {
      assert after[k..k + 1][0] == inner[k];
    }
    IndexOfFirst(after, ")", |inner|);
  }

  lemma {:induction false} RewritePiecesConcat(cfg: Config, a: seq<Piece>, b: seq<Piece>)
    ensures RewritePieces(cfg, a + b) == RewritePieces(cfg, a) + RewritePieces(cfg, b)
    decreases |a|
  {
    if a == [] {
      assert a + b == b;
    } else {
      assert (a + b)[0] == a[0];
      assert (a + b)[1..] == a[1..] + b;
      RewritePiecesConcat(cfg, a[1..], b);
    }
  }

  /** Text without `(` is copied unchanged into the variant. */
  lemma RewritePlain(cfg: Config, a: string)
    requires '(' !in a
    ensures RewriteValue(cfg, a) == a
    ensures !HasEligibleRef(cfg, a)
  {
    ScanPlain(a);
    assert RewritePieces(cfg, Lead(a)) == Lead(a);
  }

  /**
   * The rewrite works token by token: the text before the first url()
   * token stays as written, the token is rewritten on its own, and so is
   * the rest of the value.
   */
  lemma RewriteToken(cfg: Config, a: string, inner: string, rest: string)
    requires '(' !in a && ')' !in inner
    ensures RewriteValue(cfg, a + "url(" + inner + ")" + rest)
      == a + RenderPiece(RewritePiece(cfg, Ref(inner))) + RewriteValue(cfg, rest)
  {
    ScanToken(a, inner, rest);
    RewriteMiddle(cfg, Lead(a), Ref(inner), Scan(rest));
    assert RewritePieces(cfg, Lead(a)) == Lead(a);
    RenderMiddle(Lead(a), RewritePiece(cfg, Ref(inner)), RewritePieces(cfg, Scan(rest)));
  }

  lemma RewriteMiddle(cfg: Config, a: seq<Piece>, p: Piece, b: seq<Piece>)
    ensures RewritePieces(cfg, a + [p] + b) == RewritePieces(cfg, a) + [RewritePiece(cfg, p)] + RewritePieces(cfg, b)
  {
    assert a + [p] + b == a + ([p] + b);
    assert RewritePieces(cfg, [p] + b) == [RewritePiece(cfg, p)] + RewritePieces(cfg, b) by {
      assert ([p] + b)[0] == p && ([p] + b)[1..] == b;
    }
    RewritePiecesConcat(cfg, a, [p] + b);
  }

  /** A value has an eligible token when its first token is eligible or the rest has one. */
  lemma EligibleToken(cfg: Config, a: string, inner: string, rest: string)
    requires '(' !in a && ')' !in inner
    ensures HasEligibleRef(cfg, a + "url(" + inner + ")" + rest)
      <==> EligiblePiece(cfg, Ref(inner)) || HasEligibleRef(cfg, rest)
  {
    ScanToken(a, inner, rest);
    EligibleMiddle(cfg, Lead(a), Ref(inner), Scan(rest));
  }

  /** Some piece of a sequence with one piece in the middle is eligible when the rest of the sequence provides one. */
  lemma EligibleMiddle(cfg: Config, a: seq<Piece>, p: Piece, b: seq<Piece>)
    requires forall i :: 0 <= i < |a| ==> !EligiblePiece(cfg, a[i])
    ensures (exists i :: 0 <= i < |a + [p] + b| && EligiblePiece(cfg, (a + [p] + b)[i]))
      <==> EligiblePiece(cfg, p) || exists i :: 0 <= i < |b| && EligiblePiece(cfg, b[i])
  {
    var ps := a + [p] + b;
    var n := |a|;
    assert ps[n] == p;
    assert forall i :: n < i < |ps| ==> ps[i] == b[i - n - 1];
    assert forall i :: 0 <= i < |b| ==> ps[n + 1 + i] == b[i];
  }

  /** An eligible url() token is rewritten to its new url, unquoted. */
  lemma RewriteEligibleToken(cfg: Config, inner: string)
    requires Eligible(cfg, Unquote(inner))
    ensures RenderPiece(RewritePiece(cfg, Ref(inner))) == "url(" + NewUrl(cfg, Unquote(inner)) + ")"
  {
  }

  // ----- Classifying and matching single urls -----

  /** A url that starts with none of `d`, `/` and `h` is a local file. */
  lemma LocalKind(url: string)
    requires url != [] && url[0] != 'd' && url[0] != '/' && url[0] != 'h'
    ensures Kind(url) == Local
  {
    NotStartsWith(url, "data:image/webp");
    NotStartsWith(url, "data:image/svg");
    NotStartsWith(url, "data:");
    NotStartsWith(url, "//");
    NotStartsWith(url, "http://");
    NotStartsWith(url, "https://");
  }

  /** Urls that start with `//`, `http://` or `https://` are remote. */
  lemma RemoteKind(url: string)
    requires StartsWith(url, "//") || StartsWith(url, "http://") || StartsWith(url, "https://")
    ensures Kind(url) == Remote
  {
    assert url[0] == '/' || url[0] == 'h';
    NotStartsWith(url, "data:image/webp");
    NotStartsWith(url, "data:image/svg");
    NotStartsWith(url, "data:");
  }

  /** A match anywhere makes the whole url match. */
  lemma {:induction false} HasMatchInSuffix(p: Pattern, a: string, b: string)
    requires MatchAt(p, b).Some?
    ensures HasMatch(p, a + b)
    decreases |a|
  {
    if a == [] {
      assert a + b == b;
    } else {
      assert (a + b)[1..] == a[1..] + b;
      HasMatchInSuffix(p, a[1..], b);
    }
  }

  /** A dot where the pattern does not match can be skipped. */
  lemma HasMatchSkipsDot(p: Pattern, b: string)
    requires MatchAt(p, "." + b).None?
    ensures HasMatch(p, "." + b) == HasMatch(p, b)
  {
    assert ("." + b)[1..] == b;
  }

  /** The default pattern needs `p` or `j` right after a dot. */
  lemma DefaultNoMatchAt(b: string)
    requires b == [] || (b[0] != 'p' && b[0] != 'j')
    ensures MatchAt(DefaultPattern, "." + b).None?
  {
    assert ("." + b)[1..] == b;
    NotStartsWith(b, "png");
    NotStartsWith(b, "jpg");
    NotStartsWith(b, "jpeg");
  }
}
