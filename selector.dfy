/**
 * The selector rewriter: scopes every selector of a rule's selector list
 * under a class (`.webp`, or the no-webp class).
 */
module Selector {
  import opened Strings

  /** `c` begins with the class `cls` as a whole token (`.webp .a`, not `.webp1 .a`). */
  predicate StartsWithClass(c: string, cls: string) {
    cls != [] && StartsWith(c, cls) && (|c| == |cls| || !IsIdentChar(c[|cls|]))
  }

  /** The first simple selector of `c` is the `html` type selector. */
  predicate HtmlLed(c: string) {
    StartsWith(c, "html") && (|c| == 4 || !IsIdentChar(c[4]))
  }

  /**
   * One selector scoped under `cls`: left alone when it already starts
   * with the class, the class glued onto a leading `html`, otherwise the
   * class as an ancestor (`cls + " " + c`).
   */
  function ScopeComponent(cls: string, c: string): string {
    if StartsWithClass(c, cls) then c
    else if HtmlLed(c) then "html" + cls + c[4..]
    else cls + " " + c
  }

  /** The selectors of a list: split at each comma, each trimmed. */
  function Components(sel: string): seq<string> {
    var parts := SplitOn(sel, ',');
    seq(|parts|, i requires 0 <= i < |parts| => Trim(parts[i]))
  }

  function ScopeAll(cls: string, cs: seq<string>): seq<string> {
    seq(|cs|, i requires 0 <= i < |cs| => ScopeComponent(cls, cs[i]))
  }

  /** The scoped selector list, its selectors joined with `, `. */
  function ScopeSelector(cls: string, sel: string): string {
    Join(ScopeAll(cls, Components(sel)), ", ")
  }

  /** A class that can be glued into a selector: non-empty, no comma, no outer whitespace. */
  predicate ValidClass(cls: string) {
    cls != [] && ',' !in cls && IsTrimmed(cls)
  }

  /** No selector of the list is empty (`.a, , .b` has an empty one). */
  predicate NoEmptyComponent(sel: string) {
    forall c :: c in Components(sel) ==> c != []
  }

  /** A scoped selector is trimmed, non-empty and comma-free when its input selector is. */
  lemma ScopedComponentShape(cls: string, c: string)
    requires ValidClass(cls) && ',' !in c && IsTrimmed(c) && c != []
    ensures var r := ScopeComponent(cls, c); r != [] && ',' !in r && IsTrimmed(r)
  {
    var r := ScopeComponent(cls, c);
    if !StartsWithClass(c, cls) && HtmlLed(c) {
      assert r[0] == 'h';
      assert c[4..] != [] ==> r[|r| - 1] == c[|c| - 1];
      assert c[4..] == [] ==> r[|r| - 1] == cls[|cls| - 1];
      assert forall i :: 0 <= i < |r| ==> r[i] == 'h' || r[i] == 't' || r[i] == 'm' || r[i] == 'l' || r[i] in cls || r[i] in c;
    } else if !StartsWithClass(c, cls) {
      assert r[0] == cls[0] && r[|r| - 1] == c[|c| - 1];
      assert forall i :: 0 <= i < |r| ==> r[i] == ' ' || r[i] in cls || r[i] in c;
    }
  }

  /** `x, y, z` read as a comma-split list: `x`, ` y`, ` z`. */
  function SpacedAfterFirst(xs: seq<string>): seq<string>
    requires |xs| >= 1
  {
    [xs[0]] + seq(|xs| - 1, i requires 0 <= i < |xs| - 1 => " " + xs[i + 1])
  }

  lemma {:induction false} JoinCommaSpace(xs: seq<string>)
    requires |xs| >= 1
    ensures Join(xs, ", ") == Join(SpacedAfterFirst(xs), [','])
    decreases |xs|
  {
    if |xs| > 1 {
      JoinCommaSpace(xs[1..]);
      var ys := SpacedAfterFirst(xs);
      var zs := SpacedAfterFirst(xs[1..]);
      assert ys[1..] == [" " + zs[0]] + zs[1..];
      JoinConsSpace(zs);
      assert xs[0] + ", " + Join(xs[1..], ", ") == xs[0] + [','] + (" " + Join(zs, [',']));
    }
  }

  lemma JoinConsSpace(zs: seq<string>)
    requires |zs| >= 1
    ensures Join([" " + zs[0]] + zs[1..], [',']) == " " + Join(zs, [','])
  {
    var ws := [" " + zs[0]] + zs[1..];
    assert ws[1..] == zs[1..];
  }

  /** Every selector of a list is trimmed and comma-free. */
  lemma ComponentsShape(sel: string)
    ensures forall c :: c in Components(sel) ==> ',' !in c && IsTrimmed(c)
  {
    var parts := SplitOn(sel, ',');
    var cs := Components(sel);
    forall i | 0 <= i < |cs| ensures ',' !in cs[i] && IsTrimmed(cs[i]) {
      TrimIsInfix(parts[i]);
    }
  }

  lemma TrimIsInfix(s: string)
    ensures forall k :: 0 <= k < |Trim(s)| ==> Trim(s)[k] in s
  {
    var t := TrimStart(s);
    var r := TrimEnd(t);
    assert Trim(s) == r;
    forall k | 0 <= k < |r| ensures r[k] in s {
      assert r[k] == t[k] == s[|s| - |t| + k];
    }
  }

  lemma SpacedShape(xs: seq<string>)
    requires |xs| >= 1
    requires forall i :: 0 <= i < |xs| ==> ',' !in xs[i]
    ensures forall i :: 0 <= i < |SpacedAfterFirst(xs)| ==> ',' !in SpacedAfterFirst(xs)[i]
  {
    var ys := SpacedAfterFirst(xs);
    forall i | 1 <= i < |ys| ensures ',' !in ys[i] {
      assert ys[i] == " " + xs[i];
    }
  }

  lemma SplitCommaSpace(xs: seq<string>)
    requires |xs| >= 1
    requires forall i :: 0 <= i < |xs| ==> ',' !in xs[i]
    ensures SplitOn(Join(xs, ", "), ',') == SpacedAfterFirst(xs)
  {
    JoinCommaSpace(xs);
    SpacedShape(xs);
    SplitJoin(SpacedAfterFirst(xs), ',');
  }

  lemma TrimSpaced(xs: seq<string>, i: nat)
    requires i < |xs| && IsTrimmed(xs[i])
    ensures Trim(SpacedAfterFirst(xs)[i]) == xs[i]
  {
    if i == 0 {
      TrimOfTrimmed(xs[0]);
    } else {
      assert SpacedAfterFirst(xs)[i] == " " + xs[i];
      TrimSkipsLeadingSpace(xs[i]);
    }
  }

  /** Trimmed, comma-free selectors joined with `, ` read back as themselves. */
  lemma ReadBack(xs: seq<string>)
    requires |xs| >= 1
    requires forall i :: 0 <= i < |xs| ==> ',' !in xs[i] && IsTrimmed(xs[i])
    ensures Components(Join(xs, ", ")) == xs
  {
    SplitCommaSpace(xs);
    var back := Components(Join(xs, ", "));
    forall i | 0 <= i < |xs| ensures back[i] == xs[i] {
      TrimSpaced(xs, i);
    }
  }

  /**
   * The scoped list reads back as the scoped selectors, one for one and in
   * order: scoping never merges, splits, drops or reorders selectors.
   */
  lemma ScopeSelectorComponents(cls: string, sel: string)
    requires ValidClass(cls) && NoEmptyComponent(sel)
    ensures Components(ScopeSelector(cls, sel)) == ScopeAll(cls, Components(sel))
  {
    var cs := Components(sel);
    var xs := ScopeAll(cls, cs);
    ComponentsShape(sel);
    forall i | 0 <= i < |cs| ensures xs[i] != [] && ',' !in xs[i] && IsTrimmed(xs[i]) {
      assert cs[i] in cs;
      ScopedComponentShape(cls, cs[i]);
    }
    ReadBack(xs);
  }

  /** A selector already scoped under `cls` is left alone. */
  lemma ScopeFixesScoped(cls: string, c: string)
    requires ValidClass(cls) && !HtmlLed(c)
    ensures ScopeComponent(cls, ScopeComponent(cls, c)) == ScopeComponent(cls, c)
  {
    if !StartsWithClass(c, cls) {
      var r := cls + " " + c;
      assert r[..|cls|] == cls && r[|cls|] == ' ';
    }
  }

  /** Scoping twice is scoping once, for lists without a leading `html` selector. */
  lemma ScopeSelectorIdempotent(cls: string, sel: string)
    requires ValidClass(cls) && NoEmptyComponent(sel)
    requires forall c :: c in Components(sel) ==> !HtmlLed(c)
    ensures ScopeSelector(cls, ScopeSelector(cls, sel)) == ScopeSelector(cls, sel)
  {
    ScopeSelectorComponents(cls, sel);
    var cs := Components(sel);
    var xs := ScopeAll(cls, cs);
    forall i | 0 <= i < |xs| ensures ScopeComponent(cls, xs[i]) == xs[i] {
      assert cs[i] in cs;
      ScopeFixesScoped(cls, cs[i]);
    }
    assert ScopeAll(cls, xs) == xs;
  }
}
