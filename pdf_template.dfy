/**
 * The pure decisions of `lib/export/pdfTemplate.ts`: HTML and attribute
 * escaping, the CSS gradient of a theme, and how each slide is laid out.
 *
 * A slide's section is modelled by its structure (which blocks, in which
 * order, with which escaped texts), not by its markup and CSS.
 */
module PdfTemplate {
  import opened Wrappers
  import opened Text
  import opened Js
  import opened SlideTypes
  import SlideThemes

  // ---------------------------------------------------------------------
  // escapeHtml, escapeAttr
  // ---------------------------------------------------------------------

  lemma {:induction false} ReplaceCharAppend(a: string, b: string, c: char, rep: string)
    ensures ReplaceChar(a + b, c, rep) == ReplaceChar(a, c, rep) + ReplaceChar(b, c, rep)
  {
    if a != [] {
      var head := if a[0] == c then rep else [a[0]];
      assert (a + b)[0] == a[0] && (a + b)[1..] == a[1..] + b;
      ReplaceCharAppend(a[1..], b, c, rep);
      assert ReplaceChar(a + b, c, rep) == head + (ReplaceChar(a[1..], c, rep) + ReplaceChar(b, c, rep));
    } else {
      assert a + b == b;
    }
  }

  lemma {:induction false} ReplaceCharAbsent(s: string, c: char, rep: string)
    requires c !in s
    ensures ReplaceChar(s, c, rep) == s
  {
    if s != [] {
      ReplaceCharAbsent(s[1..], c, rep);
    }
  }

  const Amp: string := "&amp;"
  const Lt: string := "&lt;"
  const Gt: string := "&gt;"
  const Quot: string := "&quot;"
  const Apos: string := "&#039;"
  const Tick: string := "&#096;"

  /** The replacement chain of `escapeHtml`, `&` first. */
  function EscapeChain(s: string): string {
    LaterSteps(ReplaceChar(s, '&', Amp))
  }

  /** `escapeHtml(input)`: `String(input ?? "")`, then the chain. */
  function EscapeHtml(input: Option<Value>): (r: string)
    ensures r == EscapeText(ToStr(Coalesce(input, Str(""))), false)
  {
    EscapeChainIsEscapeText(ToStr(Coalesce(input, Str(""))));
    EscapeChain(ToStr(Coalesce(input, Str(""))))
  }

  /** `escapeAttr`: `escapeHtml`, then backticks. */
  function EscapeAttr(input: Option<Value>): (r: string)
    ensures r == EscapeText(ToStr(Coalesce(input, Str(""))), true)
  {
    TickOfEscapeText(ToStr(Coalesce(input, Str(""))));
    ReplaceChar(EscapeHtml(input), '`', Tick)
  }

  /** The escape of one character; in an attribute a backtick is escaped too. */
  function EscapeChar(c: char, attr: bool): string {
    if c == '&' then Amp
    else if c == '<' then Lt
    else if c == '>' then Gt
    else if c == '"' then Quot
    else if c == '\'' then Apos
    else if attr && c == '`' then Tick
    else [c]
  }

  /** The one-pass escape: each character replaced by its escape. */
  function EscapeText(s: string, attr: bool): string {
    if s == [] then [] else EscapeChar(s[0], attr) + EscapeText(s[1..], attr)
  }

  lemma ReplaceCharOne(c: char, x: char, rep: string)
    ensures ReplaceChar([c], x, rep) == if c == x then rep else [c]
  {
    assert [c][1..] == [];
    assert ReplaceChar([c], x, rep) == (if c == x then rep else [c]) + ReplaceChar([], x, rep);
  }

  /** The text, with none of the characters the chain replaces after `&`, is left alone by those steps. */
  predicate NoLaterMarkup(e: string) {
    forall i :: 0 <= i < |e| ==> e[i] != '<' && e[i] != '>' && e[i] != '"' && e[i] != '\''
  }

  /** The later steps of the chain, after `&`. */
  function LaterSteps(e: string): string {
    ReplaceChar(ReplaceChar(ReplaceChar(ReplaceChar(e, '<', Lt), '>', Gt), '"', Quot), '\'', Apos)
  }

  lemma LaterStepsKeep(e: string)
    requires NoLaterMarkup(e)
    ensures LaterSteps(e) == e
  {
    ReplaceCharAbsent(e, '<', Lt);
    ReplaceCharAbsent(e, '>', Gt);
    ReplaceCharAbsent(e, '"', Quot);
    ReplaceCharAbsent(e, '\'', Apos);
  }

  lemma LaterStepsOfLt()
    ensures LaterSteps("<") == Lt
  {
    ReplaceCharOne('<', '<', Lt);
    LaterStepsTail(Lt, 1);
  }

  lemma LaterStepsOfGt()
    ensures LaterSteps(">") == Gt
  {
    ReplaceCharOne('>', '<', Lt);
    ReplaceCharOne('>', '>', Gt);
    LaterStepsTail(Gt, 2);
  }

  lemma LaterStepsOfQuot()
    ensures LaterSteps("\"") == Quot
  {
    ReplaceCharOne('"', '<', Lt);
    ReplaceCharOne('"', '>', Gt);
    ReplaceCharOne('"', '"', Quot);
    ReplaceCharAbsent(Quot, '\'', Apos);
  }

  lemma LaterStepsOfApos()
    ensures LaterSteps("'") == Apos
  {
    ReplaceCharOne('\'', '<', Lt);
    ReplaceCharOne('\'', '>', Gt);
    ReplaceCharOne('\'', '"', Quot);
    ReplaceCharOne('\'', '\'', Apos);
  }

  /** Past step k, an entity with no later markup is kept. */
  lemma LaterStepsTail(e: string, k: nat)
    requires 1 <= k <= 2 && NoLaterMarkup(e)
    ensures k == 1 ==> ReplaceChar(ReplaceChar(ReplaceChar(e, '>', Gt), '"', Quot), '\'', Apos) == e
    ensures k == 2 ==> ReplaceChar(ReplaceChar(e, '"', Quot), '\'', Apos) == e
  {
    ReplaceCharAbsent(e, '>', Gt);
    ReplaceCharAbsent(e, '"', Quot);
    ReplaceCharAbsent(e, '\'', Apos);
  }

  lemma LaterStepsOther(c: char)
    requires c != '<' && c != '>' && c != '"' && c != '\''
    ensures LaterSteps([c]) == [c]
  {
    LaterStepsKeep([c]);
  }

  /** The chain escapes one character as the one pass does: no replacement holds a character replaced after it. */
  lemma EscapeChainChar(c: char)
    ensures EscapeChain([c]) == EscapeChar(c, false)
  {
    ReplaceCharOne(c, '&', Amp);
    assert EscapeChain([c]) == LaterSteps(ReplaceChar([c], '&', Amp));
    if c == '&' {
      LaterStepsKeep(Amp);
    } else if c == '<' {
      LaterStepsOfLt();
    } else if c == '>' {
      LaterStepsOfGt();
    } else if c == '"' {
      LaterStepsOfQuot();
    } else if c == '\'' {
      LaterStepsOfApos();
    } else {
      LaterStepsOther(c);
    }
  }

  lemma ChainAppend(a: string, b: string)
    ensures EscapeChain(a + b) == EscapeChain(a) + EscapeChain(b)
  {
    ReplaceCharAppend(a, b, '&', Amp);
    var a1, b1 := ReplaceChar(a, '&', Amp), ReplaceChar(b, '&', Amp);
    ReplaceCharAppend(a1, b1, '<', Lt);
    var a2, b2 := ReplaceChar(a1, '<', Lt), ReplaceChar(b1, '<', Lt);
    ReplaceCharAppend(a2, b2, '>', Gt);
    var a3, b3 := ReplaceChar(a2, '>', Gt), ReplaceChar(b2, '>', Gt);
    ReplaceCharAppend(a3, b3, '"', Quot);
    var a4, b4 := ReplaceChar(a3, '"', Quot), ReplaceChar(b3, '"', Quot);
    ReplaceCharAppend(a4, b4, '\'', Apos);
  }

  /** Because `&` is replaced first, the chain of replacements is the one-pass escape. */
  lemma {:induction false} EscapeChainIsEscapeText(s: string)
    ensures EscapeChain(s) == EscapeText(s, false)
  {
    if s != [] {
      assert s == [s[0]] + s[1..];
      ChainAppend([s[0]], s[1..]);
      EscapeChainChar(s[0]);
      EscapeChainIsEscapeText(s[1..]);
    } else {
      assert EscapeChain(s) == [];
    }
  }

  lemma TickOfEscapeChar(c: char)
    ensures ReplaceChar(EscapeChar(c, false), '`', Tick) == EscapeChar(c, true)
  {
    if c == '`' {
      ReplaceCharOne(c, '`', Tick);
    } else {
      ReplaceCharAbsent(EscapeChar(c, false), '`', Tick);
    }
  }

  /** Replacing the backticks of the escaped text is the one-pass escape for attributes. */
  lemma {:induction false} TickOfEscapeText(s: string)
    ensures ReplaceChar(EscapeText(s, false), '`', Tick) == EscapeText(s, true)
  {
    if s != [] {
      ReplaceCharAppend(EscapeChar(s[0], false), EscapeText(s[1..], false), '`', Tick);
      TickOfEscapeChar(s[0]);
      TickOfEscapeText(s[1..]);
    } else {
      assert EscapeText(s, false) == [];
    }
  }

  /** `escapeHtml` is the one-pass escape of `String(input ?? "")`. */
  lemma EscapeHtmlIsEscapeText(input: Option<Value>)
    ensures EscapeHtml(input) == EscapeText(ToStr(Coalesce(input, Str(""))), false)
  {
    EscapeChainIsEscapeText(ToStr(Coalesce(input, Str(""))));
  }

  /** `escapeAttr` is the one-pass attribute escape of `String(input ?? "")`. */
  lemma EscapeAttrIsEscapeText(input: Option<Value>)
    ensures EscapeAttr(input) == EscapeText(ToStr(Coalesce(input, Str(""))), true)
  {
    EscapeHtmlIsEscapeText(input);
    TickOfEscapeText(ToStr(Coalesce(input, Str(""))));
  }

  /** u starts with one of the five entities (six in an attribute). */
  predicate IsEntity(u: string, attr: bool) {
    || StartsWith(u, Amp) || StartsWith(u, Lt) || StartsWith(u, Gt) || StartsWith(u, Quot) || StartsWith(u, Apos)
    || (attr && StartsWith(u, Tick))
  }

  /** No markup character is left, and every `&` starts an entity. */
  predicate Escaped(t: string, attr: bool) {
    && (forall i :: 0 <= i < |t| ==> t[i] != '<' && t[i] != '>' && t[i] != '"' && t[i] != '\'')
    && (forall i :: 0 <= i < |t| && t[i] == '&' ==> IsEntity(t[i..], attr))
  }

  lemma StartsWithAppend(u: string, v: string, p: string)
    requires StartsWith(u, p)
    ensures StartsWith(u + v, p)
  {
    assert (u + v)[..|p|] == u[..|p|];
  }

  lemma IsEntityAppend(u: string, v: string, attr: bool)
    requires IsEntity(u, attr)
    ensures IsEntity(u + v, attr)
  {
    if StartsWith(u, Amp) { StartsWithAppend(u, v, Amp); }
    else if StartsWith(u, Lt) { StartsWithAppend(u, v, Lt); }
    else if StartsWith(u, Gt) { StartsWithAppend(u, v, Gt); }
    else if StartsWith(u, Quot) { StartsWithAppend(u, v, Quot); }
    else if StartsWith(u, Apos) { StartsWithAppend(u, v, Apos); }
    else { StartsWithAppend(u, v, Tick); }
  }

  /** An entity, with its `&` only in front and no markup character, is escaped text. */
  lemma EntityEscaped(e: string, attr: bool)
    requires IsEntity(e, attr)
    requires forall i :: 0 <= i < |e| ==> e[i] != '<' && e[i] != '>' && e[i] != '"' && e[i] != '\''
    requires forall i :: 1 <= i < |e| ==> e[i] != '&'
    ensures Escaped(e, attr)
  {
    forall i | 0 <= i < |e| && e[i] == '&' ensures IsEntity(e[i..], attr) {
      assert i == 0 && e[0..] == e;
    }
  }

  lemma EscapeCharEscaped(c: char, attr: bool)
    ensures Escaped(EscapeChar(c, attr), attr)
  {
    var t := EscapeChar(c, attr);
    if t == [c] {
      assert c != '&';
    } else {
      assert StartsWith(t, t);
      EntityEscaped(t, attr);
    }
  }

  lemma EscapedAppend(a: string, b: string, attr: bool)
    requires Escaped(a, attr) && Escaped(b, attr)
    ensures Escaped(a + b, attr)
  {
    var t := a + b;
    forall i | 0 <= i < |t| && t[i] == '&' ensures IsEntity(t[i..], attr) {
      if i < |a| {
        assert a[i] == '&';
        assert t[i..] == a[i..] + b;
        IsEntityAppend(a[i..], b, attr);
      } else {
        assert b[i - |a|] == '&';
        assert t[i..] == b[i - |a|..];
      }
    }
  }

  lemma {:induction false} EscapeTextEscaped(s: string, attr: bool)
    ensures Escaped(EscapeText(s, attr), attr)
  {
    if s != [] {
      EscapeCharEscaped(s[0], attr);
      EscapeTextEscaped(s[1..], attr);
      EscapedAppend(EscapeChar(s[0], attr), EscapeText(s[1..], attr), attr);
    }
  }

  /** `escapeHtml` leaves no `<`, `>`, `"` or `'`, and every `&` in its output starts one of its five entities. */
  lemma EscapeHtmlSafe(input: Option<Value>)
    ensures Escaped(EscapeHtml(input), false)
  {
    EscapeHtmlIsEscapeText(input);
    EscapeTextEscaped(ToStr(Coalesce(input, Str(""))), false);
  }

  /** `escapeAttr` leaves no backtick either; each `&` starts one of the five entities or `&#096;`. */
  lemma EscapeAttrSafe(input: Option<Value>)
    ensures '`' !in EscapeAttr(input)
    ensures Escaped(EscapeAttr(input), true)
  {
    EscapeAttrIsEscapeText(input);
    EscapeTextEscaped(ToStr(Coalesce(input, Str(""))), true);
  }

  /** The reference reading of escaped text: each entity back to its character. */
  function Unescape(t: string): string
    decreases |t|
  {
    if t == [] then []
    else if StartsWith(t, Amp) then "&" + Unescape(t[|Amp|..])
    else if StartsWith(t, Lt) then "<" + Unescape(t[|Lt|..])
    else if StartsWith(t, Gt) then ">" + Unescape(t[|Gt|..])
    else if StartsWith(t, Quot) then "\"" + Unescape(t[|Quot|..])
    else if StartsWith(t, Apos) then "'" + Unescape(t[|Apos|..])
    else if StartsWith(t, Tick) then "`" + Unescape(t[|Tick|..])
    else [t[0]] + Unescape(t[1..])
  }

  lemma NotStartsWith(t: string, p: string, k: nat)
    requires k < |p| && (k >= |t| || t[k] != p[k])
    ensures !StartsWith(t, p)
  {
    if |p| <= |t| {
      assert t[..|p|][k] == t[k];
    }
  }

  lemma UnescapeChar(c: char, attr: bool, rest: string)
    ensures Unescape(EscapeChar(c, attr) + rest) == [c] + Unescape(rest)
  {
    var e := EscapeChar(c, attr);
    var t := e + rest;
    assert t[..|e|] == e;
    assert t[|e|..] == rest;
    if e == [c] {
      assert t[0] == c && c != '&';
      NotStartsWith(t, Amp, 0);
      NotStartsWith(t, Lt, 0);
      NotStartsWith(t, Gt, 0);
      NotStartsWith(t, Quot, 0);
      NotStartsWith(t, Apos, 0);
      NotStartsWith(t, Tick, 0);
    } else {
      assert t[1] == e[1];
      if c != '&' {
        NotStartsWith(t, Amp, 1);
        if c != '<' {
          NotStartsWith(t, Lt, 1);
          if c != '>' {
            NotStartsWith(t, Gt, 1);
            if c != '"' {
              NotStartsWith(t, Quot, 1);
              if c != '\'' {
                assert t[3] == e[3];
                NotStartsWith(t, Apos, 3);
              }
            }
          }
        }
      }
    }
  }

  /** Unescaping the escape gives the text back. */
  lemma {:induction false} UnescapeEscape(s: string, attr: bool)
    ensures Unescape(EscapeText(s, attr)) == s
  {
    if s != [] {
      UnescapeChar(s[0], attr, EscapeText(s[1..], attr));
      UnescapeEscape(s[1..], attr);
      assert [s[0]] + s[1..] == s;
    }
  }

  /** `escapeHtml` loses nothing: its output read back is `String(input ?? "")`. */
  lemma EscapeHtmlRoundTrip(input: Option<Value>)
    ensures Unescape(EscapeHtml(input)) == ToStr(Coalesce(input, Str("")))
  {
    EscapeHtmlIsEscapeText(input);
    UnescapeEscape(ToStr(Coalesce(input, Str(""))), false);
  }

  /** Nor does `escapeAttr`. */
  lemma EscapeAttrRoundTrip(input: Option<Value>)
    ensures Unescape(EscapeAttr(input)) == ToStr(Coalesce(input, Str("")))
  {
    EscapeAttrIsEscapeText(input);
    UnescapeEscape(ToStr(Coalesce(input, Str(""))), true);
  }

  // ---------------------------------------------------------------------
  // cssGradient
  // ---------------------------------------------------------------------

  /** The angle, in degrees, a gradient direction maps to. */
  function Angle(direction: string): (deg: nat) {
    if direction == "bottom-top" then 0
    else if direction == "left-right" then 90
    else if direction == "right-left" then 270
    else 180
  }

  /** `cssGradient(theme)`. */
  function CssGradient(theme: SlideThemes.SlideTheme): (r: string)
    ensures r == "" <==> theme.gradient.None? || !theme.gradient.value.enabled
    ensures r != "" ==> var g := theme.gradient.value;
      r == "linear-gradient(" + NatToString(Angle(g.direction)) + "deg, " + g.from + ", " + g.to + ")"
  {
    var g := theme.gradient;
    if g.None? || !g.value.enabled then ""
    else "linear-gradient(" + NatToString(Angle(g.value.direction)) + "deg, " + g.value.from + ", " + g.value.to + ")"
  }

  /** The four named directions: bottom-top is 0, left-right 90, right-left 270, top-bottom 180; any other string is 180 too. */
  lemma AngleOfDirections(direction: string)
    ensures Angle("bottom-top") == 0 && Angle("left-right") == 90
    ensures Angle("right-left") == 270 && Angle("top-bottom") == 180
    ensures direction !in {"bottom-top", "left-right", "right-left"} ==> Angle(direction) == 180
  {
    assert "left-right"[0] != "bottom-top"[0];
    assert "right-left"[0] != "bottom-top"[0] && "right-left"[0] != "left-right"[0];
    assert "top-bottom"[0] != "bottom-top"[0] && "top-bottom"[0] != "left-right"[0] && "top-bottom"[0] != "right-left"[0];
  }

  /** Every built-in theme has its gradient disabled, so none paints one. */
  lemma BuiltInThemesFlat()
    ensures forall t :: t in SlideThemes.Themes ==> CssGradient(t) == ""
  {
  }

  // ---------------------------------------------------------------------
  // The per-slide layout of `buildSlidesHtml`
  // ---------------------------------------------------------------------

  const DefaultLayout: string := "text-left"
  const FullImageLayout: string := "full-image"
  const ImageLeftLayout: string := "image-left"
  const TitlePlaceholder: string := "Slide Title"

  /** The image of a slide: `<img>` of the escaped URL, or the "no image" placeholder. */
  datatype Picture = Image(src: string) | NoImage

  /** The text of a slide; an empty bullet list is where the list, or in a grid the empty hint, is not rendered. */
  datatype TextBlock = TextBlock(number: nat, title: string, bullets: seq<string>)

  datatype Column = TextColumn(text: TextBlock) | ImageColumn(picture: Picture)

  datatype Section =
    | FullImageSection(background: Picture, overlay: bool, text: TextBlock)
    | GridSection(first: Column, second: Column)

  /** `(s?.layout as string) || "text-left"`: a truthy layout of any type, else "text-left". */
  function LayoutOf(s: Value): (r: Value)
    ensures Truthy(Get(Some(s), "layout")) ==> Some(r) == Get(Some(s), "layout")
    ensures !Truthy(Get(Some(s), "layout")) ==> r == Str(DefaultLayout)
  {
    var l := Get(Some(s), "layout");
    if Truthy(l) then l.value else Str(DefaultLayout)
  }

  /** `.filter(Boolean)`. */
  function TruthyValues(xs: seq<Value>): (r: seq<Value>)
    ensures |r| <= |xs|
    ensures forall i :: 0 <= i < |r| ==> Truthy(Some(r[i]))
  {
    if xs == [] then []
    else (if Truthy(Some(xs[0])) then [xs[0]] else []) + TruthyValues(xs[1..])
  }

  /** The bullets of `s`: of an array, its truthy entries, escaped, in order; else none. */
  function SlideBullets(s: Value): seq<string> {
    var kept := TruthyValues(ArrayOr(Get(Some(s), "bullets")));
    seq(|kept|, i requires 0 <= i < |kept| => EscapeHtml(Some(kept[i])))
  }

  /** `title || "Slide Title"` with `title = escapeHtml(s?.title ?? "")`. */
  function SlideTitle(s: Value): string {
    var t := EscapeHtml(Get(Some(s), "title"));
    if t == "" then TitlePlaceholder else t
  }

  /** `typeof s?.imageUrl === "string" ? s.imageUrl : ""`, then the image or the placeholder. */
  function SlidePicture(s: Value): Picture {
    var url := StrOf(Get(Some(s), "imageUrl"));
    if url.Some? && url.value != "" then Image(EscapeAttr(Some(Str(url.value)))) else NoImage
  }

  /** `!!(theme.overlay?.enabled || theme.imageStyle?.overlayOnImage)`. */
  predicate OverlayEnabled(theme: SlideThemes.SlideTheme) {
    || (theme.overlay.Some? && theme.overlay.value.enabled)
    || (theme.imageStyle.Some? && theme.imageStyle.value.overlayOnImage)
  }

  /** The section of the slide at position idx. */
  function SlideSection(s: Value, idx: nat, theme: SlideThemes.SlideTheme): (r: Section)
    ensures r.GridSection? ==> r.first.TextColumn? != r.second.TextColumn?
    ensures (if r.FullImageSection? then r.text else if r.first.TextColumn? then r.first.text else r.second.text).number == idx + 1
    ensures r.FullImageSection? ==> r.overlay == OverlayEnabled(theme)
  {
    var text := TextBlock(idx + 1, SlideTitle(s), SlideBullets(s));
    var layout := LayoutOf(s);
    if layout == Str(FullImageLayout) then FullImageSection(SlidePicture(s), OverlayEnabled(theme), text)
    else if layout == Str(ImageLeftLayout) then GridSection(ImageColumn(SlidePicture(s)), TextColumn(text))
    else GridSection(TextColumn(text), ImageColumn(SlidePicture(s)))
  }

  /** `slides.map(...)`: one section per slide, in order. */
  function SlideSections(slides: seq<Value>, theme: SlideThemes.SlideTheme): (r: seq<Section>)
    ensures |r| == |slides|
    ensures forall i :: 0 <= i < |slides| ==> r[i] == SlideSection(slides[i], i, theme)
  {
    seq(|slides|, i requires 0 <= i < |slides| => SlideSection(slides[i], i, theme))
  }

  /**
   * The layout choice: "full-image" gives the full-image section; "image-left" puts the image
   * column first; any other value, and a missing or falsy layout, puts the text column first.
   */
  lemma SectionLayout(s: Value, idx: nat, theme: SlideThemes.SlideTheme)
    ensures var r := SlideSection(s, idx, theme); var l := Get(Some(s), "layout");
      && (r.FullImageSection? <==> l == Some(Str(FullImageLayout)))
      && (r.GridSection? && r.first.ImageColumn? <==> l == Some(Str(ImageLeftLayout)))
      && (r.GridSection? && r.first.TextColumn? <==> l != Some(Str(FullImageLayout)) && l != Some(Str(ImageLeftLayout)))
      && (r.GridSection? ==> r.first.TextColumn? != r.second.TextColumn?)
      && (r.FullImageSection? ==> r.overlay == OverlayEnabled(theme))
  {
    assert FullImageLayout[0] != ImageLeftLayout[0] && DefaultLayout[0] != FullImageLayout[0] && DefaultLayout[0] != ImageLeftLayout[0];
  }

  /** Every section carries the slide's number (its position plus one) and its title, never an empty one. */
  lemma SectionText(s: Value, idx: nat, theme: SlideThemes.SlideTheme)
    ensures var r := SlideSection(s, idx, theme);
      var text := if r.FullImageSection? then r.text else if r.first.TextColumn? then r.first.text else r.second.text;
      var t := EscapeHtml(Get(Some(s), "title"));
      && text.number == idx + 1
      && text.title != ""
      && (t != "" ==> text.title == t)
      && (t == "" ==> text.title == TitlePlaceholder)
      && text.bullets == SlideBullets(s)
  {
    SectionLayout(s, idx, theme);
  }

  lemma {:induction false} TruthyValuesAppend(a: seq<Value>, b: seq<Value>)
    ensures TruthyValues(a + b) == TruthyValues(a) + TruthyValues(b)
  {
    if a != [] {
      assert (a + b)[1..] == a[1..] + b;
      TruthyValuesAppend(a[1..], b);
    } else {
      assert a + b == b;
    }
  }

  /** `.filter(Boolean)` keeps exactly the truthy entries, in order: the list is empty exactly when no entry is truthy. */
  lemma {:induction false} TruthyValuesEmpty(xs: seq<Value>)
    ensures TruthyValues(xs) == [] <==> forall i :: 0 <= i < |xs| ==> !Truthy(Some(xs[i]))
  {
    if xs != [] {
      TruthyValuesEmpty(xs[1..]);
      assert forall i :: 1 <= i < |xs| ==> xs[i] == xs[1..][i - 1];
    }
  }

  /** The empty hint (or, on a full-image slide, no list) appears exactly when the slide has no truthy bullet. */
  lemma NoBulletsHint(s: Value)
    ensures SlideBullets(s) == [] <==>
      forall i :: 0 <= i < |ArrayOr(Get(Some(s), "bullets"))| ==> !Truthy(Some(ArrayOr(Get(Some(s), "bullets"))[i]))
  {
    TruthyValuesEmpty(ArrayOr(Get(Some(s), "bullets")));
  }

  /** Each bullet shown reads back as the text of its entry, and contains no markup character. */
  lemma SlideBulletsFaithful(s: Value, i: nat)
    requires i < |SlideBullets(s)|
    ensures var kept := TruthyValues(ArrayOr(Get(Some(s), "bullets")));
      && Unescape(SlideBullets(s)[i]) == ToStr(kept[i])
      && Escaped(SlideBullets(s)[i], false)
  {
    var kept := TruthyValues(ArrayOr(Get(Some(s), "bullets")));
    EscapeHtmlRoundTrip(Some(kept[i]));
    EscapeHtmlSafe(Some(kept[i]));
  }

  /**
   * For a stored slide the choice follows its typed layout: full-image gives the full-image
   * section, image-left the image column first, text-left or no layout the text column first;
   * the picture is the image exactly when the slide has a non-empty image URL.
   */
  lemma StoredSlideSection(x: Slide, idx: nat, theme: SlideThemes.SlideTheme)
    ensures var r := SlideSection(SlideToValue(x), idx, theme);
      && (r.FullImageSection? <==> x.layout == Some(FullImage))
      && (r.GridSection? && r.first.ImageColumn? <==> x.layout == Some(ImageLeft))
      && (r.GridSection? && r.first.TextColumn? <==> x.layout.None? || x.layout == Some(TextLeft))
      && (SlidePicture(SlideToValue(x)).Image? <==> x.imageUrl.Some? && x.imageUrl.value != "")
  {
    var v := SlideToValue(x);
    assert Get(Some(v), "layout") == if x.layout.Some? then Some(Str(LayoutName(x.layout.value))) else None by {
      SlideFieldsOf(x);
    }
    assert Get(Some(v), "imageUrl") == OptStr(x.imageUrl) by {
      SlideFieldsOf(x);
    }
    SectionLayout(v, idx, theme);
    if x.layout.Some? {
      LayoutNames(x.layout.value);
    }
  }

  lemma LayoutNames(l: Layout)
    ensures LayoutName(l) == FullImageLayout <==> l == FullImage
    ensures LayoutName(l) == ImageLeftLayout <==> l == ImageLeft
  {
    assert FullImageLayout[0] != ImageLeftLayout[0] && DefaultLayout[0] != FullImageLayout[0] && DefaultLayout[0] != ImageLeftLayout[0];
  }
}
