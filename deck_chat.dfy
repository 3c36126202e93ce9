/**
 * The deterministic part of the deck chat command of `lib/deckChat.ts`: id
 * and slide normalisation, bullet clamping, the topic and meta lines of the
 * prompt, the JSON-substring extraction applied to a model's text answer, and
 * the branches of the command that do not depend on a model answer.
 *
 * The command classifier is not modelled: its result (slide number and the
 * three intents) is an input. The model call is not modelled either: its
 * outcome is an input that is either "no usable answer" or "threw", which is
 * what selects the fallback branches.
 */
module DeckChat {
  import opened Wrappers
  import opened Text
  import opened Js
  import opened SlideTypes
  import SlidesArtifact

  const TopicLimit: nat := 220
  const ChatBulletLimit: nat := 6
  const DefaultTopic: string := "Sunum"

  const MetaHeader: string := "META:"
  const TopicHead: string := "- Topic: "
  const AudienceHead: string := "- Audience: "
  const ToneHead: string := "- Tone: "

  const DeletedText: string := ". slaytı sildim."
  const DeleteMissingText: string := "Silmek istediğin slayt bulunamadı (slayt: "
  const SectionWord: string := ": Bölüm "
  const RetitledText: string := "Tüm slayt başlıklarını güncelledim. (fallback)"
  const UpdateMissingText: string := "Slayt bulunamadı (slayt: "
  const UpdatedText: string := ". slaytı güncelledim. (fallback)"
  const SlideWord: string := "Slayt "
  const PlaceholderBullet: string := "(İçerik güncellenecek)"
  const GeneralText: string := "Tamam."
  const GeneralFailedText: string := "Komutu aldım ama deck güncellemesi üretilemedi. (LLM JSON çıktısı gelmedi)"

  // ---------------------------------------------------------------------------
  // Prompt context: the meta line and the topic
  // ---------------------------------------------------------------------------

  /** `o?.trim()` when that is truthy (non-empty), else undefined. */
  function TrimmedNonBlank(o: Option<string>): (r: Option<string>)
    ensures r.Some? <==> o.Some? && !IsBlank(o.value)
    ensures r.Some? ==> r.value == Trim(o.value)
  {
    if o.Some? && Trim(o.value) != "" then Some(Trim(o.value)) else None
  }

  /** `t ? label + t : null`. */
  function MetaEntry(head: string, t: Option<string>): Option<string> {
    if t.Some? then Some(head + t.value) else None
  }

  /** The array literal that `metaLine` filters and joins. */
  function MetaEntries(m: DeckMeta): seq<Option<string>> {
    [ Some(MetaHeader),
      MetaEntry(TopicHead, TrimmedNonBlank(m.topic)),
      MetaEntry(AudienceHead, TrimmedNonBlank(m.audience)),
      MetaEntry(ToneHead, TrimmedNonBlank(m.tone)),
      Some("") ]
  }

  /** `xs.filter(Boolean)` on strings and nulls: the non-empty strings, in order. */
  function FilterTruthy(xs: seq<Option<string>>): (r: seq<string>)
    ensures |r| <= |xs|
    ensures forall i :: 0 <= i < |r| ==> r[i] != ""
  {
    if xs == [] then []
    else (if xs[0].Some? && xs[0].value != "" then [xs[0].value] else []) + FilterTruthy(xs[1..])
  }

  function MetaLine(meta: Option<DeckMeta>): (r: string)
    ensures r != "" ==> (meta.Some? &&
      (TrimmedNonBlank(meta.value.topic).Some? || TrimmedNonBlank(meta.value.audience).Some? || TrimmedNonBlank(meta.value.tone).Some?))
  {
    if meta.None? then ""
    else
      var m := meta.value;
      if TrimmedNonBlank(m.topic).None? && TrimmedNonBlank(m.audience).None? && TrimmedNonBlank(m.tone).None? then ""
      else Join(FilterTruthy(MetaEntries(m)), "\n")
  }

  /** One line of the meta block, with the newline that separates it from the one before. */
  function MetaPart(head: string, o: Option<string>): string {
    if TrimmedNonBlank(o).Some? then "\n" + head + Trim(o.value) else ""
  }

  /** The meta block written out: "META:" and one line per field that has text. */
  function MetaBlock(m: DeckMeta): string {
    var body := MetaPart(TopicHead, m.topic) + MetaPart(AudienceHead, m.audience) + MetaPart(ToneHead, m.tone);
    if body == "" then "" else MetaHeader + body
  }

  /** `sep + xs[0] + sep + xs[1] + ...`. */
  function Prefixed(xs: seq<string>, sep: string): string {
    if xs == [] then "" else sep + xs[0] + Prefixed(xs[1..], sep)
  }

  lemma {:induction false} JoinCons(x: string, xs: seq<string>, sep: string)
    ensures Join([x] + xs, sep) == x + Prefixed(xs, sep)
    decreases |xs|
  {
    if xs != [] {
      assert ([x] + xs)[1..] == xs;
      JoinCons(xs[0], xs[1..], sep);
      assert [xs[0]] + xs[1..] == xs;
    }
  }

  /** The entries of one optional string that `filter(Boolean)` keeps. */
  function Kept(o: Option<string>): seq<string> {
    if o.Some? && o.value != "" then [o.value] else []
  }

  lemma FilterTruthyCons(x: Option<string>, xs: seq<Option<string>>)
    ensures FilterTruthy([x] + xs) == Kept(x) + FilterTruthy(xs)
  {
    assert ([x] + xs)[1..] == xs;
  }

  lemma FilterTruthyEntries(h: string, a: Option<string>, b: Option<string>, c: Option<string>)
    requires h != ""
    ensures FilterTruthy([Some(h), a, b, c, Some("")]) == [h] + (Kept(a) + (Kept(b) + Kept(c)))
  {
    var t4: seq<Option<string>> := [Some("")];
    var t3 := [c] + t4;
    var t2 := [b] + t3;
    var t1 := [a] + t2;
    assert [Some(h)] + t1 == [Some(h), a, b, c, Some("")];
    FilterTruthyCons(Some(""), []);
    assert t4 == [Some("")] + [];
    FilterTruthyCons(c, t4);
    FilterTruthyCons(b, t3);
    FilterTruthyCons(a, t2);
    FilterTruthyCons(Some(h), t1);
    assert Kept(c) + [] == Kept(c);
  }

  lemma PrefixedKept(a: Option<string>, b: Option<string>, c: Option<string>, sep: string)
    ensures Prefixed(Kept(a) + (Kept(b) + Kept(c)), sep) == Line(a, sep) + Line(b, sep) + Line(c, sep)
  {
    PrefixedAppend(Kept(a), Kept(b) + Kept(c), sep);
    PrefixedAppend(Kept(b), Kept(c), sep);
    PrefixedLine(a, sep);
    PrefixedLine(b, sep);
    PrefixedLine(c, sep);
    ConcatAssoc(Line(a, sep), Line(b, sep), Line(c, sep));
  }

  lemma PrefixedLine(o: Option<string>, sep: string)
    ensures Prefixed(Kept(o), sep) == Line(o, sep)
  {
    if Kept(o) != [] {
      assert Kept(o)[1..] == [];
    }
  }

  lemma ConcatAssoc(x: string, y: string, z: string)
    ensures x + (y + z) == x + y + z
  {
  }

  /** The line of one field: present exactly when the field has text. */
  lemma {:induction false} MetaEntryPart(head: string, o: Option<string>)
    requires head != ""
    ensures Line(MetaEntry(head, TrimmedNonBlank(o)), "\n") == MetaPart(head, o)
    ensures MetaPart(head, o) == "" <==> TrimmedNonBlank(o).None?
  {
    var t := TrimmedNonBlank(o);
    if t.Some? {
      assert MetaEntry(head, t) == Some(head + t.value);
      assert |head + t.value| > 0;
      assert Kept(MetaEntry(head, t)) == [head + t.value];
      assert Line(MetaEntry(head, t), "\n") == "\n" + (head + t.value);
      assert MetaPart(head, o) == "\n" + head + t.value;
      assert "\n" + (head + t.value) == "\n" + head + t.value;
    } else {
      assert MetaEntry(head, t) == None;
      assert MetaPart(head, o) == "";
    }
  }

  /** A string that is empty or ends in a character other than white space. */
  predicate EndsSolid(p: string) {
    p == "" || !IsSpace(p[|p| - 1])
  }

  lemma MetaPartEnd(head: string, o: Option<string>)
    ensures EndsSolid(MetaPart(head, o))
  {
    if TrimmedNonBlank(o).Some? {
      LastOfAppend("\n" + head, Trim(o.value));
    }
  }

  lemma EndsSolidAppend(a: string, b: string)
    requires EndsSolid(a) && EndsSolid(b)
    ensures EndsSolid(a + b)
  {
    if b != "" {
      LastOfAppend(a, b);
    } else {
      assert a + b == a;
    }
  }

  lemma EndsSolidBlock(h: string, p1: string, p2: string, p3: string)
    requires h != "" && EndsSolid(h) && EndsSolid(p1) && EndsSolid(p2) && EndsSolid(p3)
    ensures EndsSolid(if p1 + p2 + p3 == "" then "" else h + (p1 + p2 + p3))
  {
    EndsSolidAppend(p1, p2);
    EndsSolidAppend(p1 + p2, p3);
    EndsSolidAppend(h, p1 + p2 + p3);
  }

  /** A block ends in the last character of its last non-empty line, which is never white space. */
  lemma MetaBlockEnd(m: DeckMeta)
    ensures EndsSolid(MetaBlock(m))
  {
    MetaPartEnd(TopicHead, m.topic);
    MetaPartEnd(AudienceHead, m.audience);
    MetaPartEnd(ToneHead, m.tone);
    EndsSolidBlock(MetaHeader, MetaPart(TopicHead, m.topic), MetaPart(AudienceHead, m.audience), MetaPart(ToneHead, m.tone));
  }

  lemma LastOfAppend(a: string, b: string)
    requires b != []
    ensures (a + b)[|a + b| - 1] == b[|b| - 1]
  {
  }

  /**
   * The meta block: empty when no field has text; otherwise "META:" followed by one line per
   * field with text, trimmed, in the order topic, audience, tone. The trailing "" of the array
   * literal is dropped by the filter, so the block never ends with a newline.
   */
  lemma MetaLineShape(meta: Option<DeckMeta>)
    ensures meta.None? ==> MetaLine(meta) == ""
    ensures meta.Some? ==> MetaLine(meta) == MetaBlock(meta.value)
    ensures MetaLine(meta) == "" || MetaLine(meta)[|MetaLine(meta)| - 1] != '\n'
  {
    if meta.Some? {
      var m := meta.value;
      var pt, pa, pn := MetaEntry(TopicHead, TrimmedNonBlank(m.topic)), MetaEntry(AudienceHead, TrimmedNonBlank(m.audience)), MetaEntry(ToneHead, TrimmedNonBlank(m.tone));
      assert MetaEntries(m) == [Some(MetaHeader), pt, pa, pn, Some("")];
      JoinFiltered(MetaHeader, pt, pa, pn, "\n");
      MetaEntryPart(TopicHead, m.topic);
      MetaEntryPart(AudienceHead, m.audience);
      MetaEntryPart(ToneHead, m.tone);
      MetaBlockEnd(m);
    }
  }

  /** `sep + o` for an entry the filter keeps, "" for one it drops. */
  function Line(o: Option<string>, sep: string): string {
    if Kept(o) == [] then "" else sep + o.value
  }

  /** Joining the filtered array literal: the head, then each kept entry after a separator. */
  lemma JoinFiltered(h: string, a: Option<string>, b: Option<string>, c: Option<string>, sep: string)
    requires h != ""
    ensures Join(FilterTruthy([Some(h), a, b, c, Some("")]), sep) == h + (Line(a, sep) + Line(b, sep) + Line(c, sep))
  {
    FilterTruthyEntries(h, a, b, c);
    JoinCons(h, Kept(a) + (Kept(b) + Kept(c)), sep);
    PrefixedKept(a, b, c, sep);
  }

  lemma {:induction false} PrefixedAppend(xs: seq<string>, ys: seq<string>, sep: string)
    ensures Prefixed(xs + ys, sep) == Prefixed(xs, sep) + Prefixed(ys, sep)
    decreases |xs|
  {
    if xs == [] {
      assert xs + ys == ys;
    } else {
      assert (xs + ys)[0] == xs[0] && (xs + ys)[1..] == xs[1..] + ys;
      PrefixedAppend(xs[1..], ys, sep);
      var p := sep + xs[0];
      calc {
        Prefixed(xs + ys, sep);
        p + Prefixed(xs[1..] + ys, sep);
        p + (Prefixed(xs[1..], sep) + Prefixed(ys, sep));
        { assert p + (Prefixed(xs[1..], sep) + Prefixed(ys, sep)) == (p + Prefixed(xs[1..], sep)) + Prefixed(ys, sep); }
        (p + Prefixed(xs[1..], sep)) + Prefixed(ys, sep);
        Prefixed(xs, sep) + Prefixed(ys, sep);
      }
    }
  }

  /** `deck.title?.trim() || "Sunum"`. */
  function TitleBase(deck: Deck): (r: string)
    ensures r != [] && !IsSpace(r[0])
    ensures !IsBlank(deck.title) ==> r == Trim(deck.title)
    ensures IsBlank(deck.title) ==> r == DefaultTopic
  {
    if Trim(deck.title) != "" then Trim(deck.title) else DefaultTopic
  }

  /** `` slides[k]?.title ? ` / ${title}` : "" ``. */
  function TitleSuffix(slides: seq<Slide>, k: nat): string {
    if k < |slides| && slides[k].title != "" then " / " + slides[k].title else ""
  }

  /** `` `${base}${s1}${s2}` ``: the title base and the titles of the first two slides. */
  function TopicFallback(deck: Deck): (r: string)
    ensures StartsWith(r, TitleBase(deck))
  {
    var base := TitleBase(deck);
    var rest := TitleSuffix(deck.slides, 0) + TitleSuffix(deck.slides, 1);
    assert (base + rest)[..|base|] == base;
    base + rest
  }

  /** `deck.meta?.topic?.trim()`, when it has text. */
  function MetaTopic(deck: Deck): Option<string> {
    if deck.meta.Some? then TrimmedNonBlank(deck.meta.value.topic) else None
  }

  /** The topic of the prompt, cut to 220 characters. */
  function GetDeckTopic(deck: Deck): (r: string)
    ensures |r| <= TopicLimit
    ensures deck.meta.Some? && deck.meta.value.topic.Some? && !IsBlank(deck.meta.value.topic.value) ==>
      r == Take(Trim(deck.meta.value.topic.value), TopicLimit)
  {
    if MetaTopic(deck).Some? then Take(MetaTopic(deck).value, TopicLimit)
    else Take(TopicFallback(deck), TopicLimit)
  }

  /**
   * Otherwise it starts with the deck title (or "Sunum") and goes on with the titles of the first two
   * slides. Either way it is never blank.
   */
  lemma GetDeckTopicFromTitles(deck: Deck)
    ensures MetaTopic(deck).None? ==>
      && StartsWith(TopicFallback(deck), GetDeckTopic(deck))
      && StartsWith(GetDeckTopic(deck), Take(TitleBase(deck), TopicLimit))
    ensures GetDeckTopic(deck) != [] && !IsSpace(GetDeckTopic(deck)[0])
  {
    var r := GetDeckTopic(deck);
    if MetaTopic(deck).Some? {
      var t := MetaTopic(deck).value;
      assert r[0] == t[0];
    } else {
      var f := TopicFallback(deck);
      var b := TitleBase(deck);
      assert r == Take(f, TopicLimit);
      assert r[0] == f[0] == b[0];
      var tb := Take(b, TopicLimit);
      assert tb == f[..|tb|];
    }
  }

  // ---------------------------------------------------------------------------
  // Normalising model output
  // ---------------------------------------------------------------------------

  /** `clampBullets`: the non-blank entries of an array, untrimmed and in order, at most six of them. */
  function ClampBullets(v: Option<Value>): (r: seq<string>)
    ensures |r| <= ChatBulletLimit
    ensures forall i :: 0 <= i < |r| ==> !IsBlank(r[i])
    ensures !IsArray(v) ==> r == []
    ensures |r| == Min(|SlidesArtifact.KeptBullets(v)|, ChatBulletLimit)
    ensures r == SlidesArtifact.KeptBullets(v)[..|r|]
  {
    Take(SlidesArtifact.KeptBullets(v), ChatBulletLimit)
  }

  /** `normalizeId`: a string id with text, trimmed; a number, in decimal; anything else, the fallback. */
  function NormalizeId(id: Option<Value>, fallback: string): (r: string)
    ensures StrOf(id).Some? && !IsBlank(StrOf(id).value) ==> r == Trim(StrOf(id).value)
    ensures id.Some? && id.value.Num? ==> r == IntToString(id.value.n)
    ensures (StrOf(id).None? || IsBlank(StrOf(id).value)) && !(id.Some? && id.value.Num?) ==> r == fallback
  {
    if id.Some? && id.value.Str? && Trim(id.value.s) != "" then Trim(id.value.s)
    else if id.Some? && id.value.Num? then IntToString(id.value.n)
    else fallback
  }

  /** With a fallback that has text, every normalised id has text, and normalising it again keeps it. */
  lemma NormalizeIdStable(id: Option<Value>, fallback: string, fallback2: string)
    requires !IsBlank(fallback) && Trim(fallback) == fallback
    ensures !IsBlank(NormalizeId(id, fallback))
    ensures NormalizeId(Some(Str(NormalizeId(id, fallback))), fallback2) == NormalizeId(id, fallback)
  {
    var r := NormalizeId(id, fallback);
    if id.Some? && id.value.Str? && Trim(id.value.s) != "" {
      TrimIdempotent(id.value.s);
    } else if id.Some? && id.value.Num? {
      assert !IsBlank(r) by { assert !IsSpace(r[0]); }
      IntToStringTrimmed(id.value.n);
    }
  }

  lemma IntToStringTrimmed(n: int)
    ensures Trim(IntToString(n)) == IntToString(n)
  {
    var r := IntToString(n);
    NatToStringEnd(if n < 0 then -n else n);
    TrimOfTrimmed(r);
  }

  lemma NatToStringEnd(n: nat)
    ensures !IsSpace(NatToString(n)[|NatToString(n)| - 1])
  {
    var r := NatToString(n);
    assert '0' <= r[|r| - 1] <= '9';
  }

  /** `typeof s?.style === "object" && s?.style`: an object or an array, never null. */
  function StyleOf(v: Option<Value>): (r: Option<Value>)
    ensures r.Some? <==> v.Some? && (v.value.Obj? || v.value.Arr?)
    ensures r.Some? ==> r == v
  {
    if v.Some? && (v.value.Obj? || v.value.Arr?) then v else None
  }

  /** `normalizeSlideLike`: a model-supplied slide made into a slide record. */
  function NormalizeSlideLike(s: Option<Value>, fallbackId: string): (r: Slide)
    ensures Trim(r.title) != ""
    ensures |r.bullets| <= ChatBulletLimit && forall i :: 0 <= i < |r.bullets| ==> !IsBlank(r.bullets[i])
    ensures r.style.Some? ==> r.style.value.Obj? || r.style.value.Arr?
  {
    var title := StrOf(Get(s, "title"));
    Slide(
      NormalizeId(Get(s, "id"), fallbackId),
      if title.Some? && Trim(title.value) != "" then title.value else SlidesArtifact.UntitledSlide,
      ClampBullets(Get(s, "bullets")),
      StrOf(Get(s, "imagePrompt")).GetOr(""),
      StrOf(Get(s, "imageUrl")),
      ParseLayout(Get(s, "layout")),
      StrOf(Get(s, "notes")),
      StyleOf(Get(s, "style")))
  }

  /**
   * What `normalizeSlideLike` promises: the id normalised against the fallback; a title with text
   * kept verbatim, any other title "Başlıksız"; the clamped bullets; a string image prompt or "";
   * the layout only when it is one of the three names.
   */
  lemma NormalizeSlideLikeFields(s: Option<Value>, fallbackId: string)
    ensures NormalizeSlideLike(s, fallbackId).id == NormalizeId(Get(s, "id"), fallbackId)
    ensures StrOf(Get(s, "title")).Some? && !IsBlank(StrOf(Get(s, "title")).value) ==>
      NormalizeSlideLike(s, fallbackId).title == StrOf(Get(s, "title")).value
    ensures StrOf(Get(s, "title")).None? || IsBlank(StrOf(Get(s, "title")).value) ==>
      NormalizeSlideLike(s, fallbackId).title == SlidesArtifact.UntitledSlide
    ensures !IsBlank(NormalizeSlideLike(s, fallbackId).title)
    ensures NormalizeSlideLike(s, fallbackId).bullets == ClampBullets(Get(s, "bullets"))
    ensures StrOf(Get(s, "imagePrompt")).Some? ==> NormalizeSlideLike(s, fallbackId).imagePrompt == StrOf(Get(s, "imagePrompt")).value
    ensures StrOf(Get(s, "imagePrompt")).None? ==> NormalizeSlideLike(s, fallbackId).imagePrompt == ""
    ensures NormalizeSlideLike(s, fallbackId).layout.Some? <==> exists l: Layout :: Get(s, "layout") == Some(Str(LayoutName(l)))
    ensures NormalizeSlideLike(s, fallbackId).layout.Some? ==> Get(s, "layout") == Some(Str(LayoutName(NormalizeSlideLike(s, fallbackId).layout.value)))
  {
    var layout := ParseLayout(Get(s, "layout"));
    assert layout.Some? ==> Get(s, "layout") == Some(Str(LayoutName(layout.value)));
    assert !IsBlank(SlidesArtifact.UntitledSlide) by { assert !IsSpace(SlidesArtifact.UntitledSlide[0]); }
  }

  /** The shape `normalizeSlideLike` leaves: an id trimmed or the fallback, a title with text, at most six bullets with text, a style that is an object or array. */
  predicate NormalSlide(x: Slide, fallbackId: string) {
    && ((!IsBlank(x.id) && Trim(x.id) == x.id) || x.id == fallbackId)
    && !IsBlank(x.title)
    && |x.bullets| <= ChatBulletLimit
    && (forall i :: 0 <= i < |x.bullets| ==> !IsBlank(x.bullets[i]))
    && (x.style.Some? ==> x.style.value.Obj? || x.style.value.Arr?)
  }

  lemma NormalizeSlideLikeNormal(s: Option<Value>, fallbackId: string)
    ensures NormalSlide(NormalizeSlideLike(s, fallbackId), fallbackId)
  {
    NormalizeSlideLikeFields(s, fallbackId);
    var id := Get(s, "id");
    if id.Some? && id.value.Str? && !IsBlank(id.value.s) {
      TrimIdempotent(id.value.s);
    } else if id.Some? && id.value.Num? {
      IntToStringTrimmed(id.value.n);
      assert !IsSpace(IntToString(id.value.n)[0]);
    }
  }

  /** The id of a normal slide survives normalisation against the same fallback. */
  lemma NormalIdStored(x: Slide, fallbackId: string)
    requires NormalSlide(x, fallbackId)
    requires Trim(fallbackId) == fallbackId
    ensures NormalizeId(Some(Str(x.id)), fallbackId) == x.id
  {
  }

  lemma NormalBulletsStored(x: Slide, fallbackId: string)
    requires NormalSlide(x, fallbackId)
    ensures ClampBullets(Some(StrList(x.bullets))) == x.bullets
  {
    SlidesArtifact.BulletTextsOfStrList(x.bullets);
    FilterNonBlankKeepsClean(x.bullets);
  }

  /** The stored properties of a slide, as `normalizeSlideLike` reads them. */
  predicate StoredAs(v: Option<Value>, x: Slide) {
    && Get(v, "id") == Some(Str(x.id))
    && Get(v, "title") == Some(Str(x.title))
    && Get(v, "bullets") == Some(StrList(x.bullets))
    && Get(v, "imagePrompt") == Some(Str(x.imagePrompt))
    && Get(v, "imageUrl") == OptStr(x.imageUrl)
    && Get(v, "layout") == (if x.layout.Some? then Some(Str(LayoutName(x.layout.value))) else None)
    && Get(v, "notes") == OptStr(x.notes)
    && Get(v, "style") == x.style
  }

  lemma NormalizeStoredAs(v: Option<Value>, x: Slide, fallbackId: string)
    requires NormalSlide(x, fallbackId)
    requires Trim(fallbackId) == fallbackId
    requires StoredAs(v, x)
    ensures NormalizeSlideLike(v, fallbackId) == x
  {
    StoredIdTitleBullets(v, x, fallbackId);
    StoredOtherFields(v, x, fallbackId);
    StoredLayout(v, x, fallbackId);
  }

  lemma StoredIdTitleBullets(v: Option<Value>, x: Slide, fallbackId: string)
    requires NormalSlide(x, fallbackId)
    requires Trim(fallbackId) == fallbackId
    requires StoredAs(v, x)
    ensures NormalizeSlideLike(v, fallbackId).id == x.id
    ensures NormalizeSlideLike(v, fallbackId).title == x.title
    ensures NormalizeSlideLike(v, fallbackId).bullets == x.bullets
  {
    NormalIdStored(x, fallbackId);
    NormalBulletsStored(x, fallbackId);
  }

  lemma StoredOtherFields(v: Option<Value>, x: Slide, fallbackId: string)
    requires NormalSlide(x, fallbackId)
    requires StoredAs(v, x)
    ensures NormalizeSlideLike(v, fallbackId).imagePrompt == x.imagePrompt
    ensures NormalizeSlideLike(v, fallbackId).imageUrl == x.imageUrl
    ensures NormalizeSlideLike(v, fallbackId).notes == x.notes
    ensures NormalizeSlideLike(v, fallbackId).style == x.style
  {
  }

  lemma StoredLayout(v: Option<Value>, x: Slide, fallbackId: string)
    requires StoredAs(v, x)
    ensures NormalizeSlideLike(v, fallbackId).layout == x.layout
  {
    if x.layout.Some? {
      ParseLayoutName(x.layout.value);
    }
  }

  /** A normal slide read back from its stored form is the same slide. */
  lemma NormalSlideStored(x: Slide, fallbackId: string)
    requires NormalSlide(x, fallbackId)
    requires Trim(fallbackId) == fallbackId
    ensures NormalizeSlideLike(Some(SlideToValue(x)), fallbackId) == x
  {
    SlideFieldsOf(x);
    NormalizeStoredAs(Some(SlideToValue(x)), x, fallbackId);
  }

  /** `normalizeSlideLike` is idempotent on stored slides when the fallback id is already trimmed. */
  lemma NormalizeSlideLikeIdempotent(s: Option<Value>, fallbackId: string)
    requires Trim(fallbackId) == fallbackId
    ensures NormalizeSlideLike(Some(SlideToValue(NormalizeSlideLike(s, fallbackId))), fallbackId) == NormalizeSlideLike(s, fallbackId)
  {
    NormalizeSlideLikeNormal(s, fallbackId);
    NormalSlideStored(NormalizeSlideLike(s, fallbackId), fallbackId);
  }

  // ---------------------------------------------------------------------------
  // Extracting JSON from a text answer
  // ---------------------------------------------------------------------------

  /** Three backticks start at position k. */
  predicate FenceAt(t: string, k: nat) {
    k + 3 <= |t| && t[k..k + 3] == "```"
  }

  /** The first fence at or after k, or -1. */
  function FindFence(t: string, k: nat): (r: int)
    ensures r == -1 || (k <= r && FenceAt(t, r))
    ensures r == -1 ==> forall j: nat :: k <= j ==> !FenceAt(t, j)
    ensures r >= 0 ==> forall j: nat :: k <= j < r ==> !FenceAt(t, j)
    decreases |t| - k
  {
    if k + 3 > |t| then -1 else if FenceAt(t, k) then k else FindFence(t, k + 1)
  }

  /** The regular-expression flag `i` without `u`: "json" in any mix of ASCII cases. */
  predicate JsonTagAt(t: string, q: nat) {
    q + 4 <= |t|
    && (t[q] == 'j' || t[q] == 'J') && (t[q + 1] == 's' || t[q + 1] == 'S')
    && (t[q + 2] == 'o' || t[q + 2] == 'O') && (t[q + 3] == 'n' || t[q + 3] == 'N')
  }

  /** `\s*` from k: the first position at or after k that is not white space. */
  function SkipSpace(t: string, k: nat): (r: nat)
    requires k <= |t|
    ensures k <= r <= |t|
    ensures r == |t| || !IsSpace(t[r])
    decreases |t| - k
  {
    if k == |t| || !IsSpace(t[k]) then k else SkipSpace(t, k + 1)
  }

  /**
   * The capture group of the first match of  ```(?:json)?\s*([\s\S]*?)```  (case-insensitive)
   * starting at or after p. The optional tag and the white space are taken greedily and the group
   * lazily, so a match opening at p captures up to the first fence after the white space; the
   * characters skipped are letters and white space, so giving them back never yields a match.
   */
  function FenceFrom(t: string, p: nat): (r: Option<string>)
    ensures r.Some? ==> |r.value| <= |t| - p
    decreases |t| - p
  {
    if p + 3 > |t| then None
    else if FenceAt(t, p) then
      var q := if JsonTagAt(t, p + 3) then p + 7 else p + 3;
      var q2 := SkipSpace(t, q);
      var k := FindFence(t, q2);
      if k >= 0 then Some(t[q2..k]) else FenceFrom(t, p + 1)
    else FenceFrom(t, p + 1)
  }

  /** `r` is a contiguous part of `t`. */
  ghost predicate IsInfix(r: string, t: string) {
    exists a: nat, b: nat :: a <= b <= |t| && r == t[a..b]
  }

  lemma {:induction false} FenceFromInfix(t: string, p: nat)
    ensures FenceFrom(t, p).Some? ==> IsInfix(FenceFrom(t, p).value, t)
    decreases |t| - p
  {
    if p + 3 <= |t| {
      if FenceAt(t, p) {
        var q := if JsonTagAt(t, p + 3) then p + 7 else p + 3;
        var q2 := SkipSpace(t, q);
        var k := FindFence(t, q2);
        if k < 0 {
          FenceFromInfix(t, p + 1);
        }
      } else {
        FenceFromInfix(t, p + 1);
      }
    }
  }

  /** Without three backticks in a row there is no match. */
  lemma {:induction false} FenceFromNone(t: string, p: nat)
    requires forall j: nat :: p <= j ==> !FenceAt(t, j)
    ensures FenceFrom(t, p) == None
    decreases |t| - p
  {
    if p + 3 <= |t| {
      FenceFromNone(t, p + 1);
    }
  }

  lemma TrimInfix(s: string)
    ensures IsInfix(Trim(s), s)
  {
    var ts := TrimStart(s);
    var a := |s| - |ts|;
    var r := Trim(s);
    assert r == ts[..|r|];
    assert r == s[a..a + |r|];
  }

  lemma InfixTrans(r: string, m: string, t: string)
    requires IsInfix(r, m) && IsInfix(m, t)
    ensures IsInfix(r, t)
  {
    var a: nat, b: nat :| a <= b <= |m| && r == m[a..b];
    var c: nat, d: nat :| c <= d <= |t| && m == t[c..d];
    SliceOfSlice(t, c, d, a, b);
  }

  lemma SliceOfSlice(t: string, c: nat, d: nat, a: nat, b: nat)
    requires c <= d <= |t| && a <= b <= d - c
    ensures t[c..d][a..b] == t[c + a..c + b]
  {
    var m := t[c..d];
    forall i | 0 <= i < b - a
      ensures m[a..b][i] == t[c + a..c + b][i]
    {
      assert m[a..b][i] == m[a + i] == t[c + a + i];
    }
  }

  /** The span from the first '{' to the last '}' when the first comes before the last, else the whole text. */
  function BraceSpan(t: string): (r: string)
    ensures 0 <= IndexOf(t, '{') < LastIndexOf(t, '}') ==>
      && r == t[IndexOf(t, '{')..LastIndexOf(t, '}') + 1]
      && r[0] == '{' && r[|r| - 1] == '}'
    ensures !(0 <= IndexOf(t, '{') < LastIndexOf(t, '}')) ==> r == t
  {
    var i := IndexOf(t, '{');
    var j := LastIndexOf(t, '}');
    if i >= 0 && j > i then t[i..j + 1] else t
  }

  lemma BraceSpanInfix(t: string)
    ensures IsInfix(BraceSpan(t), t)
  {
    if 0 <= IndexOf(t, '{') < LastIndexOf(t, '}') {
      assert BraceSpan(t) == t[IndexOf(t, '{')..LastIndexOf(t, '}') + 1];
    } else {
      assert BraceSpan(t) == t[0..|t|];
    }
  }

  /**
   * `extractLikelyJson`: the trimmed text of the first fenced block when it has any, else the span
   * from the first '{' to the last '}' when that is well ordered, else the whole trimmed text.
   */
  function ExtractLikelyJson(text: string): (r: string)
    ensures var f := FenceFrom(Trim(text), 0); f.Some? && f.value != "" ==> r == Trim(f.value)
    ensures var f := FenceFrom(Trim(text), 0); f.None? || f.value == "" ==> r == BraceSpan(Trim(text))
  {
    var t := Trim(text);
    var fence := FenceFrom(t, 0);
    if fence.Some? && fence.value != "" then Trim(fence.value) else BraceSpan(t)
  }

  /** Whatever the branch, the extracted text is a contiguous part of the answer. */
  lemma ExtractLikelyJsonInfix(text: string)
    ensures IsInfix(ExtractLikelyJson(text), text)
  {
    var t := Trim(text);
    TrimInfix(text);
    var fence := FenceFrom(t, 0);
    var r := ExtractLikelyJson(text);
    if fence.Some? && fence.value != "" {
      FenceFromInfix(t, 0);
      TrimInfix(fence.value);
      InfixTrans(r, fence.value, t);
    } else {
      BraceSpanInfix(t);
    }
    InfixTrans(r, t, text);
  }

  /** An answer without a fence whose trimmed text is one braced object comes back as that text. */
  lemma ExtractLikelyJsonBraced(text: string)
    requires forall j: nat :: !FenceAt(Trim(text), j)
    requires |Trim(text)| >= 2 && Trim(text)[0] == '{' && Trim(text)[|Trim(text)| - 1] == '}'
    ensures ExtractLikelyJson(text) == Trim(text)
  {
    var t := Trim(text);
    assert FenceFrom(t, 0) == None by {
      FenceFromNone(t, 0);
    }
    assert IndexOf(t, '{') == 0 && LastIndexOf(t, '}') == |t| - 1;
    assert t[0..|t|] == t;
  }

  // ---------------------------------------------------------------------------
  // The command
  // ---------------------------------------------------------------------------

  /** What the classifier reports: the slide number it read, if any, and the three intents. */
  datatype Intent = Intent(slideNo: Option<nat>, wantsDelete: bool, wantsUpdate: bool, wantsAllTitles: bool)

  /** The model call: it gave nothing usable for the branch, or it (or parsing its answer) threw. */
  datatype LlmOutcome = NoAnswer | Threw

  /** `RunResult`: `updatedDeck` null or absent is `None`. */
  datatype ChatResult = ChatResult(assistantText: string, updatedDeck: Option<Deck>)

  /** `simple.slideNo` is truthy: present and not 0. */
  predicate HasSlideNo(intent: Intent) {
    intent.slideNo.Some? && intent.slideNo.value != 0
  }

  /** `slides.filter((_, i) => i !== idx)`. */
  function WithoutIndex<T>(s: seq<T>, idx: int): seq<T>
    decreases |s|
  {
    if s == [] then []
    else WithoutIndex(s[..|s| - 1], idx) + (if |s| - 1 != idx then [s[|s| - 1]] else [])
  }

  /** The filter removes exactly position idx when it exists, and nothing otherwise. */
  lemma {:induction false} WithoutIndexSpec<T>(s: seq<T>, idx: int)
    ensures 0 <= idx < |s| ==> WithoutIndex(s, idx) == s[..idx] + s[idx + 1..]
    ensures !(0 <= idx < |s|) ==> WithoutIndex(s, idx) == s
    decreases |s|
  {
    if s != [] {
      var init := s[..|s| - 1];
      WithoutIndexSpec(init, idx);
      if idx == |s| - 1 {
        assert s[..idx] == init;
      } else if 0 <= idx < |s| - 1 {
        assert init[..idx] == s[..idx];
        assert init[idx + 1..] + [s[|s| - 1]] == s[idx + 1..];
      } else {
        assert init + [s[|s| - 1]] == s;
      }
    }
  }

  function DeleteSlide(deck: Deck, n: nat): (r: ChatResult)
    requires n != 0
    ensures r.updatedDeck.Some? <==> n <= |deck.slides|
    ensures r.updatedDeck.Some? ==> |r.updatedDeck.value.slides| == |deck.slides| - 1
  {
    var idx := n - 1;
    if idx < |deck.slides| then
      WithoutIndexSpec(deck.slides, idx);
      ChatResult(NatToString(n) + DeletedText, Some(deck.(slides := WithoutIndex(deck.slides, idx))))
    else
      ChatResult(DeleteMissingText + NatToString(n) + ").", None)
  }

  /** `` `${base}: Bölüm ${i + 1}` ``. */
  function SectionTitle(base: string, i: nat): string {
    base + SectionWord + NatToString(i + 1)
  }

  function RetitleAll(deck: Deck): (r: ChatResult)
    ensures r.updatedDeck.Some? && |r.updatedDeck.value.slides| == |deck.slides|
    ensures forall i :: 0 <= i < |deck.slides| ==> r.updatedDeck.value.slides[i].id == deck.slides[i].id
  {
    var base := TitleBase(deck);
    var slides := seq(|deck.slides|, i requires 0 <= i < |deck.slides| => deck.slides[i].(title := SectionTitle(base, i)));
    ChatResult(RetitledText, Some(deck.(slides := slides)))
  }

  /** The fallback repair of the target slide: a title and at least one bullet. */
  function PatchSlide(s: Slide, n: nat): Slide {
    s.(title := if Trim(s.title) != "" then s.title else SlideWord + NatToString(n),
       bullets := if |s.bullets| > 0 then s.bullets else [PlaceholderBullet])
  }

  /** `slides.map((s, i) => (i === idx ? x : s))`. */
  function ReplaceAt(slides: seq<Slide>, idx: nat, x: Slide): seq<Slide> {
    seq(|slides|, i requires 0 <= i < |slides| => if i == idx then x else slides[i])
  }

  function UpdateFallback(deck: Deck, n: nat): (r: ChatResult)
    requires n != 0
    ensures r.updatedDeck.Some? <==> n <= |deck.slides|
    ensures r.updatedDeck.Some? ==> |r.updatedDeck.value.slides| == |deck.slides|
  {
    var idx := n - 1;
    if idx >= |deck.slides| then
      ChatResult(UpdateMissingText + NatToString(n) + ").", None)
    else
      ChatResult(NatToString(n) + UpdatedText,
        Some(deck.(slides := ReplaceAt(deck.slides, idx, PatchSlide(deck.slides[idx], n)))))
  }

  /** The general branch when the model gave no deck. */
  function GeneralResult(llm: LlmOutcome): (r: ChatResult)
    ensures r.updatedDeck.None? && r.assistantText != ""
  {
    match llm
    case NoAnswer => ChatResult(GeneralText, None)
    case Threw => ChatResult(GeneralFailedText, None)
  }

  /** `runDeckChatCommand` with no usable model answer: delete, then all titles, then one slide, then the general branch. */
  function RunDeckChatCommand(intent: Intent, deck: Deck, llm: LlmOutcome): (r: ChatResult)
    ensures r.assistantText != ""
    ensures r.updatedDeck.Some? ==> |deck.slides| - 1 <= |r.updatedDeck.value.slides| <= |deck.slides|
  {
    if HasSlideNo(intent) && intent.wantsDelete then DeleteSlide(deck, intent.slideNo.value)
    else if intent.wantsAllTitles then RetitleAll(deck)
    else if HasSlideNo(intent) && intent.wantsUpdate then UpdateFallback(deck, intent.slideNo.value)
    else GeneralResult(llm)
  }

  /** The merge of a model-supplied slide: `normalizeSlideLike({ ...target, ...answer, id: target.id }, target.id)`. */
  function MergeUpdatedSlide(target: Slide, answer: Value): (r: Slide)
    ensures Trim(r.title) != "" && |r.bullets| <= ChatBulletLimit
  {
    var merged := Obj((SlideToValue(target).fields + SpreadFields(answer))["id" := Str(target.id)]);
    NormalizeSlideLike(Some(merged), target.id)
  }

  /**
   * Deleting slide number n: for 1 <= n <= |slides| exactly position n-1 goes and the others stay in
   * order, whatever the model would say; for a larger n no deck comes back.
   */
  lemma DeleteRemovesExactlyOne(intent: Intent, deck: Deck, llm: LlmOutcome)
    requires HasSlideNo(intent) && intent.wantsDelete
    ensures intent.slideNo.value <= |deck.slides| ==>
      RunDeckChatCommand(intent, deck, llm).updatedDeck ==
        Some(deck.(slides := deck.slides[..intent.slideNo.value - 1] + deck.slides[intent.slideNo.value..]))
    ensures intent.slideNo.value > |deck.slides| ==> RunDeckChatCommand(intent, deck, llm).updatedDeck.None?
  {
    WithoutIndexSpec(deck.slides, intent.slideNo.value - 1);
  }

  /**
   * The all-titles fallback keeps the number of slides and every field but the title, and titles
   * slide i "<base>: Bölüm i+1".
   */
  lemma RetitleAllKeepsContent(intent: Intent, deck: Deck, llm: LlmOutcome)
    requires !(HasSlideNo(intent) && intent.wantsDelete) && intent.wantsAllTitles
    ensures RunDeckChatCommand(intent, deck, llm).updatedDeck.Some?
    ensures var d := RunDeckChatCommand(intent, deck, llm).updatedDeck.value;
      && d.(slides := deck.slides) == deck
      && |d.slides| == |deck.slides|
      && forall i :: 0 <= i < |d.slides| ==>
           d.slides[i] == deck.slides[i].(title := TitleBase(deck) + SectionWord + NatToString(i + 1))
  {
  }

  /**
   * The single-slide fallback: an unknown slide number gives no deck; otherwise only the target
   * changes, it keeps its id and other fields, and ends with a non-blank title and at least one bullet.
   */
  lemma UpdateFallbackTouchesOnlyTarget(intent: Intent, deck: Deck, llm: LlmOutcome)
    requires !(HasSlideNo(intent) && intent.wantsDelete) && !intent.wantsAllTitles
    requires HasSlideNo(intent) && intent.wantsUpdate
    ensures intent.slideNo.value > |deck.slides| ==> RunDeckChatCommand(intent, deck, llm).updatedDeck.None?
    ensures intent.slideNo.value <= |deck.slides| ==>
      && RunDeckChatCommand(intent, deck, llm).updatedDeck.Some?
      && var d := RunDeckChatCommand(intent, deck, llm).updatedDeck.value;
      && var idx := intent.slideNo.value - 1;
      && d.(slides := deck.slides) == deck
      && |d.slides| == |deck.slides|
      && (forall i :: 0 <= i < |d.slides| && i != idx ==> d.slides[i] == deck.slides[i])
      && d.slides[idx].(title := deck.slides[idx].title, bullets := deck.slides[idx].bullets) == deck.slides[idx]
      && !IsBlank(d.slides[idx].title)
      && d.slides[idx].bullets != []
      && (!IsBlank(deck.slides[idx].title) ==> d.slides[idx].title == deck.slides[idx].title)
      && (deck.slides[idx].bullets != [] ==> d.slides[idx].bullets == deck.slides[idx].bullets)
  {
    var n := intent.slideNo.value;
    if n <= |deck.slides| {
      var t := SlideWord + NatToString(n);
      assert !IsBlank(t) by { assert !IsSpace(t[0]); }
    }
  }

  /** Without a model answer the general branch never changes the deck; only the message tells the two outcomes apart. */
  lemma GeneralBranchNoDeck(intent: Intent, deck: Deck, llm: LlmOutcome)
    requires !(HasSlideNo(intent) && intent.wantsDelete) && !intent.wantsAllTitles
    requires !(HasSlideNo(intent) && intent.wantsUpdate)
    ensures RunDeckChatCommand(intent, deck, llm).updatedDeck.None?
    ensures RunDeckChatCommand(intent, deck, llm).assistantText == (if llm.NoAnswer? then GeneralText else GeneralFailedText)
  {
  }

  /** Any deck the command returns has the input deck's id, title, theme and meta. */
  lemma CommandKeepsDeckHeader(intent: Intent, deck: Deck, llm: LlmOutcome)
    ensures var d := RunDeckChatCommand(intent, deck, llm).updatedDeck;
      d.Some? ==> d.value.(slides := deck.slides) == deck
  {
  }

  /** `{ ...target, ...answer, id: target.id }`, property by property. */
  lemma MergedField(target: Slide, answer: Value, key: string)
    ensures Get(Some(Obj((SlideToValue(target).fields + SpreadFields(answer))["id" := Str(target.id)])), key) ==
      if key == "id" then Some(Str(target.id))
      else if answer.Obj? && key in answer.fields then Some(answer.fields[key])
      else SlideField(target, key)
  {
    assert Get(Some(SlideToValue(target)), key) == SlideField(target, key);
  }

  /**
   * A model-supplied slide keeps the target's id, normalised (so the id itself when it is already
   * trimmed), gets a title with text, and keeps the target's title when the answer has none.
   */
  lemma MergeUpdatedSlideKeepsId(target: Slide, answer: Value)
    ensures MergeUpdatedSlide(target, answer).id == NormalizeId(Some(Str(target.id)), target.id)
    ensures Trim(target.id) == target.id ==> MergeUpdatedSlide(target, answer).id == target.id
    ensures !IsBlank(MergeUpdatedSlide(target, answer).title)
    ensures answer.Obj? && "title" !in answer.fields && !IsBlank(target.title) ==>
      MergeUpdatedSlide(target, answer).title == target.title
  {
    var merged := Obj((SlideToValue(target).fields + SpreadFields(answer))["id" := Str(target.id)]);
    NormalizeSlideLikeFields(Some(merged), target.id);
    MergedField(target, answer, "id");
    MergedField(target, answer, "title");
    SlideFieldsOf(target);
  }

  /** Installing the merged slide changes position idx only. */
  lemma ReplaceAtOnly(slides: seq<Slide>, idx: nat, x: Slide)
    requires idx < |slides|
    ensures |ReplaceAt(slides, idx, x)| == |slides|
    ensures ReplaceAt(slides, idx, x)[idx] == x
    ensures ReplaceAt(slides, idx, x)[..idx] == slides[..idx]
    ensures ReplaceAt(slides, idx, x)[idx + 1..] == slides[idx + 1..]
  {
  }
}
