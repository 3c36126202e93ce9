/**
 * The typed slide records of `types/slide.ts` and their JSON form.
 */
module SlideTypes {
  import opened Wrappers
  import opened Text
  import opened Js

  datatype Layout = TextLeft | ImageLeft | FullImage

  function LayoutName(l: Layout): string {
    match l
    case TextLeft => "text-left"
    case ImageLeft => "image-left"
    case FullImage => "full-image"
  }

  /** A layout survives only when it is exactly one of the three layout names. */
  function ParseLayout(v: Option<Value>): (r: Option<Layout>)
    ensures r.Some? ==> v == Some(Str(LayoutName(r.value)))
    ensures r.None? ==> forall l: Layout :: v != Some(Str(LayoutName(l)))
  {
    if v == Some(Str("text-left")) then Some(TextLeft)
    else if v == Some(Str("image-left")) then Some(ImageLeft)
    else if v == Some(Str("full-image")) then Some(FullImage)
    else None
  }

  /** Every layout name reads back as its layout. */
  lemma ParseLayoutName(l: Layout)
    ensures ParseLayout(Some(Str(LayoutName(l)))) == Some(l)
  {
    match l
    case TextLeft =>
    case ImageLeft =>
      assert "image-left" != "text-left" by { assert "image-left"[0] != "text-left"[0]; }
    case FullImage =>
      assert "full-image" != "text-left" by { assert "full-image"[0] != "text-left"[0]; }
      assert "full-image" != "image-left" by { assert "full-image"[0] != "image-left"[0]; }
  }

  datatype Slide = Slide(
    id: string,
    title: string,
    bullets: seq<string>,
    imagePrompt: string,
    imageUrl: Option<string>,
    layout: Option<Layout>,
    notes: Option<string>,
    style: Option<Value>)

  datatype DeckMeta = DeckMeta(topic: Option<string>, audience: Option<string>, tone: Option<string>)

  datatype Deck = Deck(id: string, title: string, slides: seq<Slide>, themeName: string, meta: Option<DeckMeta>)

  function OptStr(o: Option<string>): (r: Option<Value>)
    ensures StrOf(r) == o
  {
    if o.Some? then Some(Str(o.value)) else None
  }

  /** The property `key` of the stored JSON object of a slide (undefined properties absent). */
  function SlideField(s: Slide, key: string): Option<Value> {
    if key == "id" then Some(Str(s.id))
    else if key == "title" then Some(Str(s.title))
    else if key == "bullets" then Some(StrList(s.bullets))
    else if key == "imagePrompt" then Some(Str(s.imagePrompt))
    else if key == "imageUrl" then OptStr(s.imageUrl)
    else if key == "layout" then (if s.layout.Some? then Some(Str(LayoutName(s.layout.value))) else None)
    else if key == "notes" then OptStr(s.notes)
    else if key == "style" then s.style
    else None
  }

  /** The stored properties of a slide, key by key. */
  lemma SlideFieldsOf(s: Slide)
    ensures SlideField(s, "id") == Some(Str(s.id))
    ensures SlideField(s, "title") == Some(Str(s.title))
    ensures SlideField(s, "bullets") == Some(StrList(s.bullets))
    ensures SlideField(s, "imagePrompt") == Some(Str(s.imagePrompt))
    ensures SlideField(s, "imageUrl") == OptStr(s.imageUrl)
    ensures SlideField(s, "layout") == if s.layout.Some? then Some(Str(LayoutName(s.layout.value))) else None
    ensures SlideField(s, "notes") == OptStr(s.notes)
    ensures SlideField(s, "style") == s.style
  {
    assert "imagePrompt"[1] != "id"[1];
    assert "imageUrl"[1] != "id"[1] && |"imageUrl"| != |"imagePrompt"|;
    assert "style"[0] != "id"[0] && "style"[0] != "title"[0] && "style"[0] != "bullets"[0] && "style"[0] != "imagePrompt"[0];
    assert "style"[0] != "imageUrl"[0] && "style"[0] != "layout"[0] && "style"[0] != "notes"[0];
    assert "notes"[0] != "id"[0] && "notes"[0] != "title"[0] && "notes"[0] != "bullets"[0] && "notes"[0] != "imagePrompt"[0];
    assert "notes"[0] != "imageUrl"[0] && "notes"[0] != "layout"[0];
    assert "layout"[0] != "id"[0] && "layout"[0] != "title"[0] && "layout"[0] != "bullets"[0] && "layout"[0] != "imagePrompt"[0];
    assert "layout"[0] != "imageUrl"[0];
  }

  const SlideKeys: set<string> := {"id", "title", "bullets", "imagePrompt", "imageUrl", "layout", "notes", "style"}

  /** A slide as the JSON object that is stored. */
  function SlideToValue(s: Slide): (r: Value)
    ensures r.Obj?
    ensures forall key :: Get(Some(r), key) == SlideField(s, key)
  {
    Obj(map key | key in SlideKeys && SlideField(s, key).Some? :: SlideField(s, key).value)
  }

  function SlidesToValue(slides: seq<Slide>): (r: Value)
    ensures r.Arr? && |r.items| == |slides|
    ensures forall i :: 0 <= i < |slides| ==> r.items[i] == SlideToValue(slides[i])
  {
    Arr(seq(|slides|, i requires 0 <= i < |slides| => SlideToValue(slides[i])))
  }

  function MetaToValue(m: DeckMeta): Value {
    Obj(WithOpt(WithOpt(WithOpt(map[], "topic", OptStr(m.topic)), "audience", OptStr(m.audience)),
                "tone", OptStr(m.tone)))
  }

  function OptMetaToValue(m: Option<DeckMeta>): Option<Value> {
    if m.Some? then Some(MetaToValue(m.value)) else None
  }
}
