/**
 * `normalizeDeck` of `app/HomeClient.tsx`: the client's reading of a
 * document response into a deck. The response is a JSON value; every
 * caller passes an object, and the model reads a non-object as having no
 * properties.
 *
 * The artifact-derived fields are written in the source with `&&` chains
 * (`raw.content && typeof raw.content === "object" && ...`), whose value is
 * the first falsy operand: a falsy content (`""`, `0`, `false`) is the value
 * itself, and a truthy content that is not an object is `false`. Those
 * values are not nullish, so they stop the `??` chain that follows.
 */
module HomeClient {
  import opened Wrappers
  import opened Text
  import opened Js
  import opened SlideTypes
  import SlidesHistory
  import SlidesEnvelope
  import SlidesExtract

  const DefaultTitle: string := "Yeni Sunum"
  const DefaultTheme: string := "Default"

  /** The deck the client keeps: every field as the response had it, at run time of any JSON type. */
  datatype ClientDeck = ClientDeck(id: Value, title: Value, slides: seq<Value>, themeName: Value, meta: Option<Value>)

  /** `raw.content && typeof raw.content === "object" && raw.content.artifact?.state?.deck?.[key]`. */
  function FromArtifact(content: Option<Value>, key: string): (r: Option<Value>)
    ensures !Truthy(content) ==> r == content
    ensures Truthy(content) && !(content.value.Obj? || content.value.Arr?) ==> r == Some(Bool(false))
    ensures Truthy(content) && (content.value.Obj? || content.value.Arr?) ==>
      r == Get(Get(Get(Get(content, "artifact"), "state"), "deck"), key)
  {
    if !Truthy(content) then content
    else if TypeOf(content) != "object" then Some(Bool(false))
    else Get(Get(Get(Get(content, "artifact"), "state"), "deck"), key)
  }

  /** `a ?? b ?? d`. */
  function Coalesce2(a: Option<Value>, b: Option<Value>, d: Value): (r: Value)
    ensures !Nullish(a) ==> Some(r) == a
    ensures Nullish(a) && !Nullish(b) ==> Some(r) == b
    ensures Nullish(a) && Nullish(b) ==> r == d
  {
    Coalesce(a, Coalesce(b, d))
  }

  /** `raw.meta ?? metaFromArtifact ?? undefined`. */
  function MetaChoice(a: Option<Value>, b: Option<Value>): (r: Option<Value>)
    ensures !Nullish(a) ==> r == a
    ensures Nullish(a) && !Nullish(b) ==> r == b
    ensures Nullish(a) && Nullish(b) ==> r.None?
  {
    if !Nullish(a) then a else if !Nullish(b) then b else None
  }

  /** The slide list: `raw.slides` when an array, else `raw.content` when an array, else the artifact deck's slides when an array, else none. */
  function ClientSlides(raw: Value): (r: seq<Value>)
    ensures IsArray(Get(Some(raw), "slides")) ==> r == Get(Some(raw), "slides").value.items
    ensures !IsArray(Get(Some(raw), "slides")) && IsArray(Get(Some(raw), "content")) ==> r == Get(Some(raw), "content").value.items
    ensures !IsArray(Get(Some(raw), "slides")) && !IsArray(Get(Some(raw), "content")) ==>
      r == ArrayOr(FromArtifact(Get(Some(raw), "content"), "slides"))
  {
    var content := Get(Some(raw), "content");
    if IsArray(Get(Some(raw), "slides")) then Get(Some(raw), "slides").value.items
    else if IsArray(content) then content.value.items
    else ArrayOr(FromArtifact(content, "slides"))
  }

  /** `normalizeDeck`. */
  function NormalizeDeck(raw: Value): (r: Option<ClientDeck>)
    ensures r.None? <==> !Truthy(Get(Some(raw), "id"))
    ensures r.Some? ==> Some(r.value.id) == Get(Some(raw), "id")
    ensures r.Some? ==> r.value.slides == ClientSlides(raw)
  {
    var id := Get(Some(raw), "id");
    if !Truthy(id) then None
    else
      var content := Get(Some(raw), "content");
      Some(ClientDeck(
        id.value,
        Coalesce2(Get(Some(raw), "title"), FromArtifact(content, "title"), Str(DefaultTitle)),
        ClientSlides(raw),
        Coalesce2(Get(Some(raw), "themeName"), FromArtifact(content, "themeName"), Str(DefaultTheme)),
        MetaChoice(Get(Some(raw), "meta"), FromArtifact(content, "meta"))))
  }

  /**
   * The title: the response's own when not nullish; else the artifact deck's when not nullish;
   * a falsy content (not null) is itself the title, a truthy non-object content makes it `false`;
   * only a missing or null content, or an artifact without a title, gives "Yeni Sunum".
   */
  lemma NormalizeDeckTitle(raw: Value)
    requires Truthy(Get(Some(raw), "id"))
    ensures var t := NormalizeDeck(raw).value.title;
      var own := Get(Some(raw), "title");
      var content := Get(Some(raw), "content");
      && (!Nullish(own) ==> Some(t) == own)
      && (Nullish(own) && Nullish(content) ==> t == Str(DefaultTitle))
      && (Nullish(own) && !Nullish(content) && !Truthy(content) ==> Some(t) == content)
      && (Nullish(own) && Truthy(content) && !(content.value.Obj? || content.value.Arr?) ==> t == Bool(false))
      && (Nullish(own) && Truthy(content) && (content.value.Obj? || content.value.Arr?) ==>
            t == Coalesce(Get(Get(Get(Get(content, "artifact"), "state"), "deck"), "title"), Str(DefaultTitle)))
  {
  }

  /**
   * The theme name follows the same chain as the title, falling back to "Default"; meta is the
   * response's own when not nullish, else the artifact deck's when not nullish, else undefined,
   * with a falsy or non-object content stopping the chain as it does for the title.
   */
  lemma NormalizeDeckThemeAndMeta(raw: Value)
    requires Truthy(Get(Some(raw), "id"))
    ensures var d := NormalizeDeck(raw).value;
      var content := Get(Some(raw), "content");
      var own := Get(Some(raw), "themeName");
      && (!Nullish(own) ==> Some(d.themeName) == own)
      && (Nullish(own) && Nullish(content) ==> d.themeName == Str(DefaultTheme))
      && (Nullish(own) && !Nullish(content) && !Truthy(content) ==> Some(d.themeName) == content)
      && (Nullish(own) && Truthy(content) && !(content.value.Obj? || content.value.Arr?) ==>
            d.themeName == Bool(false))
      && (Nullish(own) && Truthy(content) && (content.value.Obj? || content.value.Arr?) ==>
            d.themeName == Coalesce(Get(Get(Get(Get(content, "artifact"), "state"), "deck"), "themeName"), Str(DefaultTheme)))
    ensures var d := NormalizeDeck(raw).value;
      var content := Get(Some(raw), "content");
      var own := Get(Some(raw), "meta");
      var art := Get(Get(Get(content, "artifact"), "state"), "deck");
      && (!Nullish(own) ==> d.meta == own)
      && (Nullish(own) && Nullish(content) ==> d.meta.None?)
      && (Nullish(own) && !Nullish(content) && !Truthy(content) ==> d.meta == content)
      && (Nullish(own) && Truthy(content) && !(content.value.Obj? || content.value.Arr?) ==>
            d.meta == Some(Bool(false)))
      && (Nullish(own) && Truthy(content) && (content.value.Obj? || content.value.Arr?) ==>
            d.meta == (if Nullish(Get(art, "meta")) then None else Get(art, "meta")))
  {
  }

  /**
   * Where both apply, the client reads the same slide list as the export: a response without a
   * `slides` array whose content is an array, or an envelope with its deck's slides and no
   * top-level `slides` or `content` array.
   */
  lemma ClientSlidesMatchExport(raw: Value, parse: string -> Option<Value>)
    requires SlidesExtract.ParseShrinks(parse)
    requires !IsArray(Get(Some(raw), "slides"))
    requires var content := Get(Some(raw), "content");
      || IsArray(content)
      || (IsObject(content) && !IsArray(Get(content, "slides")) && !IsArray(Get(content, "content"))
          && IsArray(Path(content, SlidesExtract.StatePath)))
    ensures ClientSlides(raw) == SlidesExtract.ExtractSlides(Get(Some(raw), "content"), parse)
  {
    var content := Get(Some(raw), "content");
    SlidesExtract.StatePathOf(content);
  }

  /** The two readers part on the older `{ artifact: { deck: { slides } } }` shape: the export finds the slides, the client none. */
  lemma ClientIgnoresOlderEnvelope(slides: seq<Value>, parse: string -> Option<Value>)
    requires SlidesExtract.ParseShrinks(parse)
    ensures var content := Obj(map["artifact" := Obj(map["deck" := Obj(map["slides" := Arr(slides)])])]);
      var raw := Obj(map["id" := Str("d"), "content" := content]);
      && ClientSlides(raw) == []
      && SlidesExtract.ExtractSlides(Some(content), parse) == slides
  {
    var deck := Obj(map["slides" := Arr(slides)]);
    var art := Obj(map["deck" := deck]);
    var content := Obj(map["artifact" := art]);
    var raw := Obj(map["id" := Str("d"), "content" := content]);
    assert "slides"[0] != "id"[0] && "slides"[0] != "content"[0] && "content"[0] != "id"[0];
    assert "slides"[0] != "artifact"[0] && "content"[0] != "artifact"[0] && "state"[0] != "deck"[0];
    SlidesExtract.StatePathOf(Some(content));
    assert SlidesExtract.AltPath[1..] == ["deck", "slides"];
    assert SlidesExtract.AltPath[2..] == ["slides"];
    assert SlidesExtract.AltPath[3..] == [];
  }

  /**
   * A response holding only the document id and a built envelope reads back as the deck the
   * envelope stores: its slides, the title and theme the builder stamped, and the stored meta.
   */
  lemma ClientReadsBuiltEnvelope(docId: string, title: Value, themeName: Value, st: SlidesHistory.SlidesState<Value>,
                                 prev: Option<Value>, bump: bool, lastAction: Option<SlidesEnvelope.Action>, now: string)
    requires docId != ""
    requires !title.Null? && !themeName.Null?
    ensures var env := SlidesEnvelope.BuildEnvelope(docId, title, themeName, st, prev, bump, lastAction, now);
      var d := NormalizeDeck(Obj(map["id" := Str(docId), "content" := env]));
      && d.Some?
      && d.value.id == Str(docId)
      && d.value.title == title
      && d.value.themeName == themeName
      && d.value.slides == ArrayOr(Get(Some(st.deck), "slides"))
      && d.value.meta == SlidesEnvelope.StoredMeta(st.deck)
  {
    var env := SlidesEnvelope.BuildEnvelope(docId, title, themeName, st, prev, bump, lastAction, now);
    var a := SlidesEnvelope.BuildArtifact(docId, title, themeName, st, prev, bump, lastAction, now);
    var raw := Obj(map["id" := Str(docId), "content" := env]);
    ResponseFields(docId, env);
    SlidesExtract.EnvelopeTop(env, a);
    SlidesEnvelope.BuildStateFields(docId, title, themeName, st, prev, bump, lastAction, now);
    SlidesExtract.BuiltStateSlides(docId, title, themeName, st, prev, bump, lastAction, now);
  }

  /** The response `{ id, content }` has just those two properties. */
  lemma ResponseFields(docId: string, content: Value)
    ensures var raw := Some(Obj(map["id" := Str(docId), "content" := content]));
      && Get(raw, "id") == Some(Str(docId))
      && Get(raw, "content") == Some(content)
      && Get(raw, "slides") == None && Get(raw, "title") == None
      && Get(raw, "themeName") == None && Get(raw, "meta") == None
  {
    assert "slides"[0] != "id"[0] && "slides"[0] != "content"[0];
    assert "title"[0] != "id"[0] && "title"[0] != "content"[0];
    assert "themeName"[0] != "id"[0] && "themeName"[0] != "content"[0];
    assert "meta"[0] != "id"[0] && "meta"[0] != "content"[0];
    assert "content"[0] != "id"[0];
  }
}
