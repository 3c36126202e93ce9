/**
 * Reading a `SlidesState` out of a stored document, and building the
 * `{ artifact }` envelope that is stored back.
 *
 * A document's content is either the envelope `{ artifact: { state: { deck,
 * past, future } } }` or, in the legacy shape, the raw slide array. The
 * envelope builder stamps the deck with the document's id, title and theme,
 * and advances the artifact's version counter.
 *
 * `new Date().toISOString()` is the `now` parameter.
 */
module SlidesEnvelope {
  import opened Wrappers
  import opened Text
  import opened Js
  import opened SlideTypes
  import opened SlidesArtifact
  import opened SlidesHistory

  const DefaultThemeName: string := "Default"

  /** A documents row: id, title, nullable theme name, and the stored JSON content. */
  datatype Doc = Doc(id: string, title: string, themeName: Option<string>, content: Option<Value>)

  // ---------------------------------------------------------------------
  // Deck objects
  // ---------------------------------------------------------------------

  /** Property `key` of the deck object `{ id, title, slides, themeName, meta }` (an undefined meta absent). */
  function DeckField(id: string, title: Value, slides: seq<Slide>, themeName: Value, meta: Option<DeckMeta>, key: string): Option<Value> {
    if key == "id" then Some(Str(id))
    else if key == "title" then Some(title)
    else if key == "slides" then Some(SlidesToValue(slides))
    else if key == "themeName" then Some(themeName)
    else if key == "meta" then OptMetaToValue(meta)
    else None
  }

  const DeckKeys: set<string> := {"id", "title", "slides", "themeName", "meta"}

  /** The deck object the reader builds. */
  function DeckValue(id: string, title: Value, slides: seq<Slide>, themeName: Value, meta: Option<DeckMeta>): (r: Value)
    ensures r.Obj?
    ensures forall key :: Get(Some(r), key) == DeckField(id, title, slides, themeName, meta, key)
  {
    Obj(map key | key in DeckKeys && DeckField(id, title, slides, themeName, meta, key).Some? ::
      DeckField(id, title, slides, themeName, meta, key).value)
  }

  // ---------------------------------------------------------------------
  // extractSlidesStateFromDoc
  // ---------------------------------------------------------------------

  datatype Extracted = Extracted(state: SlidesState<Value>, artifact: Option<Value>, normChanged: bool)

  /** The undo stack of a stored state: `past` when it is an array, else the older `history`, else none. */
  function PastOf(st: Option<Value>): seq<Value> {
    if IsArray(Get(st, "past")) then Get(st, "past").value.items
    else if IsArray(Get(st, "history")) then Get(st, "history").value.items
    else []
  }

  /** `extractSlidesStateFromDoc`. */
  function ExtractSlidesState(doc: Doc, uuid: set<string> -> string): (r: Extracted)
    ensures r.artifact.Some? <==> doc.content.Some? && IsArtifactEnvelope(doc.content.value)
    ensures r.artifact.None? ==> r.state.past == [] && r.state.future == []
  {
    if doc.content.Some? && IsArtifactEnvelope(doc.content.value) then
      var a := Get(doc.content, "artifact");
      var st := Get(a, "state");
      var deckRaw := Get(st, "deck");
      var norm := NormalizeSlides(Get(deckRaw, "slides"), uuid);
      var docTheme := if doc.themeName.Some? then Str(doc.themeName.value) else Str(DefaultThemeName);
      var deck := DeckValue(
        doc.id,
        Coalesce(Get(deckRaw, "title"), Str(doc.title)),
        norm.slides,
        Coalesce(Get(deckRaw, "themeName"), docTheme),
        NormalizeMeta(Get(deckRaw, "meta")));
      Extracted(SlidesState(deck, PastOf(st), ArrayOr(Get(st, "future"))), a, norm.changed)
    else
      var norm := NormalizeSlides(doc.content, uuid);
      var deck := DeckValue(doc.id, Str(doc.title), norm.slides, Str(doc.themeName.GetOr(DefaultThemeName)), None);
      Extracted(SlidesState(deck, [], []), None, norm.changed)
  }

  /** The envelope branch: stacks from `past`/`history`/`future` with `[]` defaults, the deck under the document's id, themes falling back deck, then document, then "Default". */
  lemma ExtractEnvelope(doc: Doc, uuid: set<string> -> string)
    requires doc.content.Some? && IsArtifactEnvelope(doc.content.value)
    ensures var st := Get(Get(doc.content, "artifact"), "state");
      var deckRaw := Get(st, "deck");
      var e := ExtractSlidesState(doc, uuid);
      var deck := Some(e.state.deck);
      && e.artifact == Get(doc.content, "artifact")
      && (IsArray(Get(st, "past")) ==> e.state.past == Get(st, "past").value.items)
      && (!IsArray(Get(st, "past")) && IsArray(Get(st, "history")) ==> e.state.past == Get(st, "history").value.items)
      && (!IsArray(Get(st, "past")) && !IsArray(Get(st, "history")) ==> e.state.past == [])
      && e.state.future == ArrayOr(Get(st, "future"))
      && Get(deck, "id") == Some(Str(doc.id))
      && Get(deck, "slides") == Some(SlidesToValue(NormalizeSlides(Get(deckRaw, "slides"), uuid).slides))
      && e.normChanged == NormalizeSlides(Get(deckRaw, "slides"), uuid).changed
      && Get(deck, "meta") == OptMetaToValue(NormalizeMeta(Get(deckRaw, "meta")))
      && (!Nullish(Get(deckRaw, "title")) ==> Get(deck, "title") == Get(deckRaw, "title"))
      && (Nullish(Get(deckRaw, "title")) ==> Get(deck, "title") == Some(Str(doc.title)))
      && (!Nullish(Get(deckRaw, "themeName")) ==> Get(deck, "themeName") == Get(deckRaw, "themeName"))
      && (Nullish(Get(deckRaw, "themeName")) && doc.themeName.Some? ==> Get(deck, "themeName") == Some(Str(doc.themeName.value)))
      && (Nullish(Get(deckRaw, "themeName")) && doc.themeName.None? ==> Get(deck, "themeName") == Some(Str(DefaultThemeName)))
  {
  }

  /** The legacy branch: the content itself is normalised, the stacks are empty and there is no artifact. */
  lemma ExtractLegacy(doc: Doc, uuid: set<string> -> string)
    requires !(doc.content.Some? && IsArtifactEnvelope(doc.content.value))
    ensures var e := ExtractSlidesState(doc, uuid);
      var norm := NormalizeSlides(doc.content, uuid);
      && e.artifact.None?
      && e.state.past == [] && e.state.future == []
      && e.state.deck == DeckValue(doc.id, Str(doc.title), norm.slides, Str(doc.themeName.GetOr(DefaultThemeName)), None)
      && e.normChanged == norm.changed
  {
  }

  // ---------------------------------------------------------------------
  // buildSlidesArtifactEnvelope
  // ---------------------------------------------------------------------

  datatype Action = Create | Update | Regenerate | ManualEdit | Export | Undo | Redo

  function ActionName(a: Action): string {
    match a
    case Create => "create"
    case Update => "update"
    case Regenerate => "regenerate"
    case ManualEdit => "manual-edit"
    case Export => "export"
    case Undo => "undo"
    case Redo => "redo"
  }

  /** Property `key` of `{ ...deck, id, title, themeName, meta }`. */
  function RestampField(deck: Value, docId: string, title: Value, themeName: Value, meta: Option<Value>, key: string): Option<Value> {
    if key == "id" then Some(Str(docId))
    else if key == "title" then Some(title)
    else if key == "themeName" then Some(themeName)
    else if key == "meta" then meta
    else if key in SpreadFields(deck) then Some(SpreadFields(deck)[key])
    else None
  }

  /** The spread deck with id, title, theme and meta overwritten. */
  function RestampDeck(deck: Value, docId: string, title: Value, themeName: Value, meta: Option<Value>): (r: Value)
    ensures r.Obj?
    ensures forall key :: Get(Some(r), key) == RestampField(deck, docId, title, themeName, meta, key)
  {
    Obj(map key | key in SpreadFields(deck).Keys + DeckKeys && RestampField(deck, docId, title, themeName, meta, key).Some? ::
      RestampField(deck, docId, title, themeName, meta, key).value)
  }

  /** `normalizeMeta(deck.meta)` as stored. */
  function StoredMeta(deck: Value): Option<Value> {
    OptMetaToValue(NormalizeMeta(Get(Some(deck), "meta")))
  }

  /** `typeof prev?.version === "number" ? prev.version : 1`. */
  function PrevVersion(prev: Option<Value>): int {
    var v := Get(prev, "version");
    if v.Some? && v.value.Num? then v.value.n else 1
  }

  /** Property `key` of the artifact object. */
  function ArtifactField(docId: string, title: Value, themeName: Value, st: SlidesState<Value>, prev: Option<Value>,
                         bump: bool, lastAction: Option<Action>, now: string, key: string): Option<Value> {
    if key == "id" then Some(Coalesce(Get(prev, "id"), Str(docId)))
    else if key == "type" then Some(Str("slides"))
    else if key == "title" then Some(title)
    else if key == "version" then Some(Num(PrevVersion(prev) + if bump then 1 else 0))
    else if key == "meta" then
      Some(Obj(map["status" := Str("ready"), "lastAction" := Str(ActionName(lastAction.GetOr(Update))), "error" := Null]))
    else if key == "state" then
      Some(Obj(map["deck" := RestampDeck(st.deck, docId, title, themeName, StoredMeta(st.deck)), "past" := Arr(st.past), "future" := Arr(st.future)]))
    else if key == "updatedAt" then Some(Str(now))
    else None
  }

  const ArtifactKeys: set<string> := {"id", "type", "title", "version", "meta", "state", "updatedAt"}

  /** The artifact object of `buildSlidesArtifactEnvelope`. */
  function BuildArtifact(docId: string, title: Value, themeName: Value, st: SlidesState<Value>, prev: Option<Value>,
                         bump: bool, lastAction: Option<Action>, now: string): (r: Value)
    ensures r.Obj?
    ensures forall key :: Get(Some(r), key) == ArtifactField(docId, title, themeName, st, prev, bump, lastAction, now, key)
  {
    Obj(map key | key in ArtifactKeys && ArtifactField(docId, title, themeName, st, prev, bump, lastAction, now, key).Some? ::
      ArtifactField(docId, title, themeName, st, prev, bump, lastAction, now, key).value)
  }

  /** `buildSlidesArtifactEnvelope`: `{ artifact }`. */
  function BuildEnvelope(docId: string, title: Value, themeName: Value, st: SlidesState<Value>, prev: Option<Value>,
                         bump: bool, lastAction: Option<Action>, now: string): (r: Value)
    ensures IsArtifactEnvelope(r)
    ensures Get(Some(r), "artifact") == Some(BuildArtifact(docId, title, themeName, st, prev, bump, lastAction, now))
  {
    Obj(map["artifact" := BuildArtifact(docId, title, themeName, st, prev, bump, lastAction, now)])
  }

  /** The builder's top-level fields: the previous id or the document id; type "slides"; the previous numeric version, or 1, plus one when bumping. */
  lemma BuildFields(docId: string, title: Value, themeName: Value, st: SlidesState<Value>, prev: Option<Value>,
                    bump: bool, lastAction: Option<Action>, now: string)
    ensures var a := Some(BuildArtifact(docId, title, themeName, st, prev, bump, lastAction, now));
      && (!Nullish(Get(prev, "id")) ==> Get(a, "id") == Get(prev, "id"))
      && (Nullish(Get(prev, "id")) ==> Get(a, "id") == Some(Str(docId)))
      && Get(a, "type") == Some(Str("slides"))
      && Get(a, "title") == Some(title)
      && (Get(prev, "version").Some? && Get(prev, "version").value.Num? ==>
            Get(a, "version") == Some(Num(Get(prev, "version").value.n + if bump then 1 else 0)))
      && (!(Get(prev, "version").Some? && Get(prev, "version").value.Num?) ==>
            Get(a, "version") == Some(Num(if bump then 2 else 1)))
      && Get(a, "updatedAt") == Some(Str(now))
  {
  }

  /** The builder's meta: status "ready", the action or else "update", error null. */
  lemma BuildMetaFields(docId: string, title: Value, themeName: Value, st: SlidesState<Value>, prev: Option<Value>,
                        bump: bool, lastAction: Option<Action>, now: string)
    ensures var m := Get(Some(BuildArtifact(docId, title, themeName, st, prev, bump, lastAction, now)), "meta");
      && Get(m, "status") == Some(Str("ready"))
      && (lastAction.Some? ==> Get(m, "lastAction") == Some(Str(ActionName(lastAction.value))))
      && (lastAction.None? ==> Get(m, "lastAction") == Some(Str("update")))
      && Get(m, "error") == Some(Null)
  {
  }

  /** The builder's state: the deck stamped with the given id, title and theme and its meta normalised; the stacks as given. */
  lemma BuildStateFields(docId: string, title: Value, themeName: Value, st: SlidesState<Value>, prev: Option<Value>,
                         bump: bool, lastAction: Option<Action>, now: string)
    ensures var s := Get(Some(BuildArtifact(docId, title, themeName, st, prev, bump, lastAction, now)), "state");
      var deck := Get(s, "deck");
      && Get(deck, "id") == Some(Str(docId))
      && Get(deck, "title") == Some(title)
      && Get(deck, "themeName") == Some(themeName)
      && Get(deck, "meta") == StoredMeta(st.deck)
      && (forall key :: key !in DeckKeys ==> Get(deck, key) == Get(Some(st.deck), key))
      && Get(s, "past") == Some(Arr(st.past))
      && Get(s, "future") == Some(Arr(st.future))
  {
  }

  /** Building on a previously built artifact advances its version by exactly one when bumping, and keeps its id. */
  lemma VersionChain(docId: string, title: Value, themeName: Value, st: SlidesState<Value>, prev: Option<Value>,
                     bump: bool, lastAction: Option<Action>, now: string,
                     title2: Value, themeName2: Value, st2: SlidesState<Value>, bump2: bool, lastAction2: Option<Action>, now2: string)
    ensures var a1 := BuildArtifact(docId, title, themeName, st, prev, bump, lastAction, now);
      var a2 := BuildArtifact(docId, title2, themeName2, st2, Some(a1), bump2, lastAction2, now2);
      && PrevVersion(Some(a2)) == PrevVersion(Some(a1)) + (if bump2 then 1 else 0)
      && Get(Some(a2), "id") == Get(Some(a1), "id")
  {
  }

  /** A deck in the shape the reader produces, with canonical slides and meta. */
  predicate CanonicalDeck(slides: seq<Slide>, meta: Option<DeckMeta>) {
    CanonicalSlides(slides) && (meta.Some? ==> CanonicalMeta(meta.value))
  }

  /** The meta a reader-shaped deck stores is its own. */
  lemma StoredMetaOfDeck(id: string, title: Value, slides: seq<Slide>, themeName: Value, meta: Option<DeckMeta>)
    requires meta.Some? ==> CanonicalMeta(meta.value)
    ensures StoredMeta(DeckValue(id, title, slides, themeName, meta)) == OptMetaToValue(meta)
    ensures NormalizeMeta(Get(Some(DeckValue(id, title, slides, themeName, meta)), "meta")) == meta
  {
    if meta.Some? {
      NormalizeMetaStored(meta.value);
    }
  }

  lemma RestampDeckKey(id: string, title: Value, slides: seq<Slide>, themeName: Value, meta: Option<DeckMeta>,
                       docId: string, title2: Value, themeName2: Value, key: string)
    ensures Get(Some(RestampDeck(DeckValue(id, title, slides, themeName, meta), docId, title2, themeName2, OptMetaToValue(meta))), key)
         == Get(Some(DeckValue(docId, title2, slides, themeName2, meta)), key)
  {
  }

  /** Stamping a reader-shaped deck with its own meta gives the same deck under the new id, title and theme. */
  lemma RestampDeckValue(id: string, title: Value, slides: seq<Slide>, themeName: Value, meta: Option<DeckMeta>,
                         docId: string, title2: Value, themeName2: Value)
    ensures RestampDeck(DeckValue(id, title, slides, themeName, meta), docId, title2, themeName2, OptMetaToValue(meta))
         == DeckValue(docId, title2, slides, themeName2, meta)
  {
    var r := RestampDeck(DeckValue(id, title, slides, themeName, meta), docId, title2, themeName2, OptMetaToValue(meta));
    var e := DeckValue(docId, title2, slides, themeName2, meta);
    forall key ensures Get(Some(r), key) == Get(Some(e), key) {
      RestampDeckKey(id, title, slides, themeName, meta, docId, title2, themeName2, key);
    }
    ObjectExt(r, e);
  }

  /** Reading an envelope whose deck is reader-shaped and whose stacks are arrays gives that deck and those stacks back. */
  lemma ExtractStored(doc: Doc, title: Value, themeName: Value, id0: string,
                      slides: seq<Slide>, meta: Option<DeckMeta>, past: seq<Value>, future: seq<Value>, uuid: set<string> -> string)
    requires CanonicalDeck(slides, meta)
    requires !title.Null? && !themeName.Null?
    requires doc.content.Some? && IsArtifactEnvelope(doc.content.value)
    requires var st := Get(Get(doc.content, "artifact"), "state");
      && Get(st, "deck") == Some(DeckValue(id0, title, slides, themeName, meta))
      && Get(st, "past") == Some(Arr(past))
      && Get(st, "future") == Some(Arr(future))
    ensures ExtractSlidesState(doc, uuid) == Extracted(
      SlidesState(DeckValue(doc.id, title, slides, themeName, meta), past, future),
      Get(doc.content, "artifact"),
      false)
  {
    StoredMetaOfDeck(id0, title, slides, themeName, meta);
    NormalizeStored(slides, uuid);
  }

  /**
   * Reading back a built envelope gives the stored state: the deck under the document's id with
   * the given title and theme, the same slides and meta, the stacks as stored, and no change flagged.
   */
  lemma ExtractAfterBuild(doc: Doc, title: Value, themeName: Value, id0: string, title0: Value, themeName0: Value,
                          slides: seq<Slide>, meta: Option<DeckMeta>, past: seq<Value>, future: seq<Value>,
                          prev: Option<Value>, bump: bool, lastAction: Option<Action>, now: string, uuid: set<string> -> string)
    requires CanonicalDeck(slides, meta)
    requires !title.Null? && !themeName.Null?
    requires doc.content == Some(BuildEnvelope(doc.id, title, themeName,
      SlidesState(DeckValue(id0, title0, slides, themeName0, meta), past, future), prev, bump, lastAction, now))
    ensures ExtractSlidesState(doc, uuid) == Extracted(
      SlidesState(DeckValue(doc.id, title, slides, themeName, meta), past, future),
      Get(doc.content, "artifact"),
      false)
  {
    var st := SlidesState(DeckValue(id0, title0, slides, themeName0, meta), past, future);
    StoredMetaOfDeck(id0, title0, slides, themeName0, meta);
    RestampDeckValue(id0, title0, slides, themeName0, meta, doc.id, title, themeName);
    BuildStateFields(doc.id, title, themeName, st, prev, bump, lastAction, now);
    ExtractStored(doc, title, themeName, doc.id, slides, meta, past, future, uuid);
  }

  /**
   * Opening a legacy document migrates it (an envelope built without a version bump, action
   * "create"); opening the migrated document reads back the same state, flags no change, and
   * finds version 1.
   */
  lemma MigrationStable(doc: Doc, now: string, uuid: set<string> -> string, uuid2: set<string> -> string)
    requires FreshSource(uuid)
    requires !(doc.content.Some? && IsArtifactEnvelope(doc.content.value))
    ensures var e := ExtractSlidesState(doc, uuid);
      var title := Get(Some(e.state.deck), "title").value;
      var theme := Get(Some(e.state.deck), "themeName").value;
      var env := BuildEnvelope(doc.id, title, theme, e.state, None, false, Some(Create), now);
      var doc2 := Doc(doc.id, doc.title, doc.themeName, Some(env));
      && ExtractSlidesState(doc2, uuid2).state == e.state
      && !ExtractSlidesState(doc2, uuid2).normChanged
      && PrevVersion(Get(Some(env), "artifact")) == 1
  {
    var norm := NormalizeSlides(doc.content, uuid);
    NormalizeCanonical(ArrayOr(doc.content), uuid);
    var e := ExtractSlidesState(doc, uuid);
    var title := Str(doc.title);
    var theme := Str(doc.themeName.GetOr(DefaultThemeName));
    var env := BuildEnvelope(doc.id, title, theme, e.state, None, false, Some(Create), now);
    var doc2 := Doc(doc.id, doc.title, doc.themeName, Some(env));
    ExtractAfterBuild(doc2, title, theme, doc.id, title, theme, norm.slides, None, [], [], None, false, Some(Create), now, uuid2);
  }
}
