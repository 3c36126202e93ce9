/**
 * `lib/export/slidesExtract.ts`: the export side's reader of the slide list,
 * accepting every content shape the documents table has held over time: the
 * raw array, `{ slides }`, `{ content }`, the current envelope
 * `{ artifact: { state: { deck: { slides } } } }`, the older
 * `{ artifact: { deck: { slides } } }`, and any of these as a JSON text.
 *
 * `JSON.parse` is the `parse` parameter: `None` when it throws. A JSON text
 * that denotes a string is longer than that string (it holds the quotes), and
 * `ParseShrinks` says so; it is what makes the recursion through nested JSON
 * texts end.
 */
module SlidesExtract {
  import opened Wrappers
  import opened Text
  import opened Js
  import opened SlideTypes
  import SlidesHistory
  import SlidesEnvelope

  /** A JSON text that parses to a string is longer than the string. */
  ghost predicate ParseShrinks(parse: string -> Option<Value>) {
    forall s :: parse(s).Some? && parse(s).value.Str? ==> |parse(s).value.s| < |s|
  }

  /** The path of the current envelope's slide list. */
  const StatePath: seq<string> := ["artifact", "state", "deck", "slides"]
  /** The path of the older envelope's slide list. */
  const AltPath: seq<string> := ["artifact", "deck", "slides"]

  /** The slide list an object content holds, probing the four shapes in order. */
  function ObjectSlides(content: Option<Value>): (r: seq<Value>)
    ensures IsArray(Get(content, "slides")) ==> r == Get(content, "slides").value.items
    ensures !IsArray(Get(content, "slides")) && IsArray(Get(content, "content")) ==> r == Get(content, "content").value.items
    ensures !IsArray(Get(content, "slides")) && !IsArray(Get(content, "content")) && IsArray(Path(content, StatePath)) ==>
      r == Path(content, StatePath).value.items
    ensures !IsArray(Get(content, "slides")) && !IsArray(Get(content, "content")) && !IsArray(Path(content, StatePath)) ==>
      r == ArrayOr(Path(content, AltPath))
  {
    if IsArray(Get(content, "slides")) then Get(content, "slides").value.items
    else if IsArray(Get(content, "content")) then Get(content, "content").value.items
    else if IsArray(Path(content, StatePath)) then Path(content, StatePath).value.items
    else ArrayOr(Path(content, AltPath))
  }

  /** The measure of the recursion: a string content is worth one more than its length. */
  function StrSize(content: Option<Value>): nat {
    if content.Some? && content.value.Str? then |content.value.s| + 1 else 0
  }

  /** `extractSlidesFromContent`. */
  function ExtractSlides(content: Option<Value>, parse: string -> Option<Value>): (r: seq<Value>)
    requires ParseShrinks(parse)
    ensures !Truthy(content) ==> r == []
    ensures IsArray(content) ==> r == content.value.items
    ensures IsObject(content) ==> r == ObjectSlides(content)
    ensures content.Some? && (content.value.Bool? || content.value.Num?) ==> r == []
    ensures Truthy(content) && content.value.Str? && parse(content.value.s).None? ==> r == []
    decreases StrSize(content)
  {
    if !Truthy(content) then []
    else
      match content.value
      case Str(s) =>
        var parsed := parse(s);
        if parsed.None? then [] else ExtractSlides(parsed, parse)
      case Arr(items) => items
      case Obj(_) => ObjectSlides(content)
      case _ => []
  }

  /** A JSON text reads like the value it denotes. */
  lemma ExtractParsed(s: string, parse: string -> Option<Value>)
    requires ParseShrinks(parse)
    requires s != "" && parse(s).Some?
    ensures ExtractSlides(Some(Str(s)), parse) == ExtractSlides(parse(s), parse)
  {
  }

  /** Whatever the shape, the result is an array the content holds (possibly behind JSON texts), or empty. */
  ghost predicate HeldBy(r: seq<Value>, content: Option<Value>, parse: string -> Option<Value>)
    decreases StrSize(content)
  {
    || r == []
    || (IsArray(content) && r == content.value.items)
    || (IsObject(content) &&
         (|| (IsArray(Get(content, "slides")) && r == Get(content, "slides").value.items)
          || (IsArray(Get(content, "content")) && r == Get(content, "content").value.items)
          || (IsArray(Path(content, StatePath)) && r == Path(content, StatePath).value.items)
          || (IsArray(Path(content, AltPath)) && r == Path(content, AltPath).value.items)))
    || (content.Some? && content.value.Str? && parse(content.value.s).Some? && StrSize(parse(content.value.s)) < StrSize(content)
        && HeldBy(r, parse(content.value.s), parse))
  }

  lemma {:induction false} ExtractHeld(content: Option<Value>, parse: string -> Option<Value>)
    requires ParseShrinks(parse)
    ensures HeldBy(ExtractSlides(content, parse), content, parse)
    decreases StrSize(content)
  {
    if Truthy(content) && content.value.Str? {
      var parsed := parse(content.value.s);
      if parsed.Some? {
        ExtractHeld(parsed, parse);
      }
    }
  }

  /**
   * An envelope as the builder writes it, around a deck whose `slides` is an array, exports
   * exactly that array: the envelope has no top-level `slides` or `content` to shadow it.
   */
  lemma ExtractFromBuiltEnvelope(docId: string, title: Value, themeName: Value, st: SlidesHistory.SlidesState<Value>,
                                 prev: Option<Value>, bump: bool, lastAction: Option<SlidesEnvelope.Action>, now: string,
                                 parse: string -> Option<Value>)
    requires ParseShrinks(parse)
    requires IsArray(Get(Some(st.deck), "slides"))
    ensures ExtractSlides(Some(SlidesEnvelope.BuildEnvelope(docId, title, themeName, st, prev, bump, lastAction, now)), parse)
         == Get(Some(st.deck), "slides").value.items
  {
    var env := SlidesEnvelope.BuildEnvelope(docId, title, themeName, st, prev, bump, lastAction, now);
    var a := SlidesEnvelope.BuildArtifact(docId, title, themeName, st, prev, bump, lastAction, now);
    EnvelopeTop(env, a);
    BuiltStateSlides(docId, title, themeName, st, prev, bump, lastAction, now);
    StatePathOf(Some(env));
  }

  /** The envelope holds only `artifact`. */
  lemma EnvelopeTop(env: Value, a: Value)
    requires env == Obj(map["artifact" := a])
    ensures Get(Some(env), "slides") == None && Get(Some(env), "content") == None
    ensures Get(Some(env), "artifact") == Some(a)
  {
    assert "slides"[0] != "artifact"[0] && "content"[0] != "artifact"[0];
  }

  /** `v?.artifact?.state?.deck?.slides` one property at a time. */
  lemma StatePathOf(v: Option<Value>)
    ensures Path(v, StatePath) == Get(Get(Get(Get(v, "artifact"), "state"), "deck"), "slides")
  {
    assert StatePath[1..] == ["state", "deck", "slides"];
    assert StatePath[2..] == ["deck", "slides"];
    assert StatePath[3..] == ["slides"];
    assert StatePath[4..] == [];
  }

  /** The restamped deck keeps the spread deck's `slides`. */
  lemma RestampKeepsSlides(deck: Value, docId: string, title: Value, themeName: Value, meta: Option<Value>)
    ensures Get(Some(SlidesEnvelope.RestampDeck(deck, docId, title, themeName, meta)), "slides") == Get(Some(deck), "slides")
  {
    assert "slides"[0] != "id"[0] && "slides"[0] != "title"[0] && "slides"[0] != "themeName"[0] && "slides"[0] != "meta"[0];
  }

  /** The built artifact's deck is the restamped input deck. */
  lemma BuiltStateSlides(docId: string, title: Value, themeName: Value, st: SlidesHistory.SlidesState<Value>,
                         prev: Option<Value>, bump: bool, lastAction: Option<SlidesEnvelope.Action>, now: string)
    ensures Get(Get(Get(Some(SlidesEnvelope.BuildArtifact(docId, title, themeName, st, prev, bump, lastAction, now)), "state"), "deck"), "slides")
         == Get(Some(st.deck), "slides")
  {
    var deck := SlidesEnvelope.RestampDeck(st.deck, docId, title, themeName, SlidesEnvelope.StoredMeta(st.deck));
    var a := Some(SlidesEnvelope.BuildArtifact(docId, title, themeName, st, prev, bump, lastAction, now));
    assert Get(a, "state") == Some(Obj(map["deck" := deck, "past" := Arr(st.past), "future" := Arr(st.future)])) by {
      assert "state"[0] != "id"[0] && "state"[0] != "type"[0] && "state"[0] != "title"[0];
      assert "state"[0] != "version"[0] && "state"[0] != "meta"[0];
    }
    RestampKeepsSlides(st.deck, docId, title, themeName, SlidesEnvelope.StoredMeta(st.deck));
  }

  // ---------------------------------------------------------------------
  // getExportDebugInfo
  // ---------------------------------------------------------------------

  /** `getExportDebugInfo`: `keys` is the set of `Object.keys`, `deckSlidesLen` `None` for null. */
  datatype DebugInfo = DebugInfo(
    contentType: string,
    isArray: bool,
    keys: Option<set<string>>,
    hasArtifact: bool,
    hasDeck: bool,
    deckSlidesLen: Option<nat>)

  /** `Object.keys`: an object's property names; an array's indices in decimal. */
  function Keys(v: Value): set<string> {
    match v
    case Obj(fields) => fields.Keys
    case Arr(items) => set i | 0 <= i < |items| :: NatToString(i)
    case _ => {}
  }

  function ExportDebugInfo(raw: Option<Value>): (r: DebugInfo)
    ensures r.contentType == TypeOf(raw)
    ensures r.isArray <==> IsArray(raw)
    ensures r.keys.Some? <==> raw.Some? && (raw.value.Obj? || raw.value.Arr?)
    ensures r.hasArtifact <==> Truthy(Get(raw, "artifact"))
    ensures r.hasDeck <==> Truthy(Path(raw, ["artifact", "state", "deck"]))
    ensures r.deckSlidesLen.Some? <==> IsArray(Path(raw, StatePath))
    ensures r.deckSlidesLen.Some? ==> r.deckSlidesLen.value == |Path(raw, StatePath).value.items|
  {
    var slides := Path(raw, StatePath);
    DebugInfo(
      TypeOf(raw),
      IsArray(raw),
      if Truthy(raw) && TypeOf(raw) == "object" then Some(Keys(raw.value)) else None,
      Truthy(Get(raw, "artifact")),
      Truthy(Path(raw, ["artifact", "state", "deck"])),
      if IsArray(slides) then Some(|slides.value.items|) else None)
  }

  /** The debug flags are consistent: a slide count means a deck, and a deck means an artifact. */
  lemma DebugInfoConsistent(raw: Option<Value>)
    ensures ExportDebugInfo(raw).deckSlidesLen.Some? ==> ExportDebugInfo(raw).hasDeck
    ensures ExportDebugInfo(raw).hasDeck ==> ExportDebugInfo(raw).hasArtifact
    ensures ExportDebugInfo(raw).isArray ==> ExportDebugInfo(raw).contentType == "object" && ExportDebugInfo(raw).keys.Some?
  {
    var a := Get(raw, "artifact");
    assert ["artifact", "state", "deck"][1..] == ["state", "deck"];
    assert ["artifact", "state", "deck"][2..] == ["deck"];
    assert ["artifact", "state", "deck"][3..] == [];
    assert StatePath[1..] == ["state", "deck", "slides"];
    assert StatePath[2..] == ["deck", "slides"];
    assert StatePath[3..] == ["slides"];
    assert StatePath[4..] == [];
  }

  /**
   * The slide count the debug info reports is the count that is exported, unless a top-level
   * `slides` or `content` array shadows the envelope.
   */
  lemma DebugCountMatchesExport(raw: Option<Value>, parse: string -> Option<Value>)
    requires ParseShrinks(parse)
    requires !IsArray(Get(raw, "slides")) && !IsArray(Get(raw, "content"))
    ensures ExportDebugInfo(raw).deckSlidesLen.Some? ==>
      |ExtractSlides(raw, parse)| == ExportDebugInfo(raw).deckSlidesLen.value
  {
    if ExportDebugInfo(raw).deckSlidesLen.Some? {
      assert StatePath[1..] == ["state", "deck", "slides"];
      assert IsObject(raw);
    }
  }
}
