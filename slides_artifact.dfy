/**
 * The slide-array normaliser that repairs ids and coerces fields, and the
 * deck-meta trimming, of the slides artifact.
 *
 * `crypto.randomUUID` is the injected `uuid` source: a function of the ids in
 * use, assumed fresh for them (`FreshSource`) where a property needs it.
 */
module SlidesArtifact {
  import opened Wrappers
  import opened Text
  import opened Js
  import opened SlideTypes

  const UntitledSlide: string := "Başlıksız"

  // ---------------------------------------------------------------------
  // Deck meta
  // ---------------------------------------------------------------------

  /** A meta field: the trimmed string, kept only when it is not blank. */
  function TrimmedField(input: Option<Value>, key: string): (r: Option<string>)
    ensures r.Some? <==> StrOf(Get(input, key)).Some? && !IsBlank(StrOf(Get(input, key)).value)
    ensures r.Some? ==> r.value == Trim(StrOf(Get(input, key)).value) && !IsBlank(r.value)
    ensures r.Some? ==> Trim(r.value) == r.value
  {
    var s := StrOf(Get(input, key));
    if s.Some? && !IsBlank(s.value) then
      TrimIdempotent(s.value);
      Some(Trim(s.value))
    else None
  }

  function MetaOf(input: Option<Value>): DeckMeta {
    DeckMeta(TrimmedField(input, "topic"), TrimmedField(input, "audience"), TrimmedField(input, "tone"))
  }

  predicate MetaEmpty(m: DeckMeta) {
    m.topic.None? && m.audience.None? && m.tone.None?
  }

  /** A meta record as `normalizeMeta` leaves it: some field present, every field trimmed and not blank. */
  predicate CanonicalMeta(m: DeckMeta) {
    && !MetaEmpty(m)
    && (m.topic.Some? ==> Trim(m.topic.value) == m.topic.value && !IsBlank(m.topic.value))
    && (m.audience.Some? ==> Trim(m.audience.value) == m.audience.value && !IsBlank(m.audience.value))
    && (m.tone.Some? ==> Trim(m.tone.value) == m.tone.value && !IsBlank(m.tone.value))
  }

  /** `normalizeMeta`: undefined for a non-object or when every field is blank, else the trimmed non-blank fields. */
  function NormalizeMeta(input: Option<Value>): (r: Option<DeckMeta>)
    ensures !IsObject(input) ==> r.None?
    ensures IsObject(input) ==> (r.None? <==> MetaEmpty(MetaOf(input)))
    ensures r.Some? ==> r.value == MetaOf(input) && CanonicalMeta(r.value)
  {
    if !IsObject(input) then None
    else
      var m := MetaOf(input);
      if MetaEmpty(m) then None else Some(m)
  }

  lemma TrimmedFieldOfClean(input: Option<Value>, key: string, o: Option<string>)
    requires StrOf(Get(input, key)) == o
    requires o.Some? ==> Trim(o.value) == o.value && !IsBlank(o.value)
    ensures TrimmedField(input, key) == o
  {
  }

  lemma MetaStoredFields(m: DeckMeta)
    ensures Get(Some(MetaToValue(m)), "topic") == OptStr(m.topic)
    ensures Get(Some(MetaToValue(m)), "audience") == OptStr(m.audience)
    ensures Get(Some(MetaToValue(m)), "tone") == OptStr(m.tone)
  {
  }

  /** Normalising the stored form of a normalised meta gives it back. */
  lemma NormalizeMetaStored(m: DeckMeta)
    requires CanonicalMeta(m)
    ensures NormalizeMeta(Some(MetaToValue(m))) == Some(m)
  {
    var v := Some(MetaToValue(m));
    MetaStoredFields(m);
    TrimmedFieldOfClean(v, "topic", m.topic);
    TrimmedFieldOfClean(v, "audience", m.audience);
    TrimmedFieldOfClean(v, "tone", m.tone);
    assert MetaOf(v) == m;
  }

  /** `normalizeMeta` is idempotent. */
  lemma NormalizeMetaIdempotent(input: Option<Value>)
    ensures NormalizeMeta(OptMetaToValue(NormalizeMeta(input))) == NormalizeMeta(input)
  {
    if NormalizeMeta(input).Some? {
      NormalizeMetaStored(NormalizeMeta(input).value);
    }
  }

  /** `isArtifactEnvelope`: an object whose `artifact` property is an object. */
  predicate IsArtifactEnvelope(content: Value)
    ensures IsArtifactEnvelope(content) ==> content.Obj? && Get(Some(content), "artifact").Some?
  {
    IsObject(Some(content)) && IsObject(Get(Some(content), "artifact"))
  }

  // ---------------------------------------------------------------------
  // Slide normaliser
  // ---------------------------------------------------------------------

  /** No id in use ends with the token, so neither the token nor any `${id}-${idx}-${token}` is in use. */
  predicate FreshToken(tok: string, used: set<string>) {
    !IsBlank(tok) && forall u :: u in used ==> !EndsWith(u, tok)
  }

  /** What the model takes for granted of `crypto.randomUUID`: each token is fresh for the ids in use. */
  ghost predicate FreshSource(uuid: set<string> -> string) {
    forall used :: FreshToken(uuid(used), used)
  }

  /** The raw id after the number-to-string step. */
  function StringId(raw: Value): Option<string> {
    var id := Get(Some(raw), "id");
    if id.Some? && id.value.Num? then Some(IntToString(id.value.n)) else StrOf(id)
  }

  /** A raw id that comes through untouched: a non-blank string not already in use. */
  predicate IdIntact(raw: Value, used: set<string>) {
    var id := Get(Some(raw), "id");
    id.Some? && id.value.Str? && !IsBlank(id.value.s) && id.value.s !in used
  }

  datatype Assigned = Assigned(id: string, changed: bool)

  /** The id the normaliser gives element idx, and whether that set `changed`. */
  function AssignId(raw: Value, idx: nat, used: set<string>, uuid: set<string> -> string): (r: Assigned)
    ensures !r.changed ==> IdIntact(raw, used) && r.id == Get(Some(raw), "id").value.s
  {
    var id := Get(Some(raw), "id");
    var numeric := id.Some? && id.value.Num?;
    var sid := StringId(raw);
    var first := if sid.Some? && !IsBlank(sid.value) then Assigned(sid.value, numeric) else Assigned(uuid(used), true);
    if first.id in used then Assigned(first.id + "-" + NatToString(idx) + "-" + uuid(used), true) else first
  }

  /** The assigned id is never blank and never in use; it is the raw id, unflagged, exactly when that is intact. */
  lemma AssignIdProperties(raw: Value, idx: nat, used: set<string>, uuid: set<string> -> string)
    requires FreshSource(uuid)
    ensures !IsBlank(AssignId(raw, idx, used, uuid).id)
    ensures AssignId(raw, idx, used, uuid).id !in used
    ensures IdIntact(raw, used) ==> AssignId(raw, idx, used, uuid) == Assigned(Get(Some(raw), "id").value.s, false)
    ensures !IdIntact(raw, used) ==> AssignId(raw, idx, used, uuid).changed
  {
    var tok := uuid(used);
    assert FreshToken(tok, used);
    var sid := StringId(raw);
    var first := if sid.Some? && !IsBlank(sid.value) then Assigned(sid.value, Get(Some(raw), "id").value.Num?) else Assigned(tok, true);
    if first.id in used {
      var prefix := first.id + "-" + NatToString(idx) + "-";
      EndsWithAppended(prefix, tok);
      assert (prefix + tok)[|first.id|] == '-';
    } else {
      assert first.id == tok ==> tok !in used;
    }
  }

  /** `typeof v === "string" ? v : v != null ? String(v) : fallback`. */
  function CoerceText(v: Option<Value>, fallback: string): (r: string)
    ensures StrOf(v).Some? ==> r == StrOf(v).value
    ensures Nullish(v) ==> r == fallback
    ensures !Nullish(v) && StrOf(v).None? ==> r == ToStr(v.value)
  {
    if StrOf(v).Some? then StrOf(v).value else if !Nullish(v) then ToStr(v.value) else fallback
  }

  /** `items.map((b) => String(b ?? ""))`. */
  function BulletTexts(items: seq<Value>): (r: seq<string>)
    ensures |r| == |items|
    ensures forall i :: 0 <= i < |items| ==> r[i] == ToStrOrEmpty(items[i])
  {
    seq(|items|, i requires 0 <= i < |items| => ToStrOrEmpty(items[i]))
  }

  /** Bullets of a raw slide: of an array, the entries whose text is not blank, untrimmed, in order; else none. */
  function KeptBullets(v: Option<Value>): (r: seq<string>)
    ensures !IsArray(v) ==> r == []
    ensures IsArray(v) ==> r == FilterNonBlank(BulletTexts(v.value.items))
  {
    if IsArray(v) then FilterNonBlank(BulletTexts(v.value.items)) else []
  }

  /** The field coercions of one raw element, given the id assigned to it. */
  function CoerceSlide(raw: Value, id: string): (r: Slide)
    ensures r.id == id
    ensures forall i :: 0 <= i < |r.bullets| ==> !IsBlank(r.bullets[i])
    ensures r.style.Some? ==> r.style.value.Obj?
  {
    var s := Some(raw);
    var style := Get(s, "style");
    Slide(
      id,
      CoerceText(Get(s, "title"), UntitledSlide),
      KeptBullets(Get(s, "bullets")),
      CoerceText(Get(s, "imagePrompt"), ""),
      StrOf(Get(s, "imageUrl")),
      ParseLayout(Get(s, "layout")),
      StrOf(Get(s, "notes")),
      if IsObject(style) then style else None)
  }

  /**
   * What the coercions promise: the id as assigned; a string title verbatim (even empty), another
   * non-null title stringified, a missing one "Başlıksız"; bullets the non-blank entries in order;
   * the layout only when it is one of the three names; a style only when it is an object.
   */
  lemma CoerceSlideFields(raw: Value, id: string)
    ensures CoerceSlide(raw, id).id == id
    ensures StrOf(Get(Some(raw), "title")).Some? ==> CoerceSlide(raw, id).title == StrOf(Get(Some(raw), "title")).value
    ensures !Nullish(Get(Some(raw), "title")) && StrOf(Get(Some(raw), "title")).None? ==>
      CoerceSlide(raw, id).title == ToStr(Get(Some(raw), "title").value)
    ensures Nullish(Get(Some(raw), "title")) ==> CoerceSlide(raw, id).title == UntitledSlide
    ensures CoerceSlide(raw, id).bullets == KeptBullets(Get(Some(raw), "bullets"))
    ensures CoerceSlide(raw, id).imagePrompt == CoerceText(Get(Some(raw), "imagePrompt"), "")
    ensures CoerceSlide(raw, id).imageUrl == StrOf(Get(Some(raw), "imageUrl"))
    ensures CoerceSlide(raw, id).notes == StrOf(Get(Some(raw), "notes"))
    ensures forall i :: 0 <= i < |CoerceSlide(raw, id).bullets| ==> !IsBlank(CoerceSlide(raw, id).bullets[i])
    ensures CoerceSlide(raw, id).layout.Some? <==> exists l: Layout :: Get(Some(raw), "layout") == Some(Str(LayoutName(l)))
    ensures CoerceSlide(raw, id).layout.Some? ==> Get(Some(raw), "layout") == Some(Str(LayoutName(CoerceSlide(raw, id).layout.value)))
    ensures CoerceSlide(raw, id).style.Some? <==> IsObject(Get(Some(raw), "style"))
    ensures CoerceSlide(raw, id).style.Some? ==> CoerceSlide(raw, id).style == Get(Some(raw), "style")
  {
    var layout := ParseLayout(Get(Some(raw), "layout"));
    assert layout.Some? ==> Get(Some(raw), "layout") == Some(Str(LayoutName(layout.value)));
  }

  /** The ids of a list, as a set (the `used` set of the source). */
  function ToSet(ids: seq<string>): (r: set<string>)
    ensures forall x :: x in r <==> x in ids
  {
    set x | x in ids
  }

  /** The ids of a slide list. */
  function IdsOf(slides: seq<Slide>): (r: seq<string>)
    ensures |r| == |slides| && forall i :: 0 <= i < |slides| ==> r[i] == slides[i].id
  {
    seq(|slides|, i requires 0 <= i < |slides| => slides[i].id)
  }

  datatype IdRun = IdRun(ids: seq<string>, changed: bool)

  /** A per-element id rule: the element, its index and the ids in use give the id and the flag. */
  type IdRule = (Value, nat, set<string>) -> Assigned

  /** The rule of the source, with its uuid source. */
  function SourceRule(uuid: set<string> -> string): IdRule {
    (raw: Value, idx: nat, used: set<string>) => AssignId(raw, idx, used, uuid)
  }

  /** The ids a rule assigns to the elements of an array, left to right, and whether any raised the flag. */
  function AssignIds(arr: seq<Value>, rule: IdRule): (r: IdRun)
    ensures |r.ids| == |arr|
    decreases |arr|
  {
    if arr == [] then IdRun([], false)
    else
      var n := |arr| - 1;
      var prev := AssignIds(arr[..n], rule);
      var a := rule(arr[n], n, ToSet(prev.ids));
      IdRun(prev.ids + [a.id], prev.changed || a.changed)
  }

  datatype Normalized = Normalized(slides: seq<Slide>, changed: bool)

  /** What the normaliser computes: element i coerced under the i-th assigned id. */
  function NormalizeLoop(arr: seq<Value>, uuid: set<string> -> string): (r: Normalized)
    ensures |r.slides| == |arr|
    ensures r.changed == AssignIds(arr, SourceRule(uuid)).changed
    ensures forall i :: 0 <= i < |arr| ==> r.slides[i].id == AssignIds(arr, SourceRule(uuid)).ids[i]
  {
    var run := AssignIds(arr, SourceRule(uuid));
    Normalized(CoerceAll(arr, run.ids), run.changed)
  }

  /** `normalizeSlidesArray(input)`: a non-array input is an empty array. */
  function NormalizeSlides(input: Option<Value>, uuid: set<string> -> string): (r: Normalized)
    ensures |r.slides| == |ArrayOr(input)|
    ensures !IsArray(input) ==> r.slides == [] && !r.changed
  {
    NormalizeLoop(ArrayOr(input), uuid)
  }

  predicate IdsUnique(slides: seq<Slide>) {
    forall i, j :: 0 <= i < j < |slides| ==> slides[i].id != slides[j].id
  }

  predicate WellFormedSlide(s: Slide) {
    && !IsBlank(s.id)
    && (forall i :: 0 <= i < |s.bullets| ==> !IsBlank(s.bullets[i]))
    && (s.style.Some? ==> s.style.value.Obj?)
  }

  /** A slide list as the normaliser leaves it. */
  predicate CanonicalSlides(slides: seq<Slide>) {
    (forall i :: 0 <= i < |slides| ==> WellFormedSlide(slides[i])) && IdsUnique(slides)
  }

  /** A rule that never hands out a blank id or one in use. */
  ghost predicate RuleFresh(rule: IdRule) {
    forall raw, idx, used :: !IsBlank(rule(raw, idx, used).id) && rule(raw, idx, used).id !in used
  }

  /** A rule that raises the flag exactly when the raw id is not intact, and keeps an intact id. */
  ghost predicate RuleHonest(rule: IdRule) {
    forall raw, idx, used ::
      && (rule(raw, idx, used).changed <==> !IdIntact(raw, used))
      && (IdIntact(raw, used) ==> rule(raw, idx, used).id == Get(Some(raw), "id").value.s)
  }

  lemma SourceRuleFresh(uuid: set<string> -> string)
    requires FreshSource(uuid)
    ensures RuleFresh(SourceRule(uuid))
  {
    forall raw, idx, used ensures !IsBlank(SourceRule(uuid)(raw, idx, used).id) && SourceRule(uuid)(raw, idx, used).id !in used {
      AssignIdProperties(raw, idx, used, uuid);
    }
  }

  lemma SourceRuleHonest(uuid: set<string> -> string)
    ensures RuleHonest(SourceRule(uuid))
  {
    forall raw, idx, used
      ensures && (SourceRule(uuid)(raw, idx, used).changed <==> !IdIntact(raw, used))
              && (IdIntact(raw, used) ==> SourceRule(uuid)(raw, idx, used).id == Get(Some(raw), "id").value.s)
    {
      AssignIdChanged(raw, idx, used, uuid);
    }
  }

  /** The ids assigned to a prefix of the input are the prefix of the ids. */
  lemma {:induction false} AssignIdsTake(arr: seq<Value>, k: nat, rule: IdRule)
    requires k <= |arr|
    ensures AssignIds(arr[..k], rule).ids == AssignIds(arr, rule).ids[..k]
  {
    if k < |arr| {
      var n := |arr| - 1;
      AssignIdsTake(arr[..n], k, rule);
      assert arr[..n][..k] == arr[..k];
    } else {
      assert arr[..k] == arr;
    }
  }

  /** Id i is assigned by the rule against the ids before it. */
  lemma AssignIdsAt(arr: seq<Value>, i: nat, rule: IdRule)
    requires i < |arr|
    ensures var ids := AssignIds(arr, rule).ids;
      ids[i] == rule(arr[i], i, ToSet(ids[..i])).id
  {
    AssignIdsTake(arr, i + 1, rule);
    AssignIdsTake(arr, i, rule);
    assert arr[..i + 1][..i] == arr[..i];
  }

  /** Each output slide is the coercion of its input element, under the id assigned against the ids before it. */
  lemma NormalizeAt(arr: seq<Value>, i: nat, uuid: set<string> -> string)
    requires i < |arr|
    ensures var out := NormalizeLoop(arr, uuid).slides;
      out[i] == CoerceSlide(arr[i], AssignId(arr[i], i, ToSet(IdsOf(out[..i])), uuid).id)
  {
    var ids := AssignIds(arr, SourceRule(uuid)).ids;
    AssignIdsAt(arr, i, SourceRule(uuid));
    assert IdsOf(NormalizeLoop(arr, uuid).slides[..i]) == ids[..i];
  }

  /** A fresh rule assigns non-blank, pairwise distinct ids. */
  lemma {:induction false} AssignIdsFresh(arr: seq<Value>, rule: IdRule)
    requires RuleFresh(rule)
    ensures forall i :: 0 <= i < |arr| ==> !IsBlank(AssignIds(arr, rule).ids[i])
    ensures forall i, j :: 0 <= i < j < |arr| ==> AssignIds(arr, rule).ids[i] != AssignIds(arr, rule).ids[j]
  {
    if arr != [] {
      var n := |arr| - 1;
      AssignIdsFresh(arr[..n], rule);
      var pids := AssignIds(arr[..n], rule).ids;
      var last := rule(arr[n], n, ToSet(pids)).id;
      var ids := AssignIds(arr, rule).ids;
      assert ids == pids + [last];
      assert last !in pids && !IsBlank(last);
      forall i | 0 <= i < |ids| ensures !IsBlank(ids[i]) {
        if i < n {
          assert ids[i] == pids[i];
        }
      }
      forall i, j | 0 <= i < j < |ids| ensures ids[i] != ids[j] {
        assert ids[i] == pids[i];
        if j == n {
          assert ids[j] == last;
          assert pids[i] in pids;
        } else {
          assert ids[j] == pids[j];
          assert pids[i] != pids[j];
        }
      }
    }
  }

  /** With a fresh uuid source every output slide is well formed and the ids are pairwise distinct. */
  lemma NormalizeCanonical(arr: seq<Value>, uuid: set<string> -> string)
    requires FreshSource(uuid)
    ensures CanonicalSlides(NormalizeLoop(arr, uuid).slides)
  {
    SourceRuleFresh(uuid);
    AssignIdsFresh(arr, SourceRule(uuid));
    var out := NormalizeLoop(arr, uuid).slides;
    forall i | 0 <= i < |arr| ensures WellFormedSlide(out[i]) {
      CoerceSlideFields(arr[i], AssignIds(arr, SourceRule(uuid)).ids[i]);
    }
  }

  /** The per-element flag is raised exactly when the raw id does not come through intact, and an intact id is kept. */
  lemma AssignIdChanged(raw: Value, idx: nat, used: set<string>, uuid: set<string> -> string)
    ensures AssignId(raw, idx, used, uuid).changed <==> !IdIntact(raw, used)
    ensures IdIntact(raw, used) ==> AssignId(raw, idx, used, uuid).id == Get(Some(raw), "id").value.s
  {
  }

  /** The flag of a run is raised exactly when the rule raised it for some element. */
  lemma {:induction false} AssignIdsChangedIff(arr: seq<Value>, rule: IdRule)
    ensures AssignIds(arr, rule).changed <==>
      exists i :: 0 <= i < |arr| && rule(arr[i], i, ToSet(AssignIds(arr, rule).ids[..i])).changed
  {
    if arr != [] {
      var n := |arr| - 1;
      var p := arr[..n];
      AssignIdsChangedIff(p, rule);
      var ids := AssignIds(arr, rule).ids;
      var pids := AssignIds(p, rule).ids;
      assert ids[..n] == pids;
      if AssignIds(p, rule).changed {
        var i :| 0 <= i < n && rule(p[i], i, ToSet(pids[..i])).changed;
        assert ids[..i] == pids[..i];
        assert rule(arr[i], i, ToSet(ids[..i])).changed;
      }
      if exists i :: 0 <= i < |arr| && rule(arr[i], i, ToSet(ids[..i])).changed {
        var i :| 0 <= i < |arr| && rule(arr[i], i, ToSet(ids[..i])).changed;
        if i < n {
          assert ids[..i] == pids[..i];
          assert rule(p[i], i, ToSet(pids[..i])).changed;
        }
      }
    }
  }

  /** `changed` is raised only by id rewriting: it holds exactly when some element's id was not intact. */
  lemma NormalizeChangedIff(arr: seq<Value>, uuid: set<string> -> string)
    ensures NormalizeLoop(arr, uuid).changed <==>
      exists i :: 0 <= i < |arr| && !IdIntact(arr[i], ToSet(IdsOf(NormalizeLoop(arr, uuid).slides[..i])))
  {
    var out := NormalizeLoop(arr, uuid);
    var rule := SourceRule(uuid);
    var ids := AssignIds(arr, rule).ids;
    AssignIdsChangedIff(arr, rule);
    forall i | 0 <= i < |arr|
      ensures rule(arr[i], i, ToSet(ids[..i])).changed <==> !IdIntact(arr[i], ToSet(IdsOf(out.slides[..i])))
    {
      assert IdsOf(out.slides[..i]) == ids[..i];
      AssignIdChanged(arr[i], i, ToSet(ids[..i]), uuid);
    }
  }

  /** A non-array input gives no slides and no change. */
  lemma NormalizeNonArray(input: Option<Value>, uuid: set<string> -> string)
    requires !IsArray(input)
    ensures NormalizeSlides(input, uuid) == Normalized([], false)
  {
  }

  lemma BulletTextsOfStrList(b: seq<string>)
    ensures BulletTexts(StrList(b).items) == b
  {
    var r := BulletTexts(StrList(b).items);
    assert |r| == |b|;
    forall i | 0 <= i < |b| ensures r[i] == b[i] {
    }
  }

  /** The coercions leave the stored form of a well-formed slide as it was. */
  lemma CoerceStored(s: Slide)
    requires WellFormedSlide(s)
    ensures CoerceSlide(SlideToValue(s), s.id) == s
  {
    var v := Some(SlideToValue(s));
    assert CoerceText(Get(v, "title"), UntitledSlide) == s.title by {
      SlideFieldsOf(s);
    }
    assert KeptBullets(Get(v, "bullets")) == s.bullets by {
      SlideFieldsOf(s);
      BulletTextsOfStrList(s.bullets);
      FilterNonBlankKeepsClean(s.bullets);
    }
    assert CoerceText(Get(v, "imagePrompt"), "") == s.imagePrompt by {
      SlideFieldsOf(s);
    }
    assert StrOf(Get(v, "imageUrl")) == s.imageUrl && StrOf(Get(v, "notes")) == s.notes by {
      SlideFieldsOf(s);
    }
    assert ParseLayout(Get(v, "layout")) == s.layout by {
      SlideFieldsOf(s);
      if s.layout.Some? {
        ParseLayoutName(s.layout.value);
      }
    }
    assert (if IsObject(Get(v, "style")) then Get(v, "style") else None) == s.style by {
      SlideFieldsOf(s);
    }
  }

  /** A rule that keeps every one of a list of ids, each against the ids before it, yields exactly that list, unflagged. */
  lemma {:induction false} AssignIdsKeep(arr: seq<Value>, ids: seq<string>, rule: IdRule)
    requires |ids| == |arr|
    requires forall i :: 0 <= i < |arr| ==> rule(arr[i], i, ToSet(ids[..i])) == Assigned(ids[i], false)
    ensures AssignIds(arr, rule) == IdRun(ids, false)
  {
    if arr != [] {
      var n := |arr| - 1;
      forall i | 0 <= i < n ensures rule(arr[..n][i], i, ToSet(ids[..n][..i])) == Assigned(ids[..n][i], false) {
        assert ids[..n][..i] == ids[..i];
      }
      AssignIdsKeep(arr[..n], ids[..n], rule);
      assert ids == ids[..n] + [ids[n]];
    }
  }

  /** The stored form of slide i of a canonical list is intact against the ids before it. */
  lemma StoredIntact(slides: seq<Slide>, i: nat, uuid: set<string> -> string)
    requires CanonicalSlides(slides) && i < |slides|
    ensures AssignId(SlideToValue(slides[i]), i, ToSet(IdsOf(slides)[..i]), uuid) == Assigned(slides[i].id, false)
  {
    var used := ToSet(IdsOf(slides)[..i]);
    assert slides[i].id !in IdsOf(slides)[..i];
    assert IdIntact(SlideToValue(slides[i]), used);
    AssignIdChanged(SlideToValue(slides[i]), i, used, uuid);
  }

  /** Normalising the stored form of a canonical slide list gives it back, unchanged, whatever the uuid source. */
  lemma NormalizeStored(slides: seq<Slide>, uuid: set<string> -> string)
    requires CanonicalSlides(slides)
    ensures NormalizeLoop(SlidesToValue(slides).items, uuid) == Normalized(slides, false)
  {
    var arr := SlidesToValue(slides).items;
    forall i | 0 <= i < |slides|
      ensures SourceRule(uuid)(arr[i], i, ToSet(IdsOf(slides)[..i])) == Assigned(IdsOf(slides)[i], false)
    {
      StoredIntact(slides, i, uuid);
    }
    AssignIdsKeep(arr, IdsOf(slides), SourceRule(uuid));
    var out := NormalizeLoop(arr, uuid).slides;
    forall i | 0 <= i < |slides| ensures out[i] == slides[i] {
      CoerceStored(slides[i]);
    }
  }

  /** The normaliser is idempotent: re-normalising its stored output changes nothing. */
  lemma NormalizeIdempotent(input: Option<Value>, uuid: set<string> -> string, uuid2: set<string> -> string)
    requires FreshSource(uuid)
    ensures var out := NormalizeSlides(input, uuid).slides;
      NormalizeSlides(Some(SlidesToValue(out)), uuid2) == Normalized(out, false)
  {
    NormalizeCanonical(ArrayOr(input), uuid);
    NormalizeStored(NormalizeSlides(input, uuid).slides, uuid2);
  }

  /** Element i coerced under id i. */
  function CoerceAll(arr: seq<Value>, ids: seq<string>): (r: seq<Slide>)
    requires |ids| == |arr|
    ensures |r| == |arr|
  {
    seq(|arr|, i requires 0 <= i < |arr| => CoerceSlide(arr[i], ids[i]))
  }

  lemma CoerceAllSnoc(arr: seq<Value>, ids: seq<string>, k: nat, id: string)
    requires |ids| == k < |arr|
    ensures CoerceAll(arr[..k + 1], ids + [id]) == CoerceAll(arr[..k], ids) + [CoerceSlide(arr[k], id)]
  {
  }

  /** Extending the input by one element extends the run by the rule's answer for it. */
  lemma AssignIdsSnoc(arr: seq<Value>, k: nat, rule: IdRule)
    requires k < |arr|
    ensures var prev := AssignIds(arr[..k], rule);
      var a := rule(arr[k], k, ToSet(prev.ids));
      AssignIds(arr[..k + 1], rule) == IdRun(prev.ids + [a.id], prev.changed || a.changed)
  {
    assert arr[..k + 1][..k] == arr[..k];
  }

  /** The three id steps of the loop body: number to string, blank to uuid, duplicate to suffixed. */
  method NextId(s: Value, idx: nat, used: set<string>, uuid: set<string> -> string) returns (sid: string, rewritten: bool)
    ensures Assigned(sid, rewritten) == AssignId(s, idx, used, uuid)
  {
    rewritten := false;
    var id := Get(Some(s), "id");
    if id.Some? && id.value.Num? {
      id := Some(Str(IntToString(id.value.n)));
      rewritten := true;
    }
    if !(id.Some? && id.value.Str?) || IsBlank(id.value.s) {
      id := Some(Str(uuid(used)));
      rewritten := true;
    }
    sid := id.value.s;
    if sid in used {
      sid := sid + "-" + NatToString(idx) + "-" + uuid(used);
      rewritten := true;
    }
  }

  /** `normalizeSlidesArray`: the per-element loop with its `used` set and `changed` flag. */
  method NormalizeSlidesArray(input: Option<Value>, uuid: set<string> -> string) returns (slides: seq<Slide>, changed: bool)
    ensures Normalized(slides, changed) == NormalizeSlides(input, uuid)
    ensures FreshSource(uuid) ==> CanonicalSlides(slides)
  {
    var arr := if IsArray(input) then input.value.items else [];
    changed := false;
    var used: set<string> := {};
    ghost var ids: seq<string> := [];
    slides := [];
    var idx := 0;
    while idx < |arr|
      invariant 0 <= idx <= |arr|
      invariant AssignIds(arr[..idx], SourceRule(uuid)) == IdRun(ids, changed)
      invariant used == ToSet(ids)
      invariant |slides| == idx
      invariant slides == CoerceAll(arr[..idx], ids)
    {
      var s := arr[idx];
      var sid, rewritten := NextId(s, idx, used, uuid);
      changed := changed || rewritten;
      AssignIdsSnoc(arr, idx, SourceRule(uuid));
      CoerceAllSnoc(arr, ids, idx, sid);
      used := used + {sid};
      slides := slides + [CoerceSlide(s, sid)];
      ids := ids + [sid];
      idx := idx + 1;
    }
    assert arr[..idx] == arr;
    assert slides == NormalizeLoop(arr, uuid).slides;
    if FreshSource(uuid) {
      NormalizeCanonical(arr, uuid);
    }
  }
}
