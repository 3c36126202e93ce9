/**
 * The deck editing state of `components/slides/SlideWorkspace.tsx`: the
 * local copy of the deck, the active slide id, the active theme and the
 * dirty flag, and the operations that change them. React's state setters
 * become field assignments; the autosave timer and the fetch are not part
 * of this model.
 */
module SlideWorkspace {
  import opened Wrappers
  import opened SlideTypes
  import SlideThemes
  import SlidesArtifact

  // ---------------------------------------------------------------------
  // The list operations on the slides
  // ---------------------------------------------------------------------

  /** `slides.findIndex((s) => s.id === activeId)`; a null active id matches nothing. */
  function IndexOfId(slides: seq<Slide>, id: Option<string>): (r: int)
    ensures -1 <= r < |slides|
    ensures r >= 0 ==> Some(slides[r].id) == id && forall k :: 0 <= k < r ==> Some(slides[k].id) != id
    ensures r == -1 <==> forall k :: 0 <= k < |slides| ==> Some(slides[k].id) != id
  {
    if slides == [] then -1
    else if Some(slides[0].id) == id then 0
    else
      var r := IndexOfId(slides[1..], id);
      assert forall k :: 1 <= k < |slides| ==> slides[k] == slides[1..][k - 1];
      if r < 0 then -1 else r + 1
  }

  /** The active slide: the one with the active id, else the first, else none. */
  function ActiveOf(slides: seq<Slide>, activeId: Option<string>): (r: Option<Slide>)
    ensures r.None? <==> slides == []
    ensures r.Some? ==> r.value in slides
    ensures (exists k :: 0 <= k < |slides| && Some(slides[k].id) == activeId) ==> r.Some? && Some(r.value.id) == activeId
    ensures (forall k :: 0 <= k < |slides| ==> Some(slides[k].id) != activeId) && slides != [] ==> r == Some(slides[0])
  {
    var i := IndexOfId(slides, activeId);
    if i >= 0 then Some(slides[i]) else if slides != [] then Some(slides[0]) else None
  }

  /** `slides.map((s) => (s.id === updated.id ? { ...updated } : s))`. */
  function Replaced(slides: seq<Slide>, updated: Slide): (r: seq<Slide>)
    ensures |r| == |slides|
    ensures forall i :: 0 <= i < |r| ==> r[i].id == slides[i].id
  {
    seq(|slides|, i requires 0 <= i < |slides| => if slides[i].id == updated.id then updated else slides[i])
  }

  /** `slides.filter((s) => s.id !== activeId)`. */
  function Without(slides: seq<Slide>, id: Option<string>): (r: seq<Slide>)
    ensures |r| <= |slides|
    ensures forall k :: 0 <= k < |r| ==> Some(r[k].id) != id
  {
    if slides == [] then []
    else (if Some(slides[0].id) == id then [] else [slides[0]]) + Without(slides[1..], id)
  }

  /** The two cells exchanged. */
  function Swap(slides: seq<Slide>, i: nat, j: nat): (r: seq<Slide>)
    requires i < |slides| && j < |slides|
  {
    slides[i := slides[j]][j := slides[i]]
  }

  /** The slides after `moveSlide(dir)`: the active slide and its neighbour exchanged, when both exist. */
  function Moved(slides: seq<Slide>, activeId: Option<string>, up: bool): (r: seq<Slide>)
    ensures |r| == |slides|
    ensures forall k :: 0 <= k < |r| ==> r[k] in slides
  {
    var i := IndexOfId(slides, activeId);
    var j := if up then i - 1 else i + 1;
    if i < 0 || j < 0 || j >= |slides| then slides else Swap(slides, i, j)
  }

  const NewTitle: string := "Yeni Slide"
  const NewBullet: string := "Yeni madde"

  /** The slide `addSlide` appends. */
  function NewSlide(id: string): Slide {
    Slide(id, NewTitle, [NewBullet], "", None, None, None, None)
  }

  // ---------------------------------------------------------------------
  // What the operations promise
  // ---------------------------------------------------------------------

  /** `updateSlide` replaces exactly the slides with the updated slide's id, keeps the others and the length, and every id. */
  lemma ReplacedSpec(slides: seq<Slide>, updated: Slide)
    ensures var r := Replaced(slides, updated);
      && |r| == |slides|
      && (forall i :: 0 <= i < |slides| && slides[i].id == updated.id ==> r[i] == updated)
      && (forall i :: 0 <= i < |slides| && slides[i].id != updated.id ==> r[i] == slides[i])
      && SlidesArtifact.IdsOf(r) == SlidesArtifact.IdsOf(slides)
  {
    var r := Replaced(slides, updated);
    assert forall i :: 0 <= i < |slides| ==> r[i].id == slides[i].id;
  }

  /** Updating twice with the same slide is updating once. */
  lemma ReplacedIdempotent(slides: seq<Slide>, updated: Slide)
    ensures Replaced(Replaced(slides, updated), updated) == Replaced(slides, updated)
  {
  }

  /** After updating the active slide, the active slide is the update. */
  lemma ReplacedActive(slides: seq<Slide>, activeId: Option<string>, updated: Slide)
    requires activeId == Some(updated.id)
    requires exists k :: 0 <= k < |slides| && slides[k].id == updated.id
    ensures ActiveOf(Replaced(slides, updated), activeId) == Some(updated)
  {
    var k :| 0 <= k < |slides| && slides[k].id == updated.id;
    assert Replaced(slides, updated)[k].id == updated.id;
  }

  /** Dropping the first slide keeps the ids unique. */
  lemma TailUnique(slides: seq<Slide>)
    requires SlidesArtifact.IdsUnique(slides) && slides != []
    ensures SlidesArtifact.IdsUnique(slides[1..])
  {
    var tail := slides[1..];
    forall i, j | 0 <= i < j < |tail| ensures tail[i].id != tail[j].id {
      assert slides[i + 1].id != slides[j + 1].id;
    }
  }

  lemma {:induction false} WithoutCount(slides: seq<Slide>, id: string)
    requires SlidesArtifact.IdsUnique(slides)
    ensures (exists k :: 0 <= k < |slides| && slides[k].id == id) ==> |Without(slides, Some(id))| == |slides| - 1
    ensures (forall k :: 0 <= k < |slides| ==> slides[k].id != id) ==> Without(slides, Some(id)) == slides
  {
    if slides != [] {
      var tail := slides[1..];
      assert forall k :: 1 <= k < |slides| ==> slides[k] == tail[k - 1];
      TailUnique(slides);
      WithoutCount(tail, id);
      if slides[0].id == id {
        assert forall k :: 0 <= k < |tail| ==> tail[k].id != id by {
          forall k | 0 <= k < |tail| ensures tail[k].id != id {
            assert slides[0].id != slides[k + 1].id;
          }
        }
      }
    }
  }

  /**
   * With unique ids, `deleteSlide`'s filter removes exactly the slide at the active position
   * and keeps all the others, in their order.
   */
  lemma {:induction false} WithoutRemovesAt(slides: seq<Slide>, k: nat)
    requires SlidesArtifact.IdsUnique(slides) && k < |slides|
    ensures Without(slides, Some(slides[k].id)) == slides[..k] + slides[k + 1..]
  {
    var id := slides[k].id;
    var tail := slides[1..];
    TailUnique(slides);
    if k == 0 {
      forall m | 0 <= m < |tail| ensures tail[m].id != id {
        assert slides[0].id != slides[m + 1].id;
      }
      WithoutCount(tail, id);
    } else {
      assert slides[0].id != id;
      assert tail[k - 1] == slides[k];
      WithoutRemovesAt(tail, k - 1);
      assert [slides[0]] + tail[..k - 1] == slides[..k];
      assert tail[k..] == slides[k + 1..];
    }
  }

  /** `filter` keeps a slide exactly when its id is not the removed one. */
  lemma {:induction false} WithoutKeeps(slides: seq<Slide>, id: Option<string>)
    ensures forall s :: s in Without(slides, id) <==> s in slides && Some(s.id) != id
  {
    if slides != [] {
      WithoutKeeps(slides[1..], id);
      assert slides == [slides[0]] + slides[1..];
    }
  }

  /**
   * With unique ids, deleting from a deck of two or more slides removes exactly one slide,
   * the active one when it is in the deck, and never leaves the deck empty.
   */
  lemma DeleteNeverEmpties(slides: seq<Slide>, activeId: Option<string>)
    requires SlidesArtifact.IdsUnique(slides) && |slides| >= 2
    ensures |Without(slides, activeId)| >= |slides| - 1 >= 1
    ensures (exists k :: 0 <= k < |slides| && Some(slides[k].id) == activeId) ==> |Without(slides, activeId)| == |slides| - 1
  {
    if activeId.Some? {
      WithoutCount(slides, activeId.value);
    } else {
      WithoutNone(slides);
    }
  }

  lemma {:induction false} WithoutNone(slides: seq<Slide>)
    ensures Without(slides, None) == slides
  {
    if slides != [] {
      WithoutNone(slides[1..]);
      assert slides == [slides[0]] + slides[1..];
    }
  }

  /** `moveSlide` only reorders: the slides after it are a permutation of those before. */
  lemma MovedPermutes(slides: seq<Slide>, activeId: Option<string>, up: bool)
    ensures multiset(Moved(slides, activeId, up)) == multiset(slides)
    ensures |Moved(slides, activeId, up)| == |slides|
  {
    var i := IndexOfId(slides, activeId);
    var j := if up then i - 1 else i + 1;
    if !(i < 0 || j < 0 || j >= |slides|) {
      SwapPermutes(slides, i, j);
    }
  }

  lemma SwapPermutes(slides: seq<Slide>, i: nat, j: nat)
    requires i < |slides| && j < |slides|
    ensures multiset(Swap(slides, i, j)) == multiset(slides)
  {
    var a := slides[i := slides[j]];
    assert multiset(a) == multiset(slides) - multiset{slides[i]} + multiset{slides[j]};
    assert multiset(a[j := slides[i]]) == multiset(a) - multiset{a[j]} + multiset{slides[i]};
  }

  /** A move that happens keeps the active slide active, one place up or down. */
  lemma MovedKeepsActive(slides: seq<Slide>, activeId: Option<string>, up: bool)
    requires var i := IndexOfId(slides, activeId); var j := if up then i - 1 else i + 1;
      i >= 0 && 0 <= j < |slides|
    ensures var i := IndexOfId(slides, activeId); var j := if up then i - 1 else i + 1;
      && Moved(slides, activeId, up)[j] == slides[i]
      && Moved(slides, activeId, up)[i] == slides[j]
      && forall k :: 0 <= k < |slides| && k != i && k != j ==> Moved(slides, activeId, up)[k] == slides[k]
  {
  }

  /** With unique ids, a move that happens is undone by the opposite move. */
  lemma MoveBack(slides: seq<Slide>, activeId: Option<string>, up: bool)
    requires SlidesArtifact.IdsUnique(slides)
    requires var i := IndexOfId(slides, activeId); var j := if up then i - 1 else i + 1;
      i >= 0 && 0 <= j < |slides|
    ensures Moved(Moved(slides, activeId, up), activeId, !up) == slides
  {
    var i := IndexOfId(slides, activeId);
    var j := if up then i - 1 else i + 1;
    assert slides[i].id != slides[j].id by {
      if i < j { assert slides[i].id != slides[j].id; } else { assert slides[j].id != slides[i].id; }
    }
    MoveBackAt(slides, activeId, up, i, j);
  }

  lemma MoveBackAt(slides: seq<Slide>, activeId: Option<string>, up: bool, i: nat, j: nat)
    requires i == IndexOfId(slides, activeId) && j == (if up then i - 1 else i + 1) && j < |slides|
    requires slides[i].id != slides[j].id
    ensures Moved(Moved(slides, activeId, up), activeId, !up) == slides
  {
    var m := Moved(slides, activeId, up);
    assert m == Swap(slides, i, j);
    forall k | 0 <= k < j ensures Some(m[k].id) != activeId {
      if k == i {
        assert m[k] == slides[j];
      } else {
        assert m[k] == slides[k];
      }
    }
    IndexAt(m, j, activeId);
    assert Swap(m, j, i) == slides;
  }

  /** The first slide with the id is found. */
  lemma IndexAt(slides: seq<Slide>, k: nat, id: Option<string>)
    requires k < |slides| && Some(slides[k].id) == id
    requires forall k' :: 0 <= k' < k ==> Some(slides[k'].id) != id
    ensures IndexOfId(slides, id) == k
  {
  }

  /** `moveSlide`'s guard: no active slide, the first slide moved up, or the last moved down. */
  predicate MoveBlocked(slides: seq<Slide>, activeId: Option<string>, up: bool) {
    var i := IndexOfId(slides, activeId);
    i < 0 || (up && i == 0) || (!up && i == |slides| - 1)
  }

  /** A blocked move changes nothing; with unique ids, a move that changes nothing was blocked. */
  lemma MoveAtEdge(slides: seq<Slide>, activeId: Option<string>, up: bool)
    ensures MoveBlocked(slides, activeId, up) ==> Moved(slides, activeId, up) == slides
    ensures SlidesArtifact.IdsUnique(slides) && Moved(slides, activeId, up) == slides ==> MoveBlocked(slides, activeId, up)
  {
    var i := IndexOfId(slides, activeId);
    var j := if up then i - 1 else i + 1;
    if !MoveBlocked(slides, activeId, up) && SlidesArtifact.IdsUnique(slides) {
      assert 0 <= i < |slides| && 0 <= j < |slides| && i != j;
      assert slides[i].id != slides[j].id by {
        if i < j { assert slides[i].id != slides[j].id; } else { assert slides[j].id != slides[i].id; }
      }
      assert Moved(slides, activeId, up)[i] == slides[j];
    }
  }

  /** A blocked move is not undone by the opposite one: the first of two slides moved up stays, then moved down it swaps. */
  lemma FirstSlideUpThenDown(a: Slide, b: Slide)
    requires a.id != b.id
    ensures Moved([a, b], Some(a.id), true) == [a, b]
    ensures Moved(Moved([a, b], Some(a.id), true), Some(a.id), false) == [b, a]
  {
  }

  // ---------------------------------------------------------------------
  // The component state
  // ---------------------------------------------------------------------

  class Workspace {
    /** `localDeck`; null until a deck is loaded. */
    var localDeck: Option<Deck>
    var activeId: Option<string>
    var activeTheme: SlideThemes.SlideTheme
    /** Set by every edit; the autosave that clears it is not modelled. */
    var dirty: bool

    /** The initial `useState` values. */
    constructor()
      ensures localDeck.None? && activeId.None? && activeTheme == SlideThemes.Themes[0] && !dirty
    {
      localDeck := None;
      activeId := None;
      activeTheme := SlideThemes.Themes[0];
      dirty := false;
    }

    /** The active id names a slide of the deck, or nothing is active. */
    predicate ActiveInDeck()
      reads this
    {
      activeId.Some? ==> localDeck.Some? && exists k :: 0 <= k < |localDeck.value.slides| && localDeck.value.slides[k].id == activeId.value
    }

    /** `activeSlide`: the slide with the active id, else the first; none before a deck is loaded. */
    function ActiveSlide(): (r: Option<Slide>)
      reads this
      ensures localDeck.None? ==> r.None?
      ensures localDeck.Some? ==> r == ActiveOf(localDeck.value.slides, activeId)
    {
      if localDeck.None? then None else ActiveOf(localDeck.value.slides, activeId)
    }

    /**
     * The load effect: no deck clears the state; a deck is copied (its slides are values, so
     * the element-wise copy is the same list), its first slide becomes active and its theme is
     * looked up by name.
     */
    method Load(deck: Option<Deck>)
      modifies this
      ensures localDeck == deck && !dirty
      ensures deck.None? ==> activeId.None? && activeTheme == old(activeTheme)
      ensures deck.Some? ==> activeId == (if deck.value.slides == [] then None else Some(deck.value.slides[0].id))
      ensures deck.Some? ==> activeTheme == SlideThemes.GetThemeByName(Some(deck.value.themeName))
      ensures ActiveInDeck()
    {
      if deck.None? {
        localDeck := None;
        activeId := None;
        dirty := false;
        return;
      }
      var slides := deck.value.slides;
      localDeck := Some(deck.value.(slides := slides));
      activeId := if slides == [] then None else Some(slides[0].id);
      activeTheme := SlideThemes.GetThemeByName(Some(deck.value.themeName));
      dirty := false;
    }

    method UpdateSlide(updated: Slide)
      modifies this
      ensures localDeck == if old(localDeck).None? then None
        else Some(old(localDeck).value.(slides := Replaced(old(localDeck).value.slides, updated)))
      ensures activeId == old(activeId) && activeTheme == old(activeTheme) && dirty
      ensures old(ActiveInDeck()) ==> ActiveInDeck()
    {
      if localDeck.Some? {
        var slides := localDeck.value.slides;
        ReplacedSpec(slides, updated);
        localDeck := Some(localDeck.value.(slides := Replaced(slides, updated)));
        if activeId.Some? && old(ActiveInDeck()) {
          var k :| 0 <= k < |slides| && slides[k].id == activeId.value;
          assert localDeck.value.slides[k].id == activeId.value;
        }
      }
      dirty := true;
    }

    /** `addSlide`, given the id `crypto.randomUUID` returns; the new slide becomes active even before a deck is loaded. */
    method AddSlide(newId: string)
      modifies this
      ensures localDeck == if old(localDeck).None? then None
        else Some(old(localDeck).value.(slides := old(localDeck).value.slides + [NewSlide(newId)]))
      ensures activeId == Some(newId) && activeTheme == old(activeTheme) && dirty
      ensures old(localDeck).Some? ==> ActiveInDeck()
      ensures old(localDeck).Some? && (forall k :: 0 <= k < |old(localDeck).value.slides| ==> old(localDeck).value.slides[k].id != newId) ==>
        ActiveSlide() == Some(NewSlide(newId))
    {
      if localDeck.Some? {
        var slides := localDeck.value.slides + [NewSlide(newId)];
        localDeck := Some(localDeck.value.(slides := slides));
        assert slides[|slides| - 1].id == newId;
      }
      activeId := Some(newId);
      dirty := true;
    }

    /** `deleteSlide`: nothing with one slide left; else the active slide's id is filtered out and the first remaining slide becomes active. */
    method DeleteSlide()
      modifies this
      ensures old(localDeck).None? || |old(localDeck).value.slides| == 1 ==> localDeck == old(localDeck) && activeId == old(activeId)
      ensures old(localDeck).Some? && |old(localDeck).value.slides| != 1 ==>
        var rest := Without(old(localDeck).value.slides, old(activeId));
        && localDeck == Some(old(localDeck).value.(slides := rest))
        && activeId == (if rest == [] then None else Some(rest[0].id))
      ensures activeTheme == old(activeTheme) && dirty
      ensures old(ActiveInDeck()) ==> ActiveInDeck()
    {
      if localDeck.Some? && |localDeck.value.slides| != 1 {
        var rest := Without(localDeck.value.slides, activeId);
        localDeck := Some(localDeck.value.(slides := rest));
        activeId := if rest == [] then None else Some(rest[0].id);
      }
      dirty := true;
    }

    /** `moveSlide(dir)`: the slides are copied into a fresh array and the two cells swapped there. */
    method MoveSlide(up: bool)
      modifies this
      ensures localDeck == if old(localDeck).None? then None
        else Some(old(localDeck).value.(slides := Moved(old(localDeck).value.slides, old(activeId), up)))
      ensures activeId == old(activeId) && activeTheme == old(activeTheme) && dirty
    {
      dirty := true;
      if localDeck.None? {
        return;
      }
      var prev := localDeck.value.slides;
      var i := IndexOfId(prev, activeId);
      var j := if up then i - 1 else i + 1;
      if i < 0 || j < 0 || j >= |prev| {
        return;
      }
      var a := new Slide[|prev|](k requires 0 <= k < |prev| => prev[k]);
      a[i], a[j] := a[j], a[i];
      assert a[..] == Swap(prev, i, j);
      localDeck := Some(localDeck.value.(slides := a[..]));
    }
  }
}
