/**
 * The bounded undo/redo history of a slides artifact: `deck` is the current
 * deck, `past` the undo stack and `future` the redo stack, newest first.
 * Every push keeps at most `SnapLimit` entries, dropping the oldest.
 *
 * The state is generic in the deck type: the stacks hold whatever deck
 * values were stored, and nothing here looks inside them.
 */
module SlidesHistory {
  import opened Text

  const SnapLimit: nat := 20

  datatype SlidesState<D> = SlidesState(deck: D, past: seq<D>, future: seq<D>)

  /** `[x, ...s].slice(0, SnapLimit)`: x on top, then the newest entries of s that still fit. */
  function PushBounded<D>(x: D, s: seq<D>): (r: seq<D>)
    ensures |r| == Min(|s| + 1, SnapLimit)
    ensures r[0] == x
    ensures r[1..] == s[..|r| - 1]
  {
    Take([x] + s, SnapLimit)
  }

  /** `pushSnapshot`: the snapshot goes on top of the undo stack, the redo stack is cleared, the deck is untouched. */
  function PushSnapshot<D>(st: SlidesState<D>, snapshot: D): (r: SlidesState<D>)
    ensures r.deck == st.deck
    ensures r.future == []
    ensures |r.past| == Min(|st.past| + 1, SnapLimit)
    ensures r.past[0] == snapshot && r.past[1..] == st.past[..|r.past| - 1]
  {
    SlidesState(st.deck, PushBounded(snapshot, st.past), [])
  }

  /** `undoState`: with an empty undo stack nothing changes; otherwise its top becomes the deck and the deck goes on the redo stack. */
  function UndoState<D>(st: SlidesState<D>): (r: SlidesState<D>)
    ensures st.past == [] ==> r == st
    ensures st.past != [] ==>
      && r.deck == st.past[0]
      && r.past == st.past[1..]
      && r.future == PushBounded(st.deck, st.future)
  {
    if st.past == [] then st
    else SlidesState(st.past[0], st.past[1..], PushBounded(st.deck, st.future))
  }

  /** `redoState`: with an empty redo stack nothing changes; otherwise its top becomes the deck and the deck goes on the undo stack. */
  function RedoState<D>(st: SlidesState<D>): (r: SlidesState<D>)
    ensures st.future == [] ==> r == st
    ensures st.future != [] ==>
      && r.deck == st.future[0]
      && r.future == st.future[1..]
      && r.past == PushBounded(st.deck, st.past)
  {
    if st.future == [] then st
    else SlidesState(st.future[0], PushBounded(st.deck, st.past), st.future[1..])
  }

  /** Both stacks within the limit. */
  predicate Bounded<D>(st: SlidesState<D>) {
    |st.past| <= SnapLimit && |st.future| <= SnapLimit
  }

  /** Every operation keeps the stacks within the limit. */
  lemma HistoryBounded<D>(st: SlidesState<D>, snapshot: D)
    requires Bounded(st)
    ensures Bounded(PushSnapshot(st, snapshot))
    ensures Bounded(UndoState(st))
    ensures Bounded(RedoState(st))
  {
  }

  /** Pushing onto a stack with room for one more drops nothing. */
  lemma PushBoundedKeepsAll<D>(x: D, s: seq<D>)
    requires |s| < SnapLimit
    ensures PushBounded(x, s) == [x] + s
  {
  }

  /** Redo undoes an undo, as long as the redo stack had room for the deck. */
  lemma RedoAfterUndo<D>(st: SlidesState<D>)
    requires st.past != [] && |st.past| <= SnapLimit && |st.future| < SnapLimit
    ensures RedoState(UndoState(st)) == st
  {
    PushBoundedKeepsAll(st.deck, st.future);
    assert [st.past[0]] + st.past[1..] == st.past;
  }

  /** Undo undoes a redo, as long as the undo stack had room for the deck. */
  lemma UndoAfterRedo<D>(st: SlidesState<D>)
    requires st.future != [] && |st.future| <= SnapLimit && |st.past| < SnapLimit
    ensures UndoState(RedoState(st)) == st
  {
    PushBoundedKeepsAll(st.deck, st.past);
    assert [st.future[0]] + st.future[1..] == st.future;
  }

  /** With a full redo stack an undo drops its oldest entry, so a redo cannot restore it. */
  lemma UndoOnFullFutureDropsOldest<D>(st: SlidesState<D>)
    requires st.past != [] && |st.future| == SnapLimit
    ensures UndoState(st).future == [st.deck] + st.future[..SnapLimit - 1]
    ensures RedoState(UndoState(st)).future == st.future[..SnapLimit - 1] != st.future
  {
    var f := UndoState(st).future;
    assert f == [f[0]] + f[1..];
  }

  /** An edit as the routes perform it: the old deck pushed as a snapshot, the new deck installed. */
  function Edit<D>(st: SlidesState<D>, next: D): (r: SlidesState<D>)
    ensures r.deck == next && r.future == []
  {
    var pushed := PushSnapshot(st, st.deck);
    SlidesState(next, pushed.past, pushed.future)
  }

  /** Undo right after an edit brings back the deck before it, with the edited deck as the only redo entry; redo then restores the edit. */
  lemma UndoAfterEdit<D>(st: SlidesState<D>, next: D)
    requires |st.past| <= SnapLimit
    ensures UndoState(Edit(st, next)).deck == st.deck
    ensures UndoState(Edit(st, next)).future == [next]
    ensures UndoState(Edit(st, next)).past == st.past[..Min(|st.past|, SnapLimit - 1)]
    ensures RedoState(UndoState(Edit(st, next))) == Edit(st, next)
  {
    RedoAfterUndo(Edit(st, next));
  }

  /** The undo stack after a series of edits. */
  function EditAll<D>(st: SlidesState<D>, decks: seq<D>): SlidesState<D>
    decreases |decks|
  {
    if decks == [] then st else EditAll(Edit(st, decks[0]), decks[1..])
  }

  /** After k edits the undo stack holds min(|past| + k, SnapLimit) entries: it fills up and then stays full. */
  lemma {:induction false} EditAllLength<D>(st: SlidesState<D>, decks: seq<D>)
    requires |st.past| <= SnapLimit
    ensures |EditAll(st, decks).past| == Min(|st.past| + |decks|, SnapLimit)
    decreases |decks|
  {
    if decks != [] {
      var e := Edit(st, decks[0]);
      EditAllLength(e, decks[1..]);
      assert |e.past| == Min(|st.past| + 1, SnapLimit);
    }
  }
}
