/**
 * The list edits of `components/slides/BulletEditor.tsx`. Each edit
 * produces the next bullet list handed to `onChange`; focus moves and the
 * timers around them are not part of this model.
 */
module BulletEditor {
  import opened Wrappers

  /** `updateBullet(index, value)`: the list copied into an array and one cell written there. */
  method UpdateBullet(bullets: seq<string>, index: nat, value: string) returns (next: seq<string>)
    requires index < |bullets|
    ensures |next| == |bullets|
    ensures next[index] == value
    ensures forall k :: 0 <= k < |bullets| && k != index ==> next[k] == bullets[k]
  {
    var a := new string[|bullets|](k requires 0 <= k < |bullets| => bullets[k]);
    a[index] := value;
    next := a[..];
  }

  /** `next.splice(index + 1, 0, "")`; a start past the end inserts at the end. */
  function InsertAfter(bullets: seq<string>, index: nat): (r: seq<string>)
    ensures |r| == |bullets| + 1
  {
    var at := if index + 1 <= |bullets| then index + 1 else |bullets|;
    bullets[..at] + [""] + bullets[at..]
  }

  /** `bullets.filter((_, i) => i !== index)`. */
  function RemoveAt(bullets: seq<string>, index: nat): (r: seq<string>)
    requires index < |bullets|
    ensures |r| == |bullets| - 1
  {
    bullets[..index] + bullets[index + 1..]
  }

  datatype Key = Enter | Backspace | OtherKey

  /** `handleKeyDown(e, index)`: the list passed to `onChange`, or none when no edit happens. */
  function KeyDown(bullets: seq<string>, key: Key, index: nat): (r: Option<seq<string>>)
    requires index < |bullets|
    ensures key == Enter ==> r == Some(InsertAfter(bullets, index))
    ensures key == Backspace ==> (r.Some? <==> bullets[index] == "" && |bullets| > 1)
    ensures key == Backspace && r.Some? ==> r.value == RemoveAt(bullets, index)
    ensures key == OtherKey ==> r.None?
  {
    match key
    case Enter => Some(InsertAfter(bullets, index))
    case Backspace => if bullets[index] == "" && |bullets| > 1 then Some(RemoveAt(bullets, index)) else None
    case OtherKey => None
  }

  /** Enter puts one empty bullet right after the edited one and keeps the others, in order. */
  lemma EnterInserts(bullets: seq<string>, index: nat)
    requires index < |bullets|
    ensures var r := InsertAfter(bullets, index);
      && r[index + 1] == ""
      && (forall k :: 0 <= k <= index ==> r[k] == bullets[k])
      && (forall k :: index + 1 <= k < |bullets| ==> r[k + 1] == bullets[k])
      && RemoveAt(r, index + 1) == bullets
  {
    var r := InsertAfter(bullets, index);
    assert r[..index + 1] == bullets[..index + 1];
    assert r[index + 2..] == bullets[index + 1..];
  }

  /** Backspace takes out only the edited bullet, keeping the others in order. */
  lemma BackspaceRemoves(bullets: seq<string>, index: nat)
    requires index < |bullets| && bullets[index] == "" && |bullets| > 1
    ensures var r := KeyDown(bullets, Backspace, index).value;
      && (forall k :: 0 <= k < index ==> r[k] == bullets[k])
      && (forall k :: index < k < |bullets| ==> r[k - 1] == bullets[k])
  {
  }

  /** Enter on the bullet before puts back the empty bullet Backspace took out. */
  lemma EnterUndoesBackspace(bullets: seq<string>, index: nat)
    requires index < |bullets| && bullets[index] == "" && |bullets| > 1 && index > 0
    ensures KeyDown(KeyDown(bullets, Backspace, index).value, Enter, index - 1) == Some(bullets)
  {
    var r := RemoveAt(bullets, index);
    assert r[..index] == bullets[..index];
    assert r[index..] == bullets[index + 1..];
    assert bullets == bullets[..index] + [""] + bullets[index + 1..];
  }

  /** An edit on the bullet at `index`: typing into it, or a key pressed in it. */
  datatype Edit = Type(index: nat, value: string) | Press(key: Key, index: nat)

  /** The list after an edit; the editor only offers edits on bullets it shows, so an index past the end changes nothing. */
  function ApplyEdit(bullets: seq<string>, e: Edit): (r: seq<string>)
    ensures |bullets| - 1 <= |r| <= |bullets| + 1
  {
    match e
    case Type(i, v) => if i < |bullets| then bullets[i := v] else bullets
    case Press(key, i) =>
      if i < |bullets| then
        var r := KeyDown(bullets, key, i);
        if r.Some? then r.value else bullets
      else bullets
  }

  function ApplyEdits(bullets: seq<string>, edits: seq<Edit>): seq<string>
    decreases |edits|
  {
    if edits == [] then bullets else ApplyEdits(ApplyEdit(bullets, edits[0]), edits[1..])
  }

  /** No single edit empties a non-empty list. */
  lemma EditKeepsNonEmpty(bullets: seq<string>, e: Edit)
    requires |bullets| > 0
    ensures |ApplyEdit(bullets, e)| > 0
  {
  }

  /** However many edits are made, a list that started with a bullet keeps at least one. */
  lemma {:induction false} EditsKeepNonEmpty(bullets: seq<string>, edits: seq<Edit>)
    requires |bullets| > 0
    ensures |ApplyEdits(bullets, edits)| > 0
    decreases |edits|
  {
    if edits != [] {
      EditKeepsNonEmpty(bullets, edits[0]);
      EditsKeepNonEmpty(ApplyEdit(bullets, edits[0]), edits[1..]);
    }
  }
}
