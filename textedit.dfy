/**
 * The expression line edit shared by the three calculators: the expression
 * text, the cursor and the selection of the Qt line edit, and the two
 * splices every calculator performs on them (insert at the cursor, replace
 * the selection). The controllers keep `current_expression` equal to the
 * line edit's text, so the model keeps one text.
 */
module TextEdit {

  /** A selection `[start, end)` of the line edit, or none. */
  datatype Selection = NoSelection | Selected(start: nat, end: nat)

  datatype Buffer = Buffer(text: string, cursor: nat, selection: Selection) {

    /** The cursor lies in the text; a selection is non-empty, lies in the
        text and has the cursor at one of its ends (as in a Qt line edit). */
    predicate Valid() {
      && cursor <= |text|
      && (selection.Selected? ==>
            && selection.start < selection.end <= |text|
            && (cursor == selection.start || cursor == selection.end))
    }

    /** Qt's `selectedText()`: empty when nothing is selected. */
    function SelectedText(): (s: string)
      requires Valid()
      ensures selection.Selected? <==> s != ""
    {
      if selection.Selected? then text[selection.start..selection.end] else ""
    }
  }

  /** Qt's `setCursorPosition` right after `setText` (which leaves the cursor
      at the end): a negative position is clamped to 0, one past the end
      is ignored, so the cursor stays at the end. */
  function QtCursor(pos: int, n: nat): (c: nat)
    ensures c <= n
    ensures 0 <= pos <= n ==> c == pos
    ensures pos < 0 ==> c == 0
    ensures pos > n ==> c == n
  {
    if pos < 0 then 0 else if pos > n then n else pos
  }

  /** `current_expression[:c] + t + current_expression[c:]` with the cursor
      moved past `t`; `setText` drops any selection. */
  function Insert(b: Buffer, t: string): (r: Buffer)
    requires b.Valid()
    ensures r.Valid() && r.selection == NoSelection
  {
    Buffer(b.text[..b.cursor] + t + b.text[b.cursor..], b.cursor + |t|, NoSelection)
  }

  /** Replaces the selection `[start, end)` by `t` and puts the cursor right
      after `t`. */
  function ReplaceSelection(b: Buffer, t: string): (r: Buffer)
    requires b.Valid() && b.selection.Selected?
    ensures r.Valid() && r.selection == NoSelection
  {
    var s := b.selection.start;
    Buffer(b.text[..s] + t + b.text[b.selection.end..], s + |t|, NoSelection)
  }

  /** Inserting keeps what was before and after the cursor and puts exactly
      `t` between them, with the cursor right after it. */
  lemma InsertPlacesText(b: Buffer, t: string)
    requires b.Valid()
    ensures var r := Insert(b, t);
      && |r.text| == |b.text| + |t|
      && r.text[..b.cursor] == b.text[..b.cursor]
      && r.text[b.cursor..r.cursor] == t
      && r.text[r.cursor..] == b.text[b.cursor..]
  {
    var r := Insert(b, t);
    assert r.text[b.cursor..r.cursor] == t;
  }

  /** Replacing the selection keeps the text before and after it and puts
      exactly `t` in its place. */
  lemma ReplaceSelectionPlacesText(b: Buffer, t: string)
    requires b.Valid() && b.selection.Selected?
    ensures var r := ReplaceSelection(b, t);
      && |r.text| == |b.text| - (b.selection.end - b.selection.start) + |t|
      && r.text[..b.selection.start] == b.text[..b.selection.start]
      && r.text[b.selection.start..r.cursor] == t
      && r.text[r.cursor..] == b.text[b.selection.end..]
  {
    var r := ReplaceSelection(b, t);
    assert r.text[b.selection.start..r.cursor] == t;
  }
}
