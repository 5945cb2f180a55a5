/** The editing state of `TextEditor` and its buffer primitives
    (text_editor.py): cursor movement, insertion and deletion. */
module TextBuffer {
  import opened Wrappers
  import opened AudioApp

  /** The buffer, the cursor (a position between characters, `|buffer|`
      meaning after the last one) and whether an output file was opened. */
  datatype Editor = Editor(buffer: string, cursor: nat, hasFile: bool) {
    predicate Valid() {
      cursor <= |buffer|
    }
  }

  /** A new editor state, the events issued while reaching it, and the
      value the Python method returns. */
  datatype Step<T> = Step(ed: Editor, out: seq<Event>, value: T)

  /** `move_left`: step back over one character and name it, or sound the
      boundary tone at the start of the buffer. */
  function MoveLeft(e: Editor): (r: Step<bool>)
    requires e.Valid()
    ensures r.ed.Valid() && r.ed.buffer == e.buffer && r.ed.hasFile == e.hasFile
    ensures r.value <==> e.cursor > 0
    ensures !r.value ==> r.ed == e && r.out == [Tone]
    ensures r.value ==> r.ed.cursor == e.cursor - 1
    ensures r.value ==> r.out == SpeakChar(e.buffer[r.ed.cursor])
  {
    if e.cursor > 0 then
      var moved := e.(cursor := e.cursor - 1);
      Step(moved, SpeakChar(e.buffer[moved.cursor]), true)
    else
      Step(e, [Tone], false)
  }

  /** `move_right`: name the character under the cursor and step past it,
      or sound the boundary tone at the end of the buffer. */
  function MoveRight(e: Editor): (r: Step<bool>)
    requires e.Valid()
    ensures r.ed.Valid() && r.ed.buffer == e.buffer && r.ed.hasFile == e.hasFile
    ensures r.value <==> e.cursor < |e.buffer|
    ensures !r.value ==> r.ed == e && r.out == [Tone]
    ensures r.value ==> r.ed.cursor == e.cursor + 1
    ensures r.value ==> r.out == SpeakChar(e.buffer[e.cursor])
  {
    if e.cursor < |e.buffer| then
      Step(e.(cursor := e.cursor + 1), SpeakChar(e.buffer[e.cursor]), true)
    else
      Step(e, [Tone], false)
  }

  /** `insert_char`: splice `c` in at the cursor and move past it, silently. */
  function InsertChar(e: Editor, c: char): (r: Editor)
    requires e.Valid()
    ensures r.Valid() && r.hasFile == e.hasFile
    ensures |r.buffer| == |e.buffer| + 1 && r.cursor == e.cursor + 1
    ensures r.buffer[..e.cursor] == e.buffer[..e.cursor]
    ensures r.buffer[e.cursor] == c
    ensures r.buffer[r.cursor..] == e.buffer[e.cursor..]
  {
    var b := e.buffer[..e.cursor] + [c] + e.buffer[e.cursor..];
    assert e.buffer == e.buffer[..e.cursor] + e.buffer[e.cursor..];
    assert b[e.cursor + 1..] == e.buffer[e.cursor..];
    e.(buffer := b, cursor := e.cursor + 1)
  }

  /** `remove_char`: delete the character before the cursor and return it,
      or sound the boundary tone and return nothing (Python's `False`). */
  function RemoveChar(e: Editor): (r: Step<Option<char>>)
    requires e.Valid()
    ensures r.ed.Valid() && r.ed.hasFile == e.hasFile
    ensures r.value.None? <==> e.cursor == 0
    ensures e.cursor == 0 ==> r.ed == e && r.out == [Tone]
    ensures e.cursor > 0 ==> r.value == Some(e.buffer[e.cursor - 1]) && r.out == []
    ensures e.cursor > 0 ==> r.ed.cursor == e.cursor - 1 && |r.ed.buffer| == |e.buffer| - 1
    ensures e.cursor > 0 ==> r.ed.buffer[..r.ed.cursor] == e.buffer[..r.ed.cursor]
    ensures e.cursor > 0 ==> r.ed.buffer[r.ed.cursor..] == e.buffer[e.cursor..]
  {
    if e.cursor == 0 then
      Step(e, [Tone], None)
    else
      var b := e.buffer[..e.cursor - 1] + e.buffer[e.cursor..];
      assert b[e.cursor - 1..] == e.buffer[e.cursor..];
      Step(e.(buffer := b, cursor := e.cursor - 1), [], Some(e.buffer[e.cursor - 1]))
  }

  /** `backspace`: `remove_char`, then name the removed character. */
  function Backspace(e: Editor): (r: Step<()>)
    requires e.Valid()
    ensures r.ed.Valid()
    ensures r.ed == RemoveChar(e).ed
    ensures e.cursor == 0 ==> r.out == [Tone]
    ensures e.cursor > 0 ==> r.out == SpeakChar(e.buffer[e.cursor - 1])
  {
    var s := RemoveChar(e);
    match s.value
    case Some(c) => Step(s.ed, s.out + SpeakChar(c), ())
    case None => Step(s.ed, s.out, ())
  }

  /** Moving left and then right returns to the same state, naming the
      same character twice. */
  lemma LeftThenRight(e: Editor)
    requires e.Valid() && e.cursor > 0
    ensures MoveRight(MoveLeft(e).ed) == Step(e, MoveLeft(e).out, true)
  {
  }

  /** Moving right and then left returns to the same state, naming the
      same character twice. */
  lemma RightThenLeft(e: Editor)
    requires e.Valid() && e.cursor < |e.buffer|
    ensures MoveLeft(MoveRight(e).ed) == Step(e, MoveRight(e).out, true)
  {
  }

  /** An insertion followed by `remove_char` restores the editor exactly,
      silently, and hands back the inserted character. */
  lemma InsertThenRemove(e: Editor, c: char)
    requires e.Valid()
    ensures RemoveChar(InsertChar(e, c)) == Step(e, [], Some(c))
  {
    var i := InsertChar(e, c);
    var r := RemoveChar(i);
    assert r.ed.buffer == e.buffer[..e.cursor] + e.buffer[e.cursor..];
    assert e.buffer == e.buffer[..e.cursor] + e.buffer[e.cursor..];
  }

  /** Re-inserting what `remove_char` returned restores the editor. */
  lemma RemoveThenInsert(e: Editor)
    requires e.Valid() && e.cursor > 0
    ensures InsertChar(RemoveChar(e).ed, RemoveChar(e).value.value) == e
  {
    var r := RemoveChar(e);
    var i := InsertChar(r.ed, r.value.value);
    assert i.buffer == e.buffer[..e.cursor - 1] + [e.buffer[e.cursor - 1]] + e.buffer[e.cursor..];
    assert e.buffer == e.buffer[..e.cursor - 1] + [e.buffer[e.cursor - 1]] + e.buffer[e.cursor..];
  }

  /** Backspace right after typing `c` undoes it and names `c`. */
  lemma BackspaceUndoesInsert(e: Editor, c: char)
    requires e.Valid()
    ensures Backspace(InsertChar(e, c)) == Step(e, SpeakChar(c), ())
  {
    InsertThenRemove(e, c);
  }
}
