/** The editing session of `TextEditor` (text_editor.py): opening, saving,
    and the dispatch of one key code. */
module TextEditor {
  import opened Wrappers
  import opened Ascii
  import opened AudioApp
  import opened TextBuffer
  import opened Scanner

  /** Key codes the editor tests for: `curses.ascii.ESC`, `curses.ascii.DEL`,
      and ncurses' `KEY_LEFT` and `KEY_RIGHT`. */
  const Esc := 27
  const Del := 127
  const KeyLeft := 260
  const KeyRight := 261

  /** How the editor was started: without a path, or with a path that names
      an existing file (its contents) or no file yet. */
  datatype Launch = NoPath | WithPath(existing: Option<string>)

  /** `__init__`: the buffer is the existing file's contents or empty, the
      cursor is at the start, and a path means an output file is held. */
  function Open(l: Launch): (e: Editor)
    ensures e.Valid() && e.cursor == 0
    ensures e.hasFile <==> l.WithPath?
    ensures l.WithPath? && l.existing.Some? ==> e.buffer == l.existing.value
    ensures l.NoPath? || l.existing.None? ==> e.buffer == []
  {
    match l
    case NoPath => Editor([], 0, false)
    case WithPath(None) => Editor([], 0, true)
    case WithPath(Some(text)) => Editor(text, 0, true)
  }

  /** `close`: the whole buffer is written once, if there is a file. */
  function Close(e: Editor): (r: seq<Event>)
    ensures e.hasFile ==> r == [Saved(e.buffer)]
    ensures !e.hasFile ==> r == []
  {
    if e.hasFile then [Saved(e.buffer)] else []
  }

  /** The branch of `handle_key` a key code takes. */
  datatype KeyClass =
    | Quit
    | Left
    | Right
    | Delete
    | Letter(c: char)
    | Typed(c: char)
    | Ignored

  /** Classifies a key code in the order `handle_key` tests it. The four
      special codes lie outside the character classes, so the classes
      partition the codes. */
  function Classify(key: int): (k: KeyClass)
    ensures k == Quit <==> key == Esc
    ensures k == Left <==> key == KeyLeft
    ensures k == Right <==> key == KeyRight
    ensures k == Delete <==> key == Del
    ensures k.Letter? <==> IsAlphaCode(key)
    ensures k.Typed? <==> !IsAlphaCode(key) && (IsPrintCode(key) || IsSpaceCode(key))
    ensures (k.Letter? || k.Typed?) ==> k.c as int == key
  {
    if key == Esc then Quit
    else if key == KeyLeft then Left
    else if key == KeyRight then Right
    else if key == Del then Delete
    else if IsAlphaCode(key) then Letter(key as char)
    else if IsPrintCode(key) || IsSpaceCode(key) then Typed(key as char)
    else Ignored
  }

  /** What is spoken after a non-letter is typed: the sentence it closes
      if it is '.', otherwise the word it closes. */
  function Announce(e: Editor, c: char): (r: string)
    requires e.Valid() && |e.buffer| > 0
    ensures c == '.' ==> r == LastSentence(e)
    ensures c != '.' ==> r == LastWord(e)
  {
    if c == '.' then LastSentence(e) else LastWord(e)
  }

  /** `handle_key`: one key code, the new state, the sounds it made, and
      whether to keep reading keys. Only ESC stops the session, and only
      ESC saves. */
  function HandleKey(e: Editor, key: int): (r: Step<bool>)
    requires e.Valid()
    ensures r.ed.Valid() && r.ed.hasFile == e.hasFile
    ensures r.value <==> key != Esc
    ensures key == Esc ==> r.ed == e && r.out == Close(e)
    ensures key != Esc ==> forall i :: 0 <= i < |r.out| ==> !r.out[i].Saved?
  {
    match Classify(key)
    case Quit => Step(e, Close(e), false)
    case Left => var s := MoveLeft(e); Step(s.ed, s.out, true)
    case Right => var s := MoveRight(e); Step(s.ed, s.out, true)
    case Delete => var s := Backspace(e); Step(s.ed, s.out, true)
    case Letter(c) => Step(InsertChar(e, c), [], true)
    case Typed(c) =>
      var typed := InsertChar(e, c);
      Step(typed, [Speak(Announce(typed, c))], true)
    case Ignored => Step(e, [], true)
  }

  /** The dispatch table of `handle_key`, branch by branch: arrows move,
      DEL is backspace, letters are inserted silently, other printable and
      white-space characters are inserted and announce the word or sentence
      they close, and every other code changes nothing and makes no sound. */
  lemma Dispatch(e: Editor, key: int)
    requires e.Valid()
    ensures var r := HandleKey(e, key);
      && (key == KeyLeft ==> r == Step(MoveLeft(e).ed, MoveLeft(e).out, true))
      && (key == KeyRight ==> r == Step(MoveRight(e).ed, MoveRight(e).out, true))
      && (key == Del ==> r == Step(Backspace(e).ed, Backspace(e).out, true))
      && (IsAlphaCode(key) ==> r == Step(InsertChar(e, key as char), [], true))
      && (Classify(key).Typed? ==>
            var typed := InsertChar(e, key as char);
            r == Step(typed, [Speak(Announce(typed, key as char))], true))
      && (Classify(key).Ignored? ==> r == Step(e, [], true))
  {
  }

  /** The characters a user can type into the buffer: printable ASCII and
      the ASCII white-space controls (Python's `string.printable`). */
  predicate Typable(c: char) {
    IsPrintCode(c as int) || IsSpaceCode(c as int)
  }

  /** A text made only of typable characters. */
  predicate TypableText(w: string) {
    forall i :: 0 <= i < |w| ==> Typable(w[i])
  }

  /** Every typable character is inserted at the cursor; only letters are
      inserted silently, everything else announces a word or sentence. */
  lemma TypableKey(e: Editor, c: char)
    requires e.Valid() && Typable(c)
    ensures HandleKey(e, c as int).value
    ensures HandleKey(e, c as int).ed == InsertChar(e, c)
    ensures IsAlpha(c) ==> HandleKey(e, c as int).out == []
    ensures !IsAlpha(c) ==> HandleKey(e, c as int).out == [Speak(Announce(InsertChar(e, c), c))]
  {
    Dispatch(e, c as int);
  }
}
