# Talking text editor: a Dafny model

This project models the core of a small auditory text editor. `TextEditor` is
an `AudioApp` that keeps a text buffer and a cursor. It reads key codes one at
a time. After each key it speaks, plays a short tone, or stays silent. On ESC
it writes the buffer to its output file.

The model has these parts:

- **Editing state.** `TextBuffer.Editor` holds the buffer, the cursor and
  whether an output file was opened.
- **Operations.** Every operation is a pure function. It returns a
  `Step(ed, out, value)`:
  - `ed` is the new state;
  - `out` is the sounds it made, as `AudioApp.Event`s;
  - `value` is what the Python method returns, except for `Session.Run`:
    `run` returns nothing, and there `value` says whether the keys ran out
    before an ESC.
- **Events.** `Speak(phrase)` stands for the narrator. `Tone` stands for the
  boundary interval `play_interval(1, 0.1)`. `Saved(text)` stands for the
  write in `close`.
- **`speak_char`.** It becomes `AudioApp.Speakable`, a pure function from a
  character to its phrase.
- **`handle_key`.** A key code is classified once into `TextEditor.KeyClass`,
  in the order `handle_key` tests it. `HandleKey` then matches on the class.
- **Scanners.** `last_word` and `last_sentence` are backward scans
  (`Scanner.ScanBack`) followed by Python's `str.strip` (`Strings.Strip`).
- **Key loop.** The loop of `AudioApp.run` is `Session.Run` over a finite list
  of key codes. `simulate_typing` is `Session.Simulate`.
- **Test sessions.** The sessions of tests.py are replayed in module `Traces`.
  Each is first proved for every text of the shape the test uses, then for the
  test's own text.

Modules, in dependency order:

- `Wrappers`: the `Option` type.
- `Ascii`: character classes.
- `Strings`: `strip`.
- `AudioApp`: events and `speak_char`.
- `TextBuffer`: the editor state and its primitives.
- `Scanner`: `last_word` and `last_sentence`.
- `TextEditor`: opening, `close`, classification and `handle_key`.
- `Session`: `run` and `simulate_typing`.
- `Traces`: the test sessions.

Points where the model reads the code closely:

- **What `str.strip()` removes.** The editor is a Python 2 program, and its
  buffer is a byte string. With no argument, `strip()` there removes the C
  library's white space: codes 9 to 13 and 32. That is the same class as
  `curses.ascii.isspace`, which the dispatch in `handle_key` uses. The file,
  group, record and unit separators (codes 28 to 31) are kept.
- **The scanners' stop character.** Both scan loops test `buffer[start]`
  before `start > 0`. So the character the scan stops on is the first
  character of the slice, and only `strip` can remove it.
  - After white space it disappears (`Scanner.LastWordAfterSpace`).
  - After a comma it stays: typing "a,b " speaks ",b"
    (`Scanner.LastWordKeepsStop`).
- **The `cursor < 2` rule.** The short-buffer rule of both scanners returns
  the buffer's first character. The model keeps this rule as written.
- **The second sentence.** tests.py lowercases every utterance before it
  compares. `Traces.TestSentence` states the exact phrase with its case,
  "This is a second sentence".

## Model

| member | source | states |
|---|---|---|
| `TextBuffer.MoveLeft` | text_editor.py:26-33 | keeps the buffer and the cursor bound; moves one step left and names the character stepped over exactly when the cursor is not at 0; at 0 changes nothing, sounds only the tone and returns false |
| `TextBuffer.MoveRight` | text_editor.py:35-42 | keeps the buffer and the cursor bound; names the character under the cursor and steps past it exactly when the cursor is before the end; at the end changes nothing, sounds only the tone and returns false |
| `TextBuffer.InsertChar` | text_editor.py:44-46 | length and cursor grow by one; the text before the cursor is kept, `c` sits at the old cursor, and the text after the new cursor is the old text after the cursor |
| `TextBuffer.RemoveChar` | text_editor.py:48-56 | returns nothing exactly at cursor 0, where it changes nothing and sounds the tone; otherwise returns the character before the cursor, silently, and the buffer loses exactly that character |
| `TextBuffer.Backspace` | text_editor.py:58-61 | the state after `remove_char`; the tone at cursor 0, otherwise the removed character spoken |
| `TextBuffer.LeftThenRight` | text_editor.py:26-42 | moving left then right returns to the same state and names the same character |
| `TextBuffer.RightThenLeft` | text_editor.py:26-42 | moving right then left returns to the same state and names the same character |
| `TextBuffer.InsertThenRemove` | text_editor.py:44-56 | `remove_char` right after `insert_char(c)` restores the editor exactly, silently, and returns `c` |
| `TextBuffer.RemoveThenInsert` | text_editor.py:44-56 | re-inserting what `remove_char` returned restores the editor |
| `TextBuffer.BackspaceUndoesInsert` | text_editor.py:44-61 | backspace right after typing `c` undoes it and speaks `c` |
| `AudioApp.Phrase` | audio_app.py:31-50 | every entry of the pronunciation table is at least two characters long |
| `AudioApp.PhraseKeys` | audio_app.py:31-50 | the table names exactly its eighteen keys: 'y', '.', ' ', ',', ';', '-', ':', '/', '\\', '?', '!', '@', '#', '$', '%', '*', '^', '~' |
| `AudioApp.Speakable` | audio_app.py:51-58 | never empty; the table entry of the lower-cased character when it has one; the letter itself when it is a letter outside the table; "splork" otherwise |
| `AudioApp.SpeakChar` | audio_app.py:29-60 | exactly one utterance, the speakable form |
| `AudioApp.SpeakableTable` | audio_app.py:31-50 | '.' is "dot", ' ' is "space", ',' is "comma", '?' is "question mark", '~' is "squiggle", '\\' is "backslash" |
| `AudioApp.SpeakableTablePunctuation` | audio_app.py:36-43 | ';' is "semicolon", '-' is "dash", ':' is "colon", '/' is "slash", '!' is "bang", '@' is "at" |
| `AudioApp.SpeakableTableSymbols` | audio_app.py:44-48 | '#' is "pound", '$' is "dollar", '%' is "percent", '*' is "star", '^' is "caret" |
| `AudioApp.SpeakableWhy` | audio_app.py:51-54 | 'y' and 'Y' are both "why": the lookup lower-cases, and the table wins over the letter passthrough |
| `AudioApp.SpeakableSelfIff` | audio_app.py:51-56 | a character is spoken as itself exactly when it is a letter other than 'y' or 'Y' |
| `AudioApp.SpeakableFillerIff` | audio_app.py:51-58 | a character is spoken as "splork" exactly when it is neither a letter nor in the table |
| `AudioApp.SpeakableUnknown` | audio_app.py:57-58 | digits, '&' and '(' are spoken as "splork" |
| `AudioApp.SpeakableLetters` | audio_app.py:55-56 | letters outside the table keep their case: 'a', 'A', 'Q' |
| `Ascii.Lower` | audio_app.py:51 | lower-casing maps each upper-case letter to its own lower-case letter (code plus 32) and leaves everything else alone |
| `Strings.Strip` | text_editor.py:74 | the stripped text is no longer than its input and neither starts nor ends with a stripped character |
| `Strings.StripSlice` | text_editor.py:74 | stripping a text whose outer runs are all stripped characters, around a slice that starts and ends with a kept one, yields exactly that slice |
| `Strings.StripIndices` | text_editor.py:87 | conversely, every stripped result is such a slice of its input |
| `Strings.StripIdempotent` | text_editor.py:87 | stripping twice is stripping once |
| `Strings.StripKeepsSeparator` | text_editor.py:74 | any of codes 28 to 31 (the file, group, record and unit separators) followed by a space strips to that character alone: they are not white space |
| `Strings.StripPadding` | text_editor.py:74 | padding made of stripped characters on either side does not change the result |
| `Strings.LeadEnd` | text_editor.py:74 | the first position from `lo` on whose character is kept, every character before it from `lo` being stripped |
| `Strings.TrailStart` | text_editor.py:87 | the last position up to `hi` whose preceding character is kept, every character from it up to `hi` being stripped |
| `Scanner.ScanBack` | text_editor.py:70-72 | the backward scan rests on a position where the scan stops: position 0 or a character the scan does not walk over, with only walked-over characters after it |
| `Scanner.StopsAtUnique` | text_editor.py:70-72 | a scan has only one resting place |
| `Scanner.ScanBackExact` | text_editor.py:83-85 | any resting place is the one the scan computes |
| `Scanner.LastWord` | text_editor.py:63-74 | with the cursor before 2, the first character; otherwise a text no longer than the cursor that neither starts nor ends with white space |
| `Scanner.LastSentence` | text_editor.py:76-87 | with the cursor before 2, the first character; otherwise a text no longer than the cursor that neither starts nor ends with '.' or ' ' |
| `Scanner.LastWordSpec` | text_editor.py:63-74 | the word is the white-space-stripped slice from the resting place of the letter scan up to the cursor |
| `Scanner.LastSentenceSpec` | text_editor.py:76-87 | the sentence is the dot-and-space-stripped slice from the resting place of the '.' scan up to the cursor |
| `Scanner.ScanOnPrefix` | text_editor.py:70-74 | a scan that ends before the cursor can be read off the text before the cursor |
| `Scanner.StripWord` | text_editor.py:74 | a word padded with white space strips to the word |
| `Scanner.LastWordAfterSpace` | text_editor.py:63-74 | a word typed at the start or after white space, then a white-space character, gives exactly that word |
| `Scanner.LastWordKeepsStop` | text_editor.py:70-74 | after a character that is neither a letter nor white space, that character stays at the front of the word |
| `Scanner.LastSentenceAfterStop` | text_editor.py:76-87 | a '.' after an earlier '.' gives the text between them, stripped of dots and spaces |
| `Scanner.LastSentenceFirst` | text_editor.py:76-87 | the first '.', after at least one character, gives everything before it, stripped of dots and spaces |
| `TextEditor.Open` | text_editor.py:12-22 | the cursor starts at 0; the buffer is the existing file's text or empty; an output file is held exactly when a path was given |
| `TextEditor.Close` | text_editor.py:89-92 | the buffer is saved once with a file and nothing is saved without one |
| `TextEditor.Classify` | text_editor.py:94-121 | each special key has its own class, letters are exactly `isalpha`, typed characters are exactly the other printable or white-space codes, and letters and typed characters carry their own code |
| `TextEditor.Announce` | text_editor.py:115-118 | after '.' the last sentence is spoken, after any other character the last word |
| `TextEditor.HandleKey` | text_editor.py:94-121 | keeps the cursor bound and the file; returns false exactly for ESC, which changes nothing and gives `close`'s output; no other key saves |
| `TextEditor.Dispatch` | text_editor.py:101-121 | arrows are the moves, DEL is backspace, letters insert silently, other typed characters insert and speak the sentence (after '.') or the word they close, and any other code changes nothing and is silent |
| `TextEditor.TypableKey` | text_editor.py:110-118 | every printable or white-space character is inserted and keeps the loop going; only letters are silent |
| `Session.Run` | audio_app.py:74-91 | keeps the cursor bound; returns true exactly when no ESC is among the keys; nothing is saved before the loop stops, and when ESC stops it, `close`'s output ends the trace |
| `Session.RunAppend` | audio_app.py:83-85 | running two key lists one after the other is running their concatenation, unless the first already stopped |
| `Session.RunStopsAtEsc` | audio_app.py:83-85 | keys after the first ESC have no effect |
| `Session.Simulate` | audio_app.py:94-100 | keeps the cursor bound and the file; without ESC nothing is saved |
| `Session.SimulateAppend` | audio_app.py:98-100 | typing two key lists one after the other is typing their concatenation |
| `Session.SimulateMatchesRun` | audio_app.py:83-100 | `simulate_typing` and the `run` loop agree when ESC, if anywhere, is the last key |
| `Session.Codes` | audio_app.py:99-100 | one key code per character, its `ord` |
| `Session.TypeText` | audio_app.py:98-100 | typing typable text splices it in at the cursor and moves the cursor past it; letters alone are silent |
| `Session.LeftSteps` | text_editor.py:26-33 | `n` KEY_LEFT presses with `n` characters before the cursor move it back by `n` and keep the buffer |
| `Traces.TypeThenQuit` | text_editor.py:89-99 | typing text then ESC saves the buffer with the text spliced in at the cursor, as the last event |
| `Traces.TypedTextSaved` | tests.py:76-84 | typing any typable text into a fresh file then ESC saves exactly that text, hence one character per key |
| `Traces.ReopenPrepends` | tests.py:69-74 | a reopened file starts with the cursor at 0, so typed text is saved in front of the old contents |
| `Traces.TypeThenAnnounce` | text_editor.py:113-118 | typing text then a non-letter ends with that character appended and its word or sentence spoken |
| `Traces.WordAnnounced` | text_editor.py:113-118 | white space typed after a word that follows white space (or starts the buffer) announces exactly that word |
| `Traces.SentenceAnnounced` | text_editor.py:113-118 | a '.' typed after `pre + "." + body`, with no '.' in `body`, announces `body` stripped of dots and spaces |
| `Traces.WordSpoken` | tests.py:42-45 | a word typed at the start or after white space, then white space, is spoken last |
| `Traces.SentenceSpoken` | tests.py:86-88 | a '.' closing a sentence after an earlier '.' speaks the sentence stripped of dots and spaces |
| `Traces.EditBeforeLastWord` | tests.py:42-63 | typing, DEL, KEY_RIGHT at the end, KEY_LEFT over the last word, more text and ESC save the new text in front of that word |
| `Traces.TestSimpleWord` | tests.py:44-45 | "hello world " speaks "world" last |
| `Traces.TestSimpleEdges` | tests.py:47-53 | the DEL after that speaks "space", and KEY_RIGHT then sounds the tone |
| `Traces.TestSimpleSaved` | tests.py:42-63 | the whole session saves "hello awesome world" |
| `Traces.TestSymbols` | tests.py:65-74 | "foo" then ESC saves "foo"; reopening it, "~ ~" then ESC saves "~ ~foo" |
| `Traces.TestSentence` | tests.py:86-88 | "Hello there. This is a second sentence." speaks "This is a second sentence" last |

## Left out

- Terminal handling in `run` is not modelled: curses set-up and tear-down and `getch`. The loop runs over a given list of key codes.
- The pyttsx narrator and the fluidsynth synthesizer are not modelled: their set-up, `speak`, and the pitches, durations and sleeps of `play_interval`. Each sound is an event in the output trace.
- File I/O is not modelled. The `TextEditor.Launch` parameter stands for the command-line path and the existing file's contents. The write in `close` is a `Saved` event.
- A second ESC is not modelled as an error. Python would write to an already closed file and fail; the model just emits another `Saved` event. In `run` the loop stops at the first ESC, so this never happens there.
- The scanners' explicit `ending_at` argument is not modelled: `handle_key` never passes one. The model always uses `cursor - 1`.
- Scanning an empty buffer is not modelled. Python raises IndexError there: the cursor is 0, so the short-buffer rule reads `buffer[0]`. The model requires a non-empty buffer instead. `handle_key` calls the scanners only right after an insertion. At cursor 1 the short-buffer rule applies; from cursor 2 on, the scan starts at `cursor - 2 >= 0`.
- Bytes outside ASCII (128 to 255) are not modelled. Their classes under `isalpha`, `lower` and `strip` depend on the C locale. The model's character classes are those of ASCII.
- The `AudioApp.handle_key` that raises NotImplementedError is not modelled. It only exists to be overridden.
- The random text of the gibberish test is not modelled. Instead, `Traces.TypedTextSaved` covers every typable text.
- The tests lowercase every utterance before comparing. This is not modelled: the trace lemmas compare exact phrases, which is stronger.
- Traces.TestSymbols: the model has no file system, so it does not show that the second session reads the file the first one saved. The second ensures starts from `Open` of a file holding "foo", which is what the first session saved.
