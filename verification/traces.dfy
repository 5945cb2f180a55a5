/** The editing sessions of the repository's tests (tests.py), replayed on
    the model through `simulate_typing`: first for every text of the shape
    a test uses, then for the tests' own texts. */
module Traces {
  import opened Wrappers
  import opened Ascii
  import opened Strings
  import opened AudioApp
  import opened TextBuffer
  import opened Scanner
  import opened TextEditor
  import opened Session

  /** One simulated key is one call of `handle_key`. */
  lemma SimulateOne(e: Editor, k: int)
    requires e.Valid()
    ensures Simulate(e, [k]).ed == HandleKey(e, k).ed
    ensures Simulate(e, [k]).out == HandleKey(e, k).out
  {
    assert [k][1..] == [];
  }

  /** The editor each test starts with: the path of a fresh temporary
      file, which exists and is empty. */
  function Fresh(): (e: Editor)
    ensures e.Valid() && e.buffer == [] && e.cursor == 0 && e.hasFile
  {
    Open(WithPath(Some([])))
  }

  /** Simulating `a` and then `b` ends where `b` ends from where `a` left
      the editor. */
  lemma SimulateThen(e: Editor, a: seq<int>, b: seq<int>, mid: Editor)
    requires e.Valid() && Simulate(e, a).ed == mid
    ensures mid.Valid()
    ensures Simulate(e, a + b).ed == Simulate(mid, b).ed
  {
    SimulateAppend(e, a, b);
  }

  /** ... and the last sound of `b` is the last sound of the whole. */
  lemma SimulateThenLast(e: Editor, a: seq<int>, b: seq<int>, mid: Editor, ev: Event)
    requires e.Valid() && Simulate(e, a).ed == mid
    requires LastIs(Simulate(mid, b).out, ev)
    ensures LastIs(Simulate(e, a + b).out, ev)
  {
    SimulateAppend(e, a, b);
    var all := Simulate(e, a + b).out;
    assert all == Simulate(e, a).out + Simulate(mid, b).out;
    LastOfJoin(all, Simulate(e, a).out, Simulate(mid, b).out, ev);
  }

  lemma LastOfJoin(all: seq<Event>, x: seq<Event>, y: seq<Event>, ev: Event)
    requires all == x + y && LastIs(y, ev)
    ensures LastIs(all, ev)
  {
  }

  /** Typing `w` and then ESC saves the buffer with `w` spliced in at the
      cursor, as the last event. */
  lemma {:induction false} TypeThenQuit(e: Editor, w: string, text: string)
    requires e.Valid() && e.hasFile && TypableText(w)
    requires text == e.buffer[..e.cursor] + w + e.buffer[e.cursor..]
    ensures Simulate(e, Codes(w) + [Esc]).ed.buffer == text
    ensures LastIs(Simulate(e, Codes(w) + [Esc]).out, Saved(text))
  {
    TypeText(e, w);
    var mid := Simulate(e, Codes(w)).ed;
    SimulateOne(mid, Esc);
    SimulateThen(e, Codes(w), [Esc], mid);
    SimulateThenLast(e, Codes(w), [Esc], mid, Saved(text));
  }

  /** Splicing into a fresh file, or at the start of a reopened one. */
  lemma FreshSplice(w: string)
    ensures Fresh().buffer[..Fresh().cursor] + w + Fresh().buffer[Fresh().cursor..] == w
  {
    assert [] + w + [] == w;
  }

  lemma OpenSplice(u: string, v: string)
    ensures Open(WithPath(Some(u))).buffer[..0] + v + Open(WithPath(Some(u))).buffer[0..] == v + u
  {
    assert u[..0] == [] && u[0..] == u;
  }

  /** Typing any typable text into a fresh file and quitting saves exactly
      that text (tests.py `test_gibberish` checks its length). */
  lemma {:induction false} TypedTextSaved(w: string)
    requires TypableText(w)
    ensures Simulate(Fresh(), Codes(w) + [Esc]).ed.buffer == w
    ensures LastIs(Simulate(Fresh(), Codes(w) + [Esc]).out, Saved(w))
  {
    FreshSplice(w);
    TypeThenQuit(Fresh(), w, w);
  }

  lemma TypableJoin(a: string, b: string)
    requires TypableText(a) && TypableText(b)
    ensures TypableText(a + b)
  {
    assert forall i :: |a| <= i < |a + b| ==> (a + b)[i] == b[i - |a|];
  }

  /** Reopening a saved file `u` and typing `v` then ESC saves `v` in front
      of `u`: a reopened file starts with the cursor at the beginning. */
  lemma {:induction false} ReopenPrepends(u: string, v: string)
    requires TypableText(v)
    ensures LastIs(Simulate(Open(WithPath(Some(u))), Codes(v) + [Esc]).out, Saved(v + u))
  {
    OpenSplice(u, v);
    TypeThenQuit(Open(WithPath(Some(u))), v, v + u);
  }

  /** Typing `x` into a fresh file leaves exactly `x`, cursor at its end. */
  lemma FreshTyped(x: string)
    requires TypableText(x)
    ensures Simulate(Fresh(), Codes(x)).ed == Editor(x, |x|, true)
  {
    TypeText(Fresh(), x);
    FreshSplice(x);
  }

  /** Typing a non-letter `c` at the end of `x` appends it and announces. */
  lemma AnnounceAtEnd(x: string, c: char)
    requires Typable(c) && !IsAlpha(c)
    ensures Simulate(Editor(x, |x|, true), [c as int]).ed == Editor(x + [c], |x| + 1, true)
    ensures Simulate(Editor(x, |x|, true), [c as int]).out
         == [Speak(Announce(Editor(x + [c], |x| + 1, true), c))]
  {
    var e1 := Editor(x, |x|, true);
    SimulateOne(e1, c as int);
    TypableKey(e1, c);
    assert x[..|x|] + [c] + x[|x|..] == x + [c];
  }

  lemma CodesSnoc(x: string, c: char)
    ensures Codes(x + [c]) == Codes(x) + [c as int]
  {
    CodesAppend(x, [c]);
  }

  /** Typing `x` into a fresh file and then a non-letter `c` leaves `x + [c]`
      with the cursor at the end and speaks the announcement for `c` last. */
  lemma {:induction false} TypeThenAnnounce(x: string, c: char)
    requires TypableText(x) && Typable(c) && !IsAlpha(c)
    ensures Simulate(Fresh(), Codes(x + [c])).ed == Editor(x + [c], |x| + 1, true)
    ensures LastIs(Simulate(Fresh(), Codes(x + [c])).out, Speak(Announce(Editor(x + [c], |x| + 1, true), c)))
  {
    var mid := Editor(x, |x|, true);
    CodesSnoc(x, c);
    FreshTyped(x);
    AnnounceAtEnd(x, c);
    SimulateThen(Fresh(), Codes(x), [c as int], mid);
    SimulateThenLast(Fresh(), Codes(x), [c as int], mid, Speak(Announce(Editor(x + [c], |x| + 1, true), c)));
  }

  /** Typing a word after white space (or at the start) and then a white
      space character speaks the word. */
  lemma {:induction false} WordSpoken(pre: string, w: string, c: char)
    requires TypableText(pre) && Typable(c) && IsStripSpace(c)
    requires |w| > 0 && forall k :: 0 <= k < |w| ==> IsAlpha(w[k])
    requires pre == [] || IsStripSpace(pre[|pre| - 1])
    ensures Simulate(Fresh(), Codes(pre + w + [c])).ed == Editor(pre + w + [c], |pre + w| + 1, true)
    ensures LastIs(Simulate(Fresh(), Codes(pre + w + [c])).out, Speak(w))
  {
    assert TypableText(w);
    TypableJoin(pre, w);
    TypeThenAnnounce(pre + w, c);
    WordAnnounced(pre, w, c);
  }

  /** The announcement for white space typed after `pre + w`. */
  lemma WordAnnounced(pre: string, w: string, c: char)
    requires IsStripSpace(c)
    requires |w| > 0 && forall k :: 0 <= k < |w| ==> IsAlpha(w[k])
    requires pre == [] || IsStripSpace(pre[|pre| - 1])
    ensures Announce(Editor(pre + w + [c], |pre + w| + 1, true), c) == w
  {
    var e := Editor(pre + w + [c], |pre + w| + 1, true);
    assert e.buffer[..e.cursor] == pre + w + [c];
    LastWordAfterSpace(e, pre, w, c);
  }

  /** Typing a '.' that closes a sentence speaks the text since the
      previous '.', trimmed of dots and spaces. */
  lemma {:induction false} SentenceSpoken(pre: string, body: string)
    requires TypableText(pre) && TypableText(body)
    requires forall k :: 0 <= k < |body| ==> body[k] != '.'
    ensures LastIs(Simulate(Fresh(), Codes(pre + "." + body + ".")).out, Speak(Strip(body, DotsAndSpaces)))
  {
    var x := pre + "." + body;
    TypableJoin(pre, ".");
    TypableJoin(pre + ".", body);
    TypeThenAnnounce(x, '.');
    SentenceAnnounced(pre, body, x);
    DotString(x);
  }

  /** The announcement for a '.' typed after `pre + "." + body`. */
  lemma SentenceAnnounced(pre: string, body: string, x: string)
    requires x == pre + "." + body
    requires forall k :: 0 <= k < |body| ==> body[k] != '.'
    ensures Announce(Editor(x + ['.'], |x| + 1, true), '.') == Strip(body, DotsAndSpaces)
  {
    var e := Editor(x + ['.'], |x| + 1, true);
    assert e.buffer[..e.cursor] == x + ['.'];
    DotString(x);
    LastSentenceAfterStop(e, pre, body);
  }

  lemma DotString(x: string)
    ensures x + ['.'] == x + "."
  {
  }

  /** DEL right after typing `c` at the end of `y` takes `c` back and
      names it. */
  lemma DelAtEnd(y: string, c: char)
    ensures Simulate(Editor(y + [c], |y| + 1, true), [Del]).ed == Editor(y, |y|, true)
    ensures Simulate(Editor(y + [c], |y| + 1, true), [Del]).out == SpeakChar(c)
  {
    var e := Editor(y + [c], |y| + 1, true);
    SimulateOne(e, Del);
    Dispatch(e, Del);
    assert (y + [c])[..|y|] == y;
  }

  /** KEY_RIGHT at the end of the buffer sounds the tone and changes
      nothing. */
  lemma RightAtEnd(y: string)
    ensures Simulate(Editor(y, |y|, true), [KeyRight]).ed == Editor(y, |y|, true)
    ensures Simulate(Editor(y, |y|, true), [KeyRight]).out == [Tone]
  {
    SimulateOne(Editor(y, |y|, true), KeyRight);
    Dispatch(Editor(y, |y|, true), KeyRight);
  }

  /** Typing `a + b + [c]`, DEL and KEY_RIGHT leave `a + b`, cursor at the
      end. */
  lemma EditFirstKeys(a: string, b: string, c: char)
    requires TypableText(a + b + [c])
    ensures Simulate(Fresh(), Codes(a + b + [c]) + [Del]).ed == Editor(a + b, |a + b|, true)
    ensures Simulate(Fresh(), Codes(a + b + [c]) + [Del] + [KeyRight]).ed == Editor(a + b, |a + b|, true)
  {
    var x := a + b + [c];
    FreshTyped(x);
    DelAtEnd(a + b, c);
    SimulateThen(Fresh(), Codes(x), [Del], Editor(x, |x|, true));
    RightAtEnd(a + b);
    SimulateThen(Fresh(), Codes(x) + [Del], [KeyRight], Editor(a + b, |a + b|, true));
  }

  /** The keys of `EditBeforeLastWord` up to the first key of `t`. */
  function EditKeys(a: string, b: string, c: char): seq<int> {
    Codes(a + b + [c]) + [Del] + [KeyRight] + Repeat(KeyLeft, |b|)
  }

  /** ... and the KEY_LEFTs over `b` bring the cursor to the end of `a`. */
  lemma EditKeysDone(a: string, b: string, c: char)
    requires TypableText(a + b + [c])
    ensures Simulate(Fresh(), EditKeys(a, b, c)).ed == Editor(a + b, |a|, true)
  {
    EditFirstKeys(a, b, c);
    var e := Editor(a + b, |a + b|, true);
    SimulateThen(Fresh(), Codes(a + b + [c]) + [Del] + [KeyRight], Repeat(KeyLeft, |b|), e);
    LeftSteps(e, |b|);
  }

  lemma MidSplice(a: string, b: string, t: string)
    ensures (a + b)[..|a|] + t + (a + b)[|a|..] == a + t + b
  {
    assert (a + b)[..|a|] == a && (a + b)[|a|..] == b;
  }

  /** Typing `a + b + [c]`, deleting `c`, pressing KEY_RIGHT at the end,
      moving back over `b` and typing `t` puts `t` between `a` and `b`,
      and ESC saves that text last. */
  lemma {:induction false} EditBeforeLastWord(a: string, b: string, c: char, t: string)
    requires TypableText(a + b + [c]) && TypableText(t)
    ensures Simulate(Fresh(), EditKeys(a, b, c) + (Codes(t) + [Esc])).ed.buffer == a + t + b
    ensures LastIs(Simulate(Fresh(), EditKeys(a, b, c) + (Codes(t) + [Esc])).out, Saved(a + t + b))
  {
    var e := Editor(a + b, |a|, true);
    EditKeysDone(a, b, c);
    MidSplice(a, b, t);
    TypeThenQuit(e, t, a + t + b);
    SimulateThen(Fresh(), EditKeys(a, b, c), Codes(t) + [Esc], e);
    SimulateThenLast(Fresh(), EditKeys(a, b, c), Codes(t) + [Esc], e, Saved(a + t + b));
  }

  /** tests.py `test_simple`, first step: the space after "hello world"
      speaks "world". */
  lemma TestSimpleWord()
    ensures LastIs(Simulate(Fresh(), Codes("hello world ")).out, Speak("world"))
  {
    SimpleWordParts("hello ", "world");
    HelloWorldText("hello ", "world");
  }

  /** The same step, with the text given in the parts the proof uses. */
  lemma SimpleWordParts(a: string, b: string)
    requires a == "hello " && b == "world"
    ensures LastIs(Simulate(Fresh(), Codes(a + b + [' '])).out, Speak("world"))
  {
    assert TypableText(a);
    WordSpoken(a, b, ' ');
  }

  /** The typed text of `test_simple`, in those parts. */
  lemma HelloWorldText(a: string, b: string)
    requires a == "hello " && b == "world"
    ensures a + b + [' '] == "hello world "
  {
  }

  /** tests.py `test_simple`, next steps: DEL speaks "space", and KEY_RIGHT
      at the end of the buffer sounds the tone. */
  lemma TestSimpleEdges()
    ensures LastIs(Simulate(Fresh(), Codes("hello world ") + [Del]).out, Speak("space"))
    ensures LastIs(Simulate(Fresh(), Codes("hello world ") + [Del] + [KeyRight]).out, Tone)
  {
    var a, b := "hello ", "world";
    var x := a + b + [' '];
    HelloWorldText(a, b);
    assert TypableText(x);
    FreshTyped(x);
    DelAtEnd(a + b, ' ');
    SpeakableTable();
    SimulateThenLast(Fresh(), Codes(x), [Del], Editor(x, |x|, true), Speak("space"));
    EditFirstKeys(a, b, ' ');
    RightAtEnd(a + b);
    SimulateThenLast(Fresh(), Codes(x) + [Del], [KeyRight], Editor(a + b, |a + b|, true), Tone);
  }

  /** tests.py `test_simple`, the whole session: five KEY_LEFTs and
      "awesome " then ESC save "hello awesome world". */
  lemma TestSimpleSaved()
    ensures LastIs(Simulate(Fresh(), Codes("hello world ") + [Del] + [KeyRight] + Repeat(KeyLeft, 5)
                                     + Codes("awesome ") + [Esc]).out,
                   Saved("hello awesome world"))
  {
    SimpleSavedParts("hello ", "world", "awesome ");
    HelloWorldText("hello ", "world");
  }

  /** The same session, with the text given in the parts the proof uses. */
  lemma SimpleSavedParts(a: string, b: string, t: string)
    requires a == "hello " && b == "world" && t == "awesome "
    ensures LastIs(Simulate(Fresh(), Codes(a + b + [' ']) + [Del] + [KeyRight] + Repeat(KeyLeft, 5) + Codes(t) + [Esc]).out,
                   Saved("hello awesome world"))
  {
    assert TypableText(a + b + [' ']) && TypableText(t);
    assert Codes(a + b + [' ']) + [Del] + [KeyRight] + Repeat(KeyLeft, 5) + Codes(t) + [Esc]
        == EditKeys(a, b, ' ') + (Codes(t) + [Esc]);
    EditBeforeLastWord(a, b, ' ', t);
    HelloAwesomeWorld(a, b, t);
  }

  lemma HelloAwesomeWorld(a: string, b: string, t: string)
    requires a == "hello " && b == "world" && t == "awesome "
    ensures a + t + b == "hello awesome world"
  {
  }

  /** tests.py `test_symbols`: "foo" then ESC saves "foo"; reopening that
      file, "~ ~" then ESC saves "~ ~foo". */
  lemma TestSymbols()
    ensures LastIs(Simulate(Fresh(), Codes("foo") + [Esc]).out, Saved("foo"))
    ensures LastIs(Simulate(Open(WithPath(Some("foo"))), Codes("~ ~") + [Esc]).out, Saved("~ ~foo"))
  {
    SymbolsParts("foo", "~ ~");
  }

  /** The same sessions, with the texts given as parameters. */
  lemma SymbolsParts(u: string, v: string)
    requires u == "foo" && v == "~ ~"
    ensures LastIs(Simulate(Fresh(), Codes(u) + [Esc]).out, Saved("foo"))
    ensures LastIs(Simulate(Open(WithPath(Some(u))), Codes(v) + [Esc]).out, Saved("~ ~foo"))
  {
    assert TypableText(u) && TypableText(v);
    TypedTextSaved(u);
    ReopenPrepends(u, v);
    TildeFoo(u, v);
  }

  lemma TildeFoo(u: string, v: string)
    requires u == "foo" && v == "~ ~"
    ensures v + u == "~ ~foo"
  {
  }

  /** tests.py `test_sentence`: the second '.' speaks the second sentence
      without its leading space or its dot. */
  lemma TestSentence()
    ensures LastIs(Simulate(Fresh(), Codes("Hello there. This is a second sentence.")).out,
                   Speak("This is a second sentence"))
  {
    SentenceParts("Hello there", " This is a second sentence");
    SentenceText("Hello there", " This is a second sentence");
  }

  /** The same session, with the text given in the parts the proof uses. */
  lemma SentenceParts(pre: string, body: string)
    requires pre == "Hello there" && body == " This is a second sentence"
    ensures LastIs(Simulate(Fresh(), Codes(pre + "." + body + ".")).out, Speak("This is a second sentence"))
  {
    assert TypableText(pre) && TypableText(body);
    assert forall k :: 0 <= k < |body| ==> body[k] != '.';
    SentenceSpoken(pre, body);
    SecondSentence(body);
  }

  lemma SecondSentence(body: string)
    requires body == " This is a second sentence"
    ensures Strip(body, DotsAndSpaces) == "This is a second sentence"
  {
    StripSlice(body, DotsAndSpaces, 1, |body|);
    assert body[1..] == "This is a second sentence";
  }

  /** The typed text of `test_sentence`, in those parts. */
  lemma SentenceText(pre: string, body: string)
    requires pre == "Hello there" && body == " This is a second sentence"
    ensures pre + "." + body + "." == "Hello there. This is a second sentence."
  {
  }
}
