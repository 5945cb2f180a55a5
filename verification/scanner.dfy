/** The read-only backward scans `last_word` and `last_sentence`
    (text_editor.py), always with the default end position `cursor - 1`. */
module Scanner {
  import opened Ascii
  import opened Strings
  import opened TextBuffer

  /** `s` is where a backward scan from `i` that keeps going while `keep`
      holds and the position is positive comes to rest: every position
      after `s` up to `i` satisfied `keep`, and at `s` the scan stopped. */
  ghost predicate StopsAt(buf: string, i: nat, keep: Run, s: nat) {
    && s <= i < |buf|
    && (s == 0 || !Keeps(keep, buf[s]))
    && forall k :: s < k <= i ==> Keeps(keep, buf[k])
  }

  /** A scan has exactly one resting place. */
  lemma StopsAtUnique(buf: string, i: nat, keep: Run, s: nat, t: nat)
    requires StopsAt(buf, i, keep, s) && StopsAt(buf, i, keep, t)
    ensures s == t
  {
  }

  /** The loop `while Keeps(keep, buf[start]) and start > 0: start -= 1`, which
      tests the character before the position, so the character it stops
      on stays inside the slice taken afterwards. */
  function ScanBack(buf: string, i: nat, keep: Run): (r: nat)
    requires i < |buf|
    ensures StopsAt(buf, i, keep, r)
    decreases i
  {
    if Keeps(keep, buf[i]) && i > 0 then ScanBack(buf, i - 1, keep) else i
  }

  /** The scan function computes the one resting place. */
  lemma ScanBackExact(buf: string, i: nat, keep: Run, s: nat)
    requires StopsAt(buf, i, keep, s)
    ensures ScanBack(buf, i, keep) == s
  {
    StopsAtUnique(buf, i, keep, s, ScanBack(buf, i, keep));
  }

  /** What a backward scan keeps walking over: letters for `last_word`,
      anything but '.' for `last_sentence`. */
  datatype Run = Letters | NonDots

  predicate Keeps(keep: Run, c: char) {
    match keep
    case Letters => IsAlpha(c)
    case NonDots => c != '.'
  }

  /** `last_word()`: with the cursor before position 2, the first character
      of the buffer; otherwise the slice from the scan's resting place up to
      the cursor, scanning back over letters, stripped of white space. */
  function LastWord(e: Editor): (r: string)
    requires e.Valid() && |e.buffer| > 0
    ensures e.cursor < 2 ==> r == [e.buffer[0]]
    ensures e.cursor >= 2 ==> |r| <= e.cursor
    ensures e.cursor >= 2 ==> r == [] || (!IsStripSpace(r[0]) && !IsStripSpace(r[|r| - 1]))
  {
    if e.cursor < 2 then
      [e.buffer[0]]
    else
      var endingAt := e.cursor - 1;
      var start := ScanBack(e.buffer, endingAt - 1, Letters);
      Strip(e.buffer[start..endingAt + 1], WhiteSpace)
  }

  /** `last_sentence()`: the same short-buffer rule; otherwise the slice from
      the previous '.' (or the buffer start) up to the cursor, stripped of
      dots and spaces at both ends. */
  function LastSentence(e: Editor): (r: string)
    requires e.Valid() && |e.buffer| > 0
    ensures e.cursor < 2 ==> r == [e.buffer[0]]
    ensures e.cursor >= 2 ==> |r| <= e.cursor
    ensures e.cursor >= 2 ==> r == [] || (!IsDotOrSpace(r[0]) && !IsDotOrSpace(r[|r| - 1]))
  {
    if e.cursor < 2 then
      [e.buffer[0]]
    else
      var endingAt := e.cursor - 1;
      var start := ScanBack(e.buffer, endingAt - 1, NonDots);
      Strip(e.buffer[start..endingAt + 1], DotsAndSpaces)
  }

  /** `last_word` is the stripped slice starting wherever the scan over
      letters ending just before the last character rests. */
  lemma LastWordSpec(e: Editor, s: nat)
    requires e.Valid() && e.cursor >= 2
    requires StopsAt(e.buffer, e.cursor - 2, Letters, s)
    ensures LastWord(e) == Strip(e.buffer[s..e.cursor], WhiteSpace)
  {
    ScanBackExact(e.buffer, e.cursor - 2, Letters, s);
  }

  /** `last_sentence` is the dot-and-space-stripped slice starting wherever
      the scan for a '.' ending just before the last character rests. */
  lemma LastSentenceSpec(e: Editor, s: nat)
    requires e.Valid() && e.cursor >= 2
    requires StopsAt(e.buffer, e.cursor - 2, NonDots, s)
    ensures LastSentence(e) == Strip(e.buffer[s..e.cursor], DotsAndSpaces)
  {
    ScanBackExact(e.buffer, e.cursor - 2, NonDots, s);
  }

  /** A scan over the cursor's prefix can be read off the prefix alone. */
  lemma ScanOnPrefix(e: Editor, full: string, keep: Run, s: nat)
    requires e.Valid() && e.buffer[..e.cursor] == full && 2 <= e.cursor
    requires s <= e.cursor - 2 && (s == 0 || !Keeps(keep, full[s]))
    requires forall k :: s < k <= e.cursor - 2 ==> Keeps(keep, full[k])
    ensures StopsAt(e.buffer, e.cursor - 2, keep, s)
    ensures e.buffer[s..e.cursor] == full[s..]
  {
    assert forall k :: 0 <= k < |full| ==> e.buffer[k] == full[k];
  }

  /** A slice of a concatenation that starts inside the first part. */
  lemma SliceConcat(a: string, b: string, s: nat)
    requires s <= |a|
    ensures (a + b)[s..] == a[s..] + b
  {
  }

  /** A word with no white space at its ends comes out of `Strip` whole,
      whatever white space pads it. */
  lemma StripWord(x: string, w: string, y: string)
    requires All(x, WhiteSpace) && All(y, WhiteSpace)
    requires |w| > 0 && IsAlpha(w[0]) && IsAlpha(w[|w| - 1])
    ensures Strip(x + w + y, WhiteSpace) == w
  {
    StripPadding(x, w, y, WhiteSpace);
    StripSlice(w, WhiteSpace, 0, |w|);
  }

  /** Where the word scan rests in `pre + w + [c]` when `pre` is empty or
      ends in white space: on the last character of `pre`, or at 0. */
  lemma WordScan(pre: string, w: string, c: char, s: nat)
    requires |w| > 0 && forall k :: 0 <= k < |w| ==> IsAlpha(w[k])
    requires IsStripSpace(c)
    requires pre == [] || IsStripSpace(pre[|pre| - 1])
    requires s == if pre == [] then 0 else |pre| - 1
    ensures s <= |pre + (w + [c])| - 2
    ensures s == 0 || !IsAlpha((pre + (w + [c]))[s])
    ensures forall k :: s < k <= |pre + (w + [c])| - 2 ==> IsAlpha((pre + (w + [c]))[k])
  {
    var full := pre + (w + [c]);
    forall k | s < k <= |full| - 2
      ensures IsAlpha(full[k])
    {
      assert full[k] == w[k - |pre|];
    }
    if pre != [] {
      assert full[s] == pre[s];
    }
  }

  /** What stripping leaves of `pre + w + [c]` from where the word scan
      rests: the word itself. */
  lemma WordStrip(pre: string, w: string, c: char, s: nat)
    requires |w| > 0 && IsAlpha(w[0]) && IsAlpha(w[|w| - 1])
    requires IsStripSpace(c)
    requires pre == [] || IsStripSpace(pre[|pre| - 1])
    requires s == if pre == [] then 0 else |pre| - 1
    ensures Strip((pre + (w + [c]))[s..], WhiteSpace) == w
  {
    if pre != [] {
      assert pre[s..] == [pre[|pre| - 1]];
    }
    SliceConcat(pre, w + [c], s);
    assert pre[s..] + (w + [c]) == pre[s..] + w + [c];
    StripWord(pre[s..], w, [c]);
  }

  /** A word typed at the start of the buffer or after white space, and
      closed by a white-space character, is spoken as that word. */
  lemma {:induction false} LastWordAfterSpace(e: Editor, pre: string, w: string, c: char)
    requires e.Valid() && e.buffer[..e.cursor] == pre + w + [c]
    requires |w| > 0 && forall k :: 0 <= k < |w| ==> IsAlpha(w[k])
    requires IsStripSpace(c)
    requires pre == [] || IsStripSpace(pre[|pre| - 1])
    ensures LastWord(e) == w
  {
    var full := pre + (w + [c]);
    assert full == pre + w + [c];
    var s := if pre == [] then 0 else |pre| - 1;
    WordScan(pre, w, c, s);
    WordStrip(pre, w, c, s);
    ScanOnPrefix(e, full, Letters, s);
    LastWordSpec(e, s);
  }

  /** Where the word scan rests in `pre + [x] + w + [c]` when `x` is neither
      a letter nor white space: on `x`, which stripping keeps. */
  lemma StopShape(pre: string, x: char, w: string, c: char)
    requires |w| > 0 && forall k :: 0 <= k < |w| ==> IsAlpha(w[k])
    requires !IsAlpha(x) && !IsStripSpace(x) && IsStripSpace(c)
    ensures var full := pre + ([x] + w + [c]);
      && |pre| <= |full| - 2 && !IsAlpha(full[|pre|])
      && (forall k :: |pre| < k <= |full| - 2 ==> IsAlpha(full[k]))
      && Strip(full[|pre|..], WhiteSpace) == [x] + w
  {
    var xw := [x] + w;
    var full := pre + ([x] + w + [c]);
    forall k | |pre| < k <= |full| - 2
      ensures IsAlpha(full[k])
    {
      assert full[k] == w[k - |pre| - 1];
    }
    assert full[|pre|] == x;
    SliceConcat(pre, xw + [c], |pre|);
    assert [] + xw + [c] == pre[|pre|..] + ([x] + w + [c]);
    StripPadding([], xw, [c], WhiteSpace);
    StripSlice(xw, WhiteSpace, 0, |xw|);
  }

  /** The character the word scan stops on is kept: after "a,b " the
      phrase is ",b", not "b". */
  lemma {:induction false} LastWordKeepsStop(e: Editor, pre: string, x: char, w: string, c: char)
    requires e.Valid() && e.buffer[..e.cursor] == pre + [x] + w + [c]
    requires |w| > 0 && forall k :: 0 <= k < |w| ==> IsAlpha(w[k])
    requires !IsAlpha(x) && !IsStripSpace(x) && IsStripSpace(c)
    ensures LastWord(e) == [x] + w
  {
    var full := pre + ([x] + w + [c]);
    assert full == pre + [x] + w + [c];
    StopShape(pre, x, w, c);
    ScanOnPrefix(e, full, Letters, |pre|);
    LastWordSpec(e, |pre|);
  }

  /** Where the sentence scan rests in `pre + "." + body + "."` when `body`
      has no '.': on the first dot, and stripping leaves `body` stripped. */
  lemma SentenceShape(pre: string, body: string)
    requires forall k :: 0 <= k < |body| ==> body[k] != '.'
    ensures var full := pre + ("." + body + ".");
      && |pre| <= |full| - 2 && full[|pre|] == '.'
      && (forall k :: |pre| < k <= |full| - 2 ==> Keeps(NonDots, full[k]))
      && Strip(full[|pre|..], DotsAndSpaces) == Strip(body, DotsAndSpaces)
  {
    var full := pre + ("." + body + ".");
    forall k | |pre| < k <= |full| - 2
      ensures Keeps(NonDots, full[k])
    {
      assert full[k] == body[k - |pre| - 1];
    }
    SliceConcat(pre, "." + body + ".", |pre|);
    assert pre[|pre|..] + ("." + body + ".") == "." + body + ".";
    StripPadding(".", body, ".", DotsAndSpaces);
  }

  /** A '.' that closes a sentence after an earlier '.' speaks the text
      between the two dots, trimmed of dots and spaces. */
  lemma {:induction false} LastSentenceAfterStop(e: Editor, pre: string, body: string)
    requires e.Valid() && e.buffer[..e.cursor] == pre + "." + body + "."
    requires forall k :: 0 <= k < |body| ==> body[k] != '.'
    ensures LastSentence(e) == Strip(body, DotsAndSpaces)
  {
    var full := pre + ("." + body + ".");
    assert full == pre + "." + body + ".";
    SentenceShape(pre, body);
    ScanOnPrefix(e, full, NonDots, |pre|);
    LastSentenceSpec(e, |pre|);
  }

  /** Where the sentence scan rests in `body + "."` when `body` has no '.':
      at the buffer start. */
  lemma FirstSentenceShape(body: string)
    requires |body| > 0 && forall k :: 0 <= k < |body| ==> body[k] != '.'
    ensures var full := body + ".";
      && (forall k :: 0 < k <= |full| - 2 ==> Keeps(NonDots, full[k]))
      && Strip(full[0..], DotsAndSpaces) == Strip(body, DotsAndSpaces)
  {
    var full := body + ".";
    forall k | 0 < k <= |full| - 2
      ensures Keeps(NonDots, full[k])
    {
      assert full[k] == body[k];
    }
    assert full[0..] == [] + body + ".";
    StripPadding([], body, ".", DotsAndSpaces);
  }

  /** A '.' that closes the first sentence speaks everything before it,
      trimmed of dots and spaces, once at least one character precedes it. */
  lemma {:induction false} LastSentenceFirst(e: Editor, body: string)
    requires e.Valid() && e.buffer[..e.cursor] == body + "."
    requires |body| > 0 && forall k :: 0 <= k < |body| ==> body[k] != '.'
    ensures LastSentence(e) == Strip(body, DotsAndSpaces)
  {
    FirstSentenceShape(body);
    ScanOnPrefix(e, body + ".", NonDots, 0);
    LastSentenceSpec(e, 0);
  }
}
