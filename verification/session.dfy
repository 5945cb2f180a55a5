/** The key loop of `AudioApp.run` and the `simulate_typing` helper
    (audio_app.py), over a finite list of key codes instead of a terminal. */
module Session {
  import opened Ascii
  import opened AudioApp
  import opened TextBuffer
  import opened TextEditor

  /** No event of `out` is a write of the buffer. */
  predicate Unsaved(out: seq<Event>) {
    forall i :: 0 <= i < |out| ==> !out[i].Saved?
  }

  /** `out` is events that save nothing followed by exactly `last`. */
  predicate EndsWith(out: seq<Event>, last: seq<Event>) {
    |last| <= |out| && Unsaved(out[..|out| - |last|]) && out[|out| - |last|..] == last
  }

  /** The last event of `out` is `ev`: what the tests check after a key. */
  predicate LastIs(out: seq<Event>, ev: Event) {
    |out| > 0 && out[|out| - 1] == ev
  }

  lemma UnsavedJoin(a: seq<Event>, b: seq<Event>)
    requires Unsaved(a) && Unsaved(b)
    ensures Unsaved(a + b)
  {
    forall i | 0 <= i < |a + b|
      ensures !(a + b)[i].Saved?
    {
      if i >= |a| {
        assert (a + b)[i] == b[i - |a|];
      }
    }
  }

  lemma EndsWithJoin(a: seq<Event>, b: seq<Event>, last: seq<Event>)
    requires Unsaved(a) && EndsWith(b, last)
    ensures EndsWith(a + b, last)
  {
    var n := |b| - |last|;
    assert (a + b)[..|a| + n] == a + b[..n];
    assert (a + b)[|a| + n..] == b[n..];
    UnsavedJoin(a, b[..n]);
  }

  /** `run`: hand each key to `handle_key` in order and stop at the first
      one it refuses. The value is whether the keys ran out first. Until
      then nothing is saved; when ESC stops the loop, its `close` output
      (the buffer, once, if there is a file) ends the trace. */
  function Run(e: Editor, keys: seq<int>): (r: Step<bool>)
    requires e.Valid()
    ensures r.ed.Valid() && r.ed.hasFile == e.hasFile
    ensures r.value <==> Esc !in keys
    ensures r.value ==> Unsaved(r.out)
    ensures !r.value ==> EndsWith(r.out, Close(r.ed))
    decreases |keys|
  {
    if keys == [] then
      Step(e, [], true)
    else
      var s := HandleKey(e, keys[0]);
      assert keys == [keys[0]] + keys[1..];
      if !s.value then
        assert s.out[..0] == [];
        Step(s.ed, s.out, false)
      else
        var rest := Run(s.ed, keys[1..]);
        if rest.value then
          UnsavedJoin(s.out, rest.out);
          Step(rest.ed, s.out + rest.out, true)
        else
          EndsWithJoin(s.out, rest.out, Close(rest.ed));
          Step(rest.ed, s.out + rest.out, false)
  }

  /** `simulate_typing`: hand every key to `handle_key`, ignoring what it
      returns. */
  function Simulate(e: Editor, keys: seq<int>): (r: Step<()>)
    requires e.Valid()
    ensures r.ed.Valid() && r.ed.hasFile == e.hasFile
    ensures Esc !in keys ==> forall i :: 0 <= i < |r.out| ==> !r.out[i].Saved?
    decreases |keys|
  {
    if keys == [] then
      Step(e, [], ())
    else
      var s := HandleKey(e, keys[0]);
      var rest := Simulate(s.ed, keys[1..]);
      Step(rest.ed, s.out + rest.out, ())
  }

  /** The key codes of a string, one per character (Python's `ord`). */
  function Codes(w: string): (r: seq<int>)
    ensures |r| == |w| && forall i :: 0 <= i < |w| ==> r[i] == w[i] as int
  {
    seq(|w|, i requires 0 <= i < |w| => w[i] as int)
  }

  lemma CodesAppend(v: string, w: string)
    ensures Codes(v + w) == Codes(v) + Codes(w)
  {
  }

  /** Running two key lists one after the other is running their
      concatenation, unless the first already stopped the loop. */
  lemma {:induction false} RunAppend(e: Editor, a: seq<int>, b: seq<int>)
    requires e.Valid()
    ensures var ra := Run(e, a);
      Run(e, a + b) == if !ra.value then ra
                       else var rb := Run(ra.ed, b); Step(rb.ed, ra.out + rb.out, rb.value)
    decreases |a|
  {
    if a == [] {
      assert a + b == b;
    } else {
      assert (a + b)[0] == a[0] && (a + b)[1..] == a[1..] + b;
      var s := HandleKey(e, a[0]);
      if s.value {
        RunAppend(s.ed, a[1..], b);
        var ra := Run(s.ed, a[1..]);
        if ra.value {
          var rb := Run(ra.ed, b);
          assert s.out + (ra.out + rb.out) == (s.out + ra.out) + rb.out;
        }
      }
    }
  }

  /** Keys after the first ESC are never read. */
  lemma {:induction false} RunStopsAtEsc(e: Editor, a: seq<int>, b: seq<int>)
    requires e.Valid() && Esc !in a
    ensures Run(e, a + [Esc] + b) == Run(e, a + [Esc])
  {
    RunAppend(e, a + [Esc], b);
    RunAppend(e, a, [Esc]);
  }

  /** Simulating two key lists one after the other is simulating their
      concatenation. */
  lemma {:induction false} SimulateAppend(e: Editor, a: seq<int>, b: seq<int>)
    requires e.Valid()
    ensures var sa := Simulate(e, a); var sb := Simulate(sa.ed, b);
      Simulate(e, a + b) == Step(sb.ed, sa.out + sb.out, ())
    decreases |a|
  {
    if a == [] {
      assert a + b == b;
    } else {
      assert (a + b)[0] == a[0] && (a + b)[1..] == a[1..] + b;
      var s := HandleKey(e, a[0]);
      SimulateAppend(s.ed, a[1..], b);
      var sa := Simulate(s.ed, a[1..]);
      var sb := Simulate(sa.ed, b);
      assert s.out + (sa.out + sb.out) == (s.out + sa.out) + sb.out;
    }
  }

  /** The test helper and the real loop agree whenever ESC, if it comes at
      all, is the last key. */
  lemma {:induction false} SimulateMatchesRun(e: Editor, keys: seq<int>)
    requires e.Valid()
    requires forall i :: 0 <= i < |keys| - 1 ==> keys[i] != Esc
    ensures Simulate(e, keys).ed == Run(e, keys).ed
    ensures Simulate(e, keys).out == Run(e, keys).out
    decreases |keys|
  {
    if keys != [] {
      var s := HandleKey(e, keys[0]);
      if s.value {
        SimulateMatchesRun(s.ed, keys[1..]);
      } else {
        assert |keys| == 1;
        assert keys[1..] == [];
      }
    }
  }

  /** Inserting `c` and then `w` after it is inserting `[c] + w`. */
  lemma SpliceTwice(b: string, i: nat, c: char, w: string)
    requires i <= |b|
    ensures var b1 := b[..i] + [c] + b[i..];
      b1[..i + 1] + w + b1[i + 1..] == b[..i] + ([c] + w) + b[i..]
  {
    var b1 := b[..i] + [c] + b[i..];
    assert b1[..i + 1] == b[..i] + [c];
    assert b1[i + 1..] == b[i..];
  }

  /** Simulating a typable key first is simulating the rest from the
      editor with that character inserted; a letter adds no sound. */
  lemma SimulateTypable(e: Editor, c: char, rest: seq<int>)
    requires e.Valid() && Typable(c)
    ensures var s := Simulate(InsertChar(e, c), rest);
      && Simulate(e, [c as int] + rest).ed == s.ed
      && (IsAlpha(c) ==> Simulate(e, [c as int] + rest).out == s.out)
  {
    var keys := [c as int] + rest;
    assert keys[0] == c as int && keys[1..] == rest;
    TypableKey(e, c);
  }

  /** Typing a string of typable characters inserts it at the cursor and
      leaves the cursor after it; a string of letters makes no sound. */
  lemma {:induction false} TypeText(e: Editor, w: string)
    requires e.Valid() && TypableText(w)
    ensures Simulate(e, Codes(w)).ed
         == Editor(e.buffer[..e.cursor] + w + e.buffer[e.cursor..], e.cursor + |w|, e.hasFile)
    ensures (forall i :: 0 <= i < |w| ==> IsAlpha(w[i])) ==> Simulate(e, Codes(w)).out == []
    decreases |w|
  {
    if w == [] {
      assert e.buffer[..e.cursor] + [] + e.buffer[e.cursor..] == e.buffer;
    } else {
      assert Codes(w) == [w[0] as int] + Codes(w[1..]);
      SimulateTypable(e, w[0], Codes(w[1..]));
      var e1 := InsertChar(e, w[0]);
      TypeText(e1, w[1..]);
      SpliceTwice(e.buffer, e.cursor, w[0], w[1..]);
      assert [w[0]] + w[1..] == w;
    }
  }

  /** `n` copies of the key code `k`. */
  function Repeat(k: int, n: nat): (r: seq<int>)
    ensures |r| == n && forall i :: 0 <= i < n ==> r[i] == k
  {
    seq(n, i => k)
  }

  /** Pressing KEY_LEFT `n` times, with at least `n` characters before the
      cursor, moves the cursor back by `n` and leaves the buffer alone. */
  lemma {:induction false} LeftSteps(e: Editor, n: nat)
    requires e.Valid() && n <= e.cursor
    ensures Simulate(e, Repeat(KeyLeft, n)).ed == e.(cursor := e.cursor - n)
    decreases n
  {
    if n > 0 {
      var keys := Repeat(KeyLeft, n);
      assert keys[0] == KeyLeft && keys[1..] == Repeat(KeyLeft, n - 1);
      Dispatch(e, KeyLeft);
      LeftSteps(e.(cursor := e.cursor - 1), n - 1);
    }
  }
}
