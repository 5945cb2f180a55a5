/** The auditory side of the editor (audio_app.py). Speech and tones are not
    rendered: each call becomes an event in an output trace. */
module AudioApp {
  import opened Wrappers
  import opened Ascii

  /** One auditory effect, in the order the editor issues them.
      `Tone` is the boundary interval `play_interval(1, 0.1)`; `Saved` is
      the write of the whole buffer to the output file. */
  datatype Event = Speak(phrase: string) | Tone | Saved(text: string)

  /** The characters the pronunciation table of `speak_char` names. */
  const TableKeys := "y. ,;-:/\\?!@#$%*^~"

  /** The pronunciation table of `speak_char`, looked up by lower-case key:
      each entry is a word of two or more letters. */
  function Phrase(c: char): (r: Option<string>)
    ensures r.Some? ==> |r.value| >= 2
  {
    match c
    case 'y' => Some("why")
    case '.' => Some("dot")
    case ' ' => Some("space")
    case ',' => Some("comma")
    case ';' => Some("semicolon")
    case '-' => Some("dash")
    case ':' => Some("colon")
    case '/' => Some("slash")
    case '\\' => Some("backslash")
    case '?' => Some("question mark")
    case '!' => Some("bang")
    case '@' => Some("at")
    case '#' => Some("pound")
    case '$' => Some("dollar")
    case '%' => Some("percent")
    case '*' => Some("star")
    case '^' => Some("caret")
    case '~' => Some("squiggle")
    case _ => None
  }

  /** The table names exactly its eighteen keys. */
  lemma PhraseKeys(c: char)
    ensures Phrase(c).Some? <==> c in TableKeys
  {
  }

  /** The filler word for a character the narrator has no name for. */
  const Filler := "splork"

  /** The phrase `speak_char` hands to the narrator for `c`: the table entry
      of the lower-cased character, else the letter itself, else the filler. */
  function Speakable(c: char): (r: string)
    ensures |r| > 0
    ensures Phrase(Lower(c)).Some? ==> r == Phrase(Lower(c)).value
    ensures Phrase(Lower(c)).None? && IsAlpha(c) ==> r == [c]
    ensures Phrase(Lower(c)).None? && !IsAlpha(c) ==> r == Filler
  {
    match Phrase(Lower(c))
    case Some(p) => p
    case None => if IsAlpha(c) then [c] else Filler
  }

  /** `speak_char(c)`: exactly one utterance, of the speakable form. */
  function SpeakChar(c: char): (r: seq<Event>)
    ensures |r| == 1 && r[0].Speak? && r[0].phrase == Speakable(c)
  {
    [Speak(Speakable(c))]
  }

  /** Every entry of the table, as the narrator hears it, in three parts. */
  lemma SpeakableTable()
    ensures Speakable('.') == "dot" && Speakable(' ') == "space"
    ensures Speakable(',') == "comma" && Speakable('?') == "question mark"
    ensures Speakable('~') == "squiggle" && Speakable('\\') == "backslash"
  {
  }

  lemma SpeakableTablePunctuation()
    ensures Speakable(';') == "semicolon" && Speakable('-') == "dash"
    ensures Speakable(':') == "colon" && Speakable('/') == "slash"
    ensures Speakable('!') == "bang" && Speakable('@') == "at"
  {
  }

  lemma SpeakableTableSymbols()
    ensures Speakable('#') == "pound" && Speakable('$') == "dollar"
    ensures Speakable('%') == "percent" && Speakable('*') == "star"
    ensures Speakable('^') == "caret"
  {
  }

  /** The lookup is case-insensitive, and the table wins over the
      letter passthrough: both cases of 'y' are pronounced "why". */
  lemma SpeakableWhy()
    ensures Speakable('y') == "why" && Speakable('Y') == "why"
  {
  }

  /** A character is spoken as itself exactly when it is a letter other
      than 'y' or 'Y'. */
  lemma SpeakableSelfIff(c: char)
    ensures Speakable(c) == [c] <==> IsAlpha(c) && Lower(c) != 'y'
  {
    if IsAlpha(c) && Lower(c) != 'y' {
      assert Phrase(Lower(c)).None?;
    }
  }

  /** A character is spoken as the filler word exactly when it is neither
      a letter nor in the table: digits, '&', '(' and the like. */
  lemma SpeakableFillerIff(c: char)
    ensures Speakable(c) == Filler <==> !IsAlpha(c) && Phrase(Lower(c)).None?
  {
    if Phrase(Lower(c)).Some? {
      assert Speakable(c) != Filler;
    }
  }

  /** Digits and brackets have no name in the table. */
  lemma SpeakableUnknown()
    ensures Speakable('0') == Filler && Speakable('7') == Filler
    ensures Speakable('&') == Filler && Speakable('(') == Filler
  {
  }

  /** A letter outside the table keeps its own case. */
  lemma SpeakableLetters()
    ensures Speakable('a') == "a" && Speakable('A') == "A" && Speakable('Q') == "Q"
  {
  }
}
