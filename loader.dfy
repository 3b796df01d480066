/** `load_words`: the set of distinct whitespace-delimited words of the file's text. */
module Loader {
  import opened Text

  /**
   * `set(text.split())`: each whitespace-delimited token of the text, once,
   * however often it occurs.
   */
  function LoadWords(text: string): (words: set<string>)
    ensures forall w :: w in words <==> exists i, j :: TokenAt(text, i, j) && text[i..j] == w
    ensures forall w :: w in words ==> IsWord(w)
  {
    SplitTokens(text);
    SplitWords(text);
    set w | w in Split(text)
  }

  /** The file yields no word exactly when its text is all whitespace. */
  lemma LoadNothing(text: string)
    ensures LoadWords(text) == {} <==> forall k :: 0 <= k < |text| ==> IsSpace(text[k])
  {
    SplitEmpty(text);
    if Split(text) != [] {
      assert Split(text)[0] in LoadWords(text);
    }
  }

  /** Two pieces of text separated by whitespace load to the union of their words. */
  lemma LoadUnion(a: string, b: string)
    requires b == [] || IsSpace(b[0])
    ensures LoadWords(a + b) == LoadWords(a) + LoadWords(b)
  {
    SplitAppend(a, b);
  }

  /** Leading whitespace contributes no word. */
  lemma LoadAfterSpace(c: char, text: string)
    requires IsSpace(c)
    ensures LoadWords([c] + text) == LoadWords(text)
  {
    assert ([c] + text)[1..] == text;
  }

  /** Repeating the whole file adds no word: loading is idempotent under duplication. */
  lemma LoadRepeated(text: string)
    ensures LoadWords(text + "\n" + text) == LoadWords(text)
  {
    LoadUnion(text, "\n" + text);
    assert text + "\n" + text == text + ("\n" + text);
    LoadAfterSpace('\n', text);
  }

  /** Writing a line twice in a row loads the same words as writing it once. */
  lemma LoadDuplicateLine(before: string, line: string, after: string)
    ensures LoadWords(before + "\n" + line + "\n" + line + "\n" + after)
         == LoadWords(before + "\n" + line + "\n" + after)
  {
    var tail := "\n" + after;
    var once := ['\n'] + (line + tail);
    var twice := ['\n'] + (line + once);
    assert before + "\n" + line + "\n" + line + "\n" + after == before + twice;
    assert before + "\n" + line + "\n" + after == before + once;
    LoadUnion(line, tail);
    LoadAfterSpace('\n', line + tail);
    LoadUnion(line, once);
    LoadAfterSpace('\n', line + once);
    LoadUnion(before, once);
    LoadUnion(before, twice);
  }

  /** A file with one word per line loads to exactly those words. */
  lemma LoadLines(words: seq<string>)
    requires forall w :: w in words ==> IsWord(w)
    ensures LoadWords(Lines(words)) == set w | w in words
  {
    SplitLines(words);
  }
}
