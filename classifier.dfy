/** `WordClassifier`, the wrapper whose hash is the length of its word, and the word-to-length index built from it. */
module Classifier {

  /** A value the right-hand side of `==` may hold: a classifier or any other object. */
  datatype Operand = Classified(classifier: WordClassifier) | Other

  /** What `__eq__` returns. */
  datatype Comparison = True | False | NotImplemented

  /** A word wrapped for hashing by length; its only state is the word set by `__init__`. */
  datatype WordClassifier = WordClassifier(word: string)
  {
    /** `__hash__`: the number of characters of the word. */
    function Hash(): (h: nat)
      ensures h == |word|
      ensures forall other: WordClassifier :: Eq(Classified(other)) == True ==> |other.word| == h
    {
      |word|
    }

    /** `__eq__`: equal to another classifier of the same word, `NotImplemented` against anything else. */
    function Eq(other: Operand): (r: Comparison)
      ensures r == NotImplemented <==> !other.Classified?
      ensures r == True <==> other.Classified? && other.classifier.word == word
    {
      if !other.Classified? then NotImplemented
      else if word == other.classifier.word then True
      else False
    }
  }

  /** Classifiers that compare equal hash alike, as Python requires of hashable objects. */
  lemma EqualClassifiersHashAlike(a: WordClassifier, b: WordClassifier)
    requires a.Eq(Classified(b)) == True
    ensures a.Hash() == b.Hash() == |a.word|
  {
  }

  /** The hash does not identify the word: distinct words of one length collide but are not equal. */
  lemma HashCollides(a: string, b: string)
    requires a != b && |a| == |b|
    ensures WordClassifier(a).Hash() == WordClassifier(b).Hash()
    ensures WordClassifier(a).Eq(Classified(WordClassifier(b))) == False
  {
  }

  /** The lengths of the given words. */
  function Lengths(words: set<string>): set<nat>
  {
    set w | w in words :: |w|
  }

  /** `dict([(word, WordClassifier(word).__hash__()) for word in words])`. */
  function LengthIndex(words: set<string>): (index: map<string, nat>)
    ensures index.Keys == words
    ensures forall w :: w in index ==> index[w] == |w|
    ensures index.Values == Lengths(words)
  {
    var index := map w | w in words :: WordClassifier(w).Hash();
    assert forall n :: n in Lengths(words) ==> exists w :: w in words && |w| == n && index[w] == n;
    index
  }
}
