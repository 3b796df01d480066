/**
 * The pipeline of `main`: load the words, index them by length, tabulate the
 * lengths and summarise the table.
 */
module WordLength {
  import opened Wrappers
  import opened Text
  import opened Loader
  import opened Classifier
  import opened Frequency
  import opened Summary

  /** The words of length `n`: one length bucket. */
  function OfLength(words: set<string>, n: nat): set<string>
  {
    set w | w in words && |w| == n
  }

  /**
   * The table `main` builds from the loaded words: one key per word length
   * present, counting the distinct words of that length.
   */
  function FrequencyTable(words: set<string>): (table: map<nat, nat>)
    ensures table.Keys == Lengths(words)
    ensures forall n :: n in table ==> table[n] == |OfLength(words, n)|
  {
    LengthBuckets(words);
    Tally(LengthIndex(words))
  }

  /** Tallying the word-to-length index counts the length buckets. */
  lemma LengthBuckets(words: set<string>)
    ensures forall n :: Holders(LengthIndex(words), n) == OfLength(words, n)
  {
  }

  /**
   * The table has one key per word length present, each counting the distinct
   * words of that length, and its counts add up to the number of words.
   */
  lemma FrequencyOfWords(words: set<string>)
    ensures FrequencyTable(words).Keys == Lengths(words)
    ensures forall n :: n in FrequencyTable(words) ==> FrequencyTable(words)[n] == |OfLength(words, n)| >= 1
    ensures forall n :: n !in FrequencyTable(words) ==> OfLength(words, n) == {}
    ensures Total(FrequencyTable(words)) == |words|
  {
    var index := LengthIndex(words);
    LengthBuckets(words);
    TallyTotal(index);
    assert |index| == |index.Keys|;
  }

  /**
   * Lines 77-81 of `main` on the file's text: the distinct words and the table
   * of how many of them have each length.
   */
  method CountLengths(text: string) returns (words: set<string>, frequency: map<nat, nat>)
    ensures words == LoadWords(text)
    ensures frequency.Keys == Lengths(words)
    ensures forall n :: n in frequency ==> frequency[n] == |OfLength(words, n)| >= 1
    ensures Total(frequency) == |words|
  {
    words := LoadWords(text);
    var result := LengthIndex(words);
    frequency := BuildFrequency(result);
    FrequencyOfWords(words);
  }

  /**
   * What `main` prints about the file's text, or the error it stops with,
   * which it does exactly when the text is whitespace only.
   */
  ghost function MainReport(text: string): (r: Result<Report, SummaryError>)
    ensures r.Failure? <==> forall k :: 0 <= k < |text| ==> IsSpace(text[k])
  {
    BlankTextFails(text);
    Summarize(FrequencyTable(LoadWords(text)))
  }

  /**
   * The summary of a table that counts the length buckets of a non-empty set
   * of words gives the longest and the shortest word length and a length whose
   * bucket is at least as large as every other.
   */
  lemma SummaryOfBuckets(words: set<string>, table: map<nat, nat>)
    requires words != {}
    requires table.Keys == Lengths(words)
    requires forall n :: n in table ==> table[n] == |OfLength(words, n)|
    requires forall n :: n !in table ==> OfLength(words, n) == {}
    ensures Summarize(table).Success?
    ensures
      var r := Summarize(table).value;
      && (exists w :: w in words && |w| == r.longest)
      && (exists w :: w in words && |w| == r.shortest)
      && (forall w :: w in words ==> r.shortest <= |w| <= r.longest)
      && OfLength(words, r.mostCommon) != {}
      && (forall n :: |OfLength(words, n)| <= |OfLength(words, r.mostCommon)|)
  {
    var w :| w in words;
    assert |w| in Lengths(words);
    var r := Summarize(table).value;
    assert forall v :: v in words ==> |v| in Lengths(words);
    assert r.mostCommon in table;
    assert |OfLength(words, r.mostCommon)| >= 1 by {
      var v :| v in words && |v| == r.mostCommon;
      assert v in OfLength(words, r.mostCommon);
    }
    forall n ensures |OfLength(words, n)| <= |OfLength(words, r.mostCommon)| {
      if n in table {
        assert table[n] <= table[r.mostCommon];
      }
    }
  }

  /** `SummaryOfBuckets` for the table `main` builds. */
  lemma SummaryOfWords(words: set<string>)
    requires words != {}
    ensures Summarize(FrequencyTable(words)).Success?
    ensures
      var r := Summarize(FrequencyTable(words)).value;
      && (exists w :: w in words && |w| == r.longest)
      && (exists w :: w in words && |w| == r.shortest)
      && (forall w :: w in words ==> r.shortest <= |w| <= r.longest)
      && OfLength(words, r.mostCommon) != {}
      && (forall n :: |OfLength(words, n)| <= |OfLength(words, r.mostCommon)|)
  {
    FrequencyOfWords(words);
    SummaryOfBuckets(words, FrequencyTable(words));
  }

  /** The summary of the file's table fails exactly when the file is whitespace only. */
  lemma BlankTextFails(text: string)
    ensures Summarize(FrequencyTable(LoadWords(text))).Failure? <==> forall k :: 0 <= k < |text| ==> IsSpace(text[k])
  {
    var words := LoadWords(text);
    LoadNothing(text);
    FrequencyOfWords(words);
    if words != {} {
      SummaryOfWords(words);
    } else {
      assert Lengths(words) == {};
    }
  }

  /** The four-word example has one word of length 1, two of length 2 and one of length 3. */
  lemma FourWordsBuckets()
    ensures Lengths({"a", "bb", "cc", "ddd"}) == {1, 2, 3}
    ensures |OfLength({"a", "bb", "cc", "ddd"}, 1)| == 1
    ensures |OfLength({"a", "bb", "cc", "ddd"}, 2)| == 2
    ensures |OfLength({"a", "bb", "cc", "ddd"}, 3)| == 1
  {
    var words: set<string> := {"a", "bb", "cc", "ddd"};
    assert OfLength(words, 1) == {"a"};
    assert OfLength(words, 2) == {"bb", "cc"};
    assert OfLength(words, 3) == {"ddd"};
  }

  /** A map with one key per word length present, counting each bucket, is the table. */
  lemma TableFromBuckets(words: set<string>, expected: map<nat, nat>)
    requires expected.Keys == Lengths(words)
    requires forall n :: n in expected ==> expected[n] == |OfLength(words, n)|
    ensures FrequencyTable(words) == expected
  {
  }

  /** The four-word example: lengths 1, 2, 2 and 3 tabulate as one, two and one. */
  lemma FourWordsTable()
    ensures FrequencyTable({"a", "bb", "cc", "ddd"}) == map[1 := 1, 2 := 2, 3 := 1]
  {
    FourWordsBuckets();
    TableFromBuckets({"a", "bb", "cc", "ddd"}, map[1 := 1, 2 := 2, 3 := 1]);
  }

  /** The four-word example reports 3 as longest, 1 as shortest and 2 as most common. */
  lemma FourWordsSummary()
    ensures Summarize(FrequencyTable({"a", "bb", "cc", "ddd"})) == Success(Report(3, 1, 2))
  {
    FourWordsTable();
    ThreeBucketsExample();
  }

  /** A file holding one one-letter word loads that word alone. */
  lemma SingleWordLoads()
    ensures LoadWords("x\n") == {"x"}
  {
    assert "x\n" == Lines(["x"]) + "\n";
    LoadUnion("x", "\n");
    LoadLines(["x"]);
    LoadNothing("\n");
  }

  /** One one-letter word tabulates as one word of length 1. */
  lemma SingleWordTable()
    ensures FrequencyTable({"x"}) == map[1 := 1]
  {
    var words: set<string> := {"x"};
    assert Lengths(words) == {1};
    assert OfLength(words, 1) == words;
    TableFromBuckets(words, map[1 := 1]);
  }

  /** A file holding one one-letter word reports length 1 three times. */
  lemma SingleWordExample()
    ensures MainReport("x\n") == Success(Report(1, 1, 1))
  {
    SingleWordLoads();
    SingleWordTable();
    OneBucketExample();
  }

  /** An empty file stops the script with the error `max()` raises. */
  lemma EmptyFileExample()
    ensures MainReport("") == Failure(EmptyTable)
  {
    BlankTextFails("");
  }
}
