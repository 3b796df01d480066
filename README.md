# Word length frequency, modelled in Dafny

This project models the word-length pipeline of `word_length.py`, the WordProcessor script.
The script reads a word list and keeps the distinct whitespace-delimited words. It maps each word
to its length through the `WordClassifier` wrapper, whose hash is the word's length. It then counts
how many distinct words have each length. Finally it reports the longest length, the shortest
length and the most common length. It also has a prompt loop that refuses a typed path made only
of digits.

The modules follow the stages of the script:

- `Text` (`text.dfy`): Python's whitespace, `str.split()` and `str.strip()` on `seq<char>`.
- `Loader` (`loader.dfy`): `set(text.split())`, the body of `load_words`.
- `Classifier` (`classifier.dfy`): `WordClassifier` with `__hash__` and `__eq__`, and the
  word-to-length dictionary built from it.
- `Frequency` (`frequency.dfy`): the loop that fills the `frequency` dictionary. It is a method
  over a local `map`, proved equal to a reference tally.
- `Summary` (`summary.dfy`): `max(frequency)`, `min(frequency)` and the key of largest count.
  An empty table gives an error, as `max()` raises `ValueError`.
- `InputFilter` (`input_filter.dfy`): the `while True` prompt loop with its `isdigit` test.
- `WordLength` (`word_length.dfy`): the stages composed, as `main` runs them, with the worked
  examples.
- `Wrappers` (`wrappers.dfy`): `Option` and `Result`.

Inputs the script reads at run time are parameters: the file's text is a `string` and the typed
lines are a `seq<string>`. The printed values are returned as a `Report`. The dictionary's iteration
order is hash-dependent. The frequency loop therefore picks each pending key with `:|`, and its
result is proved independent of that order. The summary functions are ghost functions that choose
keys in an unspecified order. Their contracts fix only what Python guarantees.

Three behaviours of the script are worth stating plainly, and the model follows the code in each:

- The path test is `file.strip().isdigit()` (word_length.py:72). So digits with whitespace around
  them are refused, and an empty or all-blank line is accepted, because `"".isdigit()` is false.
- The module docstring (word_length.py:7) speaks of one word per line. The code (word_length.py:30)
  splits on any run of whitespace, so several words on one line are all loaded.
- On an empty or all-whitespace file, `max(frequency)` (word_length.py:83) raises `ValueError`. The
  model returns `Failure(EmptyTable)` in that case.

## Model

| member | source | states |
|---|---|---|
| `Text.IsSpace` | word_length.py:30 | space, tab, newline and carriage return are whitespace to `split()` and `strip()`, and no digit is |
| `Text.TokenLength` | word_length.py:30 | the first token of a text ends at its first whitespace character, or at the end |
| `Text.Split` | word_length.py:30 | text that starts with a non-space character yields, first, the token running up to its first whitespace |
| `Text.SplitWords` | word_length.py:30 | `split()` yields no empty token and no token that holds whitespace |
| `Text.SplitTokens` | word_length.py:30 | `split()` yields exactly the maximal non-whitespace runs of the text, each bounded by whitespace or an end |
| `Text.SplitEmpty` | word_length.py:30 | a text splits into nothing exactly when every character is whitespace |
| `Text.SplitAppend` | word_length.py:30 | text followed by text that starts with whitespace splits into the two token lists concatenated |
| `Text.SplitLines` | word_length.py:30 | a file with one word per line splits back into those words, in order |
| `Text.LeadingEnd` | word_length.py:72 | the whitespace `strip()` cuts from the front runs up to the first non-space character, or to the end |
| `Text.TrailingStart` | word_length.py:72 | the whitespace `strip()` cuts from the back starts just after the last non-space character, or at the start |
| `Text.Strip` | word_length.py:72 | `strip()` keeps a slice of the text with only whitespace cut on both sides, and the slice neither starts nor ends with whitespace |
| `Text.StripBetween` | word_length.py:72 | text bounded by non-space characters, with only whitespace outside them, is exactly what `strip()` keeps |
| `Loader.LoadWords` | word_length.py:30 | the loaded set holds a word exactly when it is a whitespace-delimited token of the text, and every word is non-empty and free of whitespace |
| `Loader.LoadNothing` | word_length.py:30 | the loaded set is empty exactly when the text is all whitespace |
| `Loader.LoadUnion` | word_length.py:30 | two texts joined at whitespace load to the union of their words |
| `Loader.LoadAfterSpace` | word_length.py:30 | leading whitespace adds no word |
| `Loader.LoadRepeated` | word_length.py:30 | repeating the whole file loads the same words, so loading is idempotent under duplication |
| `Loader.LoadDuplicateLine` | word_length.py:30 | writing a line twice in a row loads the same words as writing it once |
| `Loader.LoadLines` | word_length.py:30 | a file with one word per line loads exactly the set of those words |
| `Classifier.WordClassifier.Hash` | word_length.py:47-49 | the hash is the word's length, and any classifier comparing equal has a word of that length |
| `Classifier.WordClassifier.Eq` | word_length.py:51-58 | `__eq__` is `NotImplemented` exactly against a non-classifier, and `True` exactly when both wrap the same word |
| `Classifier.EqualClassifiersHashAlike` | word_length.py:47-58 | classifiers that compare equal have equal hashes, and the hash is the word's length |
| `Classifier.HashCollides` | word_length.py:47-58 | any two distinct words of one length hash alike but compare `False` |
| `Classifier.LengthIndex` | word_length.py:77 | the word-to-length dictionary has exactly the loaded words as keys, maps each to its own length, and its values are the lengths present |
| `Frequency.Count` | word_length.py:81 | `frequency.get(value, 0)`: the stored count of a present key, and 0 for an absent one |
| `Frequency.Bump` | word_length.py:81 | one loop step raises the count of the current value by exactly one and leaves every other count as it was |
| `Frequency.Tally` | word_length.py:79-81 | the intended table has exactly the dictionary's values as keys and every count at least 1 |
| `Frequency.TallyStep` | word_length.py:80-81 | tallying a dictionary equals tallying it without one key, then one step for that key's value |
| `Frequency.TotalBump` | word_length.py:81 | each loop step adds one to the sum of the counts |
| `Frequency.TallyTotal` | word_length.py:79-81 | the counts of the tally add up to the number of keys tallied |
| `Frequency.BuildFrequency` | word_length.py:79-81 | the loop, in any iteration order, builds exactly the tally, and its counts sum to the dictionary's size |
| `Summary.LargestKey` | word_length.py:83 | `max(frequency)` is a key no other key exceeds |
| `Summary.SmallestKey` | word_length.py:84 | `min(frequency)` is a key that exceeds no other key |
| `Summary.MostCommon` | word_length.py:85 | the most common length is a key whose count no other key's count exceeds |
| `Summary.Summarize` | word_length.py:83-85 | the summary fails exactly on an empty table; otherwise the three values are keys, shortest ≤ every key ≤ longest, the most common has maximal count, and shortest ≤ most common ≤ longest |
| `Summary.ThreeBucketsExample` | word_length.py:83-85 | the table {1:1, 2:2, 3:1} reports longest 3, shortest 1 and most common 2 |
| `Summary.OneBucketExample` | word_length.py:83-85 | the table {1:1} reports 1 three times |
| `InputFilter.IsDigits` | word_length.py:72 | a string `isdigit` accepts is non-empty and holds no whitespace |
| `InputFilter.Accepts` | word_length.py:72-75 | the empty line leaves the loop |
| `InputFilter.BlankAccepted` | word_length.py:72-75 | a line of whitespace only leaves the loop, since it strips to the empty string |
| `InputFilter.OtherCharacterAccepted` | word_length.py:72-75 | a line holding any character that is neither whitespace nor a digit leaves the loop |
| `InputFilter.RefusedIsPaddedNumber` | word_length.py:72-73 | a refused line is a run of digits with only whitespace around it |
| `InputFilter.PaddedNumberIsRefused` | word_length.py:72-73 | a run of digits with only whitespace around it is refused |
| `InputFilter.RefusedExactly` | word_length.py:72-75 | a typed line is refused exactly when it is a non-empty run of digits with only whitespace around it |
| `InputFilter.ReadPath` | word_length.py:70-75 | the loop returns the first accepted line unchanged, after refusing every line before it, or nothing when every line is refused |
| `WordLength.FrequencyTable` | word_length.py:77-81 | the table has one key per word length present, and each count is the number of distinct words of that length |
| `WordLength.FrequencyOfWords` | word_length.py:77-81 | the table's keys are exactly the word lengths present, each count is the number of distinct words of that length and at least 1, and the counts sum to the number of distinct words |
| `WordLength.CountLengths` | word_length.py:77-81 | loading, indexing and the loop yield the distinct words and a table whose keys, counts and sum are as in `FrequencyOfWords` |
| `WordLength.SummaryOfBuckets` | word_length.py:83-85 | for a non-empty word set, longest and shortest are lengths of real words bounding every word's length, and the most common length has a largest bucket |
| `WordLength.SummaryOfWords` | word_length.py:77-85 | the same holds for the table the script builds from the words |
| `WordLength.BlankTextFails` | word_length.py:30-85 | the summary of the file's table fails exactly when the file is whitespace only |
| `WordLength.MainReport` | word_length.py:30-85 | the script stops with the empty-table error exactly when the file is whitespace only |
| `WordLength.FourWordsTable` | word_length.py:77-81 | the words a, bb, cc and ddd tabulate as {1:1, 2:2, 3:1} |
| `WordLength.FourWordsSummary` | word_length.py:77-85 | those words report longest 3, shortest 1 and most common 2 |
| `WordLength.SingleWordLoads` | word_length.py:30 | the file "x" plus a newline loads the single word x |
| `WordLength.SingleWordTable` | word_length.py:77-81 | the single word x tabulates as {1:1} |
| `WordLength.SingleWordExample` | word_length.py:30-85 | that file reports 1 as longest, shortest and most common |
| `WordLength.EmptyFileExample` | word_length.py:30-85 | an empty file stops with the empty-table error |

## Left out

- Plotting (word_length.py:87-99): pandas, seaborn and matplotlib calls with a purely graphical effect, including the `set_ylim` cap.
- `open`/`read`, `input()` and `print` (word_length.py:29, 67, 71, 83-85): the file's text and the typed lines are parameters, and the printed values are returned.
- Decoding the file's bytes to text, including newline translation, is not modelled; the model starts from the decoded text.
- The `FileNotFoundError` recovery (word_length.py:32-34) is not modelled. On that path `load_words` prints a message and re-runs `main()` recursively. When that nested run finishes, `load_words` returns `None`, and line 77 of the outer `main` then raises `TypeError` by iterating over `None`.
- `Summary.MostCommon`: which of several equally common lengths is reported is left unspecified. Python returns the first in the dictionary's iteration order, and that order depends on string hashing.
- `InputFilter.IsDigit`: only the ASCII digits `0`-`9` count as digits. Python's `isdigit` also accepts other Unicode digits, such as superscripts and other scripts' decimal digits.
- `InputFilter.ReadPath`: when the typed lines run out, the model returns `None`. Python's `input()` raises `EOFError` there.
- Python's fallback when `__eq__` returns `NotImplemented` (the reflected comparison, then identity) is not modelled.
- `WordClassifier.__init__` is the datatype constructor, and `__hash__` is `WordClassifier.Hash`. The script calls `__hash__` directly and never uses the classifier as a dictionary key, so hashing collisions play no part.
- The summary functions are ghost functions, because they pick keys in an unspecified order. They state what is reported but cannot be executed.
