/** The prompt loop of `main` that refuses a typed path made of digits only. */
module InputFilter {
  import opened Text
  import opened Wrappers

  /** `str.isdigit` for one character, over the ASCII digits. */
  predicate IsDigit(c: char)
  {
    '0' <= c <= '9'
  }

  /** `s.isdigit()`: at least one character, and every character a digit. */
  predicate IsDigits(s: string)
    ensures IsDigits(s) ==> |s| > 0 && forall k :: 0 <= k < |s| ==> !IsSpace(s[k])
  {
    |s| > 0 && forall k :: 0 <= k < |s| ==> IsDigit(s[k])
  }

  /**
   * The loop breaks on `typed` unless `typed.strip().isdigit()`, so an empty
   * line is accepted.
   */
  predicate Accepts(typed: string)
    ensures typed == [] ==> Accepts(typed)
  {
    !IsDigits(Strip(typed))
  }

  /** A line of whitespace only strips to nothing, which `isdigit` refuses, so it is accepted. */
  lemma BlankAccepted(typed: string)
    requires forall k :: 0 <= k < |typed| ==> IsSpace(typed[k])
    ensures Accepts(typed)
  {
  }

  /** A character that is neither whitespace nor a digit survives `strip` and spoils `isdigit`. */
  lemma OtherCharacterAccepted(typed: string, k: int)
    requires 0 <= k < |typed| && !IsSpace(typed[k]) && !IsDigit(typed[k])
    ensures Accepts(typed)
  {
    var r := Strip(typed);
    var i, j :| && 0 <= i <= j <= |typed| && r == typed[i..j]
                && (forall k :: 0 <= k < i ==> IsSpace(typed[k]))
                && (forall k :: j <= k < |typed| ==> IsSpace(typed[k]));
    assert i <= k < j;
    assert r[k - i] == typed[k];
  }

  /** `s` is a number with only whitespace around it: digits at `[i, j)`, whitespace elsewhere. */
  ghost predicate PaddedNumber(s: string, i: int, j: int)
  {
    && 0 <= i < j <= |s|
    && (forall k :: 0 <= k < i ==> IsSpace(s[k]))
    && (forall k :: i <= k < j ==> IsDigit(s[k]))
    && (forall k :: j <= k < |s| ==> IsSpace(s[k]))
  }

  /** A refused string is a number padded with whitespace. */
  lemma RefusedIsPaddedNumber(typed: string)
    requires !Accepts(typed)
    ensures exists i, j :: PaddedNumber(typed, i, j)
  {
    var r := Strip(typed);
    assert IsDigits(r);
    var i, j :| && 0 <= i <= j <= |typed| && r == typed[i..j]
                && (forall k :: 0 <= k < i ==> IsSpace(typed[k]))
                && (forall k :: j <= k < |typed| ==> IsSpace(typed[k]));
    forall k | i <= k < j ensures IsDigit(typed[k]) {
      assert typed[k] == r[k - i];
    }
    assert PaddedNumber(typed, i, j);
  }

  /** A number padded with whitespace is refused. */
  lemma PaddedNumberIsRefused(typed: string, i: int, j: int)
    requires PaddedNumber(typed, i, j)
    ensures !Accepts(typed)
  {
    StripBetween(typed, i, j);
    assert forall k :: 0 <= k < j - i ==> typed[i..j][k] == typed[i + k];
  }

  /**
   * A typed string is refused exactly when it is a non-empty run of digits with
   * nothing but whitespace around it; the empty string and anything holding
   * another character are accepted.
   */
  lemma RefusedExactly(typed: string)
    ensures !Accepts(typed) <==> exists i, j :: PaddedNumber(typed, i, j)
  {
    if !Accepts(typed) {
      RefusedIsPaddedNumber(typed);
    }
    if exists i, j :: PaddedNumber(typed, i, j) {
      var i, j :| PaddedNumber(typed, i, j);
      PaddedNumberIsRefused(typed, i, j);
    }
  }

  /**
   * The `while True` loop over the lines the operator types, in order: the
   * first accepted line and the number of prompts it took, or `None` when the
   * lines run out first (where `input()` raises `EOFError`).
   */
  method ReadPath(typed: seq<string>) returns (path: Option<string>, prompts: nat)
    ensures path.Some? ==> 1 <= prompts <= |typed| && path.value == typed[prompts - 1] && Accepts(path.value)
    ensures path.None? ==> prompts == |typed|
    ensures forall k {:trigger Accepts(typed[k])} :: 0 <= k < prompts - 1 ==> !Accepts(typed[k])
    ensures path.None? ==> forall k {:trigger Accepts(typed[k])} :: 0 <= k < |typed| ==> !Accepts(typed[k])
  {
    prompts := 0;
    while true
      invariant prompts <= |typed|
      invariant forall k {:trigger Accepts(typed[k])} :: 0 <= k < prompts ==> !Accepts(typed[k])
      decreases |typed| - prompts
    {
      if prompts == |typed| {
        return None, prompts;
      }
      var file := typed[prompts];
      prompts := prompts + 1;
      if !Accepts(file) {
        continue;
      } else {
        path := Some(file);
        break;
      }
    }
  }
}
