/** Rust's `str::split(sep)` on a single character, as the command parsers
    and the CLI use it with `'|'`. */
module Text {

  /** The parts of `s` between occurrences of `sep`, left to right. Like
      Rust's `split`, there is always at least one part: the empty string
      splits into `[""]`, and a separator at either end yields an empty part. */
  function Split(s: string, sep: char): (parts: seq<string>)
    ensures |parts| >= 1
    ensures |parts| == Occurrences(s, sep) + 1
  {
    if |s| == 0 then [""]
    else
      var rest := Split(s[1..], sep);
      if s[0] == sep then [""] + rest
      else [[s[0]] + rest[0]] + rest[1..]
  }

  /** The number of times `c` occurs in `s`. */
  function Occurrences(s: string, c: char): nat
  {
    if |s| == 0 then 0
    else (if s[0] == c then 1 else 0) + Occurrences(s[1..], c)
  }

  /** The inverse of `Split`: the parts glued back with `sep` between them. */
  function Join(parts: seq<string>, sep: char): string
  {
    if |parts| == 0 then ""
    else if |parts| == 1 then parts[0]
    else parts[0] + [sep] + Join(parts[1..], sep)
  }

  /** The last element of a non-empty sequence (Rust's `Iterator::last`). */
  function Last<T>(xs: seq<T>): T
    requires |xs| > 0
  {
    xs[|xs| - 1]
  }

  lemma {:induction false} OccurrencesZero(s: string, c: char)
    ensures Occurrences(s, c) == 0 <==> c !in s
  {
    if |s| > 0 {
      OccurrencesZero(s[1..], c);
      assert s == [s[0]] + s[1..];
    }
  }

  /** A string splits into exactly one part iff it does not contain the
      separator; that one part is then the whole string. */
  lemma SplitSingleIff(s: string, sep: char)
    ensures |Split(s, sep)| == 1 <==> sep !in s
    ensures sep !in s ==> Split(s, sep) == [s]
  {
    OccurrencesZero(s, sep);
    if sep !in s {
      SplitWithoutSeparator(s, sep);
    }
  }

  lemma {:induction false} SplitWithoutSeparator(s: string, sep: char)
    requires sep !in s
    ensures Split(s, sep) == [s]
  {
    if |s| > 0 {
      assert s[0] != sep;
      assert sep !in s[1..];
      SplitWithoutSeparator(s[1..], sep);
      assert [s[0]] + s[1..] == s;
    }
  }

  /** No part of a split contains the separator. */
  lemma {:induction false} SplitPartsHaveNoSeparator(s: string, sep: char)
    ensures forall i :: 0 <= i < |Split(s, sep)| ==> sep !in Split(s, sep)[i]
  {
    if |s| > 0 {
      SplitPartsHaveNoSeparator(s[1..], sep);
      var rest := Split(s[1..], sep);
      if s[0] != sep {
        var parts := Split(s, sep);
        assert parts[0] == [s[0]] + rest[0];
        forall i | 0 <= i < |parts| ensures sep !in parts[i] {
          if i > 0 { assert parts[i] == rest[i]; }
        }
      }
    }
  }

  /** Joining the parts of a split with the same separator gives back the
      string that was split. */
  lemma {:induction false} JoinSplit(s: string, sep: char)
    ensures Join(Split(s, sep), sep) == s
  {
    if |s| > 0 {
      JoinSplit(s[1..], sep);
      var rest := Split(s[1..], sep);
      if s[0] == sep {
        assert Split(s, sep)[1..] == rest;
        assert Join(Split(s, sep), sep) == "" + [sep] + Join(rest, sep);
        assert s == [s[0]] + s[1..];
      } else {
        var parts := Split(s, sep);
        assert parts[1..] == rest[1..];
        if |rest| == 1 {
          assert parts == [[s[0]] + rest[0]];
          assert Join(rest, sep) == rest[0];
        } else {
          assert Join(rest, sep) == rest[0] + [sep] + Join(rest[1..], sep);
          assert Join(parts, sep) == [s[0]] + rest[0] + [sep] + Join(rest[1..], sep);
        }
        assert s == [s[0]] + s[1..];
      }
    }
  }

  /** How the last part of a split relates to the split of the tail. */
  lemma LastPartStep(s: string, sep: char)
    requires |s| > 0
    ensures var rest := Split(s[1..], sep);
            Last(Split(s, sep)) ==
              if s[0] == sep || |rest| > 1 then Last(rest) else [s[0]] + rest[0]
  {
  }

  /** The last part of a split is the longest suffix of `s` that has no
      separator: it is a suffix, it holds no `sep`, and it is either all of
      `s` or preceded by a `sep`. */
  lemma {:induction false} LastPartIsFinalSegment(s: string, sep: char)
    ensures FinalSegment(s, sep, Last(Split(s, sep)))
  {
    if |s| > 0 {
      LastPartIsFinalSegment(s[1..], sep);
      LastPartStep(s, sep);
      var rest := Split(s[1..], sep);
      SplitSingleIff(s[1..], sep);
      if s[0] == sep || |rest| > 1 {
        FinalSegmentExtends(s, sep, Last(rest));
      } else {
        assert rest == [s[1..]];
        assert s == [s[0]] + s[1..];
      }
    }
  }

  /** `t` is a suffix of `s` without `sep`, and either all of `s` or
      preceded by `sep`. */
  predicate FinalSegment(s: string, sep: char, t: string)
  {
    |t| <= |s| && s[|s| - |t|..] == t && sep !in t &&
    (|t| == |s| || s[|s| - |t| - 1] == sep)
  }

  /** A final segment of the tail, short of the whole tail unless the first
      character is `sep`, is a final segment of the whole string. */
  lemma FinalSegmentExtends(s: string, sep: char, t: string)
    requires |s| > 0 && FinalSegment(s[1..], sep, t)
    requires s[0] == sep || |t| < |s| - 1
    ensures FinalSegment(s, sep, t)
  {
    var tail := s[1..];
    assert tail[|tail| - |t|..] == s[|s| - |t|..];
    if |t| < |tail| {
      assert tail[|tail| - |t| - 1] == s[|s| - |t| - 1];
    }
  }
}
