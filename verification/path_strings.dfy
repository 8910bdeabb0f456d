/** Splitting a string at a separator character, joining segments with a
    separator string, and replacing one character by another. */
module PathStrings {

  /** The segments of s between occurrences of sep; an empty segment stands
      wherever two separators touch or one sits at either end. */
  function Split(s: string, sep: char): (parts: seq<string>)
    ensures |parts| >= 1
    ensures forall i :: 0 <= i < |parts| ==> sep !in parts[i]
    ensures sep !in s ==> parts == [s]
    decreases |s|
  {
    if |s| == 0 then [""]
    else
      var rest := Split(s[1..], sep);
      if s[0] == sep then [""] + rest
      else
        var first := [s[0]] + rest[0];
        var parts := [first] + rest[1..];
        assert forall i :: 1 <= i < |parts| ==> parts[i] == rest[i];
        assert sep !in s ==> sep !in s[1..] && first == s;
        parts
  }

  /** The segments with sep between each neighbouring pair. */
  function Join(parts: seq<string>, sep: string): (s: string)
    requires |parts| >= 1
    decreases |parts|
  {
    if |parts| == 1 then parts[0] else parts[0] + sep + Join(parts[1..], sep)
  }

  /** s with every occurrence of from replaced by to. */
  function Replace(s: string, from: char, to: char): (r: string)
    ensures |r| == |s|
    ensures forall i :: 0 <= i < |s| ==> r[i] == if s[i] == from then to else s[i]
    decreases |s|
  {
    if |s| == 0 then ""
    else [if s[0] == from then to else s[0]] + Replace(s[1..], from, to)
  }

  /** Joining the segments again with another separator replaces each
      separator in the original string. */
  lemma {:induction false} JoinSplitIsReplace(s: string, sep: char, to: char)
    ensures Join(Split(s, sep), [to]) == Replace(s, sep, to)
    decreases |s|
  {
    if |s| > 0 {
      var rest := Split(s[1..], sep);
      JoinSplitIsReplace(s[1..], sep, to);
      assert Replace(s, sep, to) == [if s[0] == sep then to else s[0]] + Replace(s[1..], sep, to);
      if s[0] == sep {
        assert ([""] + rest)[1..] == rest;
      } else {
        var parts := [[s[0]] + rest[0]] + rest[1..];
        assert parts[1..] == rest[1..];
        if |rest| > 1 {
          assert rest == [rest[0]] + rest[1..];
        }
      }
    }
  }

  /** Splitting and joining with the same separator gives back the string. */
  lemma SplitJoinRoundTrip(s: string, sep: char)
    ensures Join(Split(s, sep), [sep]) == s
  {
    JoinSplitIsReplace(s, sep, sep);
  }

  /** Joining segments free of sep and splitting again gives back the segments. */
  lemma {:induction false} JoinSplitRoundTrip(parts: seq<string>, sep: char)
    requires |parts| >= 1
    requires forall i :: 0 <= i < |parts| ==> sep !in parts[i]
    ensures Split(Join(parts, [sep]), sep) == parts
    decreases |parts|
  {
    if |parts| > 1 {
      JoinSplitRoundTrip(parts[1..], sep);
      SplitAppend(parts[0], sep, Join(parts[1..], [sep]));
      assert Join(parts, [sep]) == parts[0] + [sep] + Join(parts[1..], [sep]);
    }
  }

  /** Splitting a + sep + b splits a and b separately. */
  lemma {:induction false} SplitAppend(a: string, sep: char, b: string)
    ensures Split(a + [sep] + b, sep) == Split(a, sep) + Split(b, sep)
    decreases |a|
  {
    var s := a + [sep] + b;
    if |a| == 0 {
      assert s[1..] == b;
    } else {
      assert s[1..] == a[1..] + [sep] + b;
      SplitAppend(a[1..], sep, b);
    }
  }

  /** Joining n + 1 segments is joining the first n, then sep, then the last. */
  lemma {:induction false} JoinSnoc(parts: seq<string>, sep: string)
    requires |parts| >= 2
    ensures Join(parts, sep) == Join(parts[..|parts| - 1], sep) + sep + parts[|parts| - 1]
    decreases |parts|
  {
    if |parts| > 2 {
      JoinSnoc(parts[1..], sep);
      assert parts[1..][..|parts| - 2] == parts[..|parts| - 1][1..];
    }
  }
}
