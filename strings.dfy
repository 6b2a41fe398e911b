/** The string operations the message handler applies to MQTT topics:
    Python's substring test `sub in s` and `s.split(sep)[-1]`. */
module Strings {

  /** `sub` occurs in `s` starting at index `i`. */
  predicate OccursAt(s: string, sub: string, i: int)
  {
    0 <= i && i + |sub| <= |s| && s[i..i + |sub|] == sub
  }

  /** Python's `sub in s` for two strings: some window of `s` equals `sub`.
      The empty string is in every string, and no string holds a longer
      one. */
  predicate Contains(s: string, sub: string)
    ensures sub == [] ==> Contains(s, sub)
    ensures Contains(s, sub) ==> |sub| <= |s|
  {
    assert sub == [] ==> OccursAt(s, sub, 0);
    exists i | 0 <= i <= |s| - |sub| :: OccursAt(s, sub, i)
  }

  /** A string cannot contain a pattern one of whose characters it lacks. */
  lemma MissingCharNotContained(s: string, sub: string, c: char)
    requires c in sub && c !in s
    ensures !Contains(s, sub)
  {
  }

  /** Inverse of Split: the parts glued back together with `sep`. */
  function Join(parts: seq<string>, sep: char): string
    requires |parts| > 0
  {
    if |parts| == 1 then parts[0] else parts[0] + [sep] + Join(parts[1..], sep)
  }

  /** Python's `s.split(sep)` for a one-character separator: never empty,
      no part contains `sep`, and joining the parts gives `s` back. */
  function Split(s: string, sep: char): (r: seq<string>)
    ensures |r| > 0
    ensures forall i :: 0 <= i < |r| ==> sep !in r[i]
    ensures Join(r, sep) == s
    decreases |s|
  {
    if s == [] then [[]]
    else
      var rest := Split(s[1..], sep);
      if s[0] == sep then
        assert ([[]] + rest)[1..] == rest;
        [[]] + rest
      else
        var r := [[s[0]] + rest[0]] + rest[1..];
        assert r[1..] == rest[1..];
        assert |rest| > 1 ==> Join(rest, sep) == rest[0] + [sep] + Join(rest[1..], sep);
        assert Join(r, sep) == [s[0]] + Join(rest, sep);
        r
  }

  /** A string without the separator splits into itself alone. */
  lemma {:induction false} SplitWithoutSep(s: string, sep: char)
    requires sep !in s
    ensures Split(s, sep) == [s]
    decreases |s|
  {
    if s != [] {
      SplitWithoutSep(s[1..], sep);
    }
  }

  /** The last segment is a slash-free suffix of `s` that is either all of
      `s` or preceded by a slash. */
  ghost predicate IsLastSegment(s: string, r: string)
  {
    '/' !in r && |r| <= |s| && r == s[|s| - |r|..] && (|r| == |s| || s[|s| - |r| - 1] == '/')
  }

  /** Joining peels off from the right as well: everything before the
      last part, the separator, then the last part. */
  lemma {:induction false} JoinLast(parts: seq<string>, sep: char)
    requires |parts| > 1
    ensures Join(parts, sep) == Join(parts[..|parts| - 1], sep) + [sep] + parts[|parts| - 1]
    decreases |parts|
  {
    var init := parts[..|parts| - 1];
    if |parts| == 2 {
      assert Join(init, sep) == parts[0];
    } else {
      JoinLast(parts[1..], sep);
      assert parts[1..][..|parts| - 2] == init[1..];
      assert Join(init, sep) == parts[0] + [sep] + Join(init[1..], sep);
    }
  }

  /** The last part of `s.split('/')` is the text after the last slash. */
  lemma SplitLastIsTail(s: string)
    ensures var parts := Split(s, '/'); IsLastSegment(s, parts[|parts| - 1])
  {
    var parts := Split(s, '/');
    var r := parts[|parts| - 1];
    if |parts| == 1 {
      assert r == s && s[|s| - |r|..] == s;
    } else {
      JoinLast(parts, '/');
      var front := Join(parts[..|parts| - 1], '/') + ['/'];
      assert s == front + r;
      assert s[|s| - |r|..] == r && s[|s| - |r| - 1] == '/';
    }
  }

  /** `topic.split('/')[-1]`: a part of the split, so it holds no slash. */
  function LastSegment(s: string): (r: string)
    ensures '/' !in r
  {
    var parts := Split(s, '/');
    parts[|parts| - 1]
  }

  /** For `prefix + "/" + f` with a slash-free `f`, the last segment is `f`:
      this is how a topic such as `control/led_d7` names its field. */
  lemma LastSegmentAfterSlash(prefix: string, f: string)
    requires '/' !in f
    ensures LastSegment(prefix + "/" + f) == f
  {
    var s := prefix + "/" + f;
    var r := LastSegment(s);
    SplitLastIsTail(s);
    assert s[|prefix|] == '/';
    assert r == s[|s| - |f|..] == f;
  }

  /** A topic without any slash is its own last segment. */
  lemma LastSegmentWithoutSlash(s: string)
    requires '/' !in s
    ensures LastSegment(s) == s
  {
    SplitWithoutSep(s, '/');
  }
}
