/**
 * The JavaScript string operations the handlers rely on: `includes`,
 * `split` on a one-character separator, and `join`.
 */
module Text {

  /** `prefix` is an initial segment of `s` (`s.startsWith(prefix)`). */
  predicate StartsWith(s: string, prefix: string) {
    |prefix| <= |s| && s[..|prefix|] == prefix
  }

  /** `s.includes(sub)`: `sub` starts at the first position of `s`, or somewhere later. */
  predicate Includes(s: string, sub: string)
    decreases |s|
  {
    StartsWith(s, sub) || (|s| > 0 && Includes(s[1..], sub))
  }

  /** `Includes` agrees with the positional reading: some offset of `s` starts an occurrence of `sub`. */
  lemma {:induction false} IncludesIffOccurrence(s: string, sub: string)
    ensures Includes(s, sub) <==> exists i :: 0 <= i <= |s| && StartsWith(s[i..], sub)
    decreases |s|
  {
    if |s| == 0 {
      if Includes(s, sub) {
        assert StartsWith(s[0..], sub);
      } else {
        forall i | 0 <= i <= |s| ensures !StartsWith(s[i..], sub) {
          assert s[i..] == s;
        }
      }
    } else {
      IncludesIffOccurrence(s[1..], sub);
      if Includes(s, sub) {
        if StartsWith(s, sub) {
          assert s[0..] == s;
        } else {
          var i :| 0 <= i <= |s[1..]| && StartsWith(s[1..][i..], sub);
          assert s[1..][i..] == s[i + 1..];
        }
      } else {
        forall i | 0 <= i <= |s| ensures !StartsWith(s[i..], sub) {
          if i == 0 {
            assert s[0..] == s;
          } else {
            assert s[1..][i - 1..] == s[i..];
          }
        }
      }
    }
  }

  /** Whatever surrounds an occurrence, the occurrence is found. */
  lemma {:induction false} IncludesInfix(before: string, sub: string, after: string)
    ensures Includes(before + sub + after, sub)
    decreases |before|
  {
    var s := before + sub + after;
    if |before| == 0 {
      assert s == sub + after;
      assert s[..|sub|] == sub;
    } else {
      assert s[1..] == before[1..] + sub + after;
      IncludesInfix(before[1..], sub, after);
    }
  }

  /** A string shorter than `sub` cannot contain it. */
  lemma {:induction false} ShorterExcludes(s: string, sub: string)
    requires |s| < |sub|
    ensures !Includes(s, sub)
    decreases |s|
  {
    if |s| > 0 {
      ShorterExcludes(s[1..], sub);
    }
  }

  /** `s.split(sep)` for a one-character separator: always at least one piece, none holding `sep`. */
  function Split(s: string, sep: char): (parts: seq<string>)
    ensures |parts| >= 1
    ensures forall i :: 0 <= i < |parts| ==> sep !in parts[i]
    decreases |s|
  {
    if |s| == 0 then [""]
    else
      var rest := Split(s[1..], sep);
      if s[0] == sep then [""] + rest
      else [[s[0]] + rest[0]] + rest[1..]
  }

  /** `parts.join(sep)`; joining no parts gives the empty string. */
  function Join(parts: seq<string>, sep: string): string
  {
    if |parts| == 0 then ""
    else if |parts| == 1 then parts[0]
    else parts[0] + sep + Join(parts[1..], sep)
  }

  lemma JoinExtendFirst(x: string, parts: seq<string>, sep: string)
    requires |parts| >= 1
    ensures Join([x + parts[0]] + parts[1..], sep) == x + Join(parts, sep)
  {
    var p := [x + parts[0]] + parts[1..];
    assert p[1..] == parts[1..];
  }

  /** Splitting and joining with the same separator gives the string back. */
  lemma {:induction false} JoinSplit(s: string, sep: char)
    ensures Join(Split(s, sep), [sep]) == s
    decreases |s|
  {
    if |s| > 0 {
      var rest := Split(s[1..], sep);
      JoinSplit(s[1..], sep);
      assert s == [s[0]] + s[1..];
      if s[0] == sep {
        var p := [""] + rest;
        assert p[1..] == rest;
      } else {
        JoinExtendFirst([s[0]], rest, [sep]);
      }
    }
  }

  /** Joining at least two parts puts the separator right before the last part. */
  lemma {:induction false} JoinSnoc(parts: seq<string>, sep: string)
    requires |parts| >= 2
    ensures Join(parts, sep) == Join(parts[..|parts| - 1], sep) + sep + parts[|parts| - 1]
    decreases |parts|
  {
    var n := |parts|;
    if n == 2 {
      assert parts[..1] == [parts[0]];
      assert parts[1..] == [parts[1]];
    } else {
      JoinSnoc(parts[1..], sep);
      assert parts[1..][..n - 2] == parts[1..n - 1];
      var init := parts[..n - 1];
      assert init[1..] == parts[1..n - 1];
    }
  }

  /** Without the separator there is nothing to split. */
  lemma {:induction false} SplitWithoutSeparator(s: string, sep: char)
    requires sep !in s
    ensures Split(s, sep) == [s]
    decreases |s|
  {
    if |s| > 0 {
      SplitWithoutSeparator(s[1..], sep);
      assert s == [s[0]] + s[1..];
    }
  }

  /** A separator after a separator-free head closes the first piece; the rest is split on its own. */
  lemma {:induction false} SplitAround(a: string, b: string, sep: char)
    requires sep !in a
    ensures Split(a + [sep] + b, sep) == [a] + Split(b, sep)
    decreases |a|
  {
    var s := a + [sep] + b;
    if |a| == 0 {
      assert s[1..] == b;
    } else {
      SplitAround(a[1..], b, sep);
      assert s[1..] == a[1..] + [sep] + b;
      assert [a[0]] + a[1..] == a;
    }
  }

  /** Each separator adds a piece, so one separator already gives two. */
  lemma {:induction false} SplitWithSeparator(s: string, sep: char)
    requires sep in s
    ensures |Split(s, sep)| >= 2
    decreases |s|
  {
    if s[0] != sep {
      assert sep in s[1..];
      SplitWithSeparator(s[1..], sep);
    }
  }
}
