/**
 * The string operations the detector uses: `str.strip(" ")`, `str.rstrip("%")`,
 * `str.split(sep)` with a one-character separator, `str.startswith`,
 * `str.endswith` and `str.lower` (ASCII part only).
 */
module Text {

  datatype Option<T> = None | Some(value: T)

  /** `s.lstrip(c)`: drops every leading `c`. */
  function LStripChar(s: string, c: char): (r: string)
    ensures |r| <= |s| && r == s[|s| - |r|..]
    ensures forall k | 0 <= k < |s| - |r| :: s[k] == c
    ensures r == [] || r[0] != c
  {
    if s != [] && s[0] == c then LStripChar(s[1..], c) else s
  }

  /** `s.rstrip(c)`: drops every trailing `c`. */
  function RStripChar(s: string, c: char): (r: string)
    ensures |r| <= |s| && r == s[..|r|]
    ensures forall k | |r| <= k < |s| :: s[k] == c
    ensures r == [] || r[|r| - 1] != c
  {
    if s != [] && s[|s| - 1] == c then RStripChar(s[..|s| - 1], c) else s
  }

  /** `s.strip(" ")`: drops ASCII spaces (only) from both ends. */
  function StripSpaces(s: string): (r: string)
  {
    RStripChar(LStripChar(s, ' '), ' ')
  }

  function Spaces(n: nat): (r: string)
    ensures |r| == n && forall k | 0 <= k < n :: r[k] == ' '
  {
    if n == 0 then [] else Spaces(n - 1) + [' ']
  }

  /** Stripping leaves the text between the two runs of spaces it removes,
      and that text neither starts nor ends with a space. */
  lemma StripSpacesShape(s: string)
    ensures var r := StripSpaces(s);
      && (r == [] || (r[0] != ' ' && r[|r| - 1] != ' '))
      && exists i, j :: s == Spaces(i) + r + Spaces(j)
  {
    var l := LStripChar(s, ' ');
    var r := StripSpaces(s);
    var i, j := |s| - |l|, |l| - |r|;
    assert s == Spaces(i) + r + Spaces(j);
  }

  /** Padding a space-free-at-both-ends text and stripping it gives the text back. */
  lemma {:induction false} StripSpacesOfPadded(i: nat, r: string, j: nat)
    requires r == [] || (r[0] != ' ' && r[|r| - 1] != ' ')
    ensures StripSpaces(Spaces(i) + r + Spaces(j)) == r
  {
    if r == [] {
      assert Spaces(i) + r + Spaces(j) == Spaces(i + j) + [] by {
        SpacesAdd(i, j);
      }
      LStripOfSpaces(i + j, []);
    } else {
      assert Spaces(i) + r + Spaces(j) == Spaces(i) + (r + Spaces(j));
      LStripOfSpaces(i, r + Spaces(j));
      RStripOfSpaces(r, j);
    }
  }

  lemma {:induction false} SpacesAdd(i: nat, j: nat)
    ensures Spaces(i) + Spaces(j) == Spaces(i + j)
  {
    if j > 0 {
      SpacesAdd(i, j - 1);
      assert Spaces(i) + Spaces(j) == Spaces(i) + Spaces(j - 1) + [' '];
    }
  }

  lemma {:induction false} LStripOfSpaces(i: nat, r: string)
    requires r == [] || r[0] != ' '
    ensures LStripChar(Spaces(i) + r, ' ') == r
  {
    var s := Spaces(i) + r;
    if i == 0 {
      assert s == r;
    } else {
      SpacesCons(i);
      assert s[0] == ' ' && s[1..] == Spaces(i - 1) + r;
      LStripOfSpaces(i - 1, r);
    }
  }

  /** A text is the spaces `lstrip(" ")` drops, followed by what it keeps. */
  lemma LStripSplit(s: string)
    ensures s == Spaces(|s| - |LStripChar(s, ' ')|) + LStripChar(s, ' ')
  {
    var i := |s| - |LStripChar(s, ' ')|;
    assert s[..i] == Spaces(i);
    assert s == s[..i] + s[i..];
  }

  /** Appending to a text padded on the left keeps it padded on the left. */
  lemma PaddedAppend(x: string, i: nat, m: string, p: string)
    requires x == Spaces(i) + m
    ensures x + p == Spaces(i) + (m + p) + Spaces(0)
  {
  }

  /** `lstrip` keeps the last character of a text it does not empty. */
  lemma LStripLast(s: string, c: char)
    requires LStripChar(s, c) != []
    ensures LStripChar(s, c)[|LStripChar(s, c)| - 1] == s[|s| - 1]
  {
  }

  /** Stripping after `lstrip(" ")` is the same as stripping. */
  lemma StripAfterLStrip(s: string)
    ensures StripSpaces(LStripChar(s, ' ')) == StripSpaces(s)
  {
    var m := LStripChar(s, ' ');
    LStripOfSpaces(0, m);
    assert Spaces(0) + m == m;
  }

  lemma {:induction false} SpacesCons(i: nat)
    requires i > 0
    ensures Spaces(i) == [' '] + Spaces(i - 1)
  {
  }

  lemma {:induction false} RStripOfSpaces(r: string, j: nat)
    requires r == [] || r[|r| - 1] != ' '
    ensures RStripChar(r + Spaces(j), ' ') == r
  {
    if j > 0 {
      assert (r + Spaces(j))[..|r| + j - 1] == r + Spaces(j - 1);
      RStripOfSpaces(r, j - 1);
    } else {
      assert r + Spaces(j) == r;
    }
  }

  predicate StartsWith(s: string, prefix: string)
  {
    |prefix| <= |s| && s[..|prefix|] == prefix
  }

  predicate EndsWith(s: string, c: char)
  {
    s != [] && s[|s| - 1] == c
  }

  /** Position of the first `c` in `s`. */
  function IndexOf(s: string, c: char): (i: nat)
    requires c in s
    ensures i < |s| && s[i] == c && c !in s[..i]
  {
    if s[0] == c then 0 else 1 + IndexOf(s[1..], c)
  }

  /** `sep.join(parts)` for a one-character separator. */
  function Join(parts: seq<string>, sep: char): string
    requires |parts| > 0
  {
    if |parts| == 1 then parts[0] else parts[0] + [sep] + Join(parts[1..], sep)
  }

  /** `s.split(sep)` for a one-character separator: the pieces between the
      occurrences of `sep`, including empty pieces. */
  function Split(s: string, sep: char): (parts: seq<string>)
    ensures |parts| > 0 && (sep in s <==> |parts| >= 2)
    ensures forall k | 0 <= k < |parts| :: sep !in parts[k]
    ensures Join(parts, sep) == s
    decreases |s|
  {
    if sep !in s then [s]
    else
      var i := IndexOf(s, sep);
      var rest := Split(s[i + 1..], sep);
      assert s == s[..i] + [sep] + s[i + 1..];
      [s[..i]] + rest
  }

  /** Splitting undoes joining pieces that do not contain the separator. */
  lemma {:induction false} SplitJoin(parts: seq<string>, sep: char)
    requires |parts| > 0
    requires forall k | 0 <= k < |parts| :: sep !in parts[k]
    ensures Split(Join(parts, sep), sep) == parts
  {
    if |parts| > 1 {
      var s := Join(parts, sep);
      var p0 := parts[0];
      assert s == p0 + [sep] + Join(parts[1..], sep);
      assert s[|p0|] == sep;
      assert sep !in s[..|p0|] by { assert s[..|p0|] == p0; }
      IndexOfIs(s, sep, |p0|);
      assert s[|p0| + 1..] == Join(parts[1..], sep);
      SplitJoin(parts[1..], sep);
    }
  }

  /** The first piece of a split ends at the first separator. */
  lemma SplitAtFirst(a: string, sep: char, b: string)
    requires sep !in a
    ensures Split(a + [sep] + b, sep) == [a] + Split(b, sep)
  {
    var s := a + [sep] + b;
    assert s[..|a|] == a;
    IndexOfIs(s, sep, |a|);
    assert s[|a| + 1..] == b;
  }

  /** The first piece of `b + rest` is `b` when `b` holds no separator and
      `rest` is empty or starts with one. */
  lemma SplitHead(b: string, sep: char, rest: string)
    requires sep !in b && (rest == [] || rest[0] == sep)
    ensures Split(b + rest, sep)[0] == b
  {
    if rest == [] {
      assert b + rest == b;
    } else {
      assert b + rest == b + [sep] + rest[1..];
      SplitAtFirst(b, sep, rest[1..]);
    }
  }

  lemma IndexOfIs(s: string, c: char, i: nat)
    requires i < |s| && s[i] == c && c !in s[..i]
    ensures IndexOf(s, c) == i
  {
  }

  /** Python's `str.lower` on the ASCII range; other characters are kept. */
  function LowerChar(c: char): char
  {
    if 'A' <= c <= 'Z' then (c as int - 'A' as int + 'a' as int) as char else c
  }

  /** `str.lower` on ASCII letters; it keeps the length of the text. */
  function LowerAscii(s: string): (r: string)
    ensures |r| == |s|
  {
    seq(|s|, k requires 0 <= k < |s| => LowerChar(s[k]))
  }
}
