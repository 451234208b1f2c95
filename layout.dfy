/** The text-layout helpers of the compiler: `indentedLine` (lines 164-170),
    the `fragmentType` suffixes (lines 172-176), JavaScript's `Array.join`, and
    the subsequence relation that `Array.filter` keeps. */
module Layout {

  /** The three fragment variants: the standard one, `NoNesting` and `DeepNesting`. */
  datatype Variant = Default | NoRelations | Deep

  /** The value of `fragmentType` for the variant: appended to fragment and binding names. */
  function Suffix(v: Variant): (r: string)
    ensures r == "" <==> v == Default
  {
    match v
    case Default => ""
    case NoRelations => "NoNesting"
    case Deep => "DeepNesting"
  }

  /** A newline followed by `level` copies of two spaces. */
  function Indent(level: nat): (r: string)
    ensures |r| == 1 + 2 * level
    ensures r[0] == '\n'
    ensures forall i :: 1 <= i < |r| ==> r[i] == ' '
  {
    if level == 0 then "\n" else Indent(level - 1) + "  "
  }

  /** `indentedLine(level)`: the loop appends two spaces per level to "\n". */
  method IndentedLine(level: nat) returns (line: string)
    ensures line == Indent(level)
  {
    line := "\n";
    var i := 0;
    while i < level
      invariant 0 <= i <= level
      invariant line == Indent(i)
    {
      line := line + "  ";
      i := i + 1;
    }
  }

  /** `parts.join(sep)`. */
  function Join(parts: seq<string>, sep: string): string
  {
    if |parts| == 0 then ""
    else if |parts| == 1 then parts[0]
    else parts[0] + sep + Join(parts[1..], sep)
  }

  /** Joining two non-empty lists puts exactly one separator between them. */
  lemma {:induction false} JoinAppend(xs: seq<string>, ys: seq<string>, sep: string)
    requires |xs| > 0 && |ys| > 0
    ensures Join(xs + ys, sep) == Join(xs, sep) + sep + Join(ys, sep)
  {
    if |xs| == 1 {
      assert (xs + ys)[1..] == ys;
    } else {
      assert (xs + ys)[1..] == xs[1..] + ys;
      JoinAppend(xs[1..], ys, sep);
    }
  }

  /** `parts.join("")`. */
  function Concat(parts: seq<string>): string
  {
    if |parts| == 0 then "" else parts[0] + Concat(parts[1..])
  }

  /** Every part stands, whole and in order, inside the concatenation. */
  lemma {:induction false} ConcatAt(parts: seq<string>, i: nat)
    requires i < |parts|
    ensures Concat(parts) == Concat(parts[..i]) + parts[i] + Concat(parts[i + 1..])
  {
    if i > 0 {
      ConcatAt(parts[1..], i - 1);
      assert parts[1..][..i - 1] == parts[1..i];
      assert parts[1..][i..] == parts[i + 1..];
      assert parts[..i] == [parts[0]] + parts[1..i];
      assert Concat(parts[..i]) == parts[0] + Concat(parts[..i][1..]);
      assert parts[..i][1..] == parts[1..i];
    }
  }

  /** `t` occurs in `s` starting at position `k`. */
  predicate OccursAt(s: string, t: string, k: int)
  {
    0 <= k <= |s| - |t| && s[k..k + |t|] == t
  }

  /** `t` occurs in `s` somewhere. */
  ghost predicate Contains(s: string, t: string)
  {
    exists k :: OccursAt(s, t, k)
  }

  predicate IsPrefix(p: string, s: string)
  {
    |p| <= |s| && s[..|p|] == p
  }

  /** `s.endsWith(suffix)`. */
  predicate EndsWith(s: string, suffix: string)
  {
    |suffix| <= |s| && s[|s| - |suffix|..] == suffix
  }

  lemma PrefixOfConcat(a: string, b: string)
    ensures IsPrefix(a, a + b)
  {
  }

  /** A text of six pieces begins with the first and ends with the last three. */
  lemma SixPieces(a: string, b: string, c: string, d: string, e: string, f: string)
    ensures IsPrefix(a, a + b + c + d + e + f)
    ensures EndsWith(a + b + c + d + e + f, d + e + f)
  {
    assert a + b + c + d + e + f == a + (b + c + d + e + f);
    assert a + b + c + d + e + f == (a + b + c) + (d + e + f);
    SuffixOfConcat(a + b + c, d + e + f);
  }

  lemma SuffixOfConcat(a: string, b: string)
    ensures EndsWith(a + b, b)
  {
    assert (a + b)[|a|..] == b;
  }

  /** Every part of a concatenation occurs in it. */
  lemma ConcatContains(parts: seq<string>, i: nat)
    requires i < |parts|
    ensures Contains(Concat(parts), parts[i])
  {
    ConcatAt(parts, i);
    var pre := Concat(parts[..i]);
    assert OccursAt(Concat(parts), parts[i], |pre|);
  }

  /** A string occurs in any text that has it in the middle. */
  lemma ContainsInMiddle(a: string, b: string, c: string, t: string)
    requires Contains(b, t)
    ensures Contains(a + b + c, t)
  {
    var k :| OccursAt(b, t, k);
    assert (a + b + c)[|a| + k..|a| + k + |t|] == b[k..k + |t|];
    assert OccursAt(a + b + c, t, |a| + k);
  }

  /** `xs` is `ys` with some elements left out and the rest kept in order. */
  predicate IsSubsequence(xs: seq<string>, ys: seq<string>)
    decreases |ys|
  {
    |xs| == 0 ||
    (|ys| > 0 && ((xs[0] == ys[0] && IsSubsequence(xs[1..], ys[1..])) || IsSubsequence(xs, ys[1..])))
  }

  lemma {:induction false} SubsequenceTrans(xs: seq<string>, ys: seq<string>, zs: seq<string>)
    requires IsSubsequence(xs, ys) && IsSubsequence(ys, zs)
    ensures IsSubsequence(xs, zs)
    decreases |zs|
  {
    if |xs| > 0 {
      if ys[0] == zs[0] && IsSubsequence(ys[1..], zs[1..]) {
        if xs[0] == ys[0] && IsSubsequence(xs[1..], ys[1..]) {
          SubsequenceTrans(xs[1..], ys[1..], zs[1..]);
        } else {
          SubsequenceTrans(xs, ys[1..], zs[1..]);
        }
      } else {
        SubsequenceTrans(xs, ys, zs[1..]);
      }
    }
  }

  /** Putting an element in front keeps a subsequence a subsequence. */
  lemma SubsequenceCons(xs: seq<string>, y: string, ys: seq<string>)
    requires IsSubsequence(xs, ys)
    ensures IsSubsequence(xs, [y] + ys)
  {
    assert ([y] + ys)[1..] == ys;
  }

  /** A non-empty join begins with its first part. */
  lemma JoinStartsWithFirst(parts: seq<string>, sep: string)
    requires |parts| > 0
    ensures IsPrefix(parts[0], Join(parts, sep))
  {
  }

  /** Every part after the first follows a separator inside the join. */
  lemma JoinContainsPart(parts: seq<string>, sep: string, i: nat)
    requires 0 < i < |parts|
    ensures Contains(Join(parts, sep), sep + parts[i])
  {
    var pre, post := parts[..i], parts[i..];
    assert parts == pre + post;
    JoinAppend(pre, post, sep);
    JoinStartsWithFirst(post, sep);
    var k := |Join(pre, sep)|;
    var j := Join(post, sep);
    assert Join(parts, sep) == Join(pre, sep) + (sep + j);
    assert (sep + j)[..|sep + parts[i]|] == sep + parts[i];
    assert OccursAt(Join(parts, sep), sep + parts[i], k);
  }

  /** Text laid out as `head + sep + join + tail` shows every part right after a separator. */
  lemma LaidOutAfterSeparator(head: string, parts: seq<string>, sep: string, tail: string, i: nat)
    requires i < |parts|
    ensures Contains(head + sep + Join(parts, sep) + tail, sep + parts[i])
  {
    if i == 0 {
      JoinStartsWithFirst(parts, sep);
      var text := head + sep + Join(parts, sep) + tail;
      assert text[|head|..|head| + |sep + parts[0]|] == sep + parts[0];
      assert OccursAt(text, sep + parts[0], |head|);
    } else {
      JoinContainsPart(parts, sep, i);
      ContainsInMiddle(head + sep, Join(parts, sep), tail, sep + parts[i]);
      assert head + sep + Join(parts, sep) + tail == (head + sep) + Join(parts, sep) + tail;
    }
  }

  lemma ContainsBefore(a: string, b: string, t: string)
    requires Contains(a, t)
    ensures Contains(a + b, t)
  {
    var k :| OccursAt(a, t, k);
    assert (a + b)[k..k + |t|] == a[k..k + |t|];
    assert OccursAt(a + b, t, k);
  }

  lemma ContainsAfter(a: string, b: string, t: string)
    requires Contains(b, t)
    ensures Contains(a + b, t)
  {
    var k :| OccursAt(b, t, k);
    assert (a + b)[|a| + k..|a| + k + |t|] == b[k..k + |t|];
    assert OccursAt(a + b, t, |a| + k);
  }
}
