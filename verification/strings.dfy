/** Text primitives with the semantics of the JavaScript string methods the
    reader uses: `split`, `join`, `includes`, `startsWith`, `toLowerCase` and
    number-to-decimal conversion. */
module Strings {
  import opened Results

  const CRLF: string := "\r\n"

  /** `sub` occurs in `s` starting at index `j`. */
  predicate OccursAt(s: string, sub: string, j: int) {
    0 <= j && j + |sub| <= |s| && s[j..j + |sub|] == sub
  }

  /** `s.includes(sub)`. */
  predicate Contains(s: string, sub: string) {
    exists j | 0 <= j <= |s| :: OccursAt(s, sub, j)
  }

  /** `s.startsWith(prefix)`. */
  predicate StartsWith(s: string, prefix: string) {
    |prefix| <= |s| && s[..|prefix|] == prefix
  }

  /** First occurrence of `sub` at or after `i`. */
  function IndexOfFrom(s: string, sub: string, i: nat): (r: Option<nat>)
    requires |sub| > 0
    decreases |s| - i
    ensures r.Some? ==> i <= r.value && OccursAt(s, sub, r.value)
    ensures r.Some? ==> forall j :: i <= j < r.value ==> !OccursAt(s, sub, j)
    ensures r.None? ==> forall j :: i <= j ==> !OccursAt(s, sub, j)
  {
    if i + |sub| > |s| then None
    else if s[i..i + |sub|] == sub then Some(i)
    else IndexOfFrom(s, sub, i + 1)
  }

  /** `s.indexOf(sub)`, with `None` for -1. */
  function IndexOf(s: string, sub: string): (r: Option<nat>)
    requires |sub| > 0
    ensures r.None? <==> !Contains(s, sub)
    ensures r.Some? ==> OccursAt(s, sub, r.value)
    ensures r.Some? ==> forall j :: 0 <= j < r.value ==> !OccursAt(s, sub, j)
  {
    IndexOfFrom(s, sub, 0)
  }

  /** An occurrence with no earlier occurrence is the one `IndexOf` finds. */
  lemma FirstOccurrence(s: string, sub: string, k: nat)
    requires |sub| > 0
    requires OccursAt(s, sub, k)
    requires forall j :: 0 <= j < k ==> !OccursAt(s, sub, j)
    ensures IndexOf(s, sub) == Some(k)
  {
    assert Contains(s, sub);
  }

  /** `s.split(sep)` for a non-empty separator: cut at every occurrence,
      scanning left to right and resuming after each separator. */
  function Split(s: string, sep: string): (parts: seq<string>)
    requires |sep| > 0
    decreases |s|
    ensures |parts| >= 1
    ensures forall k :: 0 <= k < |parts| ==> !Contains(parts[k], sep)
  {
    match IndexOf(s, sep)
    case None => [s]
    case Some(i) =>
      assert !Contains(s[..i], sep) by {
        forall j | 0 <= j <= i && OccursAt(s[..i], sep, j)
          ensures OccursAt(s, sep, j)
        {
          assert s[..i][j..j + |sep|] == s[j..j + |sep|];
        }
      }
      [s[..i]] + Split(s[i + |sep|..], sep)
  }

  /** `parts.join(sep)`. */
  function Join(parts: seq<string>, sep: string): string
    decreases |parts|
  {
    if |parts| == 0 then ""
    else if |parts| == 1 then parts[0]
    else parts[0] + sep + Join(parts[1..], sep)
  }

  /** The first piece of a split is a prefix of the string. */
  lemma SplitFirstIsPrefix(s: string, sep: string)
    requires |sep| > 0
    ensures StartsWith(s, Split(s, sep)[0])
  {
  }

  /** Joining the pieces of a split with the same separator gives back the
      original string. */
  lemma {:induction false} JoinSplit(s: string, sep: string)
    requires |sep| > 0
    ensures Join(Split(s, sep), sep) == s
    decreases |s|
  {
    match IndexOf(s, sep)
    case None =>
    case Some(i) =>
      var rest := Split(s[i + |sep|..], sep);
      JoinSplit(s[i + |sep|..], sep);
      assert Split(s, sep) == [s[..i]] + rest;
      assert ([s[..i]] + rest)[1..] == rest;
      assert Join(Split(s, sep), sep) == s[..i] + sep + s[i + |sep|..];
      assert s == s[..i] + s[i..i + |sep|] + s[i + |sep|..];
  }

  /** Joining with one part replaced: the text before the part and the
      text after it are those of the original join. */
  lemma {:induction false} JoinAround(parts: seq<string>, i: nat, x: string, sep: string)
    requires i < |parts|
    ensures Join(parts[i := x], sep)
      == Join(parts[..i] + [""], sep) + x + Join([""] + parts[i + 1..], sep)
    decreases i
  {
    if i == 0 {
      var rest := parts[1..];
      assert parts[0 := x] == [x] + rest;
      assert parts[..0] + [""] == [""];
      if rest != [] {
        assert ([x] + rest)[1..] == rest;
        assert ([""] + rest)[1..] == rest;
      }
    } else {
      var tail := parts[1..];
      JoinAround(tail, i - 1, x, sep);
      assert parts[i := x][1..] == tail[i - 1 := x];
      assert (parts[..i] + [""])[1..] == tail[..i - 1] + [""];
      assert [""] + parts[i + 1..] == [""] + tail[i..];
      assert Join(parts[..i] + [""], sep) == parts[0] + sep + Join(tail[..i - 1] + [""], sep);
    }
  }

  /** No proper suffix of `sep` is also a prefix of it, so two occurrences
      can never overlap. "\r\n", "m=", ", " and " " are all borderless. */
  predicate Borderless(sep: string) {
    forall k :: 0 < k < |sep| ==> sep[k..] != sep[..|sep| - k]
  }

  /** An occurrence straddling the end of `p` and the start of the separator
      that follows it exhibits a border of the separator. */
  lemma StraddleIsBorder(p: string, sep: string, t: string, j: nat)
    requires OccursAt(p + sep + t, sep, j)
    requires j < |p| < j + |sep|
    ensures !Borderless(sep)
  {
    var s := p + sep + t;
    var k := |p| - j;
    assert s[|p|..j + |sep|] == s[j..j + |sep|][k..];
    assert s[|p|..j + |sep|] == s[|p|..|p| + |sep|][..|sep| - k];
    assert sep[k..] == sep[..|sep| - k];
  }

  /** An occurrence lying wholly inside a prefix is an occurrence in it. */
  lemma OccurrenceInPrefix(p: string, t: string, sub: string, j: nat)
    requires OccursAt(p + t, sub, j) && j + |sub| <= |p|
    ensures OccursAt(p, sub, j)
  {
    assert (p + t)[j..j + |sub|] == p[j..j + |sub|];
  }

  /** The separators the reader splits on are borderless. */
  lemma SeparatorsBorderless()
    ensures Borderless(CRLF) && Borderless("m=") && Borderless(", ")
  {
    assert CRLF[1..][0] != CRLF[..1][0];
    assert "m="[1..][0] != "m="[..1][0];
    assert ", "[1..][0] != ", "[..1][0];
  }

  /** A part free of the separator, followed by the separator, puts the first
      occurrence exactly at the junction. */
  lemma JunctionIsFirst(p: string, sep: string, t: string)
    requires |sep| > 0 && Borderless(sep)
    requires !Contains(p, sep)
    ensures IndexOf(p + sep + t, sep) == Some(|p|)
  {
    var s := p + sep + t;
    assert s[|p|..|p| + |sep|] == sep;
    forall j | 0 <= j < |p|
      ensures !OccursAt(s, sep, j)
    {
      if OccursAt(s, sep, j) {
        if |p| < j + |sep| {
          StraddleIsBorder(p, sep, t, j);
        } else {
          OccurrenceInPrefix(p, sep + t, sep, j);
        }
      }
    }
    FirstOccurrence(s, sep, |p|);
  }

  /** The converse round trip: splitting a join gives back the parts when
      no part contains the (borderless) separator. */
  lemma {:induction false} SplitJoin(parts: seq<string>, sep: string)
    requires |sep| > 0 && Borderless(sep) && |parts| >= 1
    requires forall k :: 0 <= k < |parts| ==> !Contains(parts[k], sep)
    ensures Split(Join(parts, sep), sep) == parts
    decreases |parts|
  {
    if |parts| == 1 {
      assert IndexOf(parts[0], sep) == None;
    } else {
      var p := parts[0];
      var t := Join(parts[1..], sep);
      JunctionIsFirst(p, sep, t);
      var s := p + sep + t;
      assert s[..|p|] == p;
      assert s[|p| + |sep|..] == t;
      SplitJoin(parts[1..], sep);
      assert Split(s, sep) == [p] + parts[1..];
    }
  }

  /** Appending a one-character separator and more text to `a` splits into
      the pieces of `a` followed by the pieces of `b`. */
  lemma {:induction false} SplitAppend(a: string, sep: string, b: string)
    requires |sep| == 1
    ensures Split(a + sep + b, sep) == Split(a, sep) + Split(b, sep)
    decreases |a|
  {
    match IndexOf(a, sep)
    case None =>
      SplitAppendNone(a, sep, b);
    case Some(i) =>
      SplitAppend(a[i + 1..], sep, b);
      SplitAppendStep(a, sep, b, i);
  }

  lemma SplitAppendStep(a: string, sep: string, b: string, i: nat)
    requires |sep| == 1 && IndexOf(a, sep) == Some(i)
    requires Split(a[i + 1..] + sep + b, sep) == Split(a[i + 1..], sep) + Split(b, sep)
    ensures Split(a + sep + b, sep) == Split(a, sep) + Split(b, sep)
  {
    SplitAppendAt(a, sep, b, i);
    Reassociate(Split(a + sep + b, sep), Split(a[i + 1..] + sep + b, sep), Split(a, sep),
                [a[..i]], Split(a[i + 1..], sep), Split(b, sep));
  }

  lemma Reassociate<T>(whole: seq<T>, tail: seq<T>, front: seq<T>, x: seq<T>, y: seq<T>, z: seq<T>)
    requires whole == x + tail && tail == y + z && front == x + y
    ensures whole == front + z
  {
  }

  /** The four parts of a concatenation, read back by slicing. */
  lemma ConcatParts<T>(a: seq<T>, b: seq<T>, c: seq<T>, d: seq<T>)
    ensures var s := a + b + c + d;
      && s[..|a|] == a
      && s[|a|..|a| + |b|] == b
      && s[|a| + |b|..|a| + |b| + |c|] == c
      && s[|a| + |b| + |c|..] == d
  {
  }

  lemma SplitAppendNone(a: string, sep: string, b: string)
    requires |sep| == 1 && IndexOf(a, sep) == None
    ensures Split(a + sep + b, sep) == Split(a, sep) + Split(b, sep)
  {
    var s := a + sep + b;
    JunctionIsFirst(a, sep, b);
    assert s[..|a|] == a;
    assert s[|a| + 1..] == b;
    assert Split(s, sep) == [a] + Split(b, sep);
  }

  lemma SplitAppendAt(a: string, sep: string, b: string, i: nat)
    requires |sep| == 1 && IndexOf(a, sep) == Some(i)
    ensures Split(a, sep) == [a[..i]] + Split(a[i + 1..], sep)
    ensures Split(a + sep + b, sep) == [a[..i]] + Split(a[i + 1..] + sep + b, sep)
  {
    var s := a + sep + b;
    assert OccursAt(a, sep, i);
    assert s[i..i + 1] == a[i..i + 1];
    forall j | 0 <= j < i
      ensures !OccursAt(s, sep, j)
    {
      assert s[j..j + 1] == a[j..j + 1];
      assert !OccursAt(a, sep, j);
    }
    FirstOccurrence(s, sep, i);
    assert s[..i] == a[..i];
    assert s[i + 1..] == a[i + 1..] + sep + b;
  }

  /** A string in which `sep` does not occur splits into itself. */
  lemma SplitNoSeparator(s: string, sep: string)
    requires |sep| > 0 && !Contains(s, sep)
    ensures Split(s, sep) == [s]
  {
  }

  /** Appending text free of the second character of a two-character
      separator creates no new occurrence of it. */
  lemma AppendKeepsFree(a: string, b: string, sep: string)
    requires |sep| == 2 && !Contains(a, sep)
    requires sep[1] !in b
    ensures !Contains(a + b, sep)
  {
    var s := a + b;
    assert forall k :: 0 <= k < |b| ==> b[k] in b;
    forall j | 0 <= j <= |s| && OccursAt(s, sep, j)
      ensures false
    {
      assert s[j + 1] == sep[1];
      if j + 2 <= |a| {
        assert s[j..j + 2] == a[j..j + 2];
        assert OccursAt(a, sep, j);
      }
    }
  }

  /** An occurrence in either half is an occurrence in the concatenation. */
  lemma ContainsConcat(a: string, b: string, sub: string)
    ensures Contains(a, sub) ==> Contains(a + b, sub)
    ensures Contains(b, sub) ==> Contains(a + b, sub)
  {
    if Contains(a, sub) {
      var j :| 0 <= j <= |a| && OccursAt(a, sub, j);
      assert (a + b)[j..j + |sub|] == a[j..j + |sub|];
      assert OccursAt(a + b, sub, j);
    }
    if Contains(b, sub) {
      var j :| 0 <= j <= |b| && OccursAt(b, sub, j);
      assert (a + b)[|a| + j..|a| + j + |sub|] == b[j..j + |sub|];
      assert OccursAt(a + b, sub, |a| + j);
    }
  }

  /** Text without a line feed cannot contain a CRLF line break. */
  lemma NoLineFeedFree(s: string)
    requires '\n' !in s
    ensures !Contains(s, CRLF)
  {
    AppendKeepsFree("", s, CRLF);
    assert "" + s == s;
  }

  function DigitChar(d: nat): (c: char)
    requires d < 10
    ensures '0' <= c <= '9'
  {
    ('0' as int + d) as char
  }

  /** `n.toString()` for a non-negative integer. */
  function NatToString(n: nat): (s: string)
    ensures |s| >= 1
    ensures forall k :: 0 <= k < |s| ==> '0' <= s[k] <= '9'
    ensures n >= 10 ==> |s| >= 2
    ensures '\n' !in s && ' ' !in s
    decreases n
  {
    if n < 10 then [DigitChar(n)]
    else NatToString(n / 10) + [DigitChar(n % 10)]
  }

  /** Distinct numbers have distinct decimal renderings. */
  lemma {:induction false} NatToStringInjective(m: nat, n: nat)
    requires NatToString(m) == NatToString(n)
    ensures m == n
    decreases n
  {
    var sm, sn := NatToString(m), NatToString(n);
    if m < 10 && n < 10 {
      assert sm[0] == sn[0];
    } else if m >= 10 && n >= 10 {
      assert sm[|sm| - 1] == sn[|sn| - 1];
      assert m % 10 == n % 10;
      assert sm[..|sm| - 1] == NatToString(m / 10);
      assert sn[..|sn| - 1] == NatToString(n / 10);
      NatToStringInjective(m / 10, n / 10);
    }
  }

  function LowerChar(c: char): char {
    if 'A' <= c <= 'Z' then (c as int + 32) as char else c
  }

  /** `s.toLowerCase()` restricted to ASCII letters. */
  function ToLower(s: string): (r: string)
    ensures |r| == |s|
    ensures forall k :: 0 <= k < |s| ==> r[k] == LowerChar(s[k])
  {
    seq(|s|, k requires 0 <= k < |s| => LowerChar(s[k]))
  }

  /** Case-insensitive `startsWith`, as a regular expression with the `i`
      flag compares literal text. */
  predicate StartsWithIgnoreCase(s: string, prefix: string) {
    |prefix| <= |s| && ToLower(s[..|prefix|]) == ToLower(prefix)
  }
}
