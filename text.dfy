/**
 * The JavaScript string operations the modelled code relies on:
 * `startsWith`, `endsWith`, `indexOf`, `includes`, `split`, `join`,
 * `replace`, `replaceAll`, `at(-1)`, ASCII case mapping, decimal rendering
 * of a counter, and the character classes its regular expressions use.
 */
module Text {
  import opened Js

  predicate StartsWith(s: string, p: string) {
    |p| <= |s| && s[..|p|] == p
  }

  predicate EndsWith(s: string, p: string) {
    |p| <= |s| && s[|s| - |p|..] == p
  }

  /** Two prefixes that differ at some index cannot both begin `s`. */
  lemma PrefixesDiffer(s: string, p: string, q: string, k: nat)
    requires StartsWith(s, p) && k < |p| && k < |q| && p[k] != q[k]
    ensures !StartsWith(s, q)
  {
    assert s[k] == s[..|p|][k];
    if |q| <= |s| {
      assert s[k] == s[..|q|][k];
    }
  }

  /** `p` occurs in `s` starting at index `i`. */
  predicate OccursAt(s: string, p: string, i: nat) {
    i + |p| <= |s| && s[i..i + |p|] == p
  }

  /** `s.indexOf(p, from)`: the first occurrence of `p` at or after `from`. */
  function IndexOf(s: string, p: string, from: nat): (r: Option<nat>)
    decreases |s| - from
    ensures r.Some? ==> from <= r.value && OccursAt(s, p, r.value)
    ensures r.Some? ==> forall j :: from <= j < r.value ==> !OccursAt(s, p, j)
    ensures r.None? ==> forall j :: from <= j ==> !OccursAt(s, p, j)
  {
    if from + |p| > |s| then None
    else if s[from..from + |p|] == p then Some(from)
    else IndexOf(s, p, from + 1)
  }

  /** `s.includes(p)`. */
  predicate Includes(s: string, p: string) {
    IndexOf(s, p, 0).Some?
  }

  lemma IncludesAt(s: string, p: string, i: nat)
    requires OccursAt(s, p, i)
    ensures Includes(s, p)
  {
  }

  /** `s.split(sep)` for a non-empty separator: the pieces between the occurrences, left to right. */
  function Split(s: string, sep: string): (r: seq<string>)
    requires sep != []
    ensures |r| >= 1
    decreases |s|
  {
    match IndexOf(s, sep, 0)
    case None => [s]
    case Some(i) => [s[..i]] + Split(s[i + |sep|..], sep)
  }

  /** `parts.join(sep)`. */
  function Join(parts: seq<string>, sep: string): string {
    if |parts| == 0 then ""
    else if |parts| == 1 then parts[0]
    else parts[0] + sep + Join(parts[1..], sep)
  }

  /** Joining the pieces of a split with the same separator gives the string back. */
  lemma {:induction false} JoinSplit(s: string, sep: string)
    requires sep != []
    ensures Join(Split(s, sep), sep) == s
    decreases |s|
  {
    match IndexOf(s, sep, 0)
    case None =>
    case Some(i) =>
      var rest := s[i + |sep|..];
      var tail := Split(rest, sep);
      JoinSplit(rest, sep);
      var parts := [s[..i]] + tail;
      assert Split(s, sep) == parts;
      assert parts[1..] == tail;
      assert Join(parts, sep) == s[..i] + sep + Join(tail, sep);
      assert s[i..i + |sep|] == sep;
      assert s == s[..i] + s[i..i + |sep|] + rest;
  }

  /** No piece of a split contains the separator. */
  lemma {:induction false} SplitPartsExcludeSep(s: string, sep: string, k: nat)
    requires sep != [] && k < |Split(s, sep)|
    ensures !Includes(Split(s, sep)[k], sep)
    decreases |s|
  {
    match IndexOf(s, sep, 0)
    case None =>
    case Some(i) =>
      var rest := s[i + |sep|..];
      assert Split(s, sep) == [s[..i]] + Split(rest, sep);
      if k == 0 {
        PrefixBeforeFirst(s, sep, i);
      } else {
        SplitPartsExcludeSep(rest, sep, k - 1);
      }
  }

  /** The text before the first occurrence of `sep` does not contain it. */
  lemma PrefixBeforeFirst(s: string, sep: string, i: nat)
    requires sep != [] && IndexOf(s, sep, 0) == Some(i)
    ensures !Includes(s[..i], sep)
  {
    var head := s[..i];
    forall j: nat | j + |sep| <= |head|
      ensures !OccursAt(head, sep, j)
    {
      assert j < i && !OccursAt(s, sep, j);
      assert head[j..j + |sep|] == s[j..j + |sep|];
    }
  }

  /** The first piece of a split is the text before the first occurrence of the separator. */
  lemma SplitFirst(s: string, sep: string)
    requires sep != []
    ensures IndexOf(s, sep, 0).None? ==> Split(s, sep) == [s]
    ensures IndexOf(s, sep, 0).Some? ==>
      |Split(s, sep)| >= 2 && Split(s, sep)[0] == s[..IndexOf(s, sep, 0).value]
  {
  }

  /** A character that does not occur is not found. */
  lemma {:induction false} CharNotFound(s: string, c: char)
    requires c !in s
    ensures IndexOf(s, [c], 0).None?
    ensures Split(s, [c]) == [s]
  {
    forall j: nat | j + 1 <= |s|
      ensures !OccursAt(s, [c], j)
    {
      assert s[j..j + 1] == [s[j]];
    }
  }

  lemma EndsWithConcat(a: string, b: string, p: string)
    requires EndsWith(b, p)
    ensures EndsWith(a + b, p)
  {
    assert (a + b)[|a + b| - |p|..] == b[|b| - |p|..];
  }

  /** A text made of `a`, a gap, `b`, a gap and `c`, found at their positions in `s`. */
  lemma SliceInParts(s: string, a: string, b: string, c: string, i: nat, d: nat, e: nat)
    requires OccursAt(s, a, i) && i + |a| <= d && OccursAt(s, b, d) && d + |b| <= e && OccursAt(s, c, e)
    ensures s[i..e + |c|] == a + (s[i + |a|..d] + (b + (s[d + |b|..e] + c)))
  {
    assert s[d + |b|..e + |c|] == s[d + |b|..e] + s[e..e + |c|];
    assert s[d..e + |c|] == s[d..d + |b|] + s[d + |b|..e + |c|];
    assert s[i + |a|..e + |c|] == s[i + |a|..d] + s[d..e + |c|];
    assert s[i..e + |c|] == s[i..i + |a|] + s[i + |a|..e + |c|];
  }

  /** In `a + c + b` with no `c` in `a`, the first `c` is the one after `a`. */
  lemma {:induction false} FirstCharAfter(a: string, c: char, b: string)
    requires c !in a
    ensures IndexOf(a + [c] + b, [c], 0) == Some(|a|)
    ensures Split(a + [c] + b, [c]) == [a] + Split(b, [c])
  {
    var s := a + [c] + b;
    assert OccursAt(s, [c], |a|);
    forall j | 0 <= j < |a|
      ensures !OccursAt(s, [c], j)
    {
      assert s[j] == a[j];
    }
    assert s[..|a|] == a;
    assert s[|a| + 1..] == b;
  }

  /** Splitting `a + c + b` at the one `c` it holds gives `[a, b]`. */
  lemma {:induction false} SplitAtOnlyChar(a: string, c: char, b: string)
    requires c !in a && c !in b
    ensures Split(a + [c] + b, [c]) == [a, b]
  {
    FirstCharAfter(a, c, b);
    CharNotFound(b, c);
  }

  /** A one-character text that is not found does not occur at all. */
  lemma NotIncludesChar(s: string, c: char)
    requires !Includes(s, [c])
    ensures c !in s
  {
    forall j | 0 <= j < |s|
      ensures s[j] != c
    {
      assert s[j..j + 1] == [s[j]];
      assert !OccursAt(s, [c], j);
    }
  }

  /** A text cut at the first occurrence of `c`: nothing before it is `c`. */
  lemma FirstCharCut(a: string, c: char, i: nat)
    requires IndexOf(a, [c], 0) == Some(i)
    ensures a == a[..i] + [c] + a[i + 1..] && c !in a[..i]
  {
    forall j | 0 <= j < i
      ensures a[..i][j] != c
    {
      assert a[j..j + 1] == [a[j]];
      assert !OccursAt(a, [c], j);
    }
    assert a[i..i + 1] == [c];
  }

  /** Text appended at a `c` (or nothing appended) leaves the first piece at `c` unchanged. */
  lemma FirstPieceOfPrefix(head: string, rest: string, c: char)
    requires rest == [] || rest[0] == c
    ensures Split(head + rest, [c])[0] == Split(head, [c])[0]
  {
    match IndexOf(head, [c], 0)
    case Some(j) =>
      FirstCharCut(head, c, j);
      FirstPieceWithChar(head[..j], head[j + 1..], rest, c);
    case None =>
      NotIncludesChar(head, c);
      CharNotFound(head, c);
      if rest != [] {
        assert head + rest == head + [c] + rest[1..];
        FirstCharAfter(head, c, rest[1..]);
      } else {
        assert head + rest == head;
      }
  }

  lemma FirstPieceWithChar(a: string, b: string, rest: string, c: char)
    requires c !in a
    ensures Split(a + [c] + b + rest, [c])[0] == Split(a + [c] + b, [c])[0]
  {
    assert a + [c] + b + rest == a + [c] + (b + rest);
    FirstCharAfter(a, c, b + rest);
    FirstCharAfter(a, c, b);
  }

  /** Splitting `a + c + b` with no `c` in `b`: the pieces of `a`, then `b`. */
  lemma {:induction false} SplitLastChar(a: string, c: char, b: string)
    requires c !in b
    ensures Split(a + [c] + b, [c]) == Split(a, [c]) + [b]
    decreases |a|
  {
    match IndexOf(a, [c], 0)
    case None =>
      NotIncludesChar(a, c);
      FirstCharAfter(a, c, b);
      CharNotFound(b, c);
      CharNotFound(a, c);
    case Some(i) =>
      var a1 := a[..i];
      var rest := a[i + 1..] + [c] + b;
      FirstCharCut(a, c, i);
      assert a + [c] + b == a1 + [c] + rest;
      FirstCharAfter(a1, c, rest);
      FirstCharAfter(a1, c, a[i + 1..]);
      SplitLastChar(a[i + 1..], c, b);
  }

  /** The last piece at `c` is whatever follows the last `c`. */
  lemma LastPartAfter(a: string, c: char, b: string)
    requires c !in b
    ensures LastPart(a + [c] + b, [c]) == b
  {
    SplitLastChar(a, c, b);
  }

  /** The second-to-last piece at `c` lies between the last two `c`s. */
  lemma SecondLastPartBetween(a: string, c: char, b: string, d: string)
    requires c !in b && c !in d
    ensures SecondLast(Split(a + [c] + b + [c] + d, [c])) == Some(b)
  {
    SplitLastChar(a + [c] + b, c, d);
    SplitLastChar(a, c, b);
  }

  /** Splitting a join at a character no piece holds gives the pieces back. */
  lemma {:induction false} SplitJoinChar(parts: seq<string>, c: char)
    requires |parts| >= 1 && forall k :: 0 <= k < |parts| ==> c !in parts[k]
    ensures Split(Join(parts, [c]), [c]) == parts
    decreases |parts|
  {
    if |parts| == 1 {
      CharNotFound(parts[0], c);
    } else {
      SplitJoinChar(parts[1..], c);
      FirstCharAfter(parts[0], c, Join(parts[1..], [c]));
      assert parts == [parts[0]] + parts[1..];
    }
  }

  /** `xs.at(-1)` of a non-empty sequence. */
  function Last<T>(xs: seq<T>): T
    requires |xs| >= 1
  {
    xs[|xs| - 1]
  }

  /** `xs.at(-2)`: `undefined` when there are fewer than two elements. */
  function SecondLast<T>(xs: seq<T>): Option<T> {
    if |xs| >= 2 then Some(xs[|xs| - 2]) else None
  }

  /** `xs[1]`: `undefined` when there is no second element. */
  function Second<T>(xs: seq<T>): Option<T> {
    if |xs| >= 2 then Some(xs[1]) else None
  }

  /** `s.split(sep).at(-1)`: the text after the last occurrence of `sep`. */
  function LastPart(s: string, sep: string): string
    requires sep != []
  {
    Last(Split(s, sep))
  }

  lemma {:induction false} JoinLast(parts: seq<string>, sep: string)
    requires |parts| >= 2
    ensures Join(parts, sep) == Join(parts[..|parts| - 1], sep) + sep + Last(parts)
    decreases |parts|
  {
    if |parts| > 2 {
      JoinLast(parts[1..], sep);
      assert parts[1..][..|parts| - 2] == parts[..|parts| - 1][1..];
    }
  }

  /** The last piece is a suffix of the string and holds no separator. */
  lemma LastPartIsSuffix(s: string, sep: string)
    requires sep != []
    ensures EndsWith(s, LastPart(s, sep))
    ensures !Includes(LastPart(s, sep), sep)
  {
    var parts := Split(s, sep);
    SplitPartsExcludeSep(s, sep, |parts| - 1);
    LastPartEnds(s, sep);
  }

  lemma LastPartEnds(s: string, sep: string)
    requires sep != []
    ensures EndsWith(s, LastPart(s, sep))
  {
    var parts := Split(s, sep);
    var last := Last(parts);
    JoinSplit(s, sep);
    if |parts| >= 2 {
      JoinLast(parts, sep);
      var front := Join(parts[..|parts| - 1], sep) + sep;
      assert s == front + last;
      assert s[|front|..] == last;
    }
  }

  /** `s.replace(pat, rep)` with a string pattern: only the first occurrence is replaced. */
  function ReplaceFirst(s: string, pat: string, rep: string): string {
    match IndexOf(s, pat, 0)
    case None => s
    case Some(i) => s[..i] + rep + s[i + |pat|..]
  }

  /** When nothing before `pat` can start it, `replace` rewrites exactly that occurrence. */
  lemma {:induction false} ReplaceFirstAfter(a: string, pat: string, rep: string, b: string)
    requires pat != [] && pat[0] !in a
    ensures ReplaceFirst(a + pat + b, pat, rep) == a + rep + b
  {
    var s := a + pat + b;
    assert OccursAt(s, pat, |a|);
    forall j | 0 <= j < |a|
      ensures !OccursAt(s, pat, j)
    {
      assert s[j] == a[j];
      if j + |pat| <= |s| {
        assert s[j..j + |pat|][0] == s[j];
      }
    }
    assert IndexOf(s, pat, 0) == Some(|a|);
    assert s[..|a|] == a;
    assert s[|a| + |pat|..] == b;
  }

  /** `s.replaceAll(pat, rep)`, also `s.replace(/pat/g, rep)`: every occurrence, left to right, not overlapping. */
  function ReplaceAll(s: string, pat: string, rep: string): string
    requires pat != []
    decreases |s|
  {
    if |s| == 0 then ""
    else if StartsWith(s, pat) then rep + ReplaceAll(s[|pat|..], pat, rep)
    else [s[0]] + ReplaceAll(s[1..], pat, rep)
  }

  /** Replacing a single character by a text that lacks it removes that character altogether. */
  lemma {:induction false} ReplaceCharRemoves(s: string, c: char, rep: string)
    requires c !in rep
    ensures c !in ReplaceAll(s, [c], rep)
    decreases |s|
  {
    if |s| > 0 {
      ReplaceCharRemoves(s[1..], c, rep);
    }
  }

  /** With a one-character pattern, replacing is done character by character. */
  lemma {:induction false} ReplaceCharConcat(a: string, b: string, c: char, rep: string)
    ensures ReplaceAll(a + b, [c], rep) == ReplaceAll(a, [c], rep) + ReplaceAll(b, [c], rep)
    decreases |a|
  {
    if |a| > 0 {
      var ab := a + b;
      assert ab[1..] == a[1..] + b;
      assert ab[0] == a[0];
      assert StartsWith(ab, [c]) <==> a[0] == c;
      assert StartsWith(a, [c]) <==> a[0] == c;
      ReplaceCharConcat(a[1..], b, c, rep);
      if a[0] == c {
        assert ReplaceAll(ab, [c], rep) == rep + ReplaceAll(a[1..] + b, [c], rep);
        assert ReplaceAll(a, [c], rep) == rep + ReplaceAll(a[1..], [c], rep);
      } else {
        assert ReplaceAll(ab, [c], rep) == [a[0]] + ReplaceAll(a[1..] + b, [c], rep);
        assert ReplaceAll(a, [c], rep) == [a[0]] + ReplaceAll(a[1..], [c], rep);
      }
    } else {
      assert a + b == b;
    }
  }

  /** When no character of `a` can begin `pat`, replacing leaves `a` as it is. */
  lemma {:induction false} ReplaceAllPlain(a: string, b: string, pat: string, rep: string)
    requires pat != [] && pat[0] !in a
    ensures ReplaceAll(a + b, pat, rep) == a + ReplaceAll(b, pat, rep)
    decreases |a|
  {
    if |a| > 0 {
      var ab := a + b;
      if |pat| <= |ab| {
        assert ab[..|pat|][0] == a[0];
      }
      assert ab[1..] == a[1..] + b;
      ReplaceAllPlain(a[1..], b, pat, rep);
    } else {
      assert a + b == b;
    }
  }

  /** Replacing in a text that begins with the pattern replaces that occurrence first. */
  lemma ReplaceAllLead(pat: string, b: string, rep: string)
    requires pat != []
    ensures ReplaceAll(pat + b, pat, rep) == rep + ReplaceAll(b, pat, rep)
  {
    assert StartsWith(pat + b, pat);
    assert (pat + b)[|pat|..] == b;
  }

  /**
   * With a two-character pattern, replacing in `a + b` is replacing in each
   * half when no occurrence can straddle them: `b` does not begin with the
   * pattern's second character.
   */
  lemma {:induction false} ReplaceAllConcatPair(a: string, b: string, pat: string, rep: string)
    requires |pat| == 2 && (b == [] || b[0] != pat[1])
    ensures ReplaceAll(a + b, pat, rep) == ReplaceAll(a, pat, rep) + ReplaceAll(b, pat, rep)
    decreases |a|
  {
    var ab := a + b;
    if |a| == 0 {
      assert ab == b;
    } else if |a| >= 2 && StartsWith(a, pat) {
      assert ab[..2] == a[..2];
      assert ab[2..] == a[2..] + b;
      ReplaceAllConcatPair(a[2..], b, pat, rep);
    } else {
      assert ab[1..] == a[1..] + b;
      if |ab| >= 2 {
        assert ab[..2][0] == a[0];
        assert |a| >= 2 ==> ab[..2] == a[..2];
        assert |a| == 1 ==> ab[..2][1] == b[0];
      }
      ReplaceAllConcatPair(a[1..], b, pat, rep);
    }
  }

  /** `s.replaceAll('\n', '<br>')`: the text as HTML with its line breaks kept. */
  function NewlinesToBr(s: string): (r: string)
    ensures '\n' !in r
  {
    ReplaceCharRemoves(s, '\n', "<br>");
    ReplaceAll(s, "\n", "<br>")
  }

  /** The inverse rewrite: every `<br>` back to a line break. */
  function BrToNewlines(s: string): string {
    ReplaceAll(s, "<br>", "\n")
  }

  /** A text with no `<` comes back unchanged from `<br>` and back. */
  lemma {:induction false} NewlinesToBrInverts(s: string)
    requires '<' !in s
    ensures BrToNewlines(NewlinesToBr(s)) == s
    decreases |s|
  {
    if |s| > 0 {
      NewlinesToBrInverts(s[1..]);
      var t := NewlinesToBr(s[1..]);
      if s[0] == '\n' {
        assert StartsWith(s, "\n");
        assert NewlinesToBr(s) == "<br>" + t;
        ReplaceAllLead("<br>", t, "\n");
      } else {
        assert !StartsWith(s, "\n");
        assert NewlinesToBr(s) == [s[0]] + t;
        ReplaceAllPlain([s[0]], t, "<br>", "\n");
      }
    }
  }

  // ASCII case mapping

  function LowerChar(c: char): char {
    if 'A' <= c <= 'Z' then (c as int + 32) as char else c
  }

  function UpperChar(c: char): char {
    if 'a' <= c <= 'z' then (c as int - 32) as char else c
  }

  /** `s.toLowerCase()` on ASCII letters. */
  function ToLower(s: string): (r: string)
    ensures |r| == |s|
    ensures forall i :: 0 <= i < |s| ==> r[i] == LowerChar(s[i])
  {
    seq(|s|, i requires 0 <= i < |s| => LowerChar(s[i]))
  }

  /** `s.toUpperCase()` on ASCII letters. */
  function ToUpper(s: string): (r: string)
    ensures |r| == |s|
    ensures forall i :: 0 <= i < |s| ==> r[i] == UpperChar(s[i])
  {
    seq(|s|, i requires 0 <= i < |s| => UpperChar(s[i]))
  }

  /** `if (url.endsWith('/')) url = url.substring(0, url.length - 1)`. */
  function DropTrailingSlash(s: string): (r: string)
    ensures |r| <= |s| && r == s[..|r|]
    ensures EndsWith(s, "/") ==> |r| == |s| - 1
    ensures !EndsWith(s, "/") ==> r == s
  {
    if EndsWith(s, "/") then s[..|s| - 1] else s
  }

  /** `path.join(dest, name)` for a plain file name; the normalisation of `..` and repeated `/` is not modelled. */
  function PathJoin(dest: string, name: string): string {
    dest + "/" + name
  }

  // Character classes of JavaScript regular expressions

  /** `\d` */
  predicate IsDigit(c: char) {
    '0' <= c <= '9'
  }

  predicate AllDigits(s: string) {
    forall i :: 0 <= i < |s| ==> IsDigit(s[i])
  }

  predicate IsLowerLetter(c: char) {
    'a' <= c <= 'z'
  }

  /** `\w` */
  predicate IsWordChar(c: char) {
    'a' <= c <= 'z' || 'A' <= c <= 'Z' || IsDigit(c) || c == '_'
  }

  /** The characters `.` does not match. */
  predicate IsLineTerminator(c: char) {
    c == '\n' || c == '\r' || c == '\U{2028}' || c == '\U{2029}'
  }

  /** A run that `.` can cover: no line terminator. */
  predicate NoLineTerminator(s: string) {
    forall i :: 0 <= i < |s| ==> !IsLineTerminator(s[i])
  }

  /** `\s` */
  predicate IsSpace(c: char) {
    c == '\t' || c == '\n' || c == '\U{B}' || c == '\U{C}' || c == '\r' || c == ' '
    || c == '\U{A0}' || c == '\U{1680}' || ('\U{2000}' <= c <= '\U{200A}')
    || c == '\U{2028}' || c == '\U{2029}' || c == '\U{202F}' || c == '\U{205F}'
    || c == '\U{3000}' || c == '\U{FEFF}'
  }

  /** The index of the first character at or after `from` that is not a space (`\s*` is greedy). */
  function SkipSpaces(s: string, from: nat): (r: nat)
    requires from <= |s|
    decreases |s| - from
    ensures from <= r <= |s|
    ensures forall j :: from <= j < r ==> IsSpace(s[j])
    ensures r < |s| ==> !IsSpace(s[r])
  {
    if from < |s| && IsSpace(s[from]) then SkipSpaces(s, from + 1) else from
  }

  /** The end of the maximal run of characters satisfying `ok`, starting at `from`. */
  function RunEnd(s: string, from: nat, ok: char -> bool): (r: nat)
    requires from <= |s|
    decreases |s| - from
    ensures from <= r <= |s|
    ensures forall j :: from <= j < r ==> ok(s[j])
    ensures r < |s| ==> !ok(s[r])
  {
    if from < |s| && ok(s[from]) then RunEnd(s, from + 1, ok) else from
  }

  /** Cutting the text at or after the end of a run leaves the run's end where it was. */
  lemma {:induction false} RunEndPrefix(s: string, n: nat, from: nat, ok: char -> bool)
    requires from <= n <= |s| && RunEnd(s, from, ok) <= n
    ensures RunEnd(s[..n], from, ok) == RunEnd(s, from, ok)
    decreases |s| - from
  {
    if from < n && ok(s[from]) {
      assert s[..n][from] == s[from];
      RunEndPrefix(s, n, from + 1, ok);
    } else if from < n {
      assert s[..n][from] == s[from];
    }
  }

  /**
   * How a regular expression without the `g` flag searches: the leftmost
   * position in `from..n` where the attempt `at` succeeds, with what it found.
   */
  function Leftmost<T>(n: nat, from: nat, at: nat -> Option<T>): (r: Option<(nat, T)>)
    decreases n + 1 - from
    ensures r.Some? ==> from <= r.value.0 <= n && at(r.value.0) == Some(r.value.1)
    ensures r.Some? ==> forall j :: from <= j < r.value.0 ==> at(j).None?
    ensures r.None? ==> forall j :: from <= j <= n ==> at(j).None?
  {
    if from > n then None
    else
      match at(from)
      case Some(x) => Some((from, x))
      case None => Leftmost(n, from + 1, at)
  }

  // Decimal rendering of counters (template literals such as `${i}`)

  function DigitChar(d: nat): char
    requires d < 10
  {
    ('0' as int + d) as char
  }

  /** `${n}` for a non-negative integer. */
  function NatToString(n: nat): string
    decreases n
  {
    if n < 10 then [DigitChar(n)] else NatToString(n / 10) + [DigitChar(n % 10)]
  }

  /** The value of a run of decimal digits (the empty run is 0). */
  function DigitsValue(s: string): nat
    requires AllDigits(s)
    decreases |s|
  {
    if s == "" then 0 else DigitsValue(s[..|s| - 1]) * 10 + (s[|s| - 1] as int - '0' as int)
  }

  /** A rendered counter is a non-empty run of digits that reads back as the counter. */
  lemma {:induction false} NatToStringParses(n: nat)
    ensures |NatToString(n)| >= 1 && AllDigits(NatToString(n))
    ensures DigitsValue(NatToString(n)) == n
    decreases n
  {
    if n >= 10 {
      NatToStringParses(n / 10);
      var s := NatToString(n);
      assert s[..|s| - 1] == NatToString(n / 10);
    }
  }

  /** Different counters render differently. */
  lemma NatToStringInjective(a: nat, b: nat)
    requires NatToString(a) == NatToString(b)
    ensures a == b
  {
    NatToStringParses(a);
    NatToStringParses(b);
  }

  /** `s.substring(a, b)` for `0 <= a <= b`: both ends are clamped to the length. */
  function Substring(s: string, a: nat, b: nat): (r: string)
    requires a <= b
    ensures |r| == (if b <= |s| then b - a else if a <= |s| then |s| - a else 0)
  {
    if b <= |s| then s[a..b] else if a <= |s| then s[a..] else ""
  }

  /** `${n}` for any integer. */
  function IntToString(n: int): string {
    if n < 0 then "-" + NatToString(-n) else NatToString(n)
  }

  /** `String(v)`: what a template literal or a regular expression test makes of a value. */
  function ValueText(v: Value): string
    decreases v
  {
    match v
    case Undefined => "undefined"
    case Null => "null"
    case Bool(b) => if b then "true" else "false"
    case Num(n) => IntToString(n)
    case NaN => "NaN"
    case Str(s) => s
    case Arr(items) =>
      Join(seq(|items|, i requires 0 <= i < |items| =>
             if items[i].Undefined? || items[i].Null? then "" else ValueText(items[i])), ",")
    case Obj(_) => "[object Object]"
    case Promise(_) => "[object Promise]"
  }

  /** Unary `+s` on a string of decimal digits (`''` is 0); every other string is NaN here. */
  function StringToNumber(s: string): (r: Value)
    ensures r.Num? <==> AllDigits(s)
  {
    if AllDigits(s) then Num(DigitsValue(s)) else NaN
  }

  /** Joining gives `''` exactly for no pieces or a single empty piece. */
  lemma JoinEmpty(parts: seq<string>, sep: string)
    requires sep != []
    ensures Join(parts, sep) == "" <==> parts == [] || parts == [""]
  {
    if |parts| >= 2 {
      assert |Join(parts, sep)| >= |sep|;
    }
  }

  /** Each element mapped to a JavaScript string value. */
  function Strs(xs: seq<string>): (r: seq<Value>)
    ensures |r| == |xs| && forall i :: 0 <= i < |xs| ==> r[i] == Str(xs[i])
  {
    seq(|xs|, i requires 0 <= i < |xs| => Str(xs[i]))
  }
}
