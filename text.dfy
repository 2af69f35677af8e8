/** String primitives of Go's `strings`/`bufio` packages and of JavaScript's
    `String.prototype`, as the rest of the model uses them. Strings are
    sequences of Unicode scalar values; case mapping is ASCII only. */
module Text {

  /** `strings.HasPrefix` / `String.prototype.startsWith`. */
  predicate StartsWith(s: string, p: string) {
    |p| <= |s| && s[..|p|] == p
  }

  /** `strings.TrimPrefix`: drops `p` once when `s` starts with it. */
  function TrimPrefix(s: string, p: string): (r: string)
    ensures StartsWith(s, p) ==> p + r == s
    ensures !StartsWith(s, p) ==> r == s
  {
    if StartsWith(s, p) then s[|p|..] else s
  }

  /** `sub` occurs in `s` starting at position `i`. */
  predicate OccursAt(s: string, sub: string, i: int) {
    0 <= i <= |s| - |sub| && s[i..i + |sub|] == sub
  }

  /** `strings.Contains` / `String.prototype.includes`. */
  predicate Contains(s: string, sub: string) {
    exists i | 0 <= i <= |s| :: OccursAt(s, sub, i)
  }

  /** A string contains itself, and containment survives adding text on
      either side. */
  lemma ContainsSelf(s: string)
    ensures Contains(s, s)
  {
    assert OccursAt(s, s, 0);
  }

  lemma ContainsConcat(a: string, b: string, sub: string)
    ensures Contains(a, sub) ==> Contains(a + b, sub)
    ensures Contains(b, sub) ==> Contains(a + b, sub)
  {
    if Contains(a, sub) {
      var i :| 0 <= i <= |a| && OccursAt(a, sub, i);
      assert (a + b)[i..i + |sub|] == a[i..i + |sub|];
      assert OccursAt(a + b, sub, i);
    }
    if Contains(b, sub) {
      var i :| 0 <= i <= |b| && OccursAt(b, sub, i);
      assert (a + b)[|a| + i..|a| + i + |sub|] == b[i..i + |sub|];
      assert OccursAt(a + b, sub, |a| + i);
    }
  }

  /** Containment is transitive. */
  lemma ContainsTrans(a: string, b: string, c: string)
    requires Contains(a, b) && Contains(b, c)
    ensures Contains(a, c)
  {
    var i :| 0 <= i <= |a| && OccursAt(a, b, i);
    var j :| 0 <= j <= |b| && OccursAt(b, c, j);
    assert forall k :: 0 <= k < |b| ==> a[i + k] == b[k];
    assert a[i + j..i + j + |c|] == b[j..j + |c|];
    assert OccursAt(a, c, i + j);
  }

  /** The runes for which Go's `unicode.IsSpace` holds (`strings.TrimSpace`,
      `strings.Fields`). */
  const GoSpace: set<char> := {
    '\t', '\n', '\U{0B}', '\U{0C}', '\r', ' ', '\U{85}', '\U{A0}', '\U{1680}',
    '\U{2000}', '\U{2001}', '\U{2002}', '\U{2003}', '\U{2004}', '\U{2005}',
    '\U{2006}', '\U{2007}', '\U{2008}', '\U{2009}', '\U{200A}',
    '\U{2028}', '\U{2029}', '\U{202F}', '\U{205F}', '\U{3000}'
  }

  /** The characters JavaScript's `String.prototype.trim` removes
      (WhiteSpace and LineTerminator of ECMAScript). */
  const JsSpace: set<char> := {
    '\t', '\n', '\U{0B}', '\U{0C}', '\r', ' ', '\U{A0}', '\U{1680}',
    '\U{2000}', '\U{2001}', '\U{2002}', '\U{2003}', '\U{2004}', '\U{2005}',
    '\U{2006}', '\U{2007}', '\U{2008}', '\U{2009}', '\U{200A}',
    '\U{2028}', '\U{2029}', '\U{202F}', '\U{205F}', '\U{3000}', '\U{FEFF}'
  }

  /** The number of leading characters that belong to `ws`. */
  function LeadingCount(s: string, ws: set<char>): (n: nat)
    ensures n <= |s|
    ensures n < |s| ==> s[n] !in ws
  {
    if s != [] && s[0] in ws then 1 + LeadingCount(s[1..], ws) else 0
  }

  /** The length of `s` without its trailing characters that belong to `ws`. */
  function TrailingStart(s: string, ws: set<char>): (n: nat)
    ensures n <= |s|
    ensures n > 0 ==> s[n - 1] !in ws
  {
    if s != [] && s[|s| - 1] in ws then TrailingStart(s[..|s| - 1], ws) else |s|
  }

  /** Removes the leading characters that belong to `ws`. */
  function TrimLeft(s: string, ws: set<char>): string {
    s[LeadingCount(s, ws)..]
  }

  /** Removes the trailing characters that belong to `ws`. */
  function TrimRight(s: string, ws: set<char>): string {
    s[..TrailingStart(s, ws)]
  }

  /** Removes leading and trailing characters of `ws`: with `GoSpace` this is
      `strings.TrimSpace`, with `JsSpace` it is `String.prototype.trim`. */
  function Trim(s: string, ws: set<char>): (r: string)
    ensures |r| <= |s|
    ensures r != [] ==> r[0] !in ws && r[|r| - 1] !in ws
    ensures forall c :: c in r ==> c in s
  {
    TrimRight(TrimLeft(s, ws), ws)
  }

  /** A string with no `ws` character at either end is its own trim. */
  lemma TrimOfTrimmed(s: string, ws: set<char>)
    requires s != [] ==> s[0] !in ws && s[|s| - 1] !in ws
    ensures Trim(s, ws) == s
  {
  }

  /** Trimming twice is trimming once. */
  lemma TrimIdempotent(s: string, ws: set<char>)
    ensures Trim(Trim(s, ws), ws) == Trim(s, ws)
  {
    TrimOfTrimmed(Trim(s, ws), ws);
  }

  /** ASCII upper-case letter to lower case; every other character unchanged. */
  function AsciiLower(c: char): char {
    if 'A' <= c <= 'Z' then (c as int + 32) as char else c
  }

  /** ASCII lower-case letter to upper case; every other character unchanged. */
  function AsciiUpper(c: char): char {
    if 'a' <= c <= 'z' then (c as int - 32) as char else c
  }

  /** `toLowerCase` restricted to ASCII letters, character by character. */
  function Lower(s: string): (r: string)
    ensures |r| == |s|
    ensures forall i :: 0 <= i < |s| ==> r[i] == AsciiLower(s[i])
  {
    seq(|s|, i requires 0 <= i < |s| => AsciiLower(s[i]))
  }

  /** First position of `c` in `s`. */
  function IndexOf(s: string, c: char): (i: nat)
    requires c in s
    ensures i < |s| && s[i] == c && c !in s[..i]
  {
    if s[0] == c then 0 else 1 + IndexOf(s[1..], c)
  }

  /** The first occurrence is the only position with no earlier occurrence. */
  lemma {:induction false} IndexOfIsFirst(s: string, c: char, i: nat)
    requires i < |s| && s[i] == c && c !in s[..i]
    ensures IndexOf(s, c) == i
  {
    if i > 0 {
      assert s[0] in s[..i];
      assert s[1..][..i - 1] == s[..i][1..];
      IndexOfIsFirst(s[1..], c, i - 1);
    }
  }

  /** `strings.Join`. */
  function Join(parts: seq<string>, sep: string): string {
    if parts == [] then ""
    else if |parts| == 1 then parts[0]
    else parts[0] + sep + Join(parts[1..], sep)
  }

  /** `fmt.Sprintf` with a template whose only verbs are `%s`: the template's
      literal pieces with the arguments written between them. */
  function Sprintf(pieces: seq<string>, args: seq<string>): string
    requires |pieces| == |args| + 1
  {
    if args == [] then pieces[0] else pieces[0] + args[0] + Sprintf(pieces[1..], args[1..])
  }

  /** Each part occurs in the joined string. */
  lemma {:induction false} JoinContains(parts: seq<string>, sep: string, k: nat)
    requires k < |parts|
    ensures Contains(Join(parts, sep), parts[k])
    decreases |parts|
  {
    ContainsSelf(parts[k]);
    if |parts| > 1 {
      if k == 0 {
        ContainsConcat(parts[0], sep + Join(parts[1..], sep), parts[0]);
        assert parts[0] + sep + Join(parts[1..], sep) == parts[0] + (sep + Join(parts[1..], sep));
      } else {
        JoinContains(parts[1..], sep, k - 1);
        ContainsConcat(parts[0] + sep, Join(parts[1..], sep), parts[k]);
      }
    }
  }

  /** `strings.Split(s, string(c))`: never empty, and no piece holds `c`. */
  function Split(s: string, c: char): (r: seq<string>)
    ensures |r| >= 1
    ensures forall k :: 0 <= k < |r| ==> c !in r[k]
    decreases |s|
  {
    if c !in s then [s]
    else
      var i := IndexOf(s, c);
      [s[..i]] + Split(s[i + 1..], c)
  }

  /** Joining the pieces of a split with the separator gives the string back. */
  lemma {:induction false} JoinSplit(s: string, c: char)
    ensures Join(Split(s, c), [c]) == s
    decreases |s|
  {
    if c in s {
      var i := IndexOf(s, c);
      var rest := Split(s[i + 1..], c);
      var parts := [s[..i]] + rest;
      assert Split(s, c) == parts;
      assert parts[1..] == rest;
      JoinSplit(s[i + 1..], c);
      assert s == s[..i] + [c] + s[i + 1..];
    }
  }

  /** Drops one trailing carriage return, as `bufio.ScanLines` does. */
  function DropCR(l: string): string {
    if l != [] && l[|l| - 1] == '\r' then l[..|l| - 1] else l
  }

  /** The lines a `bufio.Scanner` with `ScanLines` yields: split at each
      newline, a final empty piece dropped, one trailing `\r` removed per line. */
  function ScanLines(s: string): (r: seq<string>)
    ensures s == [] <==> r == []
    ensures forall k :: 0 <= k < |r| ==> '\n' !in r[k]
    decreases |s|
  {
    if s == [] then []
    else if '\n' in s then
      var i := IndexOf(s, '\n');
      [DropCR(s[..i])] + ScanLines(s[i + 1..])
    else [DropCR(s)]
  }

  /** A line that reads back unchanged through `ScanLines`. */
  predicate PlainLine(l: string) {
    '\n' !in l && (l != [] ==> l[|l| - 1] != '\r')
  }

  /** Each line followed by a newline. */
  function Lines(ls: seq<string>): string {
    if ls == [] then "" else ls[0] + "\n" + Lines(ls[1..])
  }

  /** Lines of a concatenation are the concatenated lines. */
  lemma {:induction false} LinesConcat(a: seq<string>, b: seq<string>)
    ensures Lines(a + b) == Lines(a) + Lines(b)
  {
    if a != [] {
      assert (a + b)[1..] == a[1..] + b;
      LinesConcat(a[1..], b);
    } else {
      assert a + b == b;
    }
  }

  /** Appending one line appends it and a newline. */
  lemma LinesSnoc(ls: seq<string>, l: string)
    ensures Lines(ls + [l]) == Lines(ls) + l + "\n"
  {
    LinesConcat(ls, [l]);
  }

  /** `strings.Join(ls, "\n") + "\n"` is every line newline-terminated. */
  lemma {:induction false} JoinNewlineIsLines(ls: seq<string>)
    requires ls != []
    ensures Join(ls, "\n") + "\n" == Lines(ls)
  {
    if |ls| > 1 {
      JoinNewlineIsLines(ls[1..]);
    }
  }

  /** Writing lines out and scanning them back is the identity. */
  lemma {:induction false} ScanLinesOfLines(ls: seq<string>)
    requires forall k :: 0 <= k < |ls| ==> PlainLine(ls[k])
    ensures ScanLines(Lines(ls)) == ls
  {
    if ls != [] {
      var s := Lines(ls);
      assert s == ls[0] + "\n" + Lines(ls[1..]);
      assert s[|ls[0]|] == '\n';
      assert s[..|ls[0]|] == ls[0];
      assert '\n' in s;
      IndexOfIsFirst(s, '\n', |ls[0]|);
      assert s[|ls[0]| + 1..] == Lines(ls[1..]);
      ScanLinesOfLines(ls[1..]);
    }
  }

  /** Length of the leading run of characters outside `ws`. */
  function WordLength(s: string, ws: set<char>): (n: nat)
    ensures n <= |s|
    ensures forall j :: 0 <= j < n ==> s[j] !in ws
    ensures n < |s| ==> s[n] in ws
  {
    if s != [] && s[0] !in ws then 1 + WordLength(s[1..], ws) else 0
  }

  /** A non-empty run of characters outside `ws`. */
  predicate IsWord(w: string, ws: set<char>) {
    w != [] && forall j :: 0 <= j < |w| ==> w[j] !in ws
  }

  /** The leading run of a string that starts outside `ws` is a word. */
  lemma LeadingWord(t: string, ws: set<char>)
    requires t != [] && t[0] !in ws
    ensures IsWord(t[..WordLength(t, ws)], ws)
  {
  }

  /** `strings.Fields` for the separator set `ws`: the maximal runs of
      characters outside `ws`, in order. */
  function Fields(s: string, ws: set<char>): (r: seq<string>)
    ensures forall k :: 0 <= k < |r| ==> IsWord(r[k], ws)
    decreases |s|
  {
    var t := TrimLeft(s, ws);
    if t == [] then []
    else
      LeadingWord(t, ws);
      [t[..WordLength(t, ws)]] + Fields(t[WordLength(t, ws)..], ws)
  }

  /** The decimal rendering of a non-negative integer (Go's `%d`,
      JavaScript's `String(n)`). */
  function Decimal(n: nat): (r: string)
    ensures |r| >= 1 && (n < 10 <==> |r| == 1)
    ensures forall j :: 0 <= j < |r| ==> '0' <= r[j] <= '9'
  {
    if n < 10 then [Digit(n)] else Decimal(n / 10) + [Digit(n % 10)]
  }

  function Digit(d: nat): (c: char)
    requires d < 10
    ensures '0' <= c <= '9'
  {
    ['0', '1', '2', '3', '4', '5', '6', '7', '8', '9'][d]
  }

  /** Distinct numbers have distinct renderings. */
  lemma {:induction false} DecimalInjective(a: nat, b: nat)
    requires Decimal(a) == Decimal(b)
    ensures a == b
    decreases a
  {
    if a >= 10 && b >= 10 {
      var da, db := Decimal(a), Decimal(b);
      assert da[|da| - 1] == Digit(a % 10) && db[|db| - 1] == Digit(b % 10);
      assert da[..|da| - 1] == Decimal(a / 10) && db[..|db| - 1] == Decimal(b / 10);
      DecimalInjective(a / 10, b / 10);
    }
  }

  /** Go's `%d` of a signed integer. */
  function SignedDecimal(i: int): (r: string)
    ensures r != [] && (r[0] == '-' <==> i < 0)
  {
    if i < 0 then "-" + Decimal(-i) else Decimal(i)
  }
}
