/** The Python string primitives the record store is built from, as
    functions over `seq<char>`: whitespace as `str.isspace` and the regex
    class `\s` see it, `str.split()` with and without `maxsplit=1`,
    `str.strip()`, `sep.join(...)`, `str.split(sep)`, `str.lower()`,
    substring search, `str.replace` on one character, slicing `s[:n]`,
    decimal rendering of a counter and code-point ordering of strings. */
module Text {
  import opened Wrappers

  /** The characters `str.isspace()` accepts: these separate words for
      `str.split()` and match the regex class `\s`. */
  predicate IsSpace(c: char) {
    c == ' ' || ('\t' <= c <= '\r') || ('\U{1c}' <= c <= '\U{1f}')
    || c == '\U{85}' || c == '\U{a0}' || c == '\U{1680}'
    || ('\U{2000}' <= c <= '\U{200a}') || c == '\U{2028}' || c == '\U{2029}'
    || c == '\U{202f}' || c == '\U{205f}' || c == '\U{3000}'
  }

  /** The regex class `\w`, on its ASCII part. */
  predicate IsWordChar(c: char) {
    ('a' <= c <= 'z') || ('A' <= c <= 'Z') || ('0' <= c <= '9') || c == '_'
  }

  predicate IsDigit(c: char) {
    '0' <= c <= '9'
  }

  predicate AllDigits(s: string) {
    forall i :: 0 <= i < |s| ==> IsDigit(s[i])
  }

  predicate NoSpace(s: string) {
    forall i :: 0 <= i < |s| ==> !IsSpace(s[i])
  }

  predicate AllSpace(s: string) {
    forall i :: 0 <= i < |s| ==> IsSpace(s[i])
  }

  /** `p` is a prefix of `s` (`s.startswith(p)`). */
  predicate IsPrefix(p: string, s: string) {
    |p| <= |s| && s[..|p|] == p
  }

  /** Python truthiness of an optional string: present and non-empty. */
  predicate Truthy(o: Option<string>) {
    o.Some? && o.value != ""
  }

  /** `s.endswith(p)`. */
  predicate IsSuffix(p: string, s: string) {
    |p| <= |s| && s[|s| - |p|..] == p
  }

  // ---------------------------------------------------------------------------
  // Case, slicing and single-character replacement

  function LowerChar(c: char): char {
    if 'A' <= c <= 'Z' then (c as int + 32) as char else c
  }

  /** `s.lower()` on the ASCII letters. */
  function Lower(s: string): (r: string)
    ensures |r| == |s|
    ensures forall i :: 0 <= i < |s| ==> r[i] == LowerChar(s[i])
  {
    seq(|s|, i requires 0 <= i < |s| => LowerChar(s[i]))
  }

  function UpperChar(c: char): char {
    if 'a' <= c <= 'z' then (c as int - 32) as char else c
  }

  /** `s.capitalize()` on the ASCII letters. */
  function Capitalize(s: string): (r: string)
    ensures |r| == |s|
    ensures |r| > 0 ==> !('a' <= r[0] <= 'z')
    ensures forall i :: 1 <= i < |r| ==> !('A' <= r[i] <= 'Z')
  {
    if s == [] then [] else [UpperChar(s[0])] + Lower(s[1..])
  }

  /** Python's slice `s[:n]`. */
  function Take(s: string, n: nat): (r: string)
    ensures |r| <= n && IsPrefix(r, s)
    ensures |s| <= n ==> r == s
  {
    if |s| <= n then s else s[..n]
  }

  /** `s.replace(a, b)` for one-character `a` and `b`. */
  function ReplaceChar(s: string, a: char, b: char): (r: string)
    ensures |r| == |s|
    ensures forall i :: 0 <= i < |s| ==> r[i] == if s[i] == a then b else s[i]
  {
    seq(|s|, i requires 0 <= i < |s| => if s[i] == a then b else s[i])
  }

  /** The characters of `s` that satisfy `keep`, in order: a regex
      substitution of a negated character class by '', or `s.replace(a, '')`
      for one character `a`. */
  function FilterChars(s: string, keep: char -> bool): (r: string)
    ensures |r| <= |s|
    ensures forall i :: 0 <= i < |r| ==> keep(r[i])
  {
    if s == [] then []
    else if keep(s[0]) then [s[0]] + FilterChars(s[1..], keep)
    else FilterChars(s[1..], keep)
  }

  /** The test that keeps every character but `a`: `FilterChars(s,
      NotChar(a))` is `s.replace(a, '')`. */
  function NotChar(a: char): char -> bool {
    c => c != a
  }

  /** The characters `[\w\s-]`. */
  predicate CleanChar(c: char) {
    IsWordChar(c) || IsSpace(c) || c == '-'
  }

  /** The characters of names and ids made from free text: lower-case
      letters, digits, '_' and '-'. */
  predicate SlugChar(c: char) {
    ('a' <= c <= 'z') || IsDigit(c) || c == '_' || c == '-'
  }

  /** `re.sub(r'[^\w\s-]', '', s.lower())`. */
  function CleanLower(s: string): string {
    FilterChars(Lower(s), CleanChar)
  }

  // ---------------------------------------------------------------------------
  // Whitespace runs, strip and split

  /** Length of the leading whitespace run. */
  function LeadingSpaces(s: string): (n: nat)
    ensures n <= |s|
    ensures forall i :: 0 <= i < n ==> IsSpace(s[i])
    ensures n < |s| ==> !IsSpace(s[n])
  {
    if s == [] || !IsSpace(s[0]) then 0 else 1 + LeadingSpaces(s[1..])
  }

  /** Length of the leading run of non-whitespace characters. */
  function TokenLength(s: string): (n: nat)
    ensures n <= |s|
    ensures forall i :: 0 <= i < n ==> !IsSpace(s[i])
    ensures n < |s| ==> IsSpace(s[n])
  {
    if s == [] || IsSpace(s[0]) then 0 else 1 + TokenLength(s[1..])
  }

  /** Length of the trailing whitespace run. */
  function TrailingSpaces(s: string): (n: nat)
    ensures n <= |s|
    ensures forall i :: |s| - n <= i < |s| ==> IsSpace(s[i])
    ensures n < |s| ==> !IsSpace(s[|s| - n - 1])
  {
    if s == [] || !IsSpace(s[|s| - 1]) then 0 else 1 + TrailingSpaces(s[..|s| - 1])
  }

  /** `s.strip()`: `s` without its leading and trailing whitespace runs. */
  function Strip(s: string): (r: string)
    ensures |r| <= |s|
    ensures r == [] || (!IsSpace(r[0]) && !IsSpace(r[|r| - 1]))
  {
    var t := s[LeadingSpaces(s)..];
    t[..|t| - TrailingSpaces(t)]
  }

  /** `s.split()`: the maximal runs of non-whitespace characters, in order. */
  function Split(s: string): (words: seq<string>)
    ensures forall w | w in words :: w != [] && NoSpace(w)
    decreases |s|
  {
    var a := LeadingSpaces(s);
    if a == |s| then []
    else
      var t := s[a..];
      var n := TokenLength(t);
      [t[..n]] + Split(t[n..])
  }

  /** `s.split(maxsplit=1)`: the first word, and the rest of the text after
      the whitespace that follows it when anything is left. */
  function SplitOnce(s: string): (parts: seq<string>)
    ensures |parts| <= 2
    ensures parts == [] <==> AllSpace(s)
    ensures parts != [] ==> parts[0] != [] && NoSpace(parts[0])
    ensures |parts| == 2 ==> parts[1] != [] && !IsSpace(parts[1][0])
  {
    var a := LeadingSpaces(s);
    if a == |s| then []
    else
      var t := s[a..];
      var n := TokenLength(t);
      var rest := t[n..];
      var b := LeadingSpaces(rest);
      if b == |rest| then [t[..n]] else [t[..n], rest[b..]]
  }

  /** `sep.join(parts)`. */
  function Join(sep: string, parts: seq<string>): string {
    if parts == [] then ""
    else if |parts| == 1 then parts[0]
    else parts[0] + sep + Join(sep, parts[1..])
  }

  /** `re.sub(r"\s+", sub, s)`: every whitespace run becomes one `sub`. */
  function ReplaceSpaceRuns(s: string, sub: char): (r: string)
    ensures NoSpace(r) || IsSpace(sub)
    decreases |s|
  {
    if s == [] then []
    else if IsSpace(s[0]) then [sub] + ReplaceSpaceRuns(s[LeadingSpaces(s)..], sub)
    else [s[0]] + ReplaceSpaceRuns(s[1..], sub)
  }

  // ---------------------------------------------------------------------------
  // Substrings and `str.split(sep)`

  /** Index of the first occurrence of `p` in `s` (`s.find(p)`), if any. */
  function IndexOf(s: string, p: string): (r: Option<nat>)
    ensures r.Some? ==> r.value + |p| <= |s| && s[r.value..r.value + |p|] == p
    ensures r.Some? ==> forall j :: 0 <= j < r.value ==> !IsPrefix(p, s[j..])
    ensures r.None? ==> forall j :: 0 <= j <= |s| ==> !IsPrefix(p, s[j..])
    decreases |s|
  {
    if IsPrefix(p, s) then Some(0)
    else if s == [] then None
    else match IndexOf(s[1..], p)
      case None =>
        assert forall j :: 1 <= j <= |s| ==> s[j..] == s[1..][j - 1..];
        None
      case Some(i) =>
        assert forall j :: 1 <= j <= i ==> s[j..] == s[1..][j - 1..];
        Some(i + 1)
  }

  /** Python's `needle in hay` on strings. */
  predicate Contains(hay: string, needle: string) {
    IndexOf(hay, needle).Some?
  }

  /** `s.split(sep)` for a non-empty separator. */
  function SplitOn(s: string, sep: string): (parts: seq<string>)
    requires sep != []
    ensures |parts| >= 1
    decreases |s|
  {
    match IndexOf(s, sep)
    case None => [s]
    case Some(i) => [s[..i]] + SplitOn(s[i + |sep|..], sep)
  }

  /** One step of `SplitOn`: the piece before the first separator, then
      the split of what follows it. */
  lemma SplitOnFound(s: string, sep: string)
    requires sep != [] && IndexOf(s, sep).Some?
    ensures var i := IndexOf(s, sep).value;
            && i + |sep| <= |s|
            && SplitOn(s, sep) == [s[..i]] + SplitOn(s[i + |sep|..], sep)
  {
  }

  // ---------------------------------------------------------------------------
  // Numbers and ordering

  function DigitChar(d: nat): (c: char)
    requires d < 10
    ensures IsDigit(c)
  {
    ('0' as int + d) as char
  }

  /** `str(n)` for a non-negative integer. */
  function NatToString(n: nat): (r: string)
    ensures r != [] && forall i :: 0 <= i < |r| ==> IsDigit(r[i])
  {
    if n < 10 then [DigitChar(n)] else NatToString(n / 10) + [DigitChar(n % 10)]
  }

  /** The value of a run of decimal digits (what `int(s)` reads back). */
  function DigitsValue(s: string): nat
    requires forall i :: 0 <= i < |s| ==> IsDigit(s[i])
  {
    if s == [] then 0
    else
      assert IsDigit(s[|s| - 1]);
      10 * DigitsValue(s[..|s| - 1]) + (s[|s| - 1] as int - '0' as int)
  }

  /** Python's `a <= b` on strings: code point by code point. */
  predicate LessEq(a: string, b: string)
    decreases |a|
  {
    a == [] || (b != [] && (a[0] < b[0] || (a[0] == b[0] && LessEq(a[1..], b[1..]))))
  }

  // ---------------------------------------------------------------------------
  // Lemmas

  lemma {:induction false} LeadingSpacesAppend(s: string, u: string)
    requires !AllSpace(s)
    ensures LeadingSpaces(s + u) == LeadingSpaces(s)
  {
    if IsSpace(s[0]) {
      assert (s + u)[1..] == s[1..] + u;
      LeadingSpacesAppend(s[1..], u);
    }
  }

  lemma {:induction false} TrailingSpacesAppend(t: string, ws: string)
    requires AllSpace(ws)
    ensures TrailingSpaces(t + ws) == TrailingSpaces(t) + |ws|
    decreases |ws|
  {
    if ws != [] {
      var ws' := ws[..|ws| - 1];
      assert (t + ws)[..|t + ws| - 1] == t + ws';
      TrailingSpacesAppend(t, ws');
    } else {
      assert t + ws == t;
    }
  }

  lemma StripAllSpace(s: string)
    ensures Strip(s) == [] <==> AllSpace(s)
  {
    if !AllSpace(s) {
      var a := LeadingSpaces(s);
      assert a < |s|;
      var t := s[a..];
      assert !IsSpace(t[0]);
      assert TrailingSpaces(t) < |t|;
    }
  }

  /** Whitespace appended to a text does not change what `strip()` keeps. */
  lemma StripAppendSpaces(s: string, ws: string)
    requires AllSpace(ws)
    ensures Strip(s + ws) == Strip(s)
  {
    if AllSpace(s) {
      StripAllSpace(s);
      StripAllSpace(s + ws);
    } else {
      LeadingSpacesAppend(s, ws);
      var a := LeadingSpaces(s);
      assert (s + ws)[a..] == s[a..] + ws;
      TrailingSpacesAppend(s[a..], ws);
    }
  }

  lemma {:induction false} SplitAllSpace(s: string)
    ensures Split(s) == [] <==> AllSpace(s)
  {
    var a := LeadingSpaces(s);
    if a < |s| { assert !IsSpace(s[a]); }
  }

  /** `s.split()` after a word: the word, then the words of what follows. */
  lemma {:induction false} SplitWordThen(w: string, rest: string)
    requires w != [] && NoSpace(w)
    requires rest == [] || IsSpace(rest[0])
    ensures Split(w + rest) == [w] + Split(rest)
  {
    var s := w + rest;
    assert LeadingSpaces(s) == 0;
    TokenLengthWord(w, rest);
    assert s[..|w|] == w && s[|w|..] == rest;
  }

  /** `s.split(maxsplit=1)` of a word, one space and text that starts with
      a visible character: the word and that text. */
  lemma SplitOnceOf(w: string, rest: string)
    requires w != [] && NoSpace(w)
    requires rest != [] && !IsSpace(rest[0])
    ensures SplitOnce(w + (" " + rest)) == [w, rest]
  {
    var tail := " " + rest;
    var s := w + tail;
    assert s[0] == w[0];
    assert LeadingSpaces(s) == 0;
    assert s[0..] == s;
    TokenLengthWord(w, tail);
    assert s[..|w|] == w && s[|w|..] == tail;
    assert tail[1..] == rest;
    assert LeadingSpaces(rest) == 0;
    assert LeadingSpaces(tail) == 1;
  }

  lemma {:induction false} TokenLengthWord(w: string, rest: string)
    requires NoSpace(w)
    requires rest == [] || IsSpace(rest[0])
    ensures TokenLength(w + rest) == |w|
    decreases |w|
  {
    if w != [] {
      assert (w + rest)[1..] == w[1..] + rest;
      TokenLengthWord(w[1..], rest);
    } else {
      assert w + rest == rest;
    }
  }

  /** Leading whitespace does not change `s.split()`. */
  lemma {:induction false} SplitSkipSpaces(ws: string, s: string)
    requires AllSpace(ws)
    ensures Split(ws + s) == Split(s)
    decreases |ws|
  {
    if ws != [] {
      var u := ws + s;
      assert u[1..] == ws[1..] + s;
      SplitSkipSpaces(ws[1..], s);
      assert LeadingSpaces(u) == 1 + LeadingSpaces(u[1..]);
      assert u[LeadingSpaces(u)..] == u[1..][LeadingSpaces(u[1..])..];
    } else {
      assert ws + s == s;
    }
  }

  /** Splitting single-space-joined words gives the words back. */
  lemma {:induction false} SplitJoin(ws: seq<string>)
    requires forall w | w in ws :: w != [] && NoSpace(w)
    ensures Split(Join(" ", ws)) == ws
  {
    if ws == [] {
    } else if |ws| == 1 {
      var w := ws[0];
      assert w in ws;
      SplitWordThen(w, []);
      assert w + [] == w;
    } else {
      var w, tail := ws[0], ws[1..];
      assert w in ws;
      assert ws == [w] + tail;
      assert forall v | v in tail :: v in ws;
      var j := Join(" ", tail);
      JoinCons(" ", w, tail);
      Assoc(w, " ", j);
      SplitWordThen(w, " " + j);
      SplitSkipSpaces(" ", j);
      SplitJoin(tail);
    }
  }

  /** Joining a first part onto more parts puts the separator between. */
  lemma JoinCons(sep: string, a: string, tail: seq<string>)
    requires tail != []
    ensures Join(sep, [a] + tail) == a + sep + Join(sep, tail)
  {
    assert ([a] + tail)[1..] == tail;
  }

  /** A string is what comes before an occurrence, the occurrence, and what
      comes after it. */
  lemma Reassemble(s: string, i: nat, sep: string)
    requires i + |sep| <= |s| && s[i..i + |sep|] == sep
    ensures s[..i] + sep + s[i + |sep|..] == s
  {
  }

  /** Joining the parts of `s.split(sep)` with `sep` gives `s` back. */
  lemma {:induction false} JoinSplitOn(s: string, sep: string)
    requires sep != []
    ensures Join(sep, SplitOn(s, sep)) == s
    decreases |s|
  {
    var found := IndexOf(s, sep);
    if found.Some? {
      var i := found.value;
      var rest := s[i + |sep|..];
      var tail := SplitOn(rest, sep);
      JoinSplitOn(rest, sep);
      assert SplitOn(s, sep) == [s[..i]] + tail;
      JoinCons(sep, s[..i], tail);
      Reassemble(s, i, sep);
    }
  }

  /** Reading back the decimal rendering of a counter gives the counter. */
  lemma {:induction false} NatToStringValue(n: nat)
    ensures DigitsValue(NatToString(n)) == n
  {
    if n >= 10 {
      NatToStringValue(n / 10);
      var r := NatToString(n);
      assert r[..|r| - 1] == NatToString(n / 10);
    }
  }

  lemma {:induction false} LessEqRefl(a: string)
    ensures LessEq(a, a)
  {
    if a != [] { LessEqRefl(a[1..]); }
  }

  lemma {:induction false} LessEqTotal(a: string, b: string)
    ensures LessEq(a, b) || LessEq(b, a)
  {
    if a != [] && b != [] && a[0] == b[0] { LessEqTotal(a[1..], b[1..]); }
  }

  lemma {:induction false} LessEqTrans(a: string, b: string, c: string)
    requires LessEq(a, b) && LessEq(b, c)
    ensures LessEq(a, c)
  {
    if a != [] && a[0] == b[0] && b[0] == c[0] { LessEqTrans(a[1..], b[1..], c[1..]); }
  }

  lemma {:induction false} FilterFrom(s: string, keep: char -> bool)
    ensures forall c | c in FilterChars(s, keep) :: c in s
    decreases |s|
  {
    if s != [] {
      FilterFrom(s[1..], keep);
    }
  }

  /** Filtering distributes over concatenation. */
  lemma {:induction false} FilterAppend(a: string, b: string, keep: char -> bool)
    ensures FilterChars(a + b, keep) == FilterChars(a, keep) + FilterChars(b, keep)
    decreases |a|
  {
    if a == [] {
      assert a + b == b;
    } else {
      assert (a + b)[1..] == a[1..] + b;
      FilterAppend(a[1..], b, keep);
    }
  }

  /** Every character of a word of `s.split()` is a character of `s`. */
  lemma {:induction false} SplitFrom(s: string)
    ensures forall w, c | w in Split(s) && c in w :: c in s
    decreases |s|
  {
    var a := LeadingSpaces(s);
    if a < |s| {
      var t := s[a..];
      var n := TokenLength(t);
      SplitFrom(t[n..]);
      forall w, c | w in Split(s) && c in w ensures c in s {
        if w == t[..n] {
          assert c in t;
        } else {
          assert w in Split(t[n..]);
          assert c in t[n..];
          assert c in t;
        }
      }
    }
  }

  /** A property of every character of the separator and of the parts holds
      for every character of the joined text. */
  lemma {:induction false} JoinKeeps(sep: string, parts: seq<string>, ok: char -> bool)
    requires forall c | c in sep :: ok(c)
    requires forall w, c | w in parts && c in w :: ok(c)
    ensures forall c | c in Join(sep, parts) :: ok(c)
    decreases |parts|
  {
    if |parts| > 1 {
      assert parts[0] in parts;
      assert forall w | w in parts[1..] :: w in parts;
      JoinKeeps(sep, parts[1..], ok);
    } else if |parts| == 1 {
      assert parts[0] in parts;
    }
  }

  lemma {:induction false} FilterKeepsAll(s: string, keep: char -> bool)
    requires forall i :: 0 <= i < |s| ==> keep(s[i])
    ensures FilterChars(s, keep) == s
    decreases |s|
  {
    if s != [] {
      FilterKeepsAll(s[1..], keep);
    }
  }

  lemma DropLeading(y: string, a: char)
    ensures FilterChars([a] + y, NotChar(a)) == FilterChars(y, NotChar(a))
  {
    assert ([a] + y)[0] == a && ([a] + y)[1..] == y;
    assert !NotChar(a)(a);
  }

  lemma KeepsAllBut(x: string, a: char)
    requires a !in x
    ensures FilterChars(x, NotChar(a)) == x
  {
    assert forall i :: 0 <= i < |x| ==> x[i] in x && NotChar(a)(x[i]);
    FilterKeepsAll(x, NotChar(a));
  }

  /** Removing a separator character from two pieces joined by it. */
  lemma DropSeparator(x: string, y: string, a: char)
    requires a !in x && a !in y
    ensures FilterChars(x + [a] + y, NotChar(a)) == x + y
  {
    assert x + [a] + y == x + ([a] + y);
    FilterAppend(x, [a] + y, NotChar(a));
    DropLeading(y, a);
    KeepsAllBut(x, a);
    KeepsAllBut(y, a);
  }

  /** Removing a separator character from three pieces joined by it. */
  lemma DropSeparators(x: string, y: string, z: string, a: char)
    requires a !in x && a !in y && a !in z
    ensures FilterChars(x + [a] + y + [a] + z, NotChar(a)) == x + y + z
  {
    DropSeparator(x, y, a);
    assert x + [a] + y + [a] + z == (x + [a] + y) + ([a] + z);
    FilterAppend(x + [a] + y, [a] + z, NotChar(a));
    DropLeading(z, a);
    KeepsAllBut(z, a);
  }

  lemma DigitsLack(s: string, a: char)
    requires AllDigits(s) && !IsDigit(a)
    ensures a !in s
  {
  }

  lemma Peel(a: string, b: string)
    ensures IsPrefix(a, a + b) && (a + b)[|a|..] == b
  {
    assert (a + b)[..|a|] == a;
  }

  lemma SuffixAppend(a: string, b: string)
    ensures IsSuffix(b, a + b)
  {
    assert (a + b)[|a|..] == b;
  }

  /** The first and last characters of a concatenation. */
  lemma ConcatEnds(a: string, b: string)
    requires a != [] && b != []
    ensures (a + b)[0] == a[0] && (a + b)[|a + b| - 1] == b[|b| - 1]
  {
  }

  lemma Assoc(a: string, b: string, c: string)
    ensures (a + b) + c == a + (b + c)
  {
  }

  lemma PrefixAppend(p: string, a: string, b: string)
    requires IsPrefix(p, a)
    ensures IsPrefix(p, a + b)
  {
    assert (a + b)[..|p|] == a[..|p|];
  }

  lemma PrefixTrans(a: string, b: string, c: string)
    requires IsPrefix(a, b) && IsPrefix(b, c)
    ensures IsPrefix(a, c)
  {
    assert c[..|b|][..|a|] == c[..|a|];
  }

  /** Two texts that differ at position `i` are not both prefixes of `s`. */
  lemma PrefixesDisagree(a: string, b: string, s: string, i: nat)
    requires IsPrefix(a, s) && i < |a| && i < |b| && a[i] != b[i]
    ensures !IsPrefix(b, s)
  {
    assert s[..|a|][i] == s[i];
    if |b| <= |s| {
      assert s[..|b|][i] == s[i];
    }
  }

  /** What survives the clean-up is a slug character or whitespace. */
  lemma CleanLowerChars(s: string)
    ensures forall c | c in CleanLower(s) :: SlugChar(c) || IsSpace(c)
  {
    FilterFrom(Lower(s), CleanChar);
    forall c | c in CleanLower(s) ensures SlugChar(c) || IsSpace(c) {
      var i :| 0 <= i < |CleanLower(s)| && CleanLower(s)[i] == c;
      assert CleanChar(c) && c in Lower(s);
      var j :| 0 <= j < |s| && Lower(s)[j] == c;
      assert c == LowerChar(s[j]);
    }
  }

  /** Every character of `re.sub(r"\s+", sub, s)` is `sub` or a
      non-whitespace character of `s`. */
  lemma {:induction false} ReplaceSpaceRunsChars(s: string, sub: char, ok: char -> bool)
    requires forall i :: 0 <= i < |s| ==> ok(s[i]) || IsSpace(s[i])
    requires ok(sub)
    ensures forall i :: 0 <= i < |ReplaceSpaceRuns(s, sub)| ==> ok(ReplaceSpaceRuns(s, sub)[i])
    decreases |s|
  {
    if s != [] {
      if IsSpace(s[0]) {
        var n := LeadingSpaces(s);
        assert forall i :: 0 <= i < |s[n..]| ==> s[n..][i] == s[n + i];
        ReplaceSpaceRunsChars(s[n..], sub, ok);
      } else {
        assert forall i :: 0 <= i < |s[1..]| ==> s[1..][i] == s[1 + i];
        ReplaceSpaceRunsChars(s[1..], sub, ok);
      }
    }
  }

  /** Text without whitespace is left alone by `re.sub(r"\s+", sub, s)`. */
  lemma {:induction false} ReplaceSpaceRunsNone(s: string, sub: char)
    requires NoSpace(s)
    ensures ReplaceSpaceRuns(s, sub) == s
    decreases |s|
  {
    if s != [] {
      ReplaceSpaceRunsNone(s[1..], sub);
    }
  }

  /** Text without upper-case ASCII letters is left alone by `lower()`. */
  lemma LowerNone(s: string)
    requires forall i :: 0 <= i < |s| ==> !('A' <= s[i] <= 'Z')
    ensures Lower(s) == s
  {
  }

  /** A text framed by one newline on each side strips back to itself. */
  lemma StripFramed(x: string)
    requires x != [] && !IsSpace(x[0]) && !IsSpace(x[|x| - 1])
    ensures Strip("\n" + x + "\n") == x
  {
    var s := "\n" + x + "\n";
    assert s[1..][0] == x[0];
    assert LeadingSpaces(s) == 1 + LeadingSpaces(s[1..]);
    assert LeadingSpaces(s[1..]) == 0;
    var t := s[1..];
    assert t == x + "\n";
    assert t[..|t| - 1] == x;
    assert TrailingSpaces(t) == 1 + TrailingSpaces(x);
    assert TrailingSpaces(x) == 0;
  }

  /** `s.strip() == s` exactly when `s` neither starts nor ends with
      whitespace. */
  lemma StripIdentity(s: string)
    ensures Strip(s) == s <==> s == [] || (!IsSpace(s[0]) && !IsSpace(s[|s| - 1]))
  {
    if s != [] && !IsSpace(s[0]) && !IsSpace(s[|s| - 1]) {
      assert LeadingSpaces(s) == 0;
      assert s[0..] == s;
      assert TrailingSpaces(s) == 0;
    }
  }

  /** A text with no occurrence of `p`, followed by a text whose first
      character is not in `p`: the first occurrence lies in the second part. */
  lemma {:induction false} IndexOfAfter(a: string, t: string, p: string)
    requires p != [] && !Contains(a, p)
    requires t == [] || t[0] !in p
    ensures IndexOf(t, p).None? ==> IndexOf(a + t, p).None?
    ensures IndexOf(t, p).Some? ==> IndexOf(a + t, p) == Some(|a| + IndexOf(t, p).value)
    decreases |a|
  {
    if a == [] {
      assert a + t == t;
    } else {
      var a1 := a[1..];
      var s, rest := a + t, a1 + t;
      AbsentTail(a, p);
      NotPrefixAcross(p, a, t);
      assert s[1..] == rest;
      IndexOfAfter(a1, t, p);
      IndexOfTail(s, rest, p);
    }
  }

  /** A non-empty text without `p` does not start with it, and its tail
      holds no `p` either. */
  lemma AbsentTail(a: string, p: string)
    requires a != [] && !Contains(a, p)
    ensures !IsPrefix(p, a) && !Contains(a[1..], p)
  {
    assert a[0..] == a;
  }

  /** One step of the search, for a text whose tail is `rest`. */
  lemma IndexOfTail(s: string, rest: string, p: string)
    requires s != [] && !IsPrefix(p, s) && s[1..] == rest
    ensures IndexOf(rest, p).None? ==> IndexOf(s, p).None?
    ensures IndexOf(rest, p).Some? ==> IndexOf(s, p) == Some(IndexOf(rest, p).value + 1)
  {
    IndexOfStep(s, p);
  }

  /** One step of the search: past a position where `p` does not start. */
  lemma IndexOfStep(s: string, p: string)
    requires s != [] && !IsPrefix(p, s)
    ensures IndexOf(s[1..], p).None? ==> IndexOf(s, p).None?
    ensures IndexOf(s[1..], p).Some? ==> IndexOf(s, p) == Some(IndexOf(s[1..], p).value + 1)
  {
  }

  /** A text that does not start with `p`, followed by a text whose first
      character is not in `p`, does not start with `p` either. */
  lemma NotPrefixAcross(p: string, a: string, t: string)
    requires !IsPrefix(p, a)
    requires t == [] || t[0] !in p
    ensures !IsPrefix(p, a + t)
  {
    var s := a + t;
    if |p| <= |a| {
      assert a[..|p|] == s[..|p|];
    } else if |p| <= |s| {
      assert s[..|p|][|a|] == t[0];
    }
  }

}
