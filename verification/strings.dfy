/** The handful of Rust `str` operations the HTTP layer is built from, over
    `string` (a sequence of Unicode scalar values): ASCII upper-casing
    (`to_uppercase`), `char::is_whitespace`, `trim_start`/`trim_end`/`trim`,
    `trim_matches`, `split`, `split_once` and the line reader behind
    `BufRead::read_line`. Each is characterised by a contract that fixes its
    result uniquely, so the rest of the model can reason about the contract
    rather than the recursion. */
module Strings {

  // ---------------------------------------------------------------------------
  // Characters
  // ---------------------------------------------------------------------------

  /** Rust's `char::is_whitespace`: the Unicode White_Space property. */
  predicate IsWhitespace(c: char) {
    || ('\t' <= c <= '\r')          // U+0009 .. U+000D
    || c == ' '
    || c == '\U{0085}' || c == '\U{00A0}' || c == '\U{1680}'
    || ('\U{2000}' <= c <= '\U{200A}')
    || c == '\U{2028}' || c == '\U{2029}' || c == '\U{202F}'
    || c == '\U{205F}' || c == '\U{3000}'
  }

  predicate IsAsciiLower(c: char) { 'a' <= c <= 'z' }

  predicate IsAsciiUpper(c: char) { 'A' <= c <= 'Z' }

  function ToUpperChar(c: char): (u: char)
    ensures IsAsciiLower(c) ==> IsAsciiUpper(u) && u as int == c as int - 32
    ensures !IsAsciiLower(c) ==> u == c
  {
    if IsAsciiLower(c) then (c as int - 32) as char else c
  }

  function ToLowerChar(c: char): (l: char)
    ensures IsAsciiUpper(c) ==> IsAsciiLower(l) && l as int == c as int + 32
    ensures !IsAsciiUpper(c) ==> l == c
  {
    if IsAsciiUpper(c) then (c as int + 32) as char else c
  }

  /** `str::to_uppercase`, restricted to the ASCII letters. */
  function ToUpper(s: string): (u: string)
    ensures |u| == |s|
    ensures forall i :: 0 <= i < |s| ==> u[i] == ToUpperChar(s[i])
  {
    seq(|s|, i requires 0 <= i < |s| => ToUpperChar(s[i]))
  }

  /** Upper-casing a character never makes or unmakes whitespace. */
  lemma ToUpperCharKeepsWhitespace(c: char)
    ensures IsWhitespace(ToUpperChar(c)) <==> IsWhitespace(c)
  {
  }

  /** No ASCII lower-case letter occurs in `t`: the shape of every canonical token. */
  predicate IsUpperCase(t: string) {
    forall i :: 0 <= i < |t| ==> !IsAsciiLower(t[i])
  }

  /** `s` spells `t` in some mix of letter cases: each character of `s` is the
      character of `t` at that position or its lower-case form. */
  predicate SpellsIgnoringCase(s: string, t: string) {
    && |s| == |t|
    && forall i :: 0 <= i < |s| ==> s[i] == t[i] || s[i] == ToLowerChar(t[i])
  }

  lemma ToUpperResultIsUpperCase(s: string)
    ensures IsUpperCase(ToUpper(s))
  {
  }

  /** Upper-casing `s` yields the upper-case token `t` exactly when `s` spells
      `t` in some mix of letter cases. */
  lemma ToUpperEqualsIff(s: string, t: string)
    requires IsUpperCase(t)
    ensures ToUpper(s) == t <==> SpellsIgnoringCase(s, t)
  {
    if SpellsIgnoringCase(s, t) {
      assert forall i :: 0 <= i < |s| ==> ToUpper(s)[i] == t[i];
    }
  }

  // ---------------------------------------------------------------------------
  // Trimming
  // ---------------------------------------------------------------------------

  /** The characters a trim removes: Rust's whitespace, or one given character. */
  datatype CharClass = Whitespace | Only(c: char)

  predicate InClass(x: char, k: CharClass) {
    match k
    case Whitespace => IsWhitespace(x)
    case Only(c) => x == c
  }

  /** Removes the longest prefix of characters in `k` (`trim_start`,
      `trim_start_matches`). */
  function TrimStart(s: string, k: CharClass): (t: string)
    ensures |t| <= |s| && t == s[|s| - |t|..]
    ensures forall i :: 0 <= i < |s| - |t| ==> InClass(s[i], k)
    ensures t == [] || !InClass(t[0], k)
    decreases |s|
  {
    if s != [] && InClass(s[0], k) then TrimStart(s[1..], k) else s
  }

  /** Removes the longest suffix of characters in `k` (`trim_end`,
      `trim_end_matches`). */
  function TrimEnd(s: string, k: CharClass): (t: string)
    ensures |t| <= |s| && t == s[..|t|]
    ensures forall i :: |t| <= i < |s| ==> InClass(s[i], k)
    ensures t == [] || !InClass(t[|t| - 1], k)
    decreases |s|
  {
    if s != [] && InClass(s[|s| - 1], k) then TrimEnd(s[..|s| - 1], k) else s
  }

  /** Both ends stripped: `trim` for `Whitespace`, `trim_matches(c)` for `Only(c)`. */
  function Trim(s: string, k: CharClass): string {
    TrimEnd(TrimStart(s, k), k)
  }

  /** Every character of `s` is in `k`. */
  predicate AllIn(s: string, k: CharClass) {
    forall i :: 0 <= i < |s| ==> InClass(s[i], k)
  }

  /** A line is blank when nothing but whitespace is on it. */
  predicate IsBlank(s: string) {
    AllIn(s, Whitespace)
  }

  /** `TrimStart` stops at the first character outside `k`: any `n` with only
      class characters before it and none at it is where the result begins. */
  lemma TrimStartAt(s: string, k: CharClass, n: nat)
    requires n <= |s|
    requires forall i :: 0 <= i < n ==> InClass(s[i], k)
    requires n == |s| || !InClass(s[n], k)
    ensures TrimStart(s, k) == s[n..]
  {
  }

  /** `TrimEnd` stops at the last character outside `k`. */
  lemma TrimEndAt(s: string, k: CharClass, n: nat)
    requires n <= |s|
    requires forall i :: n <= i < |s| ==> InClass(s[i], k)
    requires n == 0 || !InClass(s[n - 1], k)
    ensures TrimEnd(s, k) == s[..n]
  {
  }

  /** Trimming leaves nothing exactly when there was nothing but trimmable text. */
  lemma TrimEmptyIff(s: string, k: CharClass)
    ensures Trim(s, k) == [] <==> AllIn(s, k)
  {
    if Trim(s, k) == [] {
      assert TrimStart(s, k) == [];
    }
  }

  /** A trimmed text neither starts nor ends with a trimmable character. */
  lemma TrimEnds(s: string, k: CharClass)
    ensures var t := Trim(s, k); t == [] || (!InClass(t[0], k) && !InClass(t[|t| - 1], k))
  {
    var a := TrimStart(s, k);
    var t := TrimEnd(a, k);
    if t != [] {
      assert a != [] && t[0] == a[0];
    }
  }

  /** One more trimmable character in front changes nothing. */
  lemma TrimStartCons(x: char, s: string, k: CharClass)
    requires InClass(x, k)
    ensures TrimStart([x] + s, k) == TrimStart(s, k)
  {
    assert ([x] + s)[1..] == s;
  }

  /** One more trimmable character behind changes nothing. */
  lemma TrimEndSnoc(s: string, x: char, k: CharClass)
    requires InClass(x, k)
    ensures TrimEnd(s + [x], k) == TrimEnd(s, k)
  {
    assert (s + [x])[..|s|] == s;
  }

  /** Text made only of trimmable characters trims to nothing. */
  lemma TrimStartOfAllIn(s: string, k: CharClass)
    requires AllIn(s, k)
    ensures TrimStart(s, k) == []
  {
    TrimStartAt(s, k, |s|);
  }

  /** Past a character that stays, trimming the front ignores what is
      appended at the back. */
  lemma TrimStartSnoc(s: string, x: char, k: CharClass)
    requires !AllIn(s, k)
    ensures TrimStart(s + [x], k) == TrimStart(s, k) + [x]
  {
    var t := TrimStart(s, k);
    var n := |s| - |t|;
    var sx := s + [x];
    assert forall i :: 0 <= i < n ==> sx[i] == s[i];
    TrimStartAt(sx, k, n);
    assert sx[n..] == t + [x];
  }

  lemma TrimCons(x: char, s: string, k: CharClass)
    requires InClass(x, k)
    ensures Trim([x] + s, k) == Trim(s, k)
  {
    TrimStartCons(x, s, k);
  }

  lemma TrimSnoc(s: string, x: char, k: CharClass)
    requires InClass(x, k)
    ensures Trim(s + [x], k) == Trim(s, k)
  {
    if AllIn(s, k) {
      TrimStartOfAllIn(s + [x], k);
      TrimEmptyIff(s, k);
    } else {
      TrimStartSnoc(s, x, k);
      TrimEndSnoc(TrimStart(s, k), x, k);
    }
  }

  // ---------------------------------------------------------------------------
  // Splitting
  // ---------------------------------------------------------------------------

  /** Position of the first `c` in `s`. */
  function IndexOf(s: string, c: char): (i: nat)
    requires c in s
    ensures i < |s| && s[i] == c && c !in s[..i]
  {
    if s[0] == c then 0 else 1 + IndexOf(s[1..], c)
  }

  lemma SliceJoin(s: string, a: nat, b: nat)
    requires a <= b <= |s|
    ensures s[..b][a..] + s[b..] == s[a..]
  {
  }

  /** The first `c` is at `j` when `s[j]` is `c` and none comes before. */
  lemma IndexOfUnique(s: string, c: char, j: nat)
    requires j < |s| && s[j] == c && c !in s[..j]
    ensures c in s && IndexOf(s, c) == j
  {
    assert s[j] in s;
  }

  /** The parts joined back together with `d` between neighbours. */
  function Join(parts: seq<string>, d: char): string {
    if |parts| == 0 then []
    else if |parts| == 1 then parts[0]
    else parts[0] + [d] + Join(parts[1..], d)
  }

  /** Three pieces joined with `d` between them. */
  lemma JoinThree(a: string, b: string, c: string, d: char)
    ensures Join([a, b, c], d) == a + [d] + b + [d] + c
  {
    var parts := [a, b, c];
    assert parts[1..] == [b, c];
    assert parts[1..][1..] == [c];
    assert Join([b, c], d) == b + [d] + c;
  }

  /** `str::split` on a single character: the maximal `d`-free pieces of `s`,
      empty pieces included, so that there is always at least one. */
  function Split(s: string, d: char): (parts: seq<string>)
    ensures |parts| >= 1
    ensures forall i :: 0 <= i < |parts| ==> d !in parts[i]
    ensures Join(parts, d) == s
    decreases |s|
  {
    if d in s then
      var i := IndexOf(s, d);
      var rest := Split(s[i + 1..], d);
      assert ([s[..i]] + rest)[1..] == rest;
      assert s == s[..i] + [d] + s[i + 1..];
      [s[..i]] + rest
    else
      [s]
  }

  /** The first `d` of `a + [d] + b`, where `a` holds none, is right after `a`. */
  lemma IndexOfAfter(a: string, d: char, b: string)
    requires d !in a
    ensures d in a + [d] + b && IndexOf(a + [d] + b, d) == |a|
  {
    var s := a + [d] + b;
    assert s[|a|] == d;
    var i := IndexOf(s, d);
    assert s[..|a|] == a;
  }

  /** Splitting undoes joining: the pieces of a `d`-joined list are the list. */
  lemma {:induction false} SplitJoin(parts: seq<string>, d: char)
    requires |parts| >= 1
    requires forall i :: 0 <= i < |parts| ==> d !in parts[i]
    ensures Split(Join(parts, d), d) == parts
    decreases |parts|
  {
    if |parts| > 1 {
      var tail := Join(parts[1..], d);
      assert Join(parts, d) == parts[0] + [d] + tail;
      SplitCons(parts[0], d, tail);
      SplitJoin(parts[1..], d);
      assert parts == [parts[0]] + parts[1..];
    }
  }

  /** A `d`-free piece followed by `d` is the first piece of the split. */
  lemma SplitCons(a: string, d: char, b: string)
    requires d !in a
    ensures Split(a + [d] + b, d) == [a] + Split(b, d)
  {
    var s := a + [d] + b;
    IndexOfAfter(a, d, b);
    assert s[..|a|] == a;
    assert s[|a| + 1..] == b;
  }

  /** `str::split_once` on a character: the text before and after the first `c`. */
  function SplitOnce(s: string, c: char): (r: (string, string))
    requires c in s
    ensures r.0 + [c] + r.1 == s
    ensures c !in r.0
  {
    var i := IndexOf(s, c);
    assert s == s[..i] + [c] + s[i + 1..];
    (s[..i], s[i + 1..])
  }

  /** The two halves of `SplitOnce`, by the position of the separator. */
  lemma SplitOnceAt(s: string, c: char, j: nat)
    requires c in s && j == IndexOf(s, c)
    ensures SplitOnce(s, c) == (s[..j], s[j + 1..])
  {
  }

  // ---------------------------------------------------------------------------
  // Lines
  // ---------------------------------------------------------------------------

  /** `BufRead::read_line`: the text up to and including the first line feed,
      or all of `s` when it holds none. Empty exactly when `s` is. */
  function ReadLine(s: string): (line: string)
    ensures |line| <= |s| && line == s[..|line|]
    ensures |line| == 0 <==> |s| == 0
    ensures |line| > 0 ==> '\n' !in line[..|line| - 1]
    ensures |line| < |s| ==> EndsWithNewline(line)
    ensures |line| == |s| || '\n' !in s ==> line == s
  {
    if s == [] then []
    else if s[0] == '\n' then [s[0]]
    else
      var tail := ReadLine(s[1..]);
      assert ([s[0]] + tail)[1..] == tail;
      [s[0]] + tail
  }

  predicate EndsWithNewline(line: string) {
    |line| > 0 && line[|line| - 1] == '\n'
  }

  /** `line` is one line as `read_line` returns it: non-empty, with no line feed
      except possibly a final one. */
  predicate IsLine(line: string) {
    |line| > 0 && '\n' !in line[..|line| - 1]
  }

  /** Reading a line off text that starts with the line `line`, terminated by a
      line feed, returns that line. */
  lemma {:induction false} ReadLineOfLine(line: string, rest: string)
    requires IsLine(line) && EndsWithNewline(line)
    ensures ReadLine(line + rest) == line
    decreases |line|
  {
    if |line| > 1 {
      assert line[0] == line[..|line| - 1][0];
      assert (line + rest)[1..] == line[1..] + rest;
      assert line[1..][..|line| - 2] == line[..|line| - 1][1..];
      ReadLineOfLine(line[1..], rest);
      assert line == [line[0]] + line[1..];
    }
  }

  function Concat(ls: seq<string>): string {
    if ls == [] then [] else ls[0] + Concat(ls[1..])
  }

  /** The lines `read_line` hands out, one call after another, until end of input. */
  function Lines(s: string): (ls: seq<string>)
    ensures Concat(ls) == s
    ensures forall i :: 0 <= i < |ls| ==> IsLine(ls[i])
    ensures forall i :: 0 <= i < |ls| - 1 ==> EndsWithNewline(ls[i])
    decreases |s|
  {
    if s == [] then []
    else
      var line := ReadLine(s);
      var rest := Lines(s[|line|..]);
      var ls := [line] + rest;
      assert ls[1..] == rest;
      assert Concat(ls) == line + Concat(rest);
      assert s == line + s[|line|..];
      assert rest != [] ==> EndsWithNewline(line);
      assert forall i :: 1 <= i < |ls| ==> ls[i] == rest[i - 1];
      ls
  }
}
