/**
 * The JavaScript string operations the formatter and the client rely on:
 * `trim`, `indexOf`/`includes`, `split` with a string separator, and
 * `toLowerCase` restricted to ASCII letters.
 */
module Text {
  import opened Wrappers

  /** The characters `String.prototype.trim` removes: ECMAScript WhiteSpace and LineTerminator. */
  predicate IsSpace(c: char) {
    var n := c as int;
    n == 0x09 || n == 0x0A || n == 0x0B || n == 0x0C || n == 0x0D || n == 0x20 ||
    n == 0xA0 || n == 0x1680 || (0x2000 <= n <= 0x200A) || n == 0x2028 || n == 0x2029 ||
    n == 0x202F || n == 0x205F || n == 0x3000 || n == 0xFEFF
  }

  /** A string made of whitespace only: what `s.trim()` makes falsy. */
  predicate Blank(s: string) {
    forall i :: 0 <= i < |s| ==> IsSpace(s[i])
  }

  /** Dropping one whitespace character from the front keeps a string blank or non-blank. */
  lemma BlankWithoutFirst(s: string)
    requires s != [] && IsSpace(s[0])
    ensures Blank(s) <==> Blank(s[1..])
  {
    if Blank(s[1..]) {
      forall i | 1 <= i < |s| ensures IsSpace(s[i]) {
        assert s[i] == s[1..][i - 1];
      }
    }
  }

  /** Dropping one whitespace character from the back keeps a string blank or non-blank. */
  lemma BlankWithoutLast(s: string)
    requires s != [] && IsSpace(s[|s| - 1])
    ensures Blank(s) <==> Blank(s[..|s| - 1])
  {
    if Blank(s[..|s| - 1]) {
      forall i | 0 <= i < |s| - 1 ensures IsSpace(s[i]) {
        assert s[i] == s[..|s| - 1][i];
      }
    }
  }

  /**
   * `s.trim()`: `s` without its leading and trailing whitespace, removed one
   * character at a time from either end.
   */
  function Trim(s: string): (r: string)
    ensures |r| <= |s|
    ensures r == [] <==> Blank(s)
    ensures r != [] ==> !IsSpace(r[0]) && !IsSpace(r[|r| - 1])
    decreases |s|
  {
    if s == [] then s
    else if IsSpace(s[0]) then
      BlankWithoutFirst(s);
      Trim(s[1..])
    else if IsSpace(s[|s| - 1]) then
      BlankWithoutLast(s);
      Trim(s[..|s| - 1])
    else
      s
  }

  /** `r` sits in `s` at position `a`, with only whitespace before and after it. */
  ghost predicate InfixAt(s: string, r: string, a: int) {
    0 <= a <= |s| - |r| && s[a..a + |r|] == r && Blank(s[..a]) && Blank(s[a + |r|..])
  }

  /** A stretch found in `s[1..]` sits one further along in `s` when `s[0]` is whitespace. */
  lemma InfixAfterSpace(s: string, r: string, a: int)
    requires s != [] && IsSpace(s[0]) && InfixAt(s[1..], r, a)
    ensures InfixAt(s, r, a + 1)
  {
    var rest := s[1..];
    assert s[a + 1..a + 1 + |r|] == rest[a..a + |r|];
    assert s[a + 1 + |r|..] == rest[a + |r|..];
    var before := s[..a + 1];
    forall i | 1 <= i < |before| ensures IsSpace(before[i]) {
      assert before[i] == rest[..a][i - 1];
    }
  }

  /** A stretch found in `s[..|s| - 1]` sits at the same place in `s` when the last character is whitespace. */
  lemma InfixBeforeSpace(s: string, r: string, a: int)
    requires s != [] && IsSpace(s[|s| - 1]) && InfixAt(s[..|s| - 1], r, a)
    ensures InfixAt(s, r, a)
  {
    var init := s[..|s| - 1];
    assert s[a..a + |r|] == init[a..a + |r|];
    assert s[..a] == init[..a];
    assert s[a + |r|..] == init[a + |r|..] + [s[|s| - 1]];
  }

  /** What `trim` keeps is a stretch of `s` with only whitespace before and after it. */
  lemma {:induction false} TrimIsInfix(s: string)
    ensures exists a :: InfixAt(s, Trim(s), a)
    decreases |s|
  {
    var r := Trim(s);
    if s == [] {
      assert InfixAt(s, r, 0);
    } else if IsSpace(s[0]) {
      TrimIsInfix(s[1..]);
      var a :| InfixAt(s[1..], r, a);
      InfixAfterSpace(s, r, a);
    } else if IsSpace(s[|s| - 1]) {
      TrimIsInfix(s[..|s| - 1]);
      var a :| InfixAt(s[..|s| - 1], r, a);
      InfixBeforeSpace(s, r, a);
    } else {
      assert s[0..|s|] == s && s[..0] == [] && s[|s|..] == [];
      assert InfixAt(s, r, 0);
    }
  }

  /** Trimming twice is trimming once. */
  lemma TrimIdempotent(s: string)
    ensures Trim(Trim(s)) == Trim(s)
  {
    var r := Trim(s);
    if r != [] {
      TrimUnpadded(r);
    }
  }

  /** A non-empty string without whitespace at either end. */
  predicate Unpadded(s: string) {
    s != [] && !IsSpace(s[0]) && !IsSpace(s[|s| - 1])
  }

  /** A string with no whitespace at either end is its own trim. */
  lemma TrimUnpadded(s: string)
    requires Unpadded(s)
    ensures Trim(s) == s
  {
  }

  /** A leading whitespace character makes no difference to the trim. */
  lemma TrimLeadingSpace(c: char, s: string)
    requires IsSpace(c)
    ensures Trim([c] + s) == Trim(s)
  {
    assert ([c] + s)[1..] == s;
  }

  /** `sub` occurs in `s` starting at position `i`. */
  predicate OccursAt(s: string, sub: string, i: int) {
    0 <= i && i + |sub| <= |s| && s[i..i + |sub|] == sub
  }

  /** An occurrence at `j >= 1` in `s` is an occurrence at `j - 1` in `s[1..]`. */
  lemma OccursShift(s: string, sub: string, j: int)
    requires s != [] && 1 <= j
    ensures OccursAt(s, sub, j) <==> OccursAt(s[1..], sub, j - 1)
  {
    if j + |sub| <= |s| {
      var here, there := s[j..j + |sub|], s[1..][j - 1..j - 1 + |sub|];
      forall m | 0 <= m < |sub| ensures here[m] == there[m] {
        assert here[m] == s[j + m] == s[1..][j - 1 + m] == there[m];
      }
      assert here == there;
    }
  }

  /** An occurrence in a prefix of `s` is an occurrence in `s`. */
  lemma OccursInPrefix(s: string, n: int, sub: string, j: int)
    requires 0 <= n <= |s|
    ensures OccursAt(s[..n], sub, j) ==> OccursAt(s, sub, j)
  {
    if OccursAt(s[..n], sub, j) {
      assert s[..n][j..j + |sub|] == s[j..j + |sub|];
    }
  }

  /** `s.indexOf(sub)`: the leftmost position where `sub` occurs in `s`, or `None` (JavaScript's -1). */
  function IndexOf(s: string, sub: string): (r: Option<nat>)
    ensures r.Some? ==> OccursAt(s, sub, r.value)
    ensures r.Some? ==> forall j :: 0 <= j < r.value ==> !OccursAt(s, sub, j)
    ensures r.None? ==> forall j :: !OccursAt(s, sub, j)
  {
    if |s| < |sub| then
      assert forall j :: !OccursAt(s, sub, j);
      None
    else if s[..|sub|] == sub then
      Some(0)
    else
      var rest := IndexOf(s[1..], sub);
      forall j | 1 <= j ensures OccursAt(s, sub, j) <==> OccursAt(s[1..], sub, j - 1) {
        OccursShift(s, sub, j);
      }
      match rest
      case None => None
      case Some(i) => Some(i + 1)
  }

  /** `s.includes(sub)`. */
  function Contains(s: string, sub: string): (b: bool)
    ensures b <==> exists i :: OccursAt(s, sub, i)
  {
    IndexOf(s, sub).Some?
  }

  /** `pieces.join(sep)`. */
  function Join(pieces: seq<string>, sep: string): string
    requires |pieces| >= 1
  {
    if |pieces| == 1 then pieces[0] else pieces[0] + sep + Join(pieces[1..], sep)
  }

  /**
   * `s.split(sep)` for a non-empty string separator: the text between the
   * successive leftmost occurrences of `sep`, scanning from the left. Joining
   * the pieces with `sep` gives `s` back, and no piece contains `sep`.
   */
  function Split(s: string, sep: string): (r: seq<string>)
    requires sep != ""
    ensures |r| >= 1
    ensures Join(r, sep) == s
    ensures forall k :: 0 <= k < |r| ==> !Contains(r[k], sep)
    decreases |s|
  {
    match IndexOf(s, sep)
    case None => [s]
    case Some(i) =>
      var head := s[..i];
      var rest := Split(s[i + |sep|..], sep);
      forall j | 0 <= j ensures OccursAt(head, sep, j) ==> OccursAt(s, sep, j) {
        OccursInPrefix(s, i, sep, j);
      }
      assert !Contains(head, sep);
      var r := [head] + rest;
      assert r[1..] == rest;
      assert s == head + sep + s[i + |sep|..];
      r
  }

  /** `s.split(sep)[0]`: the text before the first occurrence of `sep`, or all of `s`. */
  lemma SplitHead(s: string, sep: string)
    requires sep != ""
    ensures Split(s, sep)[0] == match IndexOf(s, sep) case None => s case Some(i) => s[..i]
    ensures |Split(s, sep)| >= 2 <==> IndexOf(s, sep).Some?
    ensures IndexOf(s, sep).Some? ==> Split(s, sep)[1..] == Split(s[IndexOf(s, sep).value + |sep|..], sep)
  {
  }

  /** A concatenation is whitespace-only exactly when both parts are. */
  lemma BlankConcat(a: string, b: string)
    ensures Blank(a + b) <==> Blank(a) && Blank(b)
  {
    var ab := a + b;
    if Blank(ab) {
      forall i | 0 <= i < |a| ensures IsSpace(a[i]) { assert a[i] == ab[i]; }
      forall i | 0 <= i < |b| ensures IsSpace(b[i]) { assert b[i] == ab[|a| + i]; }
    }
  }

  /**
   * If every character of the separator is whitespace, a string that is not
   * blank has a piece that is not blank.
   */
  lemma {:induction false} SplitKeepsNonBlank(s: string, sep: string)
    requires sep != "" && Blank(sep) && !Blank(s)
    ensures exists k :: 0 <= k < |Split(s, sep)| && !Blank(Split(s, sep)[k])
    decreases |s|
  {
    var pieces := Split(s, sep);
    match IndexOf(s, sep)
    case None =>
      assert pieces[0] == s;
    case Some(i) =>
      if Blank(s[..i]) {
        var rest := s[i + |sep|..];
        assert s == s[..i] + sep + rest;
        BlankConcat(s[..i], sep);
        BlankConcat(s[..i] + sep, rest);
        SplitKeepsNonBlank(rest, sep);
        var k :| 0 <= k < |Split(rest, sep)| && !Blank(Split(rest, sep)[k]);
        assert pieces[k + 1] == Split(rest, sep)[k];
      } else {
        assert pieces[0] == s[..i];
      }
  }

  /** ASCII lower-casing of one character. */
  function LowerChar(c: char): (d: char)
    ensures 'A' <= c <= 'Z' ==> d as int == c as int + 32
    ensures !('A' <= c <= 'Z') ==> d == c
    ensures !('A' <= d <= 'Z')
  {
    if 'A' <= c <= 'Z' then (c as int + 32) as char else c
  }

  /** `s.toLowerCase()`, restricted to the ASCII letters A-Z. */
  function Lower(s: string): (r: string)
    ensures |r| == |s|
    ensures forall i :: 0 <= i < |s| ==> r[i] == LowerChar(s[i])
  {
    seq(|s|, i requires 0 <= i < |s| => LowerChar(s[i]))
  }
}
