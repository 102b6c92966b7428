/**
 * `formatAnalysisResult` of the dashboard page: the analysis text returned by
 * the model is cut into sections at blank lines; each section's first
 * non-blank line is its title, which picks a display category by keyword, and
 * each remaining line is shown as a bullet, a key/value pair or plain text.
 * The JSX, icons and colours are not modelled; the structure they display is.
 */
module Formatter {
  import opened Wrappers
  import opened Text

  /** The display category of a section, picked from its title. */
  datatype Category = Nutrition | Risk | Recommendation | General

  /** How one body line is displayed. */
  datatype Line =
    | Bullet(text: string)
    | KeyValue(key: string, value: string)
    | Plain(text: string)

  /** One displayed section. The title is the raw line, never trimmed. */
  datatype Section = Section(title: string, category: Category, lines: seq<Line>)

  const SectionBreak: string := "\n\n"
  const LineBreak: string := "\n"

  // ---------------------------------------------------------------------
  // Dropping blank strings: `.filter(x => x.trim())`
  // ---------------------------------------------------------------------

  /** The strings of `xs` that are not whitespace-only, in their order. */
  function NonBlankOnly(xs: seq<string>): (r: seq<string>)
    ensures |r| <= |xs|
    ensures forall k :: 0 <= k < |r| ==> !Blank(r[k])
    ensures r == [] <==> forall k :: 0 <= k < |xs| ==> Blank(xs[k])
  {
    if xs == [] then []
    else (if Blank(xs[0]) then [] else [xs[0]]) + NonBlankOnly(xs[1..])
  }

  /** The filter keeps every non-blank string and nothing that was not there. */
  lemma {:induction false} NonBlankOnlyKeeps(xs: seq<string>)
    ensures forall x :: x in NonBlankOnly(xs) <==> x in xs && !Blank(x)
  {
    if xs != [] {
      NonBlankOnlyKeeps(xs[1..]);
      assert xs == [xs[0]] + xs[1..];
    }
  }

  /** What the filter keeps of one string: the string itself unless it is blank. */
  function KeptOf(x: string): seq<string> {
    if Blank(x) then [] else [x]
  }

  /** Filtering a string followed by more strings. */
  lemma NonBlankOnlyCons(x: string, xs: seq<string>)
    ensures NonBlankOnly([x] + xs) == KeptOf(x) + NonBlankOnly(xs)
  {
    assert ([x] + xs)[1..] == xs;
  }

  /** Filtering distributes over concatenation, so it keeps the original order. */
  lemma {:induction false} NonBlankOnlyAppend(a: seq<string>, b: seq<string>)
    ensures NonBlankOnly(a + b) == NonBlankOnly(a) + NonBlankOnly(b)
  {
    if a == [] {
      assert a + b == b;
    } else {
      var x, rest := a[0], a[1..];
      assert a == [x] + rest && a + b == [x] + (rest + b);
      NonBlankOnlyCons(x, rest + b);
      NonBlankOnlyCons(x, rest);
      NonBlankOnlyAppend(rest, b);
      ConcatAssociative(KeptOf(x), NonBlankOnly(rest), NonBlankOnly(b));
    }
  }

  lemma ConcatAssociative(k: seq<string>, p: seq<string>, q: seq<string>)
    ensures k + (p + q) == (k + p) + q
  {
  }

  /** The position of the first string of `xs` that is not blank, or `|xs|` when there is none. */
  function FirstNonBlank(xs: seq<string>): (k: nat)
    ensures k <= |xs|
    ensures forall j :: 0 <= j < k ==> Blank(xs[j])
    ensures k < |xs| ==> !Blank(xs[k])
  {
    if xs == [] || !Blank(xs[0]) then 0 else 1 + FirstNonBlank(xs[1..])
  }

  /**
   * The first kept string is the first non-blank string of `xs`, and what is
   * kept after it is what is kept from the rest of `xs`.
   */
  lemma {:induction false} NonBlankOnlyFirst(xs: seq<string>)
    ensures var k := FirstNonBlank(xs);
      NonBlankOnly(xs) == if k == |xs| then [] else [xs[k]] + NonBlankOnly(xs[k + 1..])
  {
    if xs == [] {
    } else if !Blank(xs[0]) {
      assert FirstNonBlank(xs) == 0;
      assert NonBlankOnly(xs) == [xs[0]] + NonBlankOnly(xs[1..]);
    } else {
      var rest := xs[1..];
      assert NonBlankOnly(xs) == [] + NonBlankOnly(rest) == NonBlankOnly(rest);
      NonBlankOnlyFirst(rest);
      var k := FirstNonBlank(rest);
      assert FirstNonBlank(xs) == k + 1;
      if k < |rest| {
        assert rest[k] == xs[k + 1] && rest[k + 1..] == xs[k + 2..];
      }
    }
  }

  // ---------------------------------------------------------------------
  // Category of a title
  // ---------------------------------------------------------------------

  /** `title.toLowerCase().includes(word)` for a lower-case `word`, stated position by position. */
  ghost predicate Mentions(title: string, word: string) {
    exists i :: MentionsAt(title, word, i)
  }

  /** The characters of `title` from position `i` on spell `word`, ignoring ASCII case. */
  ghost predicate MentionsAt(title: string, word: string, i: int) {
    0 <= i && i + |word| <= |title| && Lower(title[i..i + |word|]) == word
  }

  ghost predicate MentionsNutrition(title: string) {
    Mentions(title, "nutrition") || Mentions(title, "calories") || Mentions(title, "macro")
  }

  ghost predicate MentionsRisk(title: string) {
    Mentions(title, "risk") || Mentions(title, "danger") || Mentions(title, "warning")
  }

  ghost predicate MentionsRecommendation(title: string) {
    Mentions(title, "alternative") || Mentions(title, "healthy") || Mentions(title, "recommend")
  }

  /** The search the source runs agrees with the position-by-position reading. */
  lemma LowerContains(title: string, word: string)
    ensures Contains(Lower(title), word) <==> Mentions(title, word)
  {
    var lower := Lower(title);
    if Contains(lower, word) {
      var i :| OccursAt(lower, word, i);
      assert lower[i..i + |word|] == Lower(title[i..i + |word|]);
      assert MentionsAt(title, word, i);
    }
    if Mentions(title, word) {
      var i :| MentionsAt(title, word, i);
      assert lower[i..i + |word|] == Lower(title[i..i + |word|]);
      assert OccursAt(lower, word, i);
    }
  }

  /**
   * The category of a title: the keyword rules are tried in the order
   * nutrition, risk, recommendation, and the first that matches wins;
   * a title matching none is `General`.
   */
  function Categorize(title: string): (c: Category)
    ensures c == Nutrition <==> MentionsNutrition(title)
    ensures c == Risk <==> !MentionsNutrition(title) && MentionsRisk(title)
    ensures c == Recommendation <==> !MentionsNutrition(title) && !MentionsRisk(title) && MentionsRecommendation(title)
    ensures c == General <==> !MentionsNutrition(title) && !MentionsRisk(title) && !MentionsRecommendation(title)
  {
    var lower := Lower(title);
    LowerContains(title, "nutrition"); LowerContains(title, "calories"); LowerContains(title, "macro");
    LowerContains(title, "risk"); LowerContains(title, "danger"); LowerContains(title, "warning");
    LowerContains(title, "alternative"); LowerContains(title, "healthy"); LowerContains(title, "recommend");
    if Contains(lower, "nutrition") || Contains(lower, "calories") || Contains(lower, "macro") then
      Nutrition
    else if Contains(lower, "risk") || Contains(lower, "danger") || Contains(lower, "warning") then
      Risk
    else if Contains(lower, "alternative") || Contains(lower, "healthy") || Contains(lower, "recommend") then
      Recommendation
    else
      General
  }

  // ---------------------------------------------------------------------
  // Kind of a body line
  // ---------------------------------------------------------------------

  /** A trimmed line that starts with a bullet marker. */
  predicate IsBulletLine(c: string)
    // `c.startsWith('•') || c.startsWith('-')`
    ensures IsBulletLine(c) <==> |c| >= 1 && (c[..1] == "•" || c[..1] == "-")
  {
    c != [] && (c[0] == '•' || c[0] == '-')
  }

  /** The first colon of `c` is at `i`. */
  predicate FirstColonAt(c: string, i: int) {
    0 <= i < |c| && c[i] == ':' && ':' !in c[..i]
  }

  /**
   * `v` is what `c.split(':')[1]` gives when the first colon of `c` is at `i`:
   * the text from there up to the next colon or the end of `c`.
   */
  predicate SecondField(c: string, i: int, v: string) {
    0 <= i < |c| &&
    ((':' !in c[i + 1..] && v == c[i + 1..]) ||
     (exists j :: i < j < |c| && c[j] == ':' && ':' !in c[i + 1..j] && v == c[i + 1..j]))
  }

  /** The one-character string `[ch]` occurs at `p` exactly when `ch` is the character at `p`. */
  lemma OccursAtChar(s: string, ch: char, p: int)
    requires 0 <= p
    ensures OccursAt(s, [ch], p) <==> p < |s| && s[p] == ch
  {
    if p < |s| {
      assert s[p..p + 1] == [s[p]];
    }
  }

  /** The positions where `IndexOf` finds the one-character string `[ch]` are those of `ch`. */
  lemma IndexOfChar(s: string, ch: char)
    ensures IndexOf(s, [ch]).Some? <==> ch in s
    ensures IndexOf(s, [ch]).Some? ==> var i := IndexOf(s, [ch]).value; i < |s| && s[i] == ch && ch !in s[..i]
  {
    var r := IndexOf(s, [ch]);
    if ch in s {
      var p :| 0 <= p < |s| && s[p] == ch;
      OccursAtChar(s, ch, p);
    }
    if r.Some? {
      var i := r.value;
      OccursAtChar(s, ch, i);
      forall p | 0 <= p < i ensures s[..i][p] != ch {
        OccursAtChar(s, ch, p);
      }
    }
  }

  /**
   * `c.split(':')` for a `c` holding a colon has at least two pieces: the
   * text before the first colon, and the text between it and the next colon.
   */
  lemma ColonFields(c: string)
    requires ':' in c
    ensures |Split(c, ":")| >= 2
    ensures IndexOf(c, ":").Some? && FirstColonAt(c, IndexOf(c, ":").value)
    ensures Split(c, ":")[0] == c[..IndexOf(c, ":").value]
    ensures SecondField(c, IndexOf(c, ":").value, Split(c, ":")[1])
  {
    assert ":" == [':'];
    IndexOfChar(c, ':');
    var i := IndexOf(c, ":").value;
    var rest := c[i + 1..];
    SplitHead(c, ":");
    assert Split(c, ":")[1] == Split(rest, ":")[0];
    SecondFieldOfRest(c, i);
  }

  /** The first piece of what follows the first colon is the second field. */
  lemma SecondFieldOfRest(c: string, i: int)
    requires 0 <= i < |c|
    ensures SecondField(c, i, Split(c[i + 1..], ":")[0])
  {
    assert ":" == [':'];
    var rest := c[i + 1..];
    SplitHead(rest, ":");
    IndexOfChar(rest, ':');
    match IndexOf(rest, ":")
    case None =>
      assert Split(rest, ":")[0] == rest;
    case Some(j) =>
      assert Split(rest, ":")[0] == rest[..j];
      assert c[i + 1 + j] == rest[j];
      assert c[i + 1..i + 1 + j] == rest[..j];
      assert i < i + 1 + j < |c| && c[i + 1 + j] == ':' && ':' !in c[i + 1..i + 1 + j];
  }

  /**
   * The display kind of one body line, after trimming it: a line starting
   * with `•` or `-` is a bullet (the marker test comes first, so `- a: b` is a
   * bullet); otherwise a line holding a colon is a key/value pair whose value
   * is only the text up to a second colon; otherwise it is plain text.
   */
  function ClassifyLine(line: string): (r: Line)
    ensures var c := Trim(line); r.Bullet? <==> IsBulletLine(c)
    ensures var c := Trim(line); r.KeyValue? <==> !IsBulletLine(c) && ':' in c
    ensures var c := Trim(line); r.Bullet? ==> r.text == Trim(c[1..])
    ensures var c := Trim(line); r.Plain? ==> r.text == c
    ensures var c := Trim(line); r.KeyValue? ==>
      exists i, v :: FirstColonAt(c, i) && SecondField(c, i, v) && r.key == Trim(c[..i]) && r.value == Trim(v)
  {
    var c := Trim(line);
    IndexOfChar(c, ':');
    if IsBulletLine(c) then
      Bullet(Trim(c[1..]))
    else if Contains(c, ":") then
      ColonFields(c);
      var parts := Split(c, ":");
      KeyValue(Trim(parts[0]), Trim(parts[1]))
    else
      Plain(c)
  }

  // ---------------------------------------------------------------------
  // Sections
  // ---------------------------------------------------------------------

  /** The lines of a piece of text: `piece.split('\n')`. */
  function LinesOf(piece: string): (lines: seq<string>)
    ensures |lines| >= 1
    ensures Join(lines, LineBreak) == piece
    ensures forall k :: 0 <= k < |lines| ==> !Contains(lines[k], LineBreak)
  {
    Split(piece, LineBreak)
  }

  /**
   * One section made from a piece of text that is not whitespace-only. Its
   * title is the first non-blank line of the piece, exactly as written; its
   * lines are the piece's later non-blank lines, in order, each classified;
   * title and lines together are all the non-blank lines of the piece. Its
   * category comes from the title alone.
   */
  function SectionOf(piece: string): (s: Section)
    requires !Blank(piece)
    ensures FirstNonBlank(LinesOf(piece)) < |LinesOf(piece)|
    ensures var lines := LinesOf(piece); var k := FirstNonBlank(lines);
      && s.title == lines[k]
      && |s.lines| == |NonBlankOnly(lines[k + 1..])|
      && forall m :: 0 <= m < |s.lines| ==> s.lines[m] == ClassifyLine(NonBlankOnly(lines[k + 1..])[m])
    ensures 1 + |s.lines| == |NonBlankOnly(LinesOf(piece))|
    ensures s.category == Categorize(s.title)
  {
    var lines := LinesOf(piece);
    assert Blank(LineBreak) by { assert LineBreak[0] == '\n'; }
    SplitKeepsNonBlank(piece, LineBreak);
    NonBlankOnlyFirst(lines);
    var k := FirstNonBlank(lines);
    assert k < |lines|;
    var title := lines[k];
    Section(title, Categorize(title), ClassifyAll(NonBlankOnly(lines[k + 1..])))
  }

  /** The body lines of a section, each classified, in order. */
  function ClassifyAll(body: seq<string>): (r: seq<Line>)
    ensures |r| == |body|
    ensures forall m :: 0 <= m < |r| ==> r[m] == ClassifyLine(body[m])
  {
    seq(|body|, m requires 0 <= m < |body| => ClassifyLine(body[m]))
  }

  /** A section per non-blank piece, in order. */
  function SectionsOf(pieces: seq<string>): (r: seq<Section>)
    requires forall k :: 0 <= k < |pieces| ==> !Blank(pieces[k])
    ensures |r| == |pieces|
    ensures forall k :: 0 <= k < |r| ==> r[k] == SectionOf(pieces[k])
  {
    seq(|pieces|, k requires 0 <= k < |pieces| => SectionOf(pieces[k]))
  }

  /**
   * `formatAnalysisResult(text)`: nothing (`null`) for a missing or empty
   * text; otherwise one section per `"\n\n"`-separated piece that is not
   * whitespace-only, in the order of the pieces.
   */
  function FormatAnalysisResult(text: Option<string>): (r: Option<seq<Section>>)
    ensures r.None? <==> text.None? || text.value == ""
    ensures r.Some? ==> |r.value| <= |Split(text.value, SectionBreak)|
    ensures r.Some? ==> (r.value == [] <==> Blank(text.value))
    ensures r.Some? ==> var kept := NonBlankOnly(Split(text.value, SectionBreak));
      |r.value| == |kept| && forall k :: 0 <= k < |kept| ==> r.value[k] == SectionOf(kept[k])
  {
    match text
    case None => None
    case Some(t) =>
      if t == "" then None
      else
        var kept := NonBlankOnly(Split(t, SectionBreak));
        assert Blank(SectionBreak) by { assert SectionBreak[0] == '\n' && SectionBreak[1] == '\n'; }
        assert kept == [] <==> Blank(t) by {
          if !Blank(t) {
            SplitKeepsNonBlank(t, SectionBreak);
            var k :| 0 <= k < |Split(t, SectionBreak)| && !Blank(Split(t, SectionBreak)[k]);
          } else {
            BlankPieces(t, SectionBreak);
          }
        }
        Some(SectionsOf(kept))
  }

  /** Every piece of a blank string is blank. */
  lemma {:induction false} BlankPieces(s: string, sep: string)
    requires sep != "" && Blank(s)
    ensures forall k :: 0 <= k < |Split(s, sep)| ==> Blank(Split(s, sep)[k])
    decreases |s|
  {
    match IndexOf(s, sep)
    case None =>
    case Some(i) =>
      var rest := s[i + |sep|..];
      BlankPieces(rest, sep);
      assert Split(s, sep) == [s[..i]] + Split(rest, sep);
  }

  // ---------------------------------------------------------------------
  // Worked examples
  // ---------------------------------------------------------------------

  /** A title none of whose characters lower-cases to some letter of `word` cannot mention `word`. */
  lemma AbsentLetter(title: string, word: string, k: int)
    requires 0 <= k < |word|
    requires forall i :: 0 <= i < |title| ==> LowerChar(title[i]) != word[k]
    ensures !Mentions(title, word)
  {
    forall i | 0 <= i && i + |word| <= |title| ensures !MentionsAt(title, word, i) {
      assert Lower(title[i..i + |word|])[k] == LowerChar(title[i + k]) != word[k];
    }
  }

  /** A title naming a nutrient topic is a nutrition section. */
  lemma NutritionExample()
    ensures Categorize("Nutrition Breakdown") == Nutrition
  {
    assert MentionsAt("Nutrition Breakdown", "nutrition", 0);
  }

  /** A title matching both the nutrition and the risk rule falls under the first rule. */
  lemma FirstRuleWins()
    ensures Categorize("Nutrition and Risk") == Nutrition
  {
    assert MentionsAt("Nutrition and Risk", "nutrition", 0);
  }

  lemma RiskExample()
    ensures Categorize("Disease Risk") == Risk
  {
    var t := "Disease Risk";
    assert MentionsAt(t, "risk", 8);
    AbsentLetter(t, "nutrition", 0); AbsentLetter(t, "calories", 0); AbsentLetter(t, "macro", 0);
  }

  lemma RecommendationExample()
    ensures Categorize("Healthy Alternatives") == Recommendation
  {
    var t := "Healthy Alternatives";
    assert MentionsAt(t, "healthy", 0);
    NoEarlierRule();
  }

  /** "Healthy Alternatives" matches neither the nutrition rule nor the risk rule. */
  lemma NoEarlierRule()
    ensures !MentionsNutrition("Healthy Alternatives") && !MentionsRisk("Healthy Alternatives")
  {
    var t := "Healthy Alternatives";
    AbsentLetter(t, "nutrition", 1); AbsentLetter(t, "calories", 0); AbsentLetter(t, "macro", 0);
    AbsentLetter(t, "risk", 3); AbsentLetter(t, "danger", 0); AbsentLetter(t, "warning", 0);
  }

  /** A title matching no keyword is a general section. */
  lemma GeneralExample()
    ensures Categorize("Summary") == General
  {
    var t := "Summary";
    AbsentLetter(t, "nutrition", 0); AbsentLetter(t, "calories", 0); AbsentLetter(t, "macro", 2);
    AbsentLetter(t, "risk", 1); AbsentLetter(t, "danger", 0); AbsentLetter(t, "warning", 0);
    AbsentLetter(t, "alternative", 1); AbsentLetter(t, "healthy", 0); AbsentLetter(t, "recommend", 1);
  }

  /** A marker, a space, then unpadded text: a bullet holding that text, whatever colons it has. */
  lemma BulletBeatsColon(text: string)
    requires Unpadded(text)
    ensures ClassifyLine("- " + text) == Bullet(text)
  {
    var line := "- " + text;
    TrimUnpadded(line);
    assert line[1..] == [' '] + text;
    TrimLeadingSpace(' ', text);
    TrimUnpadded(text);
  }

  /** A line has one first colon. */
  lemma FirstColonUnique(c: string, i: int, k: int)
    requires FirstColonAt(c, i) && FirstColonAt(c, k)
    ensures i == k
  {
    forall p | 0 <= p < k ensures c[p] != ':' {
      assert c[p] == c[..k][p];
    }
    forall p | 0 <= p < i ensures c[p] != ':' {
      assert c[p] == c[..i][p];
    }
  }

  /** When the next colon after `i` is at `j`, the second field is the text strictly between them. */
  lemma SecondFieldUpTo(c: string, i: int, j: int, v: string)
    requires 0 <= i < j < |c| && c[j] == ':' && ':' !in c[i + 1..j]
    requires SecondField(c, i, v)
    ensures v == c[i + 1..j]
  {
    assert c[i + 1..][j - i - 1] == ':';
    var k :| i < k < |c| && c[k] == ':' && ':' !in c[i + 1..k] && v == c[i + 1..k];
    forall p | i < p < j ensures c[p] != ':' {
      assert c[p] == c[i + 1..j][p - i - 1];
    }
    forall p | i < p < k ensures c[p] != ':' {
      assert c[p] == c[i + 1..k][p - i - 1];
    }
  }

  /**
   * In `key:first:more` the value is only `first`: whatever follows the
   * second colon is dropped.
   */
  lemma SecondColonDropped(key: string, first: string, more: string)
    requires Unpadded(key) && Unpadded(first) && Unpadded(more)
    requires ':' !in key && ':' !in first
    requires key[0] != '•' && key[0] != '-'
    ensures ClassifyLine(key + ":" + first + ":" + more) == KeyValue(key, first)
  {
    var c := key + ":" + first + ":" + more;
    TrimUnpadded(c);
    var n := |key|;
    var j := n + 1 + |first|;
    assert c[..n] == key && c[n] == ':';
    assert c[n + 1..j] == first && c[j] == ':';
    var r := ClassifyLine(c);
    var i, v :| FirstColonAt(c, i) && SecondField(c, i, v) && r.key == Trim(c[..i]) && r.value == Trim(v);
    FirstColonUnique(c, i, n);
    SecondFieldUpTo(c, n, j, v);
    TrimUnpadded(key);
    TrimUnpadded(first);
  }
}
