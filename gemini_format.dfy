/** `formatArticleContent` of src/lib/gemini.ts: Markdown-like article text
    rewritten into HTML by a chain of global regular-expression replacements,
    then forced to start with a tag and end with a tag.

    Each `.replace(regex, replacement)` with the `g` flag scans its input from
    left to right: where the pattern matches at position i, the match is
    replaced and scanning resumes after it; elsewhere one character is copied.
    `Rewrite` is that scan; `Rule` lists the patterns the function uses, and
    `MatchLength` gives, for each, the length of the match the regex engine
    picks at i (0 when there is none). Lookbehind and lookahead inspect the
    original input, as in JavaScript. */
module GeminiFormat {
  import opened Wrappers
  import opened Text

  const ParagraphOpen := "<p class=\"my-2\">"
  const ParagraphClose := "</p>"
  const ListOpen := "<ul class=\"list-disc pl-5 my-3\">"
  const ListClose := "</ul>"
  const ItemOpen := "<li>"
  const ItemClose := "</li>"

  datatype Rule =
      /** `/^<marker>(.*?)$/gm` replaced by `<open>$1<close>`. */
    | LineRule(marker: string, open: string, close: string)
      /** `/^\d+\. (.*?)$/gm` replaced by `<li>$1</li>`. */
    | NumberedLine
      /** `/<delim>(.*?)<delim>/g` replaced by `<open>$1<close>`. */
    | Delimited(delim: string, open: string, close: string)
      /** `/(?<!<\/h[1-6]>|<\/li>|<\/p>)\n\n(?!<h[1-6]|<li|<p)/g`, a paragraph break. */
    | ParagraphBreak
      /** `/(<li>.*?<\/li>\n?)+/gs` wrapped in a `<ul>`. */
    | ListRun
      /** A literal pattern replaced by a literal string. */
    | Literal(pattern: string, replacement: string)

  /** `^` in multiline mode. */
  predicate AtLineStart(s: string, i: nat)
  {
    i == 0 || (i <= |s| && IsLineTerminator(s[i - 1]))
  }

  /** The first line terminator at or after `i`, or the end: where `(.*?)$` stops. */
  function LineEnd(s: string, i: nat): (e: nat)
    requires i <= |s|
    decreases |s| - i
    ensures i <= e <= |s|
    ensures forall k :: i <= k < e ==> !IsLineTerminator(s[k])
    ensures e < |s| ==> IsLineTerminator(s[e])
  {
    if i == |s| || IsLineTerminator(s[i]) then i else LineEnd(s, i + 1)
  }

  /** The text before `i` ends with `</h1>`..`</h6>`, `</li>` or `</p>`. */
  predicate ClosesBlockBefore(s: string, i: nat)
    requires i <= |s|
  {
    var before := s[..i];
    || (|before| >= 5 && before[|before| - 5..|before| - 2] == "</h"
        && '1' <= before[|before| - 2] <= '6' && before[|before| - 1] == '>')
    || EndsWith(before, "</li>")
    || EndsWith(before, "</p>")
  }

  /** The text from `j` starts with `<h1`..`<h6`, `<li` or `<p`. */
  predicate OpensBlockAt(s: string, j: nat)
    requires j <= |s|
  {
    var after := s[j..];
    || (|after| >= 3 && after[..2] == "<h" && '1' <= after[2] <= '6')
    || StartsWith(after, "<li")
    || StartsWith(after, "<p")
  }

  /** End of the group `<li>.*?</li>\n?` starting at `j`, if one starts there. */
  function ListItemEnd(s: string, j: nat): (r: Option<nat>)
    requires j <= |s|
    ensures r.Some? ==> j + 9 <= r.value <= |s|
  {
    if !OccursAt(s, ItemOpen, j) then None
    else match IndexOf(s, ItemClose, j + 4)
      case None => None
      case Some(q) =>
        var e := q + 5;
        Some(if e < |s| && s[e] == '\n' then e + 1 else e)
  }

  /** End of the longest run of consecutive groups starting at `j` (`+` is greedy). */
  function ListRunEnd(s: string, j: nat): (e: nat)
    requires j <= |s|
    decreases |s| - j
    ensures j <= e <= |s|
  {
    match ListItemEnd(s, j)
    case None => j
    case Some(e) => ListRunEnd(s, e)
  }

  /** Length of the match of `rule` at position `i` of `s`, 0 when it does not match there. */
  function MatchLength(rule: Rule, s: string, i: nat): (n: nat)
    requires i < |s|
    ensures i + n <= |s|
  {
    match rule
    case LineRule(marker, _, _) =>
      if |marker| > 0 && AtLineStart(s, i) && OccursAt(s, marker, i)
      then LineEnd(s, i + |marker|) - i else 0
    case NumberedLine =>
      var d := DigitRun(s[i..]);
      if AtLineStart(s, i) && d > 0 && OccursAt(s, ". ", i + d)
      then LineEnd(s, i + d + 2) - i else 0
    case Delimited(delim, _, _) =>
      if |delim| > 0 && OccursAt(s, delim, i) then
        match IndexOf(s, delim, i + |delim|)
        case None => 0
        case Some(q) => if LineEnd(s, i + |delim|) >= q then q + |delim| - i else 0
      else 0
    case ParagraphBreak =>
      if OccursAt(s, "\n\n", i) && !ClosesBlockBefore(s, i) && !OpensBlockAt(s, i + 2) then 2 else 0
    case ListRun =>
      ListRunEnd(s, i) - i
    case Literal(pattern, _) =>
      if |pattern| > 0 && OccursAt(s, pattern, i) then |pattern| else 0
  }

  /** What replaces the match of length `n` at `i`. */
  function Replacement(rule: Rule, s: string, i: nat, n: nat): string
    requires i < |s| && n == MatchLength(rule, s, i) && n > 0
  {
    match rule
    case LineRule(marker, open, close) => open + s[i + |marker|..i + n] + close
    case NumberedLine => ItemOpen + s[i + DigitRun(s[i..]) + 2..i + n] + ItemClose
    case Delimited(delim, open, close) => open + s[i + |delim|..i + n - |delim|] + close
    case ParagraphBreak => ParagraphClose + ParagraphOpen
    case ListRun => ListOpen + s[i..i + n] + ListClose
    case Literal(_, replacement) => replacement
  }

  /** What the scan does at one position: the length of the match there (0 for none)
      and the text that replaces it. */
  datatype Step = Step(length: nat, replacement: string)

  /** The step `rule` takes at position `i` of `s`. */
  function StepAt(rule: Rule, s: string, i: nat): (st: Step)
    requires i < |s|
    ensures i + st.length <= |s|
    ensures st.length == MatchLength(rule, s, i)
  {
    var n := MatchLength(rule, s, i);
    if n > 0 then Step(n, Replacement(rule, s, i, n)) else Step(0, [])
  }

  /** The steps of `rule` at every position of `s`. */
  function Steps(rule: Rule, s: string): (r: seq<Step>)
    ensures Fits(s, r)
  {
    seq(|s|, i requires 0 <= i < |s| => StepAt(rule, s, i))
  }

  /** One step per position, none running past the end. */
  predicate Fits(s: string, steps: seq<Step>)
  {
    |steps| == |s| && forall k :: 0 <= k < |steps| ==> k + steps[k].length <= |s|
  }

  /** The global replace from position `i`: where a step matches, its replacement is
      emitted and the scan resumes after the match; elsewhere one character is copied. */
  function Scan(s: string, steps: seq<Step>, i: nat): string
    requires Fits(s, steps) && i <= |s|
    decreases |s| - i
  {
    if i == |s| then []
    else if steps[i].length > 0 then steps[i].replacement + Scan(s, steps, i + steps[i].length)
    else [s[i]] + Scan(s, steps, i + 1)
  }

  /** `s.replace(rule, ...)`. */
  function Rewrite(rule: Rule, s: string): string
  {
    Scan(s, Steps(rule, s), 0)
  }

  /** The replacements applied one after the other. */
  function RewriteAll(rules: seq<Rule>, s: string): string
    decreases |rules|
  {
    if rules == [] then s else RewriteAll(rules[1..], Rewrite(rules[0], s))
  }

  /** The Markdown rules, in the order the function chains them. */
  const MarkdownRules: seq<Rule> := [
    LineRule("# ", "<h1 class=\"text-3xl font-bold my-4\">", "</h1>"),
    LineRule("## ", "<h2 class=\"text-2xl font-bold my-3\">", "</h2>"),
    LineRule("### ", "<h3 class=\"text-xl font-bold my-2\">", "</h3>"),
    LineRule("#### ", "<h4 class=\"text-lg font-bold my-2\">", "</h4>"),
    Delimited("**", "<strong>", "</strong>"),
    Delimited("__", "<strong>", "</strong>"),
    Delimited("*", "<em>", "</em>"),
    Delimited("_", "<em>", "</em>"),
    LineRule("- ", ItemOpen, ItemClose),
    NumberedLine,
    ParagraphBreak
  ]

  /** After trimming leading whitespace the text starts with `<`. */
  predicate OpensWithTag(s: string)
  {
    var t := TrimStart(s);
    t != [] && t[0] == '<'
  }

  /** After trimming trailing whitespace the text ends with `>`. */
  predicate ClosesWithTag(s: string)
  {
    var t := TrimEnd(s);
    t != [] && t[|t| - 1] == '>'
  }

  /** The promise the function makes about its result. */
  predicate Bracketed(s: string)
  {
    OpensWithTag(s) && ClosesWithTag(s)
  }

  /** `formatArticleContent(content)`: whatever the content, the result starts with a
      tag after leading whitespace and ends with one before trailing whitespace. */
  function FormatArticleContent(content: string): (r: string)
    ensures Bracketed(r)
  {
    var marked := RewriteAll(MarkdownRules, content);
    var withOpen := if OpensWithTag(marked) then marked else ParagraphOpen + marked;
    var withClose := if ClosesWithTag(withOpen) then withOpen else withOpen + ParagraphClose;
    var listed := Rewrite(ListRun, withClose);
    var single := Rewrite(Literal(ParagraphOpen + ParagraphOpen, ParagraphOpen), listed);
    var result := Rewrite(Literal(ParagraphClose + ParagraphClose, ParagraphClose), single);
    EnsureOpening(marked);
    EnsureClosing(withOpen);
    ListRunIsTagRule();
    LiteralIsTagRule(ParagraphOpen + ParagraphOpen, ParagraphOpen);
    LiteralIsTagRule(ParagraphClose + ParagraphClose, ParagraphClose);
    TagRewriteKeepsBrackets(ListRun, withClose);
    TagRewriteKeepsBrackets(Literal(ParagraphOpen + ParagraphOpen, ParagraphOpen), listed);
    TagRewriteKeepsBrackets(Literal(ParagraphClose + ParagraphClose, ParagraphClose), single);
    result
  }

  // ---------------------------------------------------------------------
  // Proof that the post-processing keeps the result bracketed
  // ---------------------------------------------------------------------

  lemma {:induction false} LeadingWhitespaceUnique(s: string, k: nat)
    requires k <= |s| && AllWhitespace(s[..k]) && (k < |s| ==> !IsWhitespace(s[k]))
    ensures LeadingWhitespace(s) == k
  {
  }

  lemma {:induction false} TrailingWhitespaceUnique(s: string, k: nat)
    requires k <= |s| && AllWhitespace(s[|s| - k..]) && (k < |s| ==> !IsWhitespace(s[|s| - k - 1]))
    ensures TrailingWhitespace(s) == k
  {
  }

  /** `OpensWithTag` and `ClosesWithTag` in terms of positions. */
  lemma {:induction false} OpensAt(s: string)
    ensures OpensWithTag(s) <==> LeadingWhitespace(s) < |s| && s[LeadingWhitespace(s)] == '<'
  {
  }

  lemma {:induction false} ClosesAt(s: string)
    ensures ClosesWithTag(s) <==> TrailingWhitespace(s) < |s| && s[|s| - TrailingWhitespace(s) - 1] == '>'
  {
    var k := TrailingWhitespace(s);
    var t := TrimEnd(s);
    assert |t| == |s| - k;
    if t != [] {
      assert t[|t| - 1] == s[|s| - k - 1];
    }
  }

  /** Text that itself starts with `<` opens with a tag, whatever follows it. */
  lemma OpensWithTagPrefix(x: string, t: string)
    requires x != [] && x[0] == '<'
    ensures OpensWithTag(x + t)
  {
    LeadingWhitespaceUnique(x + t, 0);
  }

  /** Leading whitespace does not matter for `OpensWithTag`. */
  lemma OpensWithTagSkip(c: char, t: string)
    requires IsWhitespace(c)
    ensures OpensWithTag([c] + t) <==> OpensWithTag(t)
  {
    var k := LeadingWhitespace(t);
    var s := [c] + t;
    assert s[1..] == t;
    assert s[..k + 1] == [c] + t[..k];
    LeadingWhitespaceUnique(s, k + 1);
  }

  /** Appending text keeps the opening of a text that opens with a tag. */
  lemma OpensWithTagAppend(x: string, t: string)
    requires OpensWithTag(x)
    ensures OpensWithTag(x + t)
  {
    var k := LeadingWhitespace(x);
    assert (x + t)[..k] == x[..k];
    LeadingWhitespaceUnique(x + t, k);
  }

  /** Prepending text keeps the closing of a text that closes with a tag. */
  lemma ClosesWithTagPrepend(x: string, t: string)
    requires ClosesWithTag(t)
    ensures ClosesWithTag(x + t)
  {
    var k := TrailingWhitespace(t);
    var s := x + t;
    assert s[|s| - k..] == t[|t| - k..];
    assert s[|s| - k - 1] == t[|t| - k - 1];
    TrailingWhitespaceUnique(s, k);
  }

  /** Text ending in `>` followed by whitespace closes with a tag. */
  lemma ClosesWithTagWhitespace(x: string, w: string)
    requires x != [] && x[|x| - 1] == '>' && AllWhitespace(w)
    ensures ClosesWithTag(x + w)
  {
    var s := x + w;
    assert s[|s| - |w|..] == w;
    assert s[|s| - |w| - 1] == x[|x| - 1];
    TrailingWhitespaceUnique(s, |w|);
  }

  /** The start fix of the function. */
  lemma EnsureOpening(s: string)
    ensures OpensWithTag(if OpensWithTag(s) then s else ParagraphOpen + s)
  {
    if !OpensWithTag(s) {
      OpensWithTagPrefix(ParagraphOpen, s);
    }
  }

  /** The end fix of the function; it keeps the opening. */
  lemma EnsureClosing(s: string)
    requires OpensWithTag(s)
    ensures Bracketed(if ClosesWithTag(s) then s else s + ParagraphClose)
  {
    if !ClosesWithTag(s) {
      OpensWithTagAppend(s, ParagraphClose);
      assert s + ParagraphClose == (s + ParagraphClose) + [];
      ClosesWithTagWhitespace(s + ParagraphClose, []);
    }
  }

  /** Text that starts with `<` and ends with `>`. */
  predicate IsTagged(r: string)
  {
    r != [] && r[0] == '<' && r[|r| - 1] == '>'
  }

  /** Wherever a step matches, the match starts with `<` and its replacement starts
      with `<` and ends with `>`. */
  predicate TagSteps(s: string, steps: seq<Step>)
    requires Fits(s, steps)
  {
    forall k :: 0 <= k < |steps| && steps[k].length > 0 ==> s[k] == '<' && IsTagged(steps[k].replacement)
  }

  /** The rules applied after the start and end fixes take only tag steps, on every text. */
  ghost predicate TagRule(rule: Rule)
  {
    forall s: string :: TagSteps(s, Steps(rule, s))
  }

  /** The list wrap is a tag rule: a run starts with `<li>` and becomes a `<ul>` element. */
  lemma ListRunIsTagRule()
    ensures TagRule(ListRun)
  {
    forall s: string
      ensures TagSteps(s, Steps(ListRun, s))
    {
      var steps := Steps(ListRun, s);
      forall k | 0 <= k < |steps| && steps[k].length > 0
        ensures s[k] == '<' && IsTagged(steps[k].replacement)
      {
        assert steps[k] == StepAt(ListRun, s, k);
        assert ListItemEnd(s, k).Some?;
        assert s[k..k + 4] == ItemOpen;
      }
    }
  }

  /** A literal replacement of a tag by a tag is a tag rule. */
  lemma LiteralIsTagRule(pattern: string, replacement: string)
    requires pattern != [] && pattern[0] == '<' && IsTagged(replacement)
    ensures TagRule(Literal(pattern, replacement))
  {
    var rule := Literal(pattern, replacement);
    forall s: string
      ensures TagSteps(s, Steps(rule, s))
    {
      var steps := Steps(rule, s);
      forall k | 0 <= k < |steps| && steps[k].length > 0
        ensures s[k] == '<' && IsTagged(steps[k].replacement)
      {
        assert steps[k] == StepAt(rule, s, k);
        assert s[k..k + |pattern|] == pattern;
      }
    }
  }

  /** The scan copies one character where no step matches, and goes on at `next`. */
  lemma ScanCopies(s: string, steps: seq<Step>, i: nat, next: nat)
    requires Fits(s, steps) && i < |s| && steps[i].length == 0 && next == i + 1
    ensures Scan(s, steps, i) == [s[i]] + Scan(s, steps, next)
  {
  }

  /** The scan replaces a match and goes on after it, at `next`. */
  lemma ScanReplaces(s: string, steps: seq<Step>, i: nat, next: nat)
    requires Fits(s, steps) && i < |s| && steps[i].length > 0 && next == i + steps[i].length
    ensures Scan(s, steps, i) == steps[i].replacement + Scan(s, steps, next)
  {
  }

  /** One step of the scan under tag steps, ending at `j`: a piece that ends with `>`
      unless it is the single character copied. */
  lemma TagStep(s: string, steps: seq<Step>, i: nat) returns (j: nat, head: string)
    requires Fits(s, steps) && TagSteps(s, steps) && i < |s|
    ensures i < j <= |s|
    ensures Scan(s, steps, i) == head + Scan(s, steps, j)
    ensures steps[i].length > 0 ==> s[i] == '<' && IsTagged(head)
    ensures steps[i].length == 0 ==> j == i + 1 && head == [s[i]]
  {
    if steps[i].length == 0 {
      j, head := i + 1, [s[i]];
      ScanCopies(s, steps, i, j);
    } else {
      j, head := i + steps[i].length, steps[i].replacement;
      ScanReplaces(s, steps, i, j);
    }
  }

  /** Tag steps leave whitespace alone. */
  lemma {:induction false} TagScanWhitespace(s: string, steps: seq<Step>, i: nat)
    requires Fits(s, steps) && TagSteps(s, steps) && i <= |s| && AllWhitespace(s[i..])
    decreases |s| - i
    ensures Scan(s, steps, i) == s[i..]
  {
    if i < |s| {
      assert s[i..][0] == s[i];
      var j, head := TagStep(s, steps, i);
      assert s[j..] == s[i..][1..];
      TagScanWhitespace(s, steps, j);
    }
  }

  /** Tag steps keep the opening of a text that opens with a tag. */
  lemma {:induction false} TagRewriteKeepsOpening(s: string, steps: seq<Step>, i: nat)
    requires Fits(s, steps) && TagSteps(s, steps) && i <= |s| && OpensWithTag(s[i..])
    decreases |s| - i
    ensures OpensWithTag(Scan(s, steps, i))
  {
    var u := s[i..];
    OpensAt(u);
    var j, head := TagStep(s, steps, i);
    var rest := Scan(s, steps, j);
    if steps[i].length > 0 || s[i] == '<' {
      OpensWithTagPrefix(head, rest);
    } else {
      assert u[0] == s[i];
      assert u == [s[i]] + s[j..];
      OpensWithTagSkip(s[i], s[j..]);
      TagRewriteKeepsOpening(s, steps, j);
      OpensWithTagSkip(s[i], rest);
    }
  }

  /** The closing `>` of `s` at position `p`, at or after `i`, with only whitespace after it. */
  predicate ClosingAt(s: string, i: nat, p: nat)
  {
    i <= p < |s| && s[p] == '>' && forall q :: p < q < |s| ==> IsWhitespace(s[q])
  }

  lemma ClosingPosition(s: string) returns (p: nat)
    requires ClosesWithTag(s)
    ensures ClosingAt(s, 0, p)
  {
    ClosesAt(s);
    var k := TrailingWhitespace(s);
    p := |s| - k - 1;
    forall q | p < q < |s|
      ensures IsWhitespace(s[q])
    {
      assert s[q] == s[|s| - k..][q - (|s| - k)];
    }
  }

  /** Tag steps keep the closing `>` of the text they scan, or put their own in its place. */
  lemma {:induction false} TagRewriteKeepsClosing(s: string, steps: seq<Step>, i: nat, p: nat)
    requires Fits(s, steps) && TagSteps(s, steps) && ClosingAt(s, i, p)
    decreases |s| - i
    ensures ClosesWithTag(Scan(s, steps, i))
  {
    var j, head := TagStep(s, steps, i);
    var rest := Scan(s, steps, j);
    if j <= p {
      TagRewriteKeepsClosing(s, steps, j, p);
      ClosesWithTagPrepend(head, rest);
    } else {
      assert AllWhitespace(s[j..]) by {
        forall q | 0 <= q < |s| - j
          ensures IsWhitespace(s[j..][q])
        {
          assert s[j..][q] == s[j + q];
        }
      }
      TagScanWhitespace(s, steps, j);
      assert head[|head| - 1] == '>' by {
        if steps[i].length == 0 {
          assert p == i;
        }
      }
      ClosesWithTagWhitespace(head, rest);
    }
  }

  /** The list wrap and the two double-wrap fixes keep a bracketed text bracketed. */
  lemma TagRewriteKeepsBrackets(rule: Rule, s: string)
    requires TagRule(rule) && Bracketed(s)
    ensures Bracketed(Rewrite(rule, s))
  {
    var steps := Steps(rule, s);
    assert TagSteps(s, steps);
    assert s[0..] == s;
    TagRewriteKeepsOpening(s, steps, 0);
    var p := ClosingPosition(s);
    TagRewriteKeepsClosing(s, steps, 0, p);
  }
}
