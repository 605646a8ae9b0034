/** The markup cleaning of recipe text: `html.replace(/<[^>]*>/g, '')`, then the length limit
    of `cleanSummary` (script.js:289-293) or the line breaks of `cleanInstructions`
    (script.js:295-298). */
module Markup {

  /** The number of characters of a summary shown before the ellipsis. */
  const SummaryLimit: nat := 300

  /** The text contains nothing the tag pattern could match: no `<` is followed, anywhere
      later, by a `>`. */
  ghost predicate NoMarkup(t: string)
  {
    forall i, j :: 0 <= i < j < |t| && t[i] == '<' ==> t[j] != '>'
  }

  /** The position of the first `c` in `s`. */
  function FirstIndex(s: string, c: char): (i: nat)
    requires c in s
    ensures i < |s| && s[i] == c && c !in s[..i]
  {
    if s[0] == c then 0 else FirstIndex(s[1..], c) + 1
  }

  /** The global replacement of `<[^>]*>` by nothing, scanning left to right as the regular
      expression engine does: a `<` with some `>` after it is removed together with
      everything up to and including the first such `>`; every other character is kept. */
  function Strip(s: string): (r: string)
    ensures |r| <= |s|
    ensures forall c :: c in r ==> c in s
    ensures NoMarkup(r)
    decreases |s|
  {
    if |s| == 0 then []
    else if s[0] == '<' && '>' in s then Strip(s[FirstIndex(s, '>') + 1..])
    else
      var rest := Strip(s[1..]);
      assert s[0] == '<' ==> '>' !in rest;
      [s[0]] + rest
  }

  /** Text without any `<` passes through unchanged, whatever follows it. */
  lemma {:induction false} StripPlain(a: string, b: string)
    requires '<' !in a
    ensures Strip(a + b) == a + Strip(b)
  {
    if |a| > 0 {
      assert a[0] in a && (a + b)[0] == a[0];
      assert (a + b)[1..] == a[1..] + b;
      StripPlain(a[1..], b);
      calc {
        Strip(a + b);
        [(a + b)[0]] + Strip((a + b)[1..]);
        [a[0]] + Strip(a[1..] + b);
        [a[0]] + (a[1..] + Strip(b));
        { assert a == [a[0]] + a[1..]; }
        a + Strip(b);
      }
    } else {
      assert a + b == b;
    }
  }

  /** A tag, a `<` with no `>` inside up to its closing `>`, is removed with its contents. */
  lemma StripTag(t: string, b: string)
    requires '>' !in t
    ensures Strip(['<'] + t + ['>'] + b) == Strip(b)
  {
    var s := ['<'] + t + ['>'] + b;
    assert s[..|t| + 1] == ['<'] + t;
    assert s[|t| + 1] == '>';
    assert FirstIndex(s, '>') == |t| + 1;
    assert s[|t| + 2..] == b;
  }

  /** Text without any `>` has no tag to remove, stray `<` included. */
  lemma {:induction false} StripUnclosed(s: string)
    requires '>' !in s
    ensures Strip(s) == s
  {
    if |s| > 0 {
      StripUnclosed(s[1..]);
      assert s == [s[0]] + s[1..];
    }
  }

  /** Text that holds nothing the pattern matches is left as it is. */
  lemma {:induction false} StripNoMarkup(s: string)
    requires NoMarkup(s)
    ensures Strip(s) == s
  {
    if |s| > 0 {
      if s[0] == '<' {
        forall j | 0 < j < |s| ensures s[j] != '>' { }
        assert '>' !in s;
      }
      assert NoMarkup(s[1..]) by {
        forall i, j | 0 <= i < j < |s[1..]| && s[1..][i] == '<' ensures s[1..][j] != '>' {
          assert s[i + 1] == '<';
        }
      }
      StripNoMarkup(s[1..]);
      assert s == [s[0]] + s[1..];
    }
  }

  /** Stripping twice is stripping once. */
  lemma {:induction false} StripIdempotent(s: string)
    ensures Strip(Strip(s)) == Strip(s)
  {
    StripNoMarkup(Strip(s));
  }

  /** `cleanSummary`: the stripped text, cut to its first 300 characters followed by "..."
      when it is longer than that. */
  function CleanSummary(html: string): (r: string)
    ensures |r| <= SummaryLimit + 3
    ensures NoMarkup(r)
    ensures |Strip(html)| <= SummaryLimit ==> r == Strip(html)
    ensures |Strip(html)| > SummaryLimit ==>
      |r| == SummaryLimit + 3 && r[..SummaryLimit] == Strip(html)[..SummaryLimit]
      && r[SummaryLimit..] == "..."
  {
    var text := Strip(html);
    if |text| > SummaryLimit then
      var r := text[..SummaryLimit] + "...";
      assert forall j :: SummaryLimit <= j < |r| ==> r[j] == '.';
      assert forall i :: 0 <= i < SummaryLimit ==> r[i] == text[i];
      r
    else text
  }

  /** `.replace(/\n/g, '<br>')`: every newline becomes the four characters `<br>`. */
  function BreakLines(t: string): (r: string)
    ensures '\n' !in r
    ensures |r| >= |t|
  {
    if |t| == 0 then []
    else (if t[0] == '\n' then "<br>" else [t[0]]) + BreakLines(t[1..])
  }

  /** The reverse reading: every `<br>` becomes a newline again. */
  function Unbreak(t: string): string
  {
    if |t| == 0 then []
    else if |t| >= 4 && t[..4] == "<br>" then ['\n'] + Unbreak(t[4..])
    else [t[0]] + Unbreak(t[1..])
  }

  /** `cleanInstructions`: strip the markup, then turn newlines into `<br>`. */
  function CleanInstructions(html: string): (r: string)
    ensures '\n' !in r
    ensures |r| >= |Strip(html)|
  {
    BreakLines(Strip(html))
  }

  /** The first character `BreakLines` writes for `t`, and the point where the rest begins. */
  lemma BreakLinesHead(t: string)
    requires |t| > 0
    ensures var r := BreakLines(t);
      |r| > 0 && r[0] == (if t[0] == '\n' then '<' else t[0])
      && r[(if t[0] == '\n' then 4 else 1)..] == BreakLines(t[1..])
  {
  }

  /** Where `t` does not start with a newline, its rendering cannot start with `<br>`: that
      would need `<br>` written out in `t`, which markup-free text cannot hold. */
  lemma NoBreakAtStart(t: string)
    requires NoMarkup(t) && |t| > 0 && t[0] != '\n'
    ensures var r := BreakLines(t); |r| < 4 || r[..4] != "<br>"
  {
    BreakLinesHead(t);
    if t[0] == '<' {
      assert |t| >= 4 ==> t[3] != '>';
      NoBreakAfterOpen(t);
    }
  }

  /** The character-level core of `NoBreakAtStart`, for text opening with `<`. */
  lemma NoBreakAfterOpen(t: string)
    requires |t| > 0 && t[0] == '<' && (|t| >= 4 ==> t[3] != '>')
    ensures var r := BreakLines(t); |r| < 4 || r[..4] != "<br>"
  {
    var r := BreakLines(t);
    var r1 := BreakLines(t[1..]);
    assert r == ['<'] + r1;
    if |r1| >= 3 && r1[0] == 'b' && r1[1] == 'r' {
      // r1 starts with 'b', which only a 'b' in t[1] writes
      var r2 := BreakLines(t[2..]);
      assert t[1..][1..] == t[2..];
      assert |t| >= 2 && t[1] == 'b' && r1 == ['b'] + r2;
      // r2 starts with 'r', which only an 'r' in t[2] writes
      var r3 := BreakLines(t[3..]);
      assert t[2..][1..] == t[3..];
      assert |t| >= 3 && t[2] == 'r' && r2 == ['r'] + r3;
      // r3 is not empty, so t[3] exists; it writes either itself or '<'
      assert |t| >= 4;
      assert r3[0] != '>';
      assert r[3] == r3[0];
    }
    assert |r| >= 4 ==> r[..4][1] == r1[0] && r[..4][2] == r1[1] && r[..4][3] == r[3];
  }

  /** Line breaking is undone by reading `<br>` back as newlines, provided the text holds no
      markup, which is what stripping guarantees. */
  lemma {:induction false} UnbreakBreakLines(t: string)
    requires NoMarkup(t)
    ensures Unbreak(BreakLines(t)) == t
  {
    if |t| > 0 {
      var r := BreakLines(t);
      BreakLinesHead(t);
      assert NoMarkup(t[1..]) by {
        forall i, j | 0 <= i < j < |t[1..]| && t[1..][i] == '<' ensures t[1..][j] != '>' {
          assert t[i + 1] == '<';
        }
      }
      UnbreakBreakLines(t[1..]);
      if t[0] == '\n' {
        assert r[..4] == "<br>";
      } else {
        NoBreakAtStart(t);
      }
      assert t == [t[0]] + t[1..];
    }
  }

  /** The `<br>` sequences `cleanInstructions` inserts are not stripped again: they stand
      exactly for the newlines of the stripped text. */
  lemma CleanInstructionsRoundTrip(html: string)
    ensures Unbreak(CleanInstructions(html)) == Strip(html)
  {
    UnbreakBreakLines(Strip(html));
  }
}
