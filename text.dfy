/** The JavaScript string operations the controller relies on: `trim`, `split` on a single
    character and `join`, over strings modelled as sequences of characters. */
module Text {

  /** The code points JavaScript's `String.prototype.trim` removes: the ECMAScript WhiteSpace
      set (tab, vertical tab, form feed, space, no-break space, the byte order mark and the
      other space separators) and the LineTerminator set. */
  predicate IsWhitespace(c: char)
  {
    c == '\t' || c == '\U{000B}' || c == '\U{000C}' || c == ' ' || c == '\U{00A0}'
    || c == '\U{FEFF}' || c == '\U{1680}' || ('\U{2000}' <= c <= '\U{200A}')
    || c == '\U{202F}' || c == '\U{205F}' || c == '\U{3000}'
    || c == '\n' || c == '\r' || c == '\U{2028}' || c == '\U{2029}'
  }

  /** A string with no whitespace at either end: what `trim` leaves behind. */
  predicate Trimmed(s: string)
  {
    |s| == 0 || (!IsWhitespace(s[0]) && !IsWhitespace(s[|s| - 1]))
  }

  /** Drops leading whitespace. */
  function TrimStart(s: string): (r: string)
    ensures |r| <= |s| && r == s[|s| - |r|..]
    ensures |r| == 0 || !IsWhitespace(r[0])
    ensures |r| < |s| ==> IsWhitespace(s[0])
    ensures forall k :: 0 <= k < |s| - |r| ==> IsWhitespace(s[k])
  {
    if |s| > 0 && IsWhitespace(s[0]) then TrimStart(s[1..]) else s
  }

  /** Drops trailing whitespace. */
  function TrimEnd(s: string): (r: string)
    ensures |r| <= |s| && r == s[..|r|]
    ensures |r| == 0 || !IsWhitespace(r[|r| - 1])
    ensures forall k :: |r| <= k < |s| ==> IsWhitespace(s[k])
  {
    if |s| > 0 && IsWhitespace(s[|s| - 1]) then TrimEnd(s[..|s| - 1]) else s
  }

  /** `s.trim()`: a contiguous slice of `s` with no whitespace at either end. */
  function Trim(s: string): (r: string)
    ensures Trimmed(r)
    ensures forall c :: c in r ==> c in s
  {
    TrimEnd(TrimStart(s))
  }

  /** What `trim` returns is a contiguous slice of its argument, and everything cut off on
      either side of it is whitespace. */
  lemma TrimIsSlice(s: string)
    ensures exists i, j :: (0 <= i <= j <= |s| && Trim(s) == s[i..j]
      && forall k :: 0 <= k < i || j <= k < |s| ==> IsWhitespace(s[k]))
  {
    var t := TrimStart(s);
    var r := TrimEnd(t);
    var i, j := |s| - |t|, |s| - |t| + |r|;
    assert r == s[i..j];
    forall k | 0 <= k < i || j <= k < |s| ensures IsWhitespace(s[k]) {
      if j <= k {
        assert s[k] == t[k - i];
      }
    }
  }

  /** Trimming a string that is already trimmed changes nothing. */
  lemma TrimTrimmed(s: string)
    requires Trimmed(s)
    ensures Trim(s) == s
  {
  }

  /** A whitespace character in front of a string makes no difference to its trim. */
  lemma TrimLeadingSpace(c: char, s: string)
    requires IsWhitespace(c)
    ensures Trim([c] + s) == Trim(s)
  {
    assert ([c] + s)[1..] == s;
  }

  /** `s.split(sep)` for a one-character separator. Like JavaScript, the empty string splits
      into one empty piece, and adjacent separators give empty pieces. */
  function Split(s: string, sep: char): (r: seq<string>)
    ensures |r| >= 1
    ensures forall p :: p in r ==> sep !in p
    ensures |r| == 1 <==> sep !in s
  {
    if |s| == 0 then [""]
    else
      var rest := Split(s[1..], sep);
      if s[0] == sep then [""] + rest
      else [[s[0]] + rest[0]] + rest[1..]
  }

  /** `parts.join(sep)`: the pieces with `sep` between consecutive ones; no pieces give "". */
  function Join(parts: seq<string>, sep: string): (r: string)
    ensures |parts| == 0 ==> r == ""
    ensures |parts| == 1 ==> r == parts[0]
    ensures |parts| >= 1 ==> |parts[0]| <= |r| && r[..|parts[0]|] == parts[0]
  {
    if |parts| == 0 then ""
    else if |parts| == 1 then parts[0]
    else parts[0] + sep + Join(parts[1..], sep)
  }

  /** The joined text ends with the last piece. */
  lemma {:induction false} JoinEndsWithLast(parts: seq<string>, sep: string)
    requires |parts| >= 1
    ensures var last := parts[|parts| - 1];
      |last| <= |Join(parts, sep)| && Join(parts, sep)[|Join(parts, sep)| - |last|..] == last
  {
    if |parts| >= 2 {
      JoinEndsWithLast(parts[1..], sep);
      assert parts[1..][|parts[1..]| - 1] == parts[|parts| - 1];
    }
  }

  /** Joining one more piece onto a non-empty list puts the separator and the piece at the end. */
  lemma {:induction false} JoinAppend(parts: seq<string>, last: string, sep: string)
    requires |parts| >= 1
    ensures Join(parts + [last], sep) == Join(parts, sep) + sep + last
  {
    if |parts| == 1 {
      assert (parts + [last])[1..] == [last];
    } else {
      assert (parts + [last])[1..] == parts[1..] + [last];
      JoinAppend(parts[1..], last, sep);
    }
  }

  /** Splitting and re-joining with the same separator gives back the original string. */
  lemma {:induction false} JoinSplit(s: string, sep: char)
    ensures Join(Split(s, sep), [sep]) == s
  {
    if |s| > 0 {
      var rest := Split(s[1..], sep);
      JoinSplit(s[1..], sep);
      if s[0] == sep {
        JoinSplitSeparator(s, rest, sep);
      } else {
        JoinSplitPiece(s, rest, sep);
      }
    }
  }

  /** The step of `JoinSplit` for a string opening with the separator. */
  lemma JoinSplitSeparator(s: string, rest: seq<string>, sep: char)
    requires |s| > 0 && s[0] == sep && rest == Split(s[1..], sep)
    requires Join(rest, [sep]) == s[1..]
    ensures Join(Split(s, sep), [sep]) == s
  {
    var r := [""] + rest;
    assert Split(s, sep) == r;
    assert r[1..] == rest;
    assert Join(r, [sep]) == "" + [sep] + Join(rest, [sep]);
    assert s == [sep] + s[1..];
  }

  /** The step of `JoinSplit` for a string opening with any other character. */
  lemma JoinSplitPiece(s: string, rest: seq<string>, sep: char)
    requires |s| > 0 && s[0] != sep && rest == Split(s[1..], sep)
    requires Join(rest, [sep]) == s[1..]
    ensures Join(Split(s, sep), [sep]) == s
  {
    assert Split(s, sep) == [[s[0]] + rest[0]] + rest[1..];
    JoinGrowFirst(s[0], rest, [sep]);
    assert s == [s[0]] + s[1..];
  }

  /** Putting a character in front of the first part puts it in front of the joined text. */
  lemma JoinGrowFirst(c: char, parts: seq<string>, sep: string)
    requires |parts| >= 1
    ensures Join([[c] + parts[0]] + parts[1..], sep) == [c] + Join(parts, sep)
  {
    var r := [[c] + parts[0]] + parts[1..];
    assert r[0] == [c] + parts[0] && r[1..] == parts[1..];
    if |parts| > 1 {
      var tail := Join(parts[1..], sep);
      calc {
        Join(r, sep);
        r[0] + sep + Join(r[1..], sep);
        ([c] + parts[0]) + sep + tail;
        [c] + (parts[0] + sep + tail);
        [c] + Join(parts, sep);
      }
    }
  }

  /** A piece that holds no separator, followed by a separator, splits off as one piece. */
  lemma {:induction false} SplitAfterPiece(a: string, b: string, sep: char)
    requires sep !in a
    ensures Split(a + [sep] + b, sep) == [a] + Split(b, sep)
  {
    var s := a + [sep] + b;
    if |a| == 0 {
      assert s == [sep] + b;
      assert s[1..] == b;
    } else {
      assert a[0] in a;
      assert s[1..] == a[1..] + [sep] + b;
      var rest := Split(s[1..], sep);
      SplitAfterPiece(a[1..], b, sep);
      var tail := Split(b, sep);
      assert rest == [a[1..]] + tail;
      assert rest[0] == a[1..] && rest[1..] == tail;
      assert [s[0]] + rest[0] == a;
      assert Split(s, sep) == [[s[0]] + rest[0]] + rest[1..];
    }
  }

  /** A string with no separator splits into itself alone. */
  lemma {:induction false} SplitNoSeparator(s: string, sep: char)
    requires sep !in s
    ensures Split(s, sep) == [s]
  {
    if |s| > 0 {
      SplitNoSeparator(s[1..], sep);
      assert [s[0]] + s[1..] == s;
    }
  }

  /** A leading non-separator character joins the first piece of the rest. */
  lemma SplitCons(c: char, s: string, sep: char)
    requires c != sep
    ensures Split([c] + s, sep) == [[c] + Split(s, sep)[0]] + Split(s, sep)[1..]
  {
    assert ([c] + s)[1..] == s;
  }
}
