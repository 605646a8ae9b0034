/** The ingredient field and the quick-tag merge of `addIngredient` (script.js:91-104). The
    field holds free text; its entries are the comma-separated pieces, trimmed, with the empty
    ones dropped. */
module Ingredients {
  import opened Text

  /** `pieces.map(i => i.trim()).filter(i => i)`: trim every piece and keep the non-empty ones,
      in order. */
  function Clean(pieces: seq<string>): (r: seq<string>)
    ensures forall e :: e in r ==> e != "" && Trimmed(e)
    ensures (forall p :: p in pieces ==> ',' !in p) ==> forall e :: e in r ==> ',' !in e
    ensures |r| <= |pieces|
  {
    if |pieces| == 0 then []
    else
      var t := Trim(pieces[0]);
      (if t == "" then [] else [t]) + Clean(pieces[1..])
  }

  /** The entries of the ingredient field, as `addIngredient` reads them. */
  function Entries(input: string): (r: seq<string>)
    ensures forall e :: e in r ==> IsEntry(e)
  {
    Clean(Split(input, ','))
  }

  /** What an entry of the field can be: non-empty, trimmed and free of commas. */
  predicate IsEntry(t: string)
  {
    t != "" && Trimmed(t) && ',' !in t
  }

  /** The new value of the ingredient field after the quick tag `tag` is clicked. A tag that
      already is one of the entries (exact, case-sensitive) leaves the field as it was,
      spacing included; otherwise the cleaned entries are re-joined with ", " and the tag
      appended, or the field becomes the tag alone when it has no entries. */
  function Merged(input: string, tag: string): (r: string)
    ensures tag in Entries(input) ==> r == input
    ensures tag !in Entries(input) && Entries(input) == [] ==> r == tag
    ensures tag !in Entries(input) && Entries(input) != [] ==>
      r == Join(Entries(input), ", ") + ", " + tag
  {
    var current := Entries(input);
    if tag in current then input
    else if |current| > 0 then
      JoinAppend(current, tag, ", ");
      Join(current + [tag], ", ")
    else tag
  }

  /** A string is an entry of `Clean(pieces)` exactly when it is the non-empty trim of one of
      the pieces. */
  lemma {:induction false} CleanMembers(pieces: seq<string>, x: string)
    ensures x in Clean(pieces) <==> x != "" && exists p :: p in pieces && Trim(p) == x
  {
    if |pieces| > 0 {
      CleanCons(pieces[0], pieces[1..]);
      assert [pieces[0]] + pieces[1..] == pieces;
      CleanMembers(pieces[1..], x);
      if x != "" && (exists p :: p in pieces && Trim(p) == x) {
        var p :| p in pieces && Trim(p) == x;
        if p != pieces[0] {
          assert p in pieces[1..];
        }
      }
      if x != "" && (exists p :: p in pieces[1..] && Trim(p) == x) {
        var p :| p in pieces[1..] && Trim(p) == x;
        assert p in pieces;
      }
    }
  }

  /** The entries of any field value are exactly the non-empty trims of its comma-separated
      pieces, whatever the spacing around them. */
  lemma EntriesMembers(input: string, x: string)
    ensures x in Entries(input) <==> x != "" && exists p :: p in Split(input, ',') && Trim(p) == x
  {
    CleanMembers(Split(input, ','), x);
  }

  /** Unfolds `Clean` once at the front of a sequence of pieces. */
  lemma CleanCons(p: string, ps: seq<string>)
    ensures Clean([p] + ps) == (if Trim(p) == "" then [] else [Trim(p)]) + Clean(ps)
  {
    assert ([p] + ps)[1..] == ps;
  }

  /** A space in front of the field's text does not change its entries. */
  lemma EntriesLeadingSpace(rest: string)
    ensures Entries([' '] + rest) == Entries(rest)
  {
    var pieces := Split(rest, ',');
    var first := Trim(pieces[0]);
    calc {
      Entries([' '] + rest);
      Clean(Split([' '] + rest, ','));
      { SplitCons(' ', rest, ','); }
      Clean([[' '] + pieces[0]] + pieces[1..]);
      { CleanCons([' '] + pieces[0], pieces[1..]); TrimLeadingSpace(' ', pieces[0]); }
      (if first == "" then [] else [first]) + Clean(pieces[1..]);
      { CleanCons(pieces[0], pieces[1..]); }
      Clean([pieces[0]] + pieces[1..]);
      { assert [pieces[0]] + pieces[1..] == pieces; }
      Entries(rest);
    }
  }

  /** A first entry followed by ", " and more text reads back as that entry first. */
  lemma EntriesAfterFirst(x: string, rest: string)
    requires IsEntry(x)
    ensures Entries(x + ", " + rest) == [x] + Entries(rest)
  {
    assert x + ", " + rest == x + [','] + ([' '] + rest);
    SplitAfterPiece(x, [' '] + rest, ',');
    CleanCons(x, Split([' '] + rest, ','));
    TrimTrimmed(x);
    EntriesLeadingSpace(rest);
  }

  /** A single well-formed entry reads back as itself. */
  lemma EntriesOfEntry(x: string)
    requires IsEntry(x)
    ensures Entries(x) == [x]
  {
    SplitNoSeparator(x, ',');
    CleanCons(x, []);
    TrimTrimmed(x);
  }

  /** Joining well-formed entries with ", " and reading the field back gives the same entries:
      the space after each comma is trimmed away and no piece is split or dropped. */
  lemma {:induction false} EntriesOfJoin(xs: seq<string>)
    requires forall x :: x in xs ==> IsEntry(x)
    ensures Entries(Join(xs, ", ")) == xs
  {
    if |xs| == 0 {
      EntriesOfEmpty();
    } else if |xs| == 1 {
      assert xs[0] in xs;
      EntriesOfEntry(xs[0]);
    } else {
      var tail := xs[1..];
      assert forall x :: x in tail ==> x in xs;
      EntriesOfJoin(tail);
      EntriesOfJoinStep(xs);
    }
  }

  /** An empty field has no entries. */
  lemma EntriesOfEmpty()
    ensures Entries("") == []
  {
    assert Split("", ',') == [""];
    CleanCons("", []);
  }

  /** The step of `EntriesOfJoin` for two or more entries. */
  lemma EntriesOfJoinStep(xs: seq<string>)
    requires |xs| >= 2 && IsEntry(xs[0])
    requires Entries(Join(xs[1..], ", ")) == xs[1..]
    ensures Entries(Join(xs, ", ")) == xs
  {
    var tail := xs[1..];
    var rest := Join(tail, ", ");
    assert Join(xs, ", ") == xs[0] + ", " + rest;
    calc {
      Entries(Join(xs, ", "));
      Entries(xs[0] + ", " + rest);
      { EntriesAfterFirst(xs[0], rest); }
      [xs[0]] + Entries(Join(tail, ", "));
      [xs[0]] + tail;
      xs;
    }
  }

  /** For a well-formed tag, the field's entries after the merge are the old entries with the
      tag appended when it was absent, and the old entries when it was present. */
  lemma EntriesOfMerged(input: string, tag: string)
    requires IsEntry(tag)
    ensures var before := Entries(input);
      Entries(Merged(input, tag)) == if tag in before then before else before + [tag]
  {
    var current := Entries(input);
    if tag !in current {
      var grown := current + [tag];
      forall x | x in grown ensures IsEntry(x) {
        if x != tag {
          assert x in current;
        }
      }
      if |current| > 0 {
        var m := Merged(input, tag);
        assert m == Join(current, ", ") + ", " + tag;
        JoinAppend(current, tag, ", ");
        EntriesOfJoin(grown);
      } else {
        assert grown == [tag];
        EntriesOfJoin(grown);
      }
    }
  }

  /** On a field in the form the merge itself writes, well-formed entries joined with ", ", a
      new tag is appended after ", " and the text before it is kept as it was. */
  lemma MergedOfJoin(xs: seq<string>, tag: string)
    requires |xs| >= 1 && forall x :: x in xs ==> IsEntry(x)
    requires tag !in xs
    ensures Merged(Join(xs, ", "), tag) == Join(xs, ", ") + ", " + tag
  {
    EntriesOfJoin(xs);
  }

  /** Clicking the same well-formed quick tag twice has the effect of clicking it once. */
  lemma MergedIdempotent(input: string, tag: string)
    requires IsEntry(tag)
    ensures Merged(Merged(input, tag), tag) == Merged(input, tag)
  {
    EntriesOfMerged(input, tag);
  }
}
