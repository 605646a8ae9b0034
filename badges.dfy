/** The ingredient badges of a recipe card: `renderUsedIngredients` and
    `renderMissingIngredients` (script.js:169-199), as a list of badges instead of HTML. */
module Badges {
  import opened Wrappers

  /** An ingredient of a recipe summary; only its `name` is shown. */
  datatype Ingredient = Ingredient(name: string)

  /** A badge: one ingredient's name, or the "+N more" badge for the names not shown. */
  datatype Badge = Name(name: string) | More(hidden: nat)

  /** The two badge sections differ only in heading and colour. */
  datatype Kind = Used | Missing

  datatype Section = Section(kind: Kind, badges: seq<Badge>)

  /** The number of names shown before the "+N more" badge. */
  const ShownNames: nat := 3

  function Min(a: nat, b: nat): nat { if a <= b then a else b }

  /** `ingredients.slice(0, 3)` as name badges, then `+(n - 3) more` when there are more. */
  function BadgeList(ingredients: seq<Ingredient>): (r: seq<Badge>)
    ensures |r| == Min(|ingredients|, ShownNames) + (if |ingredients| > ShownNames then 1 else 0)
    ensures forall i :: 0 <= i < Min(|ingredients|, ShownNames) ==> r[i] == Name(ingredients[i].name)
    ensures forall i :: 0 <= i < |r| && r[i].More? ==> i == ShownNames && |ingredients| > ShownNames
    ensures |ingredients| > ShownNames ==> r[ShownNames] == More(|ingredients| - ShownNames)
  {
    var shown := Min(|ingredients|, ShownNames);
    seq(shown, i requires 0 <= i < shown => Name(ingredients[i].name))
      + (if |ingredients| > ShownNames then [More(|ingredients| - ShownNames)] else [])
  }

  /** One badge section; an absent or empty list renders nothing. */
  function RenderIngredients(kind: Kind, ingredients: Option<seq<Ingredient>>): (r: Option<Section>)
    ensures r.None? <==> ingredients.None? || |ingredients.value| == 0
    ensures r.Some? ==> r.value.kind == kind && r.value.badges == BadgeList(ingredients.value)
  {
    if ingredients.None? || |ingredients.value| == 0 then None
    else Some(Section(kind, BadgeList(ingredients.value)))
  }

  /** How many ingredients a list of badges stands for: one per name, N for "+N more". */
  function Accounted(badges: seq<Badge>): nat
  {
    if |badges| == 0 then 0
    else (match badges[0] case Name(_) => 1 case More(k) => k) + Accounted(badges[1..])
  }

  lemma {:induction false} AccountedAppend(a: seq<Badge>, b: seq<Badge>)
    ensures Accounted(a + b) == Accounted(a) + Accounted(b)
  {
    if |a| == 0 {
      assert a + b == b;
    } else {
      assert (a + b)[1..] == a[1..] + b;
      AccountedAppend(a[1..], b);
    }
  }

  lemma {:induction false} AccountedNames(badges: seq<Badge>)
    requires forall i :: 0 <= i < |badges| ==> badges[i].Name?
    ensures Accounted(badges) == |badges|
  {
    if |badges| > 0 {
      AccountedNames(badges[1..]);
    }
  }

  /** Every ingredient is accounted for: the names shown plus the "+N more" count give the
      length of the list. */
  lemma BadgesAccountForAll(ingredients: seq<Ingredient>)
    ensures Accounted(BadgeList(ingredients)) == |ingredients|
  {
    var shown := Min(|ingredients|, ShownNames);
    var names := seq(shown, i requires 0 <= i < shown => Name(ingredients[i].name));
    var more := if |ingredients| > ShownNames then [More(|ingredients| - ShownNames)] else [];
    assert BadgeList(ingredients) == names + more;
    AccountedAppend(names, more);
    AccountedNames(names);
    if |more| == 1 {
      assert more[1..] == [];
    }
  }
}
