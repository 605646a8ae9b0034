/** Facts about the page and navigation flags `showPage` sets (script.js:66-89). */
module Navigation {

  /** The element id of the page called `name`: `${pageName}-page`. */
  function PageId(name: string): (id: string)
    ensures |id| == |name| + 5 && id[..|name|] == name && id[|name|..] == "-page"
  {
    name + "-page"
  }

  /** Different page names give different ids, so a nav item selects at most one page. */
  lemma PageIdInjective(a: string, b: string)
    requires PageId(a) == PageId(b)
    ensures a == b
  {
    assert a == PageId(a)[..|a|];
  }

  /** No id occurs twice, as HTML requires of element ids. */
  predicate Distinct(ids: seq<string>)
  {
    forall i, j :: 0 <= i < j < |ids| ==> ids[i] != ids[j]
  }

  /** One flag per element: set exactly where the element's key is `t`. */
  function Matches(keys: seq<string>, t: string): (r: seq<bool>)
    ensures |r| == |keys|
    ensures forall i :: 0 <= i < |keys| ==> (r[i] <==> keys[i] == t)
  {
    seq(|keys|, i requires 0 <= i < |keys| => keys[i] == t)
  }

  /** The number of set flags. */
  function CountTrue(flags: seq<bool>): nat
  {
    if |flags| == 0 then 0 else (if flags[0] then 1 else 0) + CountTrue(flags[1..])
  }

  /** The position of `t` in `keys`. */
  function IndexOf(keys: seq<string>, t: string): (k: nat)
    requires t in keys
    ensures k < |keys| && keys[k] == t
  {
    if keys[0] == t then 0 else IndexOf(keys[1..], t) + 1
  }

  /** Among distinct page ids, the pages flagged for `t` number one when a page with that id
      exists and none otherwise: `showPage` never leaves two pages active. */
  lemma {:induction false} SingleMatch(ids: seq<string>, t: string)
    requires Distinct(ids)
    ensures CountTrue(Matches(ids, t)) == if t in ids then 1 else 0
  {
    if |ids| > 0 {
      assert Distinct(ids[1..]) by {
        forall i, j | 0 <= i < j < |ids[1..]| ensures ids[1..][i] != ids[1..][j] {
          assert ids[i + 1] != ids[j + 1];
        }
      }
      SingleMatch(ids[1..], t);
      assert Matches(ids, t)[1..] == Matches(ids[1..], t);
      if ids[0] == t {
        assert t !in ids[1..] by {
          forall k | 0 <= k < |ids[1..]| ensures ids[1..][k] != t {
            assert ids[k + 1] != ids[0];
          }
        }
      } else {
        assert t in ids <==> t in ids[1..] by {
          assert ids == [ids[0]] + ids[1..];
        }
      }
    }
  }
}
