/** Recipe matching: which ground items near the player a recipe consumes, and
    which recipe of the table fires. */
module Crafting {
  import opened Util
  import opened Kinds
  import opened Entities

  /** The kinds of a list of items, in order. */
  function KindsOf(items: seq<Item>): (r: seq<Kind>)
    ensures |r| == |items|
  {
    if items == [] then [] else [items[0].kind] + KindsOf(items[1..])
  }

  lemma {:induction false} KindsOfIndex(items: seq<Item>, i: nat)
    requires i < |items|
    ensures KindsOf(items)[i] == items[i].kind
  {
    if i > 0 {
      KindsOfIndex(items[1..], i - 1);
    }
  }

  lemma KindsOfCons(x: Item, items: seq<Item>)
    ensures KindsOf([x] + items) == [x.kind] + KindsOf(items)
  {
    assert ([x] + items)[1..] == items;
  }

  /** Index of the first item of kind `k`. */
  function FirstOfKind(items: seq<Item>, k: Kind): (r: Option<nat>)
    ensures r.Some? ==> r.value < |items| && items[r.value].kind == k
    ensures r.Some? ==> forall j :: 0 <= j < r.value ==> items[j].kind != k
    ensures r.None? ==> forall j :: 0 <= j < |items| ==> items[j].kind != k
  {
    if items == [] then None
    else if items[0].kind == k then Some(0)
    else match FirstOfKind(items[1..], k)
      case None => None
      case Some(j) => Some(j + 1)
  }

  /** For each ingredient in turn, take the first still-unused item of its kind;
      fail as soon as one ingredient finds none. */
  function CanCraft(ingredients: seq<Kind>, usable: seq<Item>): (r: Option<seq<Item>>)
    ensures r.Some? ==> |r.value| == |ingredients|
    decreases |ingredients|
  {
    if ingredients == [] then Some([])
    else match FirstOfKind(usable, ingredients[0])
      case None => None
      case Some(j) =>
        match CanCraft(ingredients[1..], Remove(usable, usable[j]))
        case None => None
        case Some(rest) => Some([usable[j]] + rest)
  }

  /** On success the items taken are returned in ingredient order, each a
      distinct member of `usable`. */
  lemma {:induction false} CanCraftTakes(ingredients: seq<Kind>, usable: seq<Item>)
    ensures var r := CanCraft(ingredients, usable);
      r.Some? ==> KindsOf(r.value) == ingredients && multiset(r.value) <= multiset(usable)
    decreases |ingredients|
  {
    var r := CanCraft(ingredients, usable);
    if ingredients != [] && r.Some? {
      var j := FirstOfKind(usable, ingredients[0]).value;
      var u := Remove(usable, usable[j]);
      var rest := CanCraft(ingredients[1..], u).value;
      CanCraftTakes(ingredients[1..], u);
      RemoveCount(usable, usable[j]);
      assert r.value == [usable[j]] + rest;
      KindsOfCons(usable[j], rest);
      assert ingredients == [ingredients[0]] + ingredients[1..];
      assert multiset(r.value) == multiset{usable[j]} + multiset(rest);
      SubAfterTaking(multiset(rest), usable[j], multiset(usable));
    }
  }

  lemma {:induction false} KindsOfRemove(items: seq<Item>, x: Item)
    requires x in items
    ensures multiset(KindsOf(Remove(items, x))) == multiset(KindsOf(items)) - multiset{x.kind}
  {
    var rest := items[1..];
    assert items == [items[0]] + rest;
    if items[0] != x {
      KindsOfRemove(rest, x);
      KindsOfRemoveStep(items[0], rest, x);
    } else {
      KindsOfCons(x, rest);
    }
  }

  /** The step of KindsOfRemove past a head that is not the removed item. */
  lemma KindsOfRemoveStep(a: Item, rest: seq<Item>, x: Item)
    requires a != x && x in rest
    requires multiset(KindsOf(Remove(rest, x))) == multiset(KindsOf(rest)) - multiset{x.kind}
    ensures multiset(KindsOf(Remove([a] + rest, x))) == multiset(KindsOf([a] + rest)) - multiset{x.kind}
  {
    var i :| 0 <= i < |rest| && rest[i] == x;
    KindsOfIndex(rest, i);
    assert ([a] + rest)[0] == a && ([a] + rest)[1..] == rest;
    assert Remove([a] + rest, x) == [a] + Remove(rest, x);
    KindsOfCons(a, rest);
    KindsOfCons(a, Remove(rest, x));
    ConsMinus(a.kind, KindsOf(rest), KindsOf(Remove(rest, x)), x.kind);
  }

  /** Taking an element out of a sequence's tail takes it out of the whole. */
  lemma ConsMinus<T>(a: T, s: seq<T>, t: seq<T>, c: T)
    requires c in multiset(s) && multiset(t) == multiset(s) - multiset{c}
    ensures multiset([a] + t) == multiset([a] + s) - multiset{c}
  {
    calc {
      multiset([a] + t);
      multiset{a} + multiset(t);
      multiset{a} + (multiset(s) - multiset{c});
      { assert multiset{c} <= multiset(s); }
      multiset{a} + multiset(s) - multiset{c};
      multiset([a] + s) - multiset{c};
    }
  }

  /** A recipe can be crafted exactly when the usable items contain its
      ingredients as a multiset: the greedy first-match never misses a match. */
  lemma {:induction false} CanCraftIffSubMultiset(ingredients: seq<Kind>, usable: seq<Item>)
    ensures CanCraft(ingredients, usable).Some? <==> multiset(ingredients) <= multiset(KindsOf(usable))
    decreases |ingredients|
  {
    if ingredients != [] {
      var f := FirstOfKind(usable, ingredients[0]);
      if f.None? {
        CraftMissing(ingredients, usable);
      } else {
        CanCraftIffSubMultiset(ingredients[1..], Remove(usable, usable[f.value]));
        CraftTaking(ingredients, usable);
      }
    }
  }

  /** When the first ingredient takes its first matching usable item, the
      equivalence for the rest of the recipe over the rest of the items
      carries over to the whole recipe. */
  lemma CraftTaking(ingredients: seq<Kind>, usable: seq<Item>)
    requires ingredients != [] && FirstOfKind(usable, ingredients[0]).Some?
    requires var u := Remove(usable, usable[FirstOfKind(usable, ingredients[0]).value]);
      CanCraft(ingredients[1..], u).Some? <==> multiset(ingredients[1..]) <= multiset(KindsOf(u))
    ensures CanCraft(ingredients, usable).Some? <==> multiset(ingredients) <= multiset(KindsOf(usable))
  {
    var j := FirstOfKind(usable, ingredients[0]).value;
    var u := Remove(usable, usable[j]);
    assert CanCraft(ingredients, usable).Some? <==> CanCraft(ingredients[1..], u).Some?;
    assert ingredients == [ingredients[0]] + ingredients[1..];
    KindsTaking(usable, j);
    SubCons(ingredients[0], ingredients[1..], multiset(KindsOf(usable)));
  }

  lemma SubCons<T>(k: T, rest: seq<T>, m: multiset<T>)
    requires k in m
    ensures multiset([k] + rest) <= m <==> multiset(rest) <= m - multiset{k}
  {
    assert multiset([k] + rest) == multiset{k} + multiset(rest);
    SubAfterTaking(multiset(rest), k, m);
  }

  /** When no usable item has the first ingredient's kind, the recipe neither
      crafts nor is contained in the usable kinds. */
  lemma CraftMissing(ingredients: seq<Kind>, usable: seq<Item>)
    requires ingredients != [] && FirstOfKind(usable, ingredients[0]).None?
    ensures CanCraft(ingredients, usable).None?
    ensures !(multiset(ingredients) <= multiset(KindsOf(usable)))
  {
    var k := ingredients[0];
    assert k in multiset(ingredients);
    if k in multiset(KindsOf(usable)) {
      var i :| 0 <= i < |usable| && KindsOf(usable)[i] == k;
      KindsOfIndex(usable, i);
    }
  }

  /** Taking the j-th usable item takes one of its kind out of the usable
      kinds, which held it. */
  lemma KindsTaking(usable: seq<Item>, j: nat)
    requires j < |usable|
    ensures usable[j].kind in multiset(KindsOf(usable))
    ensures multiset(KindsOf(Remove(usable, usable[j]))) == multiset(KindsOf(usable)) - multiset{usable[j].kind}
  {
    KindsOfRemove(usable, usable[j]);
    KindsOfIndex(usable, j);
  }

  lemma SubAfterTaking<T>(a: multiset<T>, k: T, m: multiset<T>)
    requires k in m
    ensures multiset{k} + a <= m <==> a <= m - multiset{k}
  {
    if a <= m - multiset{k} {
      forall t ensures (multiset{k} + a)[t] <= m[t] {
        if t == k {
          assert (multiset{k} + a)[t] == a[t] + 1;
        }
      }
    }
  }

  lemma {:induction false} KindsOfPermutation(u: seq<Item>, v: seq<Item>)
    requires multiset(u) == multiset(v)
    ensures multiset(KindsOf(u)) == multiset(KindsOf(v))
    decreases |u|
  {
    if u != [] {
      var x := u[0];
      assert u == [x] + u[1..];
      PermutationTail(x, u[1..], v);
      KindsOfPermutation(u[1..], Remove(v, x));
      KindsOfRemove(v, x);
      var i :| 0 <= i < |v| && v[i] == x;
      KindsOfIndex(v, i);
      KindsOfCons(x, u[1..]);
      PutBack(x.kind, multiset(KindsOf(u[1..])), multiset(KindsOf(v)));
    } else {
      assert |v| == |multiset(v)| == 0;
    }
  }

  /** Two orderings of the same items, with the first one's head taken out of
      the second. */
  lemma PermutationTail<T>(x: T, s: seq<T>, v: seq<T>)
    requires multiset([x] + s) == multiset(v)
    ensures x in v && multiset(s) == multiset(Remove(v, x))
  {
    assert multiset([x] + s) == multiset{x} + multiset(s);
    assert x in multiset(v);
    RemoveCount(v, x);
  }

  /** Putting back an element taken out of a multiset restores it. */
  lemma PutBack<T>(a: T, t: multiset<T>, m: multiset<T>)
    requires a in m && t == m - multiset{a}
    ensures multiset{a} + t == m
  {
  }

  /** The order in which the usable items were collected does not decide
      whether a recipe matches. */
  lemma CanCraftOrderIndependent(ingredients: seq<Kind>, u: seq<Item>, v: seq<Item>)
    requires multiset(u) == multiset(v)
    ensures CanCraft(ingredients, u).Some? <==> CanCraft(ingredients, v).Some?
  {
    KindsOfPermutation(u, v);
    CanCraftIffSubMultiset(ingredients, u);
    CanCraftIffSubMultiset(ingredients, v);
  }

  // ---------------------------------------------------------------------
  // Choosing the recipe

  /** The first recipe, from index `from` on, that the usable items satisfy,
      with the items it consumes. */
  function FirstRecipe(recipes: seq<Recipe>, usable: seq<Item>, from: nat): (r: Option<(nat, seq<Item>)>)
    requires from <= |recipes|
    ensures r.Some? ==> from <= r.value.0 < |recipes| && CanCraft(recipes[r.value.0].ingredients, usable) == Some(r.value.1)
    decreases |recipes| - from
  {
    if from == |recipes| then None
    else
      var here := CanCraft(recipes[from].ingredients, usable);
      if here.Some? then Some((from, here.value)) else FirstRecipe(recipes, usable, from + 1)
  }

  /** No recipe before the chosen one fires, and when none is chosen no
      recipe from `from` on fires at all. */
  lemma {:induction false} FirstRecipeIsFirst(recipes: seq<Recipe>, usable: seq<Item>, from: nat)
    requires from <= |recipes|
    ensures var r := FirstRecipe(recipes, usable, from);
      forall i :: from <= i < (if r.Some? then r.value.0 else |recipes|) ==> CanCraft(recipes[i].ingredients, usable).None?
    decreases |recipes| - from
  {
    var r := FirstRecipe(recipes, usable, from);
    if from < |recipes| && CanCraft(recipes[from].ingredients, usable).None? {
      FirstRecipeIsFirst(recipes, usable, from + 1);
      assert r == FirstRecipe(recipes, usable, from + 1);
      var hi := if r.Some? then r.value.0 else |recipes|;
      forall i | from <= i < hi
        ensures CanCraft(recipes[i].ingredients, usable).None?
      {
        if i > from {
          assert from + 1 <= i < hi;
        }
      }
    }
  }

  /** Conversely, a recipe that fires after only misses is the one chosen. */
  lemma {:induction false} FirstRecipeAt(recipes: seq<Recipe>, usable: seq<Item>, from: nat, i: nat)
    requires from <= i < |recipes| && CanCraft(recipes[i].ingredients, usable).Some?
    requires forall j :: from <= j < i ==> CanCraft(recipes[j].ingredients, usable).None?
    ensures FirstRecipe(recipes, usable, from) == Some((i, CanCraft(recipes[i].ingredients, usable).value))
    decreases i - from
  {
    if from < i {
      FirstRecipeAt(recipes, usable, from + 1, i);
    }
  }

  /** Items lying in exactly the recipe's order are all consumed, in that order. */
  lemma {:induction false} ExactItemsAllUsed(ingredients: seq<Kind>, usable: seq<Item>)
    requires KindsOf(usable) == ingredients
    ensures CanCraft(ingredients, usable) == Some(usable)
    decreases |usable|
  {
    if usable != [] {
      var rest := usable[1..];
      assert usable == [usable[0]] + rest;
      KindsOfCons(usable[0], rest);
      assert ingredients[0] == usable[0].kind && ingredients[1..] == KindsOf(rest);
      assert FirstOfKind(usable, ingredients[0]) == Some(0);
      assert Remove(usable, usable[0]) == rest;
      ExactItemsAllUsed(ingredients[1..], rest);
    }
  }

  /** The recipe search of the crafting key: the table in order, stopping at
      the first recipe the usable items satisfy. */
  method FindRecipe(recipes: seq<Recipe>, usable: seq<Item>) returns (r: Option<(nat, seq<Item>)>)
    ensures r == FirstRecipe(recipes, usable, 0)
  {
    var i := 0;
    while i < |recipes|
      invariant 0 <= i <= |recipes|
      invariant FirstRecipe(recipes, usable, i) == FirstRecipe(recipes, usable, 0)
    {
      var crafted := CanCraft(recipes[i].ingredients, usable);
      if crafted.Some? {
        return Some((i, crafted.value));
      }
      i := i + 1;
    }
    return None;
  }

  /** A recipe needing a kind that no usable item has cannot be crafted. */
  lemma MissingKindFails(ingredients: seq<Kind>, usable: seq<Item>, k: Kind)
    requires k in ingredients && k !in KindsOf(usable)
    ensures CanCraft(ingredients, usable).None?
  {
    CanCraftIffSubMultiset(ingredients, usable);
    assert k in multiset(ingredients);
  }
}
