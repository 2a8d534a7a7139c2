/** Pickup collection (game.js `checkPickups`): every item the player's box
    overlaps is taken and removed; the rest keep their order. */
module Pickups {
  import opened Geometry
  import opened Entities

  predicate Touches(box: Rect, it: Item) {
    Collides(box, it.box)
  }

  /** The items the player does not touch, in their original order. */
  function Untouched(items: seq<Item>, box: Rect): (r: seq<Item>)
    ensures |r| <= |items|
    ensures forall i :: 0 <= i < |r| ==> r[i] in items && !Touches(box, r[i])
    decreases |items|
  {
    if |items| == 0 then []
    else (if Touches(box, items[0]) then [] else [items[0]]) + Untouched(items[1..], box)
  }

  /** Some item is touched. */
  predicate AnyTouched(items: seq<Item>, box: Rect) {
    exists i :: 0 <= i < |items| && Touches(box, items[i])
  }

  /** Number of touched items. */
  function CountTouched(items: seq<Item>, box: Rect): nat
    decreases |items|
  {
    if |items| == 0 then 0
    else (if Touches(box, items[0]) then 1 else 0) + CountTouched(items[1..], box)
  }

  /** What an item adds to the ammo count: its payload for an ammo pack,
      nothing for a freeze item. */
  function Gain(p: Payload): int {
    match p
    case FreezeTag => 0
    case AmmoRefill(a) => a
  }

  /** The ammo restocked by every touched item. */
  function AmmoGained(items: seq<Item>, box: Rect): int
    decreases |items|
  {
    if |items| == 0 then 0
    else (if Touches(box, items[0]) then Gain(items[0].payload) else 0) + AmmoGained(items[1..], box)
  }

  /** Exactly the untouched items remain: an item is kept if and only if it
      is not touched. */
  lemma {:induction false} UntouchedMembers(items: seq<Item>, box: Rect, it: Item)
    ensures it in Untouched(items, box) <==> it in items && !Touches(box, it)
    decreases |items|
  {
    if |items| > 0 {
      UntouchedMembers(items[1..], box, it);
      assert it in items <==> it == items[0] || it in items[1..];
    }
  }

  /** The items taken and the items left add up to the items there were. */
  lemma {:induction false} UntouchedCount(items: seq<Item>, box: Rect)
    ensures |Untouched(items, box)| + CountTouched(items, box) == |items|
    ensures AnyTouched(items, box) <==> CountTouched(items, box) > 0
    decreases |items|
  {
    if |items| > 0 {
      UntouchedCount(items[1..], box);
      if AnyTouched(items[1..], box) {
        var i :| 0 <= i < |items[1..]| && Touches(box, items[1..][i]);
        assert Touches(box, items[i + 1]);
      }
      if AnyTouched(items, box) && !Touches(box, items[0]) {
        var i :| 0 <= i < |items| && Touches(box, items[i]);
        assert i > 0 && Touches(box, items[1..][i - 1]);
      }
      if Touches(box, items[0]) {
        assert AnyTouched(items, box);
      }
    }
  }

  /** Nothing is taken when nothing is touched. */
  lemma UntouchedIdentity(items: seq<Item>, box: Rect)
    requires !AnyTouched(items, box)
    ensures Untouched(items, box) == items
  {
    UntouchedCount(items, box);
    UntouchedAll(items, box);
  }

  lemma {:induction false} UntouchedAll(items: seq<Item>, box: Rect)
    requires CountTouched(items, box) == 0
    ensures Untouched(items, box) == items
    decreases |items|
  {
    if |items| > 0 {
      UntouchedAll(items[1..], box);
      assert [items[0]] + items[1..] == items;
    }
  }

  /** Ammo packs of non-negative size never lower the ammo count. */
  lemma {:induction false} AmmoGainedNonNegative(items: seq<Item>, box: Rect)
    requires forall i :: 0 <= i < |items| ==> Gain(items[i].payload) >= 0
    ensures AmmoGained(items, box) >= 0
    decreases |items|
  {
    if |items| > 0 {
      AmmoGainedNonNegative(items[1..], box);
    }
  }

  /** Touching `k` packs of `amount` each restocks `k * amount` rounds. */
  lemma {:induction false} AmmoGainedUniform(items: seq<Item>, box: Rect, amount: int)
    requires forall i :: 0 <= i < |items| ==> items[i].payload == AmmoRefill(amount)
    ensures AmmoGained(items, box) == CountTouched(items, box) * amount
    decreases |items|
  {
    if |items| > 0 {
      AmmoGainedUniform(items[1..], box, amount);
    }
  }

  /** The step of the reverse loop: resolving one more item in front. */
  lemma UntouchedCons(items: seq<Item>, i: nat, box: Rect)
    requires i < |items|
    ensures Untouched(items[i..], box) == (if Touches(box, items[i]) then [] else [items[i]]) + Untouched(items[i + 1..], box)
    ensures AmmoGained(items[i..], box) == (if Touches(box, items[i]) then Gain(items[i].payload) else 0) + AmmoGained(items[i + 1..], box)
    ensures CountTouched(items[i..], box) == (if Touches(box, items[i]) then 1 else 0) + CountTouched(items[i + 1..], box)
    ensures AnyTouched(items[i..], box) <==> Touches(box, items[i]) || AnyTouched(items[i + 1..], box)
  {
    assert items[i..][1..] == items[i + 1..];
    if AnyTouched(items[i..], box) && !Touches(box, items[i]) {
      var k :| 0 <= k < |items[i..]| && Touches(box, items[i..][k]);
      assert k > 0 && items[i..][k] == items[i + 1..][k - 1];
    }
    if AnyTouched(items[i + 1..], box) {
      var k :| 0 <= k < |items[i + 1..]| && Touches(box, items[i + 1..][k]);
      assert items[i + 1..][k] == items[i..][k + 1];
    }
    assert Touches(box, items[i]) ==> items[i..][0] == items[i];
  }
}
