/** How many failures the check on pins counts (`pinFailures`, tools/charts/pins.go). */
module PinCounts {
  import opened Wrappers
  import Ordering
  import opened Inventory
  import opened PinCheck

  /** An image that does not read, or is not at its pin's tag. */
  predicate Wrong(image: Rendered, inventory: seq<Inventory.Image>) {
    image == Unreadable
    || (PinOf(inventory, image.repository).Ok? && PinOf(inventory, image.repository).value.tag != image.tag)
  }

  lemma WrongExactly(image: Rendered, inventory: seq<Inventory.Image>)
    ensures ProblemOf(image, inventory).Some? <==> Wrong(image, inventory)
  {
  }

  function WrongAt(images: seq<Rendered>, inventory: seq<Inventory.Image>): set<nat> {
    set k: nat | k < |images| && Wrong(images[k], inventory)
  }

  lemma {:induction false} StaleCount(images: seq<Rendered>, inventory: seq<Inventory.Image>)
    ensures |StaleOf(images, inventory)| == |WrongAt(images, inventory)|
    decreases |images|
  {
    hide ProblemOf, Wrong;
    if images != [] {
      var n := |images| - 1;
      StaleCount(images[..n], inventory);
      WrongExactly(images[n], inventory);
      assert WrongAt(images, inventory)
          == WrongAt(images[..n], inventory) + if Wrong(images[n], inventory) then {n} else {};
    }
  }

  function NotRendered(charts: seq<Option<seq<Rendered>>>): set<nat> {
    set c: nat | c < |charts| && charts[c] == None
  }

  /** The wrong images, by their chart and their place in it. */
  function WrongIn(charts: seq<Option<seq<Rendered>>>, inventory: seq<Inventory.Image>): set<(nat, nat)> {
    set c: nat, k: nat | c < |charts| && charts[c] != None && k in WrongAt(charts[c].value, inventory) :: (c, k)
  }

  function Paired(c: nat, s: set<nat>): set<(nat, nat)> {
    set k | k in s :: (c, k)
  }

  lemma {:induction false} PairedCount(c: nat, s: set<nat>)
    ensures |Paired(c, s)| == |s|
    decreases |s|
  {
    if s != {} {
      var x :| x in s;
      PairedCount(c, s - {x});
      assert Paired(c, s) == Paired(c, s - {x}) + {(c, x)};
    }
  }

  lemma WrongInStep(charts: seq<Option<seq<Rendered>>>, inventory: seq<Inventory.Image>)
    requires charts != []
    ensures var n := |charts| - 1;
      |WrongIn(charts, inventory)|
      == |WrongIn(charts[..n], inventory)| + if charts[n].Some? then |WrongAt(charts[n].value, inventory)| else 0
  {
    hide WrongAt;
    var n := |charts| - 1;
    var last := if charts[n].Some? then Paired(n, WrongAt(charts[n].value, inventory)) else {};
    assert forall c :: 0 <= c < n ==> charts[..n][c] == charts[c];
    assert WrongIn(charts, inventory) == WrongIn(charts[..n], inventory) + last;
    assert WrongIn(charts[..n], inventory) !! last;
    hide WrongIn, Paired;
    if charts[n].Some? { PairedCount(n, WrongAt(charts[n].value, inventory)); }
  }

  lemma {:induction false} ChartCount(charts: seq<Option<seq<Rendered>>>, inventory: seq<Inventory.Image>)
    ensures ChartFailures(charts, inventory) == |NotRendered(charts)| + |WrongIn(charts, inventory)|
    decreases |charts|
  {
    if charts == [] {
      assert WrongIn(charts, inventory) == {};
    } else {
      var n := |charts| - 1;
      ChartCount(charts[..n], inventory);
      WrongInStep(charts, inventory);
      assert NotRendered(charts) == NotRendered(charts[..n]) + if charts[n] == None then {n} else {};
      if charts[n].Some? { StaleCount(charts[n].value, inventory); }
    }
  }

  function Unseen(inventory: seq<Inventory.Image>, seen: set<string>): set<nat> {
    set e: nat | e < |inventory| && inventory[e].unsigned != None && inventory[e].repository !in seen
  }

  lemma {:induction false} UncheckedCount(inventory: seq<Inventory.Image>, seen: set<string>)
    ensures |UncheckedOf(inventory, seen)| == |Unseen(inventory, seen)|
    decreases |inventory|
  {
    if inventory != [] {
      var n := |inventory| - 1;
      UncheckedCount(inventory[..n], seen);
      assert Unseen(inventory, seen)
          == Unseen(inventory[..n], seen)
             + if inventory[n].unsigned != None && inventory[n].repository !in seen then {n} else {};
    }
  }

  /** Pinned entries that no chart that renders shows. */
  function NotShown(charts: seq<Option<seq<Rendered>>>, inventory: seq<Inventory.Image>): set<nat> {
    set e: nat | e < |inventory| && inventory[e].unsigned != None
      && forall c, k :: 0 <= c < |charts| && charts[c] != None && 0 <= k < |charts[c].value| ==>
           charts[c].value[k] == Unreadable || charts[c].value[k].repository != inventory[e].repository
  }

  lemma {:induction false} AllMembers(charts: seq<Option<seq<Rendered>>>, image: Rendered)
    ensures image in All(charts) <==>
      exists c, k :: 0 <= c < |charts| && charts[c] != None && 0 <= k < |charts[c].value| && charts[c].value[k] == image
    decreases |charts|
  {
    if charts != [] {
      var n := |charts| - 1;
      AllMembers(charts[..n], image);
      if image in All(charts) && image !in All(charts[..n]) {
        assert charts[n] != None && image in charts[n].value;
      }
    }
  }

  lemma NotShownExactly(charts: seq<Option<seq<Rendered>>>, inventory: seq<Inventory.Image>)
    requires Ordering.Distinct(Repositories(inventory))
    ensures Unseen(inventory, CheckedOf(All(charts), inventory)) == NotShown(charts, inventory)
  {
    var images := All(charts);
    forall e: nat | e < |inventory| && inventory[e].unsigned != None
      ensures inventory[e].repository !in CheckedOf(images, inventory) <==> e in NotShown(charts, inventory)
    {
      ShownSomewhere(charts, inventory, e);
    }
  }

  lemma ShownSomewhere(charts: seq<Option<seq<Rendered>>>, inventory: seq<Inventory.Image>, e: nat)
    requires Ordering.Distinct(Repositories(inventory)) && e < |inventory| && inventory[e].unsigned != None
    ensures inventory[e].repository in CheckedOf(All(charts), inventory) <==>
      exists c, k :: 0 <= c < |charts| && charts[c] != None && 0 <= k < |charts[c].value|
        && charts[c].value[k] != Unreadable && charts[c].value[k].repository == inventory[e].repository
  {
    var images, name := All(charts), inventory[e].repository;
    forall image: Rendered
      ensures image in images <==>
        exists c, k :: 0 <= c < |charts| && charts[c] != None && 0 <= k < |charts[c].value| && charts[c].value[k] == image
    {
      AllMembers(charts, image);
    }
    hide All;
    forall image: Rendered | image.Image? && image.repository == name
      ensures Pinnable(inventory, image)
    {
      LookupOwn(inventory, e);
    }
    hide Pinnable;
    if name in CheckedOf(images, inventory) {
      var i :| 0 <= i < |images| && Pinnable(inventory, images[i]) && images[i].repository == name;
      PinnableIs(inventory, images[i]);
      assert images[i] in images;
    }
    if c, k :| 0 <= c < |charts| && charts[c] != None && 0 <= k < |charts[c].value|
               && charts[c].value[k] != Unreadable && charts[c].value[k].repository == name {
      var image := charts[c].value[k];
      assert image in images;
      var i :| 0 <= i < |images| && images[i] == image;
    }
  }

  lemma PinnableIs(inventory: seq<Inventory.Image>, image: Rendered)
    ensures Pinnable(inventory, image) ==> image.Image?
  {
  }

  lemma LookupOwn(inventory: seq<Inventory.Image>, e: nat)
    requires Ordering.Distinct(Repositories(inventory)) && e < |inventory|
    ensures Lookup(inventory, inventory[e].repository) == Some(inventory[e])
  {
    IndexOfOwn(Repositories(inventory), e);
    hide IndexOf;
  }

  /** The number is one for every chart that does not render, one for every wrong image of one that
      does, and one for every pinned entry that none of those shows. */
  lemma FailuresExactly(charts: seq<Option<seq<Rendered>>>, inventory: seq<Inventory.Image>)
    requires Ordering.Distinct(Repositories(inventory))
    ensures Failures(charts, inventory)
            == |NotRendered(charts)| + |WrongIn(charts, inventory)| + |NotShown(charts, inventory)|
  {
    ChartCount(charts, inventory);
    UncheckedCount(inventory, CheckedOf(All(charts), inventory));
    NotShownExactly(charts, inventory);
  }
}
