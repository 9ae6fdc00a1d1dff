/** The check on pins (tools/charts/pins.go), and the repair that establishes it
    (`repinFile`, tools/charts/repin.go). */
module PinCheck {
  import opened Wrappers
  import opened Ordering
  import opened Inventory
  import opened PinRepair

  /** An image a chart renders, as the reference library reads it; no tag reads as the empty one. */
  datatype Rendered = Unreadable | Image(repository: string, tag: string)

  /** The repository is listed and pinned rather than signed. */
  predicate Pinnable(inventory: seq<Inventory.Image>, image: Rendered) {
    image.Image? && Lookup(inventory, image.repository).Some? && Lookup(inventory, image.repository).value.unsigned.Some?
  }

  predicate Readable(images: seq<Rendered>) {
    forall i :: 0 <= i < |images| ==> images[i].Image?
  }

  // The tags to move to.

  /** The table after these images: the last one of a repository decides. */
  function TagsOf(images: seq<Rendered>, inventory: seq<Inventory.Image>): Tags {
    if images == [] then map[]
    else
      var last, before := images[|images| - 1], TagsOf(images[..|images| - 1], inventory);
      if Pinnable(inventory, last) then before[last.repository := last.tag] else before
  }

  lemma TagsStep(before: seq<Rendered>, images: seq<Rendered>, i: nat, inventory: seq<Inventory.Image>)
    requires i < |images|
    ensures var was := TagsOf(before + images[..i], inventory);
      TagsOf(before + images[..i + 1], inventory)
      == if Pinnable(inventory, images[i]) then was[images[i].repository := images[i].tag] else was
  {
    hide Pinnable;
    var seen := before + images[..i + 1];
    assert seen[..|seen| - 1] == before + images[..i] && seen[|seen| - 1] == images[i];
  }

  class TagTable {
    var tags: Tags

    constructor ()
      ensures tags == map[]
    {
      tags := map[];
    }

    /** `addUnsignedTags`, which writes into the table it is handed. */
    method AddUnsignedTags(images: seq<Rendered>, inventory: seq<Inventory.Image>, ghost before: seq<Rendered>)
      returns (ok: bool)
      requires tags == TagsOf(before, inventory)
      modifies this
      ensures ok == Readable(images)
      ensures ok ==> tags == TagsOf(before + images, inventory)
      ensures !ok ==> exists k :: 0 <= k < |images| && images[k].Unreadable? && Readable(images[..k])
                               && tags == TagsOf(before + images[..k], inventory)
    {
      hide TagsOf, Lookup;
      var i := 0;
      assert before + images[..0] == before;
      while i < |images|
        invariant 0 <= i <= |images| && Readable(images[..i])
        invariant tags == TagsOf(before + images[..i], inventory)
      {
        var image := images[i];
        if image.Unreadable? {
          return false;
        }
        var entry := Lookup(inventory, image.repository);
        if entry.Some? && entry.value.unsigned.Some? {
          tags := tags[image.repository := image.tag];
        }
        TagsStep(before, images, i, inventory);
        i := i + 1;
      }
      assert images[..i] == images;
      ok := true;
    }
  }

  ghost function All(charts: seq<Option<seq<Rendered>>>): seq<Rendered> {
    if charts == [] then []
    else All(charts[..|charts| - 1]) + if charts[|charts| - 1].Some? then charts[|charts| - 1].value else []
  }

  /** Every chart rendered, and every image it shows can be read. */
  predicate AllRendered(charts: seq<Option<seq<Rendered>>>) {
    forall c :: 0 <= c < |charts| ==> charts[c].Some? && Readable(charts[c].value)
  }

  /** `renderedPinTags`. */
  method RenderedPinTags(charts: seq<Option<seq<Rendered>>>, inventory: seq<Inventory.Image>)
    returns (r: Option<Tags>)
    ensures r.Some? <==> AllRendered(charts)
    ensures r.Some? ==> r.value == TagsOf(All(charts), inventory)
  {
    var table := new TagTable();
    var c := 0;
    while c < |charts|
      invariant 0 <= c <= |charts| && AllRendered(charts[..c])
      invariant table.tags == TagsOf(All(charts[..c]), inventory)
      invariant fresh(table)
    {
      assert charts[..c + 1][..c] == charts[..c];
      if charts[c].None? {
        return None;
      }
      var ok := table.AddUnsignedTags(charts[c].value, inventory, All(charts[..c]));
      if !ok {
        return None;
      }
      c := c + 1;
    }
    assert charts[..c] == charts;
    r := Some(table.tags);
  }

  predicate LastOf(images: seq<Rendered>, i: nat, repository: string) {
    && i < |images| && images[i].Image? && images[i].repository == repository
    && forall k :: i < k < |images| ==> images[k].Unreadable? || images[k].repository != repository
  }

  /** Whether some image of a repository is rendered. */
  predicate RendersOf(images: seq<Rendered>, repository: string) {
    exists i :: 0 <= i < |images| && images[i].Image? && images[i].repository == repository
  }

  /** The table holds the last tag of every pinned repository that is rendered, and nothing else. */
  lemma {:induction false} TagsExactly(images: seq<Rendered>, inventory: seq<Inventory.Image>, name: string)
    ensures name in TagsOf(images, inventory) <==> RendersOf(images, name) && PinOf(inventory, name).Ok?
    ensures name in TagsOf(images, inventory) ==>
      exists i: nat :: LastOf(images, i, name) && TagsOf(images, inventory)[name] == images[i].tag
    decreases |images|
  {
    if images != [] {
      var n := |images| - 1;
      var before, last := images[..n], images[n];
      TagsExactly(before, inventory, name);
      if last.Image? && last.repository == name {
        assert RendersOf(images, name);
        assert Pinnable(inventory, last) ==> LastOf(images, n, name);
        assert Pinnable(inventory, last) <==> PinOf(inventory, name).Ok?;
        assert !Pinnable(inventory, last) ==> name !in TagsOf(before, inventory);
      } else {
        assert RendersOf(images, name) <==> RendersOf(before, name) by {
          if i :| 0 <= i < |images| && images[i].Image? && images[i].repository == name {
            assert before[i] == images[i];
          }
          if i :| 0 <= i < |before| && before[i].Image? && before[i].repository == name {
            assert images[i] == before[i];
          }
        }
        if name in TagsOf(before, inventory) {
          var i: nat :| LastOf(before, i, name) && TagsOf(before, inventory)[name] == before[i].tag;
          assert forall k :: i < k < n ==> images[k] == before[k];
          assert images[i] == before[i];
          assert LastOf(images, i, name);
        }
      }
    }
  }

  // The check.

  datatype Problem = NotRead | Stale(repository: string, rendered: string, pinned: string)

  function ProblemOf(image: Rendered, inventory: seq<Inventory.Image>): Option<Problem> {
    if image.Unreadable? then Some(NotRead)
    else if !Pinnable(inventory, image) then None
    else
      var pin := Lookup(inventory, image.repository).value.unsigned.value;
      if image.tag != pin.tag then Some(Stale(image.repository, image.tag, pin.tag)) else None
  }

  /** The problems of a list of images, in its order. */
  function StaleOf(images: seq<Rendered>, inventory: seq<Inventory.Image>): seq<Problem> {
    if images == [] then []
    else
      var problem := ProblemOf(images[|images| - 1], inventory);
      StaleOf(images[..|images| - 1], inventory) + if problem.Some? then [problem.value] else []
  }

  ghost function CheckedOf(images: seq<Rendered>, inventory: seq<Inventory.Image>): set<string> {
    set i | 0 <= i < |images| && Pinnable(inventory, images[i]) :: images[i].repository
  }

  /** `stalePins`, before the messages are sorted. */
  method StalePins(images: seq<Rendered>, inventory: seq<Inventory.Image>)
    returns (problems: seq<Problem>, checked: set<string>)
    ensures problems == StaleOf(images, inventory)
    ensures checked == CheckedOf(images, inventory)
  {
    problems, checked := [], {};
    var i := 0;
    while i < |images|
      invariant 0 <= i <= |images|
      invariant problems == StaleOf(images[..i], inventory)
      invariant checked == CheckedOf(images[..i], inventory)
    {
      var image := images[i];
      assert images[..i + 1][..i] == images[..i];
      CheckedStep(images, i, inventory);
      if image.Unreadable? {
        problems := problems + [NotRead];
      } else {
        var entry := Lookup(inventory, image.repository);
        if entry.Some? && entry.value.unsigned.Some? {
          checked := checked + {image.repository};
          if image.tag != entry.value.unsigned.value.tag {
            problems := problems + [Stale(image.repository, image.tag, entry.value.unsigned.value.tag)];
          }
        }
      }
      i := i + 1;
    }
    assert images[..i] == images;
  }

  lemma CheckedStep(images: seq<Rendered>, i: nat, inventory: seq<Inventory.Image>)
    requires i < |images|
    ensures CheckedOf(images[..i + 1], inventory)
            == CheckedOf(images[..i], inventory) + if Pinnable(inventory, images[i]) then {images[i].repository} else {}
  {
    var was, now := images[..i], images[..i + 1];
    assert forall k :: 0 <= k < i ==> was[k] == now[k];
    assert now[i] == images[i];
    forall name | name in CheckedOf(now, inventory)
      ensures name in CheckedOf(was, inventory) || (Pinnable(inventory, images[i]) && name == images[i].repository)
    {
      var k :| 0 <= k < |now| && Pinnable(inventory, now[k]) && now[k].repository == name;
      assert k < i ==> was[k] == now[k];
    }
    forall name | name in CheckedOf(was, inventory)
      ensures name in CheckedOf(now, inventory)
    {
      var k :| 0 <= k < |was| && Pinnable(inventory, was[k]) && was[k].repository == name;
      assert now[k] == was[k];
    }
  }

  /** The pins no render showed. */
  function UncheckedOf(inventory: seq<Inventory.Image>, seen: set<string>): seq<string> {
    if inventory == [] then []
    else
      var entry := inventory[|inventory| - 1];
      UncheckedOf(inventory[..|inventory| - 1], seen)
      + if entry.unsigned.Some? && entry.repository !in seen then [entry.repository] else []
  }

  /** `uncheckedPins`. */
  method UncheckedPins(inventory: seq<Inventory.Image>, seen: set<string>) returns (problems: seq<string>)
    ensures problems == UncheckedOf(inventory, seen)
  {
    problems := [];
    var i := 0;
    while i < |inventory|
      invariant 0 <= i <= |inventory| && problems == UncheckedOf(inventory[..i], seen)
    {
      assert inventory[..i + 1][..i] == inventory[..i];
      if inventory[i].unsigned.Some? && inventory[i].repository !in seen {
        problems := problems + [inventory[i].repository];
      }
      i := i + 1;
    }
    assert inventory[..i] == inventory;
  }

  function ChartFailures(charts: seq<Option<seq<Rendered>>>, inventory: seq<Inventory.Image>): nat {
    if charts == [] then 0
    else
      var last := charts[|charts| - 1];
      ChartFailures(charts[..|charts| - 1], inventory) + if last.None? then 1 else |StaleOf(last.value, inventory)|
  }

  ghost function Failures(charts: seq<Option<seq<Rendered>>>, inventory: seq<Inventory.Image>): nat {
    ChartFailures(charts, inventory) + |UncheckedOf(inventory, CheckedOf(All(charts), inventory))|
  }

  /** `pinFailures`. */
  method PinFailures(charts: seq<Option<seq<Rendered>>>, inventory: seq<Inventory.Image>) returns (failures: nat)
    ensures failures == Failures(charts, inventory)
  {
    failures := 0;
    var seen: set<string> := {};
    var c := 0;
    while c < |charts|
      invariant 0 <= c <= |charts|
      invariant failures == ChartFailures(charts[..c], inventory)
      invariant seen == CheckedOf(All(charts[..c]), inventory)
    {
      assert charts[..c + 1][..c] == charts[..c];
      if charts[c].None? {
        failures := failures + 1;
        assert All(charts[..c + 1]) == All(charts[..c]);
      } else {
        var problems, checked := StalePins(charts[c].value, inventory);
        CheckedAppend(All(charts[..c]), charts[c].value, inventory);
        seen := seen + checked;
        failures := failures + |problems|;
      }
      c := c + 1;
    }
    assert charts[..c] == charts;
    var unchecked := UncheckedPins(inventory, seen);
    failures := failures + |unchecked|;
  }

  lemma CheckedAppend(a: seq<Rendered>, b: seq<Rendered>, inventory: seq<Inventory.Image>)
    ensures CheckedOf(a + b, inventory) == CheckedOf(a, inventory) + CheckedOf(b, inventory)
  {
    var s := a + b;
    forall name | name in CheckedOf(a, inventory) || name in CheckedOf(b, inventory)
      ensures name in CheckedOf(s, inventory)
    {
      if name in CheckedOf(a, inventory) {
        var k :| 0 <= k < |a| && Pinnable(inventory, a[k]) && a[k].repository == name;
        assert s[k] == a[k];
      } else {
        var k :| 0 <= k < |b| && Pinnable(inventory, b[k]) && b[k].repository == name;
        assert s[|a| + k] == b[k];
      }
    }
    forall name | name in CheckedOf(s, inventory)
      ensures name in CheckedOf(a, inventory) || name in CheckedOf(b, inventory)
    {
      var k :| 0 <= k < |s| && Pinnable(inventory, s[k]) && s[k].repository == name;
      assert k < |a| ==> s[k] == a[k];
      assert k >= |a| ==> s[k] == b[k - |a|];
    }
  }

  // When the check finds nothing.

  /** Every image can be read, and a pinned one carries its pin's tag. */
  predicate AllFollow(images: seq<Rendered>, inventory: seq<Inventory.Image>) {
    forall i :: 0 <= i < |images| ==> ProblemOf(images[i], inventory).None?
  }

  lemma {:induction false} NothingStale(images: seq<Rendered>, inventory: seq<Inventory.Image>)
    ensures StaleOf(images, inventory) == [] <==> AllFollow(images, inventory)
    decreases |images|
  {
    hide ProblemOf;
    if images != [] {
      var n := |images| - 1;
      NothingStale(images[..n], inventory);
      assert forall i :: 0 <= i < n ==> images[..n][i] == images[i];
    }
  }

  lemma {:induction false} NothingUnchecked(inventory: seq<Inventory.Image>, seen: set<string>)
    ensures UncheckedOf(inventory, seen) == []
            <==> forall i :: 0 <= i < |inventory| && inventory[i].unsigned.Some? ==> inventory[i].repository in seen
    decreases |inventory|
  {
    if inventory != [] {
      var n := |inventory| - 1;
      NothingUnchecked(inventory[..n], seen);
      assert forall i :: 0 <= i < n ==> inventory[..n][i] == inventory[i];
    }
  }

  lemma FollowAppend(a: seq<Rendered>, b: seq<Rendered>, inventory: seq<Inventory.Image>)
    ensures AllFollow(a + b, inventory) <==> AllFollow(a, inventory) && AllFollow(b, inventory)
  {
    var s := a + b;
    assert forall i :: 0 <= i < |a| ==> s[i] == a[i];
    assert forall i :: 0 <= i < |b| ==> s[|a| + i] == b[i];
    assert forall i :: |a| <= i < |s| ==> s[i] == b[i - |a|];
  }

  predicate EachRendered(charts: seq<Option<seq<Rendered>>>) {
    forall c :: 0 <= c < |charts| ==> charts[c].Some?
  }

  lemma {:induction false} NoChartFails(charts: seq<Option<seq<Rendered>>>, inventory: seq<Inventory.Image>)
    ensures ChartFailures(charts, inventory) == 0 <==> EachRendered(charts) && AllFollow(All(charts), inventory)
    decreases |charts|
  {
    if charts != [] {
      var n := |charts| - 1;
      NoChartFails(charts[..n], inventory);
      EachStep(charts);
      hide StaleOf, AllFollow, EachRendered;
      if charts[n].Some? {
        NothingStale(charts[n].value, inventory);
        FollowAppend(All(charts[..n]), charts[n].value, inventory);
      }
    }
  }

  lemma EachStep(charts: seq<Option<seq<Rendered>>>)
    requires charts != []
    ensures EachRendered(charts) <==> EachRendered(charts[..|charts| - 1]) && charts[|charts| - 1].Some?
  {
    var n := |charts| - 1;
    assert forall c :: 0 <= c < n ==> charts[..n][c] == charts[c];
  }

  /** Every pinned repository is rendered somewhere. */
  predicate EveryPinShown(images: seq<Rendered>, inventory: seq<Inventory.Image>) {
    forall i :: 0 <= i < |inventory| && inventory[i].unsigned.Some? ==> RendersOf(images, inventory[i].repository)
  }

  /** The check passes exactly when every chart renders, every image can be read, every pin
      is shown, and wherever it is shown its tag is the pin's. */
  lemma NoFailures(charts: seq<Option<seq<Rendered>>>, inventory: seq<Inventory.Image>)
    requires Distinct(Repositories(inventory))
    ensures Failures(charts, inventory) == 0 <==>
            EachRendered(charts) && AllFollow(All(charts), inventory) && EveryPinShown(All(charts), inventory)
  {
    var images := All(charts);
    NoChartFails(charts, inventory);
    NothingUnchecked(inventory, CheckedOf(images, inventory));
    forall i | 0 <= i < |inventory| && inventory[i].unsigned.Some?
      ensures inventory[i].repository in CheckedOf(images, inventory) <==> RendersOf(images, inventory[i].repository)
    {
      ShownIsChecked(images, inventory, i);
    }
  }

  lemma ShownIsChecked(images: seq<Rendered>, inventory: seq<Inventory.Image>, i: nat)
    requires Distinct(Repositories(inventory)) && i < |inventory| && inventory[i].unsigned.Some?
    ensures inventory[i].repository in CheckedOf(images, inventory) <==> RendersOf(images, inventory[i].repository)
  {
    var name := inventory[i].repository;
    IndexOfOwn(Repositories(inventory), i);
    assert Lookup(inventory, name) == Some(inventory[i]);
    if k :| 0 <= k < |images| && images[k].Image? && images[k].repository == name {
      assert Pinnable(inventory, images[k]);
    }
  }
}
