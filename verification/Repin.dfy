/** What the check on pins says after the pins have moved (tools/charts/repin.go, pins.go,
    internal/pkg/imagepolicy/imagepolicy.go). */
module Repin {
  import opened Wrappers
  import opened Ordering
  import opened PinText
  import opened Inventory
  import opened PinRepair
  import opened PinCheck
  import opened PinMoves
  import opened PinMovesExact

  // The inventory a moved document says.

  /** No digest looks like anything else to the reader. */
  ghost predicate DigestsKept(reader: Reader) {
    forall lead, digest :: DigestText(digest) ==> reader(lead, digest) == digest
  }

  /** The tags the plan moves stand undressed, as `setPin` demands. */
  ghost predicate PlainTags(doc: Document, plan: Plan) {
    forall e: nat :: Chosen(doc, e, plan) ==> PinHeld(doc, e) && PieceAt(doc.layout, TagSpot(doc, e)).lead == ""
  }

  /** The pin of an entry after the plan: the tag is what the reader makes of the one written. */
  function MovedPin(image: Inventory.Image, plan: Plan, reader: Reader): Option<Pin> {
    if image.unsigned.Some? && image.repository in plan then
      Some(image.unsigned.value.(tag := reader("", plan[image.repository].0), digest := plan[image.repository].1))
    else image.unsigned
  }

  function MovedImages(images: seq<Inventory.Image>, plan: Plan, reader: Reader): (r: seq<Inventory.Image>)
    ensures |r| == |images| && Repositories(r) == Repositories(images)
  {
    seq(|images|, i requires 0 <= i < |images| => images[i].(unsigned := MovedPin(images[i], plan, reader)))
  }

  lemma CurrentPlaced(doc: Document, cur: Document, plan: Plan)
    requires WellPlaced(doc) && Distinct(Names(doc)) && MovedBy(doc, cur, plan)
    ensures WellPlaced(cur) && Names(cur) == Names(doc)
  {
    forall e: nat | HasPin(cur, e)
      ensures Holds(cur.layout, TagSpot(cur, e)) && Holds(cur.layout, DigestSpot(cur, e))
    {
      assert HasPin(doc, e);
      if !Chosen(doc, e, plan) {
        Untouched(doc, cur, plan, e);
      }
    }
    assert forall e: nat :: HasPin(cur, e) <==> HasPin(doc, e);
  }

  /** The moved document reads as the inventory with the planned pins replaced and nothing else. */
  lemma ReadMoved(doc: Document, cur: Document, plan: Plan, reader: Reader)
    requires Laid(doc) && Reached(doc, cur, plan) && PlainTags(doc, plan) && DigestsKept(reader)
    ensures WellPlaced(cur) && Read(cur, reader) == MovedImages(Read(doc, reader), plan, reader)
  {
    CurrentPlaced(doc, cur, plan);
    hide MovedBy, WellPlaced, Laid, DigestsKept, PlainTags, Reached;
    forall e: nat | e < |doc.entries|
      ensures Read(cur, reader)[e] == MovedImages(Read(doc, reader), plan, reader)[e]
    {
      if HasPin(doc, e) {
        ReadMovedPin(doc, cur, plan, reader, e);
      }
    }
  }

  lemma ReadMovedPin(doc: Document, cur: Document, plan: Plan, reader: Reader, e: nat)
    requires Laid(doc) && Reached(doc, cur, plan) && PlainTags(doc, plan) && DigestsKept(reader)
    requires HasPin(doc, e)
    ensures PinHeld(cur, e) && PinHeld(doc, e)
    ensures ReadEntry(cur.layout, cur.entries[e], reader)
            == ReadEntry(doc.layout, doc.entries[e], reader).(
                 unsigned := MovedPin(ReadEntry(doc.layout, doc.entries[e], reader), plan, reader))
  {
    hide TagText, DigestText, Lines, PinStands;
    if Chosen(doc, e, plan) {
      assert Same(doc, cur, TagSpot(doc, e), plan[doc.entries[e].repository].0);
      assert DigestText(plan[doc.entries[e].repository].1);
    } else {
      Untouched(doc, cur, plan, e);
    }
  }

  /** Which images are pinned does not change. */
  lemma SamePinnable(images: seq<Inventory.Image>, plan: Plan, reader: Reader, image: Rendered)
    ensures Pinnable(MovedImages(images, plan, reader), image) <==> Pinnable(images, image)
  {
  }

  lemma {:induction false} SameTags(rendered: seq<Rendered>, images: seq<Inventory.Image>, plan: Plan, reader: Reader)
    ensures TagsOf(rendered, MovedImages(images, plan, reader)) == TagsOf(rendered, images)
    decreases |rendered|
  {
    if rendered != [] {
      SameTags(rendered[..|rendered| - 1], images, plan, reader);
      SamePinnable(images, plan, reader, rendered[|rendered| - 1]);
    }
  }

  // The repair establishes the check.

  /** No pinned repository is rendered at two tags. */
  predicate OneTagEach(rendered: seq<Rendered>, images: seq<Inventory.Image>) {
    forall i, j :: 0 <= i < |rendered| && 0 <= j < |rendered| && Pinnable(images, rendered[i])
                   && rendered[j].Image? && rendered[j].repository == rendered[i].repository
                   ==> rendered[i].tag == rendered[j].tag
  }

  /** Every tag moved to comes back from the reader as it was written. */
  predicate ReadsBack(plan: Plan, reader: Reader) {
    forall name :: name in plan ==> reader("", plan[name].0) == plan[name].0
  }

  /** The table's tag of a pinned image that is rendered. */
  lemma TagOfRendered(rendered: seq<Rendered>, images: seq<Inventory.Image>, i: nat) returns (k: nat)
    requires i < |rendered| && Pinnable(images, rendered[i])
    ensures k < |rendered| && Pinnable(images, rendered[k]) && rendered[k].repository == rendered[i].repository
    ensures rendered[i].repository in TagsOf(rendered, images)
    ensures TagsOf(rendered, images)[rendered[i].repository] == rendered[k].tag
  {
    hide TagsOf;
    assert RendersOf(rendered, rendered[i].repository);
    TagsExactly(rendered, images, rendered[i].repository);
    k :| LastOf(rendered, k, rendered[i].repository)
         && TagsOf(rendered, images)[rendered[i].repository] == rendered[k].tag;
  }

  /** The tag the inventory says after the move. */
  function TagAfter(tags: Tags, plan: Plan, reader: Reader, name: string): string
    requires name in tags
  {
    if name in plan then reader("", tags[name]) else tags[name]
  }

  lemma ProblemAfter(rendered: seq<Rendered>, images: seq<Inventory.Image>, resolve: Resolver, reader: Reader, i: nat)
    requires Readable(rendered) && i < |rendered|
    requires Pinnable(images, rendered[i]) ==> rendered[i].repository in TagsOf(rendered, images)
    ensures var tags := TagsOf(rendered, images);
            var plan := PlanOf(images, tags, resolve, Repositories(images));
            ProblemOf(rendered[i], MovedImages(images, plan, reader)).None? <==>
              (Pinnable(images, rendered[i]) ==> rendered[i].tag == TagAfter(tags, plan, reader, rendered[i].repository))
  {
    hide TagsOf, IndexOf;
    var image, tags := rendered[i], TagsOf(rendered, images);
    var plan := PlanOf(images, tags, resolve, Repositories(images));
    SamePinnable(images, plan, reader, image);
    if Pinnable(images, image) {
      var e := IndexOf(Repositories(images), image.repository).value;
      assert Lookup(MovedImages(images, plan, reader), image.repository) == Some(MovedImages(images, plan, reader)[e]);
      assert Lookup(images, image.repository) == Some(images[e]);
      PinnedIs(images, image.repository, e);
    }
  }

  lemma PinnedIs(images: seq<Inventory.Image>, name: string, e: nat)
    requires e < |images| && IndexOf(Repositories(images), name) == Some(e) && images[e].unsigned.Some?
    ensures PinOf(images, name) == Ok(images[e].unsigned.value)
  {
  }

  /** After the move every image follows its pin exactly when each pinned repository has one tag,
      and the reader gives every tag moved to back. */
  lemma FollowAfter(rendered: seq<Rendered>, images: seq<Inventory.Image>, resolve: Resolver, reader: Reader)
    requires Readable(rendered)
    ensures var plan := PlanOf(images, TagsOf(rendered, images), resolve, Repositories(images));
      AllFollow(rendered, MovedImages(images, plan, reader)) <==> OneTagEach(rendered, images) && ReadsBack(plan, reader)
  {
    hide TagsOf, MovedImages, ProblemOf, Pinnable, LastOf, PinOf, Changes;
    var tags := TagsOf(rendered, images);
    var plan := PlanOf(images, tags, resolve, Repositories(images));
    forall i: nat | i < |rendered|
      ensures Pinnable(images, rendered[i]) ==> rendered[i].repository in tags
      ensures ProblemOf(rendered[i], MovedImages(images, plan, reader)).None? <==>
        (Pinnable(images, rendered[i]) ==> rendered[i].tag == TagAfter(tags, plan, reader, rendered[i].repository))
    {
      if Pinnable(images, rendered[i]) { var k := TagOfRendered(rendered, images, i); }
      ProblemAfter(rendered, images, resolve, reader, i);
    }
    PlannedTags(images, tags, resolve);
    if AllFollow(rendered, MovedImages(images, plan, reader)) {
      FollowedOnce(rendered, images, tags, plan, reader);
    }
    if OneTagEach(rendered, images) && ReadsBack(plan, reader) {
      forall i: nat | i < |rendered| && Pinnable(images, rendered[i])
        ensures rendered[i].tag == TagAfter(tags, plan, reader, rendered[i].repository)
      {
        var k := TagOfRendered(rendered, images, i);
      }
    }
  }

  lemma PlannedTags(images: seq<Inventory.Image>, tags: Tags, resolve: Resolver)
    ensures var plan := PlanOf(images, tags, resolve, Repositories(images));
      forall name :: name in plan ==> name in tags && plan[name].0 == tags[name] && PinOf(images, name).Ok?
  {
    hide PinOf;
  }

  lemma FollowedOnce(rendered: seq<Rendered>, images: seq<Inventory.Image>, tags: Tags, plan: Plan, reader: Reader)
    requires Readable(rendered) && tags == TagsOf(rendered, images)
    requires forall name :: name in plan ==> name in tags && plan[name].0 == tags[name] && PinOf(images, name).Ok?
    requires forall i :: 0 <= i < |rendered| && Pinnable(images, rendered[i]) ==> rendered[i].repository in tags
    requires forall i :: 0 <= i < |rendered| && Pinnable(images, rendered[i]) ==>
      rendered[i].tag == TagAfter(tags, plan, reader, rendered[i].repository)
    ensures OneTagEach(rendered, images) && ReadsBack(plan, reader)
  {
    hide TagsOf, Pinnable, PinOf;
    forall name | name in plan
      ensures reader("", plan[name].0) == plan[name].0
    {
      TagsExactly(rendered, images, name);
      var k: nat :| LastOf(rendered, k, name) && tags[name] == rendered[k].tag;
      LastPinnable(rendered, images, k, name);
    }
    forall i, j | 0 <= i < |rendered| && 0 <= j < |rendered|
      ensures Pinnable(images, rendered[i]) && rendered[j].Image? && rendered[j].repository == rendered[i].repository
              ==> Pinnable(images, rendered[j])
    {
      PinnableByName(images, rendered[i], rendered[j]);
    }
  }

  lemma LastPinnable(rendered: seq<Rendered>, images: seq<Inventory.Image>, k: nat, name: string)
    requires LastOf(rendered, k, name) && PinOf(images, name).Ok?
    ensures Pinnable(images, rendered[k]) && rendered[k].repository == name
  {
  }

  lemma PinnableByName(images: seq<Inventory.Image>, a: Rendered, b: Rendered)
    ensures Pinnable(images, a) && b.Image? && b.repository == a.repository ==> Pinnable(images, b)
  {
  }

  lemma ShownAfter(rendered: seq<Rendered>, images: seq<Inventory.Image>, plan: Plan, reader: Reader)
    ensures EveryPinShown(rendered, MovedImages(images, plan, reader)) <==> EveryPinShown(rendered, images)
  {
    hide RendersOf;
    var moved := MovedImages(images, plan, reader);
    assert forall i :: 0 <= i < |images| ==> moved[i].repository == images[i].repository;
    assert forall i :: 0 <= i < |images| ==> (moved[i].unsigned.Some? <==> images[i].unsigned.Some?);
  }

  lemma {:induction false} AllReadable(charts: seq<Option<seq<Rendered>>>)
    requires AllRendered(charts)
    ensures Readable(All(charts)) && EachRendered(charts)
    decreases |charts|
  {
    if charts != [] {
      AllReadable(charts[..|charts| - 1]);
    }
  }

  /** The plan of the whole run. */
  ghost function PlanFor(doc: Document, reader: Reader, rendered: seq<Rendered>, resolve: Resolver): Plan
    requires WellPlaced(doc)
  {
    PlanOf(Read(doc, reader), TagsOf(rendered, Read(doc, reader)), resolve, Names(doc))
  }

  /** After the pins have moved the whole check passes exactly when no pinned repository is
      rendered at two tags, every pinned one is rendered, and the inventory's reader gives every
      tag moved to back as it was written. */
  lemma RepairEstablishesCheck(doc: Document, cur: Document, reader: Reader, charts: seq<Option<seq<Rendered>>>,
                               resolve: Resolver)
    requires Laid(doc) && AllRendered(charts) && DigestsKept(reader)
    requires Reached(doc, cur, PlanFor(doc, reader, All(charts), resolve))
    requires PlainTags(doc, PlanFor(doc, reader, All(charts), resolve))
    ensures WellPlaced(cur)
    ensures Failures(charts, Read(cur, reader)) == 0 <==>
      && OneTagEach(All(charts), Read(doc, reader)) && EveryPinShown(All(charts), Read(doc, reader))
      && ReadsBack(PlanFor(doc, reader, All(charts), resolve), reader)
  {
    var rendered, images := All(charts), Read(doc, reader);
    var plan := PlanFor(doc, reader, rendered, resolve);
    hide Reached, TagsOf, Failures, PlanOf, DigestsKept, PlainTags, AllFollow, OneTagEach, EveryPinShown, ReadsBack;
    ReadMoved(doc, cur, plan, reader);
    AllReadable(charts);
    NoFailures(charts, Read(cur, reader));
    FollowAfter(rendered, images, resolve, reader);
    ShownAfter(rendered, images, plan, reader);
  }

  /** A second run with the same answers changes exactly the pins whose tag the reader turns into
      another text, and so none when it gives all of them back. */
  lemma SecondRunMoves(doc: Document, cur: Document, reader: Reader, rendered: seq<Rendered>, resolve: Resolver)
    requires Laid(doc) && DigestsKept(reader)
    requires Reached(doc, cur, PlanFor(doc, reader, rendered, resolve))
    requires PlainTags(doc, PlanFor(doc, reader, rendered, resolve))
    ensures WellPlaced(cur)
    ensures var plan := PlanFor(doc, reader, rendered, resolve);
      PlanFor(cur, reader, rendered, resolve).Keys == set name | name in plan && reader("", plan[name].0) != plan[name].0
  {
    var images := Read(doc, reader);
    var tags, plan := TagsOf(rendered, images), PlanFor(doc, reader, rendered, resolve);
    ReadMoved(doc, cur, plan, reader);
    SameTags(rendered, images, plan, reader);
    hide Reached, Laid, TagsOf, DigestsKept, PlainTags, Read, MovedImages, WellPlaced, PinOf;
    forall name | name in Names(doc)
      ensures Changes(Read(cur, reader), tags, resolve, name) <==>
              name in plan && reader("", plan[name].0) != plan[name].0
    {
      ChangesAfter(images, tags, resolve, plan, reader, name);
    }
  }

  lemma ChangesAfter(images: seq<Inventory.Image>, tags: Tags, resolve: Resolver, plan: Plan, reader: Reader, name: string)
    requires plan == PlanOf(images, tags, resolve, Repositories(images)) && name in Repositories(images)
    ensures Changes(MovedImages(images, plan, reader), tags, resolve, name) <==>
            name in plan && reader("", plan[name].0) != plan[name].0
  {
    hide IndexOf;
    var e := IndexOf(Repositories(images), name).value;
    assert MovedImages(images, plan, reader)[e].unsigned == MovedPin(images[e], plan, reader);
  }

  // What is written still parses.

  /** The moved inventory parses exactly when every tag moved to reads as a tag. */
  lemma ParsesAfter(images: seq<Inventory.Image>, plan: Plan, reader: Reader, normal: Normaliser)
    requires Parses(images, normal)
    requires forall name :: name in plan ==> PinOf(images, name).Ok? && DigestText(plan[name].1)
    ensures Parses(MovedImages(images, plan, reader), normal) <==>
            forall name :: name in plan ==> TagText(reader("", plan[name].0))
  {
    hide DigestText, TagText, IndexOf;
    var moved := MovedImages(images, plan, reader);
    if Parses(moved, normal) {
      forall name | name in plan
        ensures TagText(reader("", plan[name].0))
      {
        var e := IndexOf(Repositories(images), name).value;
        assert ValidImage(moved[e]);
      }
    }
    if forall name :: name in plan ==> TagText(reader("", plan[name].0)) {
      forall i | 0 <= i < |images|
        ensures ValidImage(moved[i]) && moved[i].repository == images[i].repository
      {
        assert ValidImage(images[i]);
      }
    }
  }
}
