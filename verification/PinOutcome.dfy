/** What a whole run of `movePins` (tools/charts/repin.go) leaves, said of every entry and of the
    count without the turns in between. */
module PinOutcome {
  import opened Wrappers
  import opened Ordering
  import opened PinText
  import opened Inventory
  import opened PinRepair
  import opened PinMoves
  import opened PinMovesExact
  import opened Repin

  /** An entry before and after the run. One without a tag in the table is as it was; any other
      has the digest its tag points to now, and its tag: the one it had if both were right
      already, else what the reader makes of the one in the table. */
  predicate Brought(was: Inventory.Image, now: Inventory.Image, tags: Tags, resolve: Resolver, reader: Reader) {
    var name := was.repository;
    if name !in tags then now == was
    else
      && was.unsigned.Some? && resolve(name, tags[name]).Some?
      && var pin, digest := was.unsigned.value, resolve(name, tags[name]).value;
         now == was.(unsigned := Some(Pin(
           pin.reason,
           if pin.tag == tags[name] && pin.digest == digest then pin.tag else reader("", tags[name]),
           digest)))
  }

  /** The names of the table whose entry has another tag, or a digest its tag points to no more. */
  function Outdated(images: seq<Inventory.Image>, tags: Tags, resolve: Resolver): set<string> {
    set i | 0 <= i < |images| && images[i].unsigned.Some? && images[i].repository in tags
            && (images[i].unsigned.value.tag != tags[images[i].repository]
                || Some(images[i].unsigned.value.digest) != resolve(images[i].repository, tags[images[i].repository]))
         :: images[i].repository
  }

  /** The table's names have a pin, and their tags point somewhere. */
  ghost predicate Answered(images: seq<Inventory.Image>, tags: Tags, resolve: Resolver) {
    forall i :: 0 <= i < |images| && images[i].repository in tags ==>
      images[i].unsigned.Some? && resolve(images[i].repository, tags[images[i].repository]).Some?
  }

  lemma EntryChanges(images: seq<Inventory.Image>, tags: Tags, resolve: Resolver, i: nat)
    requires Distinct(Repositories(images)) && Answered(images, tags, resolve) && i < |images|
    ensures var name := images[i].repository;
      Changes(images, tags, resolve, name) <==>
        name in tags && (images[i].unsigned.value.tag != tags[name]
                         || images[i].unsigned.value.digest != resolve(name, tags[name]).value)
  {
    IndexOfOwn(Repositories(images), i);
    hide IndexOf;
  }

  lemma EntryBrought(images: seq<Inventory.Image>, tags: Tags, resolve: Resolver, reader: Reader, i: nat)
    requires Distinct(Repositories(images)) && Answered(images, tags, resolve) && i < |images|
    ensures var plan := PlanOf(images, tags, resolve, Repositories(images));
      Brought(images[i], MovedImages(images, plan, reader)[i], tags, resolve, reader)
  {
    EntryChanges(images, tags, resolve, i);
    hide Changes;
    assert images[i].repository == Repositories(images)[i];
  }

  lemma ChangingOutdated(images: seq<Inventory.Image>, tags: Tags, resolve: Resolver)
    requires Distinct(Repositories(images)) && Answered(images, tags, resolve)
    ensures Changing(images, tags, resolve, Repositories(images)) == Outdated(images, tags, resolve)
  {
    hide Changes;
    forall name
      ensures name in Changing(images, tags, resolve, Repositories(images)) <==> name in Outdated(images, tags, resolve)
    {
      if name in Repositories(images) {
        var i :| 0 <= i < |images| && Repositories(images)[i] == name;
        EntryChanges(images, tags, resolve, i);
      }
      if name in Outdated(images, tags, resolve) {
        var i :| 0 <= i < |images| && images[i].unsigned.Some? && images[i].repository in tags
                 && images[i].repository == name
                 && (images[i].unsigned.value.tag != tags[name]
                     || Some(images[i].unsigned.value.digest) != resolve(name, tags[name]));
        EntryChanges(images, tags, resolve, i);
        assert Repositories(images)[i] == name;
      }
    }
  }

  /** A document moved to the run's plan has every entry where its tag and digest belong. */
  lemma MovedIsBrought(doc: Document, cur: Document, reader: Reader, tags: Tags, resolve: Resolver)
    requires Laid(doc) && DigestsKept(reader) && Answered(Read(doc, reader), tags, resolve)
    requires Reached(doc, cur, PlanOf(Read(doc, reader), tags, resolve, Names(doc)))
    requires PlainTags(doc, PlanOf(Read(doc, reader), tags, resolve, Names(doc)))
    ensures WellPlaced(cur) && |Read(cur, reader)| == |Read(doc, reader)|
    ensures forall e :: 0 <= e < |Read(doc, reader)| ==>
      Brought(Read(doc, reader)[e], Read(cur, reader)[e], tags, resolve, reader)
  {
    var images := Read(doc, reader);
    assert Repositories(images) == Names(doc);
    assert Distinct(Names(doc));
    ReadMoved(doc, cur, PlanOf(images, tags, resolve, Names(doc)), reader);
    hide *;
    forall e: nat | e < |images|
      ensures Brought(images[e], Read(cur, reader)[e], tags, resolve, reader)
    {
      EntryBrought(images, tags, resolve, reader, e);
    }
  }

  // The run itself.

  /** Every rendered repository can be moved, in the loop's order, or need not. */
  ghost predicate AllMovable(doc: Document, inventory: seq<Inventory.Image>, tags: Tags, resolve: Resolver) {
    var names := Sort(Repositories(inventory));
    forall k :: 0 <= k < |names| ==> Movable(doc, inventory, tags, resolve, names, k)
  }

  lemma AllMovableMeans(doc: Document, inventory: seq<Inventory.Image>, tags: Tags, resolve: Resolver,
                        names: seq<string>)
    requires AllMovable(doc, inventory, tags, resolve) && names == Sort(Repositories(inventory))
    ensures forall k :: 0 <= k < |names| ==> Movable(doc, inventory, tags, resolve, names, k)
  {
  }

  lemma SamePlan(inventory: seq<Inventory.Image>, tags: Tags, resolve: Resolver, a: seq<string>, b: seq<string>)
    requires forall n :: n in a <==> n in b
    ensures PlanOf(inventory, tags, resolve, a) == PlanOf(inventory, tags, resolve, b)
    ensures Changing(inventory, tags, resolve, a) == Changing(inventory, tags, resolve, b)
  {
    hide Changes;
    assert Changing(inventory, tags, resolve, a) == Changing(inventory, tags, resolve, b);
  }

  /** A pin that can be moved has an undressed tag. */
  lemma MovablePlain(doc: Document, inventory: seq<Inventory.Image>, reader: Reader, tags: Tags, resolve: Resolver,
                     parse: Parser, names: seq<string>)
    requires Laid(doc) && inventory == Read(doc, reader) && Faithful(parse, doc) && LibraryAnswers(tags, resolve)
    requires Distinct(names) && forall k :: 0 <= k < |names| ==> Movable(doc, inventory, tags, resolve, names, k)
    ensures PlainTags(doc, PlanOf(inventory, tags, resolve, names))
  {
    var plan := PlanOf(inventory, tags, resolve, names);
    hide Laid, Read, Faithful, LibraryAnswers, Movable, PlanOf, Changes;
    forall e: nat | Chosen(doc, e, plan)
      ensures PinHeld(doc, e) && PieceAt(doc.layout, TagSpot(doc, e)).lead == ""
    {
      var k :| 0 <= k < |names| && names[k] == doc.entries[e].repository;
      var cur := TurnsReach(doc, inventory, reader, tags, resolve, parse, names, k);
      PlanStep(inventory, tags, resolve, names, k);
      MovableSets(doc, inventory, tags, resolve, names, k, e, cur);
      PlainBefore(doc, cur, PlanOf(inventory, tags, resolve, names[..k]), e);
    }
  }

  lemma MovableSets(doc: Document, inventory: seq<Inventory.Image>, tags: Tags, resolve: Resolver, names: seq<string>,
                    k: nat, e: nat, cur: Document)
    requires k < |names| && Movable(doc, inventory, tags, resolve, names, k)
    requires HasPin(doc, e) && doc.entries[e].repository == names[k] && Changes(inventory, tags, resolve, names[k])
    requires Reached(doc, cur, PlanOf(inventory, tags, resolve, names[..k]))
    ensures PinHeld(cur, e) && PieceAt(cur.layout, TagSpot(cur, e)).lead == ""
  {
    hide Reached, PlanOf;
    assert PlacedIn(cur, e, tags[names[k]], resolve(names[k], tags[names[k]]).value);
  }

  lemma PlainBefore(doc: Document, cur: Document, plan: Plan, e: nat)
    requires Laid(doc) && Reached(doc, cur, plan) && HasPin(doc, e) && doc.entries[e].repository !in plan
    requires PinHeld(cur, e) && PieceAt(cur.layout, TagSpot(cur, e)).lead == ""
    ensures PinHeld(doc, e) && PieceAt(doc.layout, TagSpot(doc, e)).lead == ""
  {
    Untouched(doc, cur, plan, e);
  }

  lemma MovableAnswered(doc: Document, inventory: seq<Inventory.Image>, tags: Tags, resolve: Resolver,
                        names: seq<string>)
    requires Distinct(Repositories(inventory)) && forall i :: 0 <= i < |inventory| ==> inventory[i].repository in names
    requires forall k :: 0 <= k < |names| ==> Movable(doc, inventory, tags, resolve, names, k)
    ensures Answered(inventory, tags, resolve)
  {
    forall i: nat | i < |inventory| && inventory[i].repository in tags
      ensures inventory[i].unsigned.Some? && resolve(inventory[i].repository, tags[inventory[i].repository]).Some?
    {
      var k :| 0 <= k < |names| && names[k] == inventory[i].repository;
      assert Movable(doc, inventory, tags, resolve, names, k);
      IndexOfOwn(Repositories(inventory), i);
      hide IndexOf, Movable;
    }
  }

  lemma LaidDistinct(doc: Document, reader: Reader)
    requires Laid(doc)
    ensures WellPlaced(doc) && Repositories(Read(doc, reader)) == Names(doc) && Distinct(Names(doc))
    ensures forall i :: 0 <= i < |Read(doc, reader)| ==> Read(doc, reader)[i].repository in Names(doc)
  {
    assert Repositories(Read(doc, reader)) == Names(doc);
    assert forall i :: 0 <= i < |Read(doc, reader)| ==> Read(doc, reader)[i].repository == Names(doc)[i];
  }

  /** Where every repository can be moved or need not, `movePins` on a document's text gives the
      text of a document in which every entry has been brought to the table, and counts those
      that were not there. */
  lemma MovesBring(doc: Document, reader: Reader, tags: Tags, resolve: Resolver, parse: Parser)
    returns (cur: Document)
    requires Laid(doc) && DigestsKept(reader) && Faithful(parse, doc) && LibraryAnswers(tags, resolve)
    requires AllMovable(doc, Read(doc, reader), tags, resolve)
    ensures WellPlaced(cur) && |Read(cur, reader)| == |Read(doc, reader)|
    ensures forall e :: 0 <= e < |Read(doc, reader)| ==>
      Brought(Read(doc, reader)[e], Read(cur, reader)[e], tags, resolve, reader)
    ensures var images := Read(doc, reader);
      Turns(images, tags, resolve, parse, Sort(Repositories(images)), Moved(Raw(doc), 0))
      == Ok(Moved(Raw(cur), |Outdated(images, tags, resolve)|))
  {
    hide *;
    LaidDistinct(doc, reader);
    FaithfulWithin(parse, doc);
    var images := Read(doc, reader);
    var names := Sort(Repositories(images));
    SortedDistinct(Repositories(images));
    AllMovableMeans(doc, images, tags, resolve, names);
    cur := MovesExactly(doc, images, reader, tags, resolve, parse, names);
    MovablePlain(doc, images, reader, tags, resolve, parse, names);
    SamePlan(images, tags, resolve, names, Names(doc));
    MovableAnswered(doc, images, tags, resolve, names);
    MovedIsBrought(doc, cur, reader, tags, resolve);
    ChangingOutdated(images, tags, resolve);
  }
}
