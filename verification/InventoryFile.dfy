/** `repinFile` (tools/charts/repin.go): rewriting the inventory file. */
module InventoryFile {
  import opened Wrappers
  import opened Ordering
  import opened PinText
  import opened Inventory
  import opened PinRepair
  import opened PinCheck
  import opened PinMoves
  import opened PinMovesExact
  import opened Repin
  import opened PinOutcome

  /** The strict decoding at the start of `Parse`. */
  type Loader = string -> Option<seq<Inventory.Image>>

  class File {
    var content: string

    constructor (content: string)
      ensures this.content == content
    {
      this.content := content;
    }
  }

  /** What a run makes of the file. */
  ghost function Repinned(content: string, inventory: seq<Inventory.Image>, charts: seq<Option<seq<Rendered>>>,
                          parse: Parser, load: Loader, resolve: Resolver, normal: Normaliser): (bool, string)
    requires Within(parse)
  {
    if !AllRendered(charts) then (false, content)
    else match Turns(inventory, TagsOf(All(charts), inventory), resolve, parse, Sort(Repositories(inventory)),
                     Moved(content, 0))
      case Err(_) => (false, content)
      case Ok(moved) =>
        if moved.count == 0 then (true, content)
        else if load(moved.raw).Some? && Parses(load(moved.raw).value, normal) then (true, moved.raw)
        else (false, content)
  }

  /** `repinFile`: whatever the file holds, it is left as it was or holds a text that parses. */
  method RepinFile(file: File, inventory: seq<Inventory.Image>, charts: seq<Option<seq<Rendered>>>,
                   parse: Parser, load: Loader, resolve: Resolver, normal: Normaliser)
    returns (ok: bool)
    requires Within(parse)
    modifies file
    ensures (ok, file.content) == Repinned(old(file.content), inventory, charts, parse, load, resolve, normal)
    ensures !ok ==> file.content == old(file.content)
    ensures file.content != old(file.content) ==>
      load(file.content).Some? && Parses(load(file.content).value, normal)
  {
    hide Within, AllRendered, Turns, Parses, Sort, TagsOf;
    var tags := RenderedPinTags(charts, inventory);
    if tags.None? {
      return false;
    }
    var moved := MovePins(inventory, tags.value, resolve, parse, file.content);
    if moved.Err? {
      return false;
    }
    if moved.value.count == 0 {
      return true;
    }
    var loaded := load(moved.value.raw);
    if loaded.None? {
      return false;
    }
    var fault := Parse(loaded.value, normal);
    if fault.Some? {
      return false;
    }
    file.content := moved.value.raw;
    ok := true;
  }

  // On a document.

  ghost predicate LoadsAs(load: Loader, cur: Document, reader: Reader) {
    WellPlaced(cur) && load(Raw(cur)) == Some(Read(cur, reader))
  }

  /** The loader says what the document says, with the reader's eyes. */
  ghost predicate LoadsFaithfully(load: Loader, doc: Document, reader: Reader) {
    forall cur, plan :: Reached(doc, cur, plan) ==> LoadsAs(load, cur, reader)
  }

  /** The images' tags are of the reference grammar or none. */
  ghost predicate TagsSensible(rendered: seq<Rendered>) {
    forall i :: 0 <= i < |rendered| && rendered[i].Image? ==> rendered[i].tag == "" || TagText(rendered[i].tag)
  }

  lemma TableSensible(rendered: seq<Rendered>, images: seq<Inventory.Image>, resolve: Resolver)
    requires TagsSensible(rendered)
    requires forall name, tag :: resolve(name, tag).Some? ==> DigestText(resolve(name, tag).value)
    ensures LibraryAnswers(TagsOf(rendered, images), resolve)
  {
    hide TagsOf, TagText, DigestText, PinOf;
    var tags := TagsOf(rendered, images);
    forall name | name in tags
      ensures tags[name] == "" || TagText(tags[name])
    {
      TagsExactly(rendered, images, name);
      var i: nat :| LastOf(rendered, i, name) && tags[name] == rendered[i].tag;
    }
  }

  /** On a document whose rendered pins can all be moved: the file ends with the text of the moved
      document exactly when every tag moved to reads as a tag, and else stays as it was. */
  lemma RepinExactly(doc: Document, reader: Reader, charts: seq<Option<seq<Rendered>>>, parse: Parser, load: Loader,
                     resolve: Resolver, normal: Normaliser)
    returns (cur: Document)
    requires Laid(doc) && Parses(Read(doc, reader), normal) && DigestsKept(reader)
    requires Faithful(parse, doc) && LoadsFaithfully(load, doc, reader)
    requires AllRendered(charts) && TagsSensible(All(charts))
    requires forall name, tag :: resolve(name, tag).Some? ==> DigestText(resolve(name, tag).value)
    requires AllMovable(doc, Read(doc, reader), TagsOf(All(charts), Read(doc, reader)), resolve)
    ensures Reached(doc, cur, PlanFor(doc, reader, All(charts), resolve))
    ensures PlainTags(doc, PlanFor(doc, reader, All(charts), resolve))
    ensures |Read(cur, reader)| == |Read(doc, reader)|
    ensures forall e :: 0 <= e < |Read(doc, reader)| ==>
      Brought(Read(doc, reader)[e], Read(cur, reader)[e], TagsOf(All(charts), Read(doc, reader)), resolve, reader)
    ensures Repinned(Raw(doc), Read(doc, reader), charts, parse, load, resolve, normal)
            == if forall name :: name in PlanFor(doc, reader, All(charts), resolve) ==>
                 TagText(reader("", PlanFor(doc, reader, All(charts), resolve)[name].0))
               then (true, Raw(cur)) else (false, Raw(doc))
  {
    hide *;
    LaidParts(doc);
    var images, tags := Read(doc, reader), TagsOf(All(charts), Read(doc, reader));
    assert Repositories(images) == Names(doc);
    var names, plan := Sort(Repositories(images)), PlanFor(doc, reader, All(charts), resolve);
    PlanIs(doc, reader, All(charts), resolve);
    AllMovableMeans(doc, images, tags, resolve, names);
    TableSensible(All(charts), images, resolve);
    SortedDistinct(Repositories(images));
    SamePlan(images, tags, resolve, names, Names(doc));
    cur := MovesExactly(doc, images, reader, tags, resolve, parse, names);
    MovablePlain(doc, images, reader, tags, resolve, parse, names);
    MovableAnswered(doc, images, tags, resolve, names);
    MovedIsBrought(doc, cur, reader, tags, resolve);
    PlannedSound(images, tags, resolve, Names(doc));
    ReadMoved(doc, cur, plan, reader);
    LoadsCurrent(load, doc, reader, cur, plan);
    ParsesAfter(images, plan, reader, normal);
    FaithfulWithin(parse, doc);
    RepinnedIs(Raw(doc), images, charts, parse, load, resolve, normal, Moved(Raw(cur), |plan.Keys|));
    if plan == map[] {
      NothingMoved(doc, cur);
    }
  }

  /** On a document with a pin that cannot be moved the file stays as it was, unless the edits of the
      first such pin go through and give another text. */
  lemma RepinStops(doc: Document, reader: Reader, charts: seq<Option<seq<Rendered>>>, parse: Parser, load: Loader,
                   resolve: Resolver, normal: Normaliser, i: nat)
    requires Laid(doc) && Faithful(parse, doc) && AllRendered(charts) && TagsSensible(All(charts))
    requires forall name, tag :: resolve(name, tag).Some? ==> DigestText(resolve(name, tag).value)
    requires i < |Sort(Names(doc))|
    requires var images, tags := Read(doc, reader), TagsOf(All(charts), Read(doc, reader));
      && FirstUnmovable(doc, images, tags, resolve, Sort(Names(doc)), i)
      && !Misses(doc, images, tags, resolve, Sort(Names(doc)), i)
    ensures Within(parse)
    ensures Repinned(Raw(doc), Read(doc, reader), charts, parse, load, resolve, normal) == (false, Raw(doc))
  {
    hide *;
    LaidParts(doc);
    var images, tags := Read(doc, reader), TagsOf(All(charts), Read(doc, reader));
    assert Repositories(images) == Names(doc);
    TableSensible(All(charts), images, resolve);
    SortedDistinct(Names(doc));
    var cur := MovesExactly(doc, images, reader, tags, resolve, parse, Sort(Names(doc)));
    FaithfulWithin(parse, doc);
    RepinnedFails(Raw(doc), images, charts, parse, load, resolve, normal);
  }

  lemma RepinnedFails(content: string, inventory: seq<Inventory.Image>, charts: seq<Option<seq<Rendered>>>,
                      parse: Parser, load: Loader, resolve: Resolver, normal: Normaliser)
    requires Within(parse)
    requires Turns(inventory, TagsOf(All(charts), inventory), resolve, parse, Sort(Repositories(inventory)),
                   Moved(content, 0)).Err?
    ensures Repinned(content, inventory, charts, parse, load, resolve, normal) == (false, content)
  {
  }

  lemma PlanIs(doc: Document, reader: Reader, rendered: seq<Rendered>, resolve: Resolver)
    requires WellPlaced(doc)
    ensures PlanFor(doc, reader, rendered, resolve)
            == PlanOf(Read(doc, reader), TagsOf(rendered, Read(doc, reader)), resolve, Names(doc))
  {
  }

  lemma RepinnedIs(content: string, inventory: seq<Inventory.Image>, charts: seq<Option<seq<Rendered>>>,
                   parse: Parser, load: Loader, resolve: Resolver, normal: Normaliser, moved: Moved)
    requires Within(parse) && AllRendered(charts)
    requires Turns(inventory, TagsOf(All(charts), inventory), resolve, parse, Sort(Repositories(inventory)), Moved(content, 0))
             == Ok(moved)
    ensures Repinned(content, inventory, charts, parse, load, resolve, normal)
            == if moved.count == 0 then (true, content)
               else if load(moved.raw).Some? && Parses(load(moved.raw).value, normal) then (true, moved.raw)
               else (false, content)
  {
  }

  lemma LaidParts(doc: Document)
    requires Laid(doc)
    ensures WellPlaced(doc) && Distinct(Names(doc))
  {
  }

  lemma PlannedSound(images: seq<Inventory.Image>, tags: Tags, resolve: Resolver, names: seq<string>)
    requires LibraryAnswers(tags, resolve)
    ensures var plan := PlanOf(images, tags, resolve, names);
      && (forall name :: name in plan ==> PinOf(images, name).Ok?)
      && |plan.Keys| == |Changing(images, tags, resolve, names)| && (plan.Keys == {} ==> plan == map[])
  {
    hide PinOf;
  }

  lemma LoadsCurrent(load: Loader, doc: Document, reader: Reader, cur: Document, plan: Plan)
    requires LoadsFaithfully(load, doc, reader) && Reached(doc, cur, plan)
    ensures WellPlaced(cur) && load(Raw(cur)) == Some(Read(cur, reader))
    ensures forall name :: name in plan ==> DigestText(plan[name].1)
  {
    assert LoadsAs(load, cur, reader);
  }

  lemma NothingMoved(doc: Document, cur: Document)
    requires Laid(doc) && Reached(doc, cur, map[])
    ensures cur == doc
  {
    MovedByNothing(doc);
    MovedByUnique(doc, cur, doc, map[]);
  }
}
