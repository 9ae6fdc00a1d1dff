/** When the whole loop of `movePins` (tools/charts/repin.go) moves every pin to its place, and
    what it does otherwise. */
module PinMovesExact {
  import opened Wrappers
  import opened Ordering
  import opened Text
  import opened PinText
  import opened Inventory
  import opened PinRepair
  import opened PinMoves

  function DigestFor(resolve: Resolver, name: string, tag: string): string {
    if resolve(name, tag).Some? then resolve(name, tag).value else ""
  }

  /** The repository's pin has to change. */
  predicate Changes(inventory: seq<Image>, tags: Tags, resolve: Resolver, name: string) {
    && name in tags && PinOf(inventory, name).Ok?
    && !Follows(PinOf(inventory, name).value, tags[name], DigestFor(resolve, name, tags[name]))
  }

  function Changing(inventory: seq<Image>, tags: Tags, resolve: Resolver, names: seq<string>): set<string> {
    set name | name in names && Changes(inventory, tags, resolve, name)
  }

  /** Where the repositories that change go. */
  function PlanOf(inventory: seq<Image>, tags: Tags, resolve: Resolver, names: seq<string>): (plan: Plan)
    ensures plan.Keys == Changing(inventory, tags, resolve, names)
  {
    map name | name in Changing(inventory, tags, resolve, names) :: (tags[name], DigestFor(resolve, name, tags[name]))
  }

  /** In the document its predecessors leave, the pin is placed. */
  ghost predicate SetsRight(doc: Document, plan: Plan, name: string, tag: string, digest: string) {
    forall e: nat, cur :: HasPin(doc, e) && doc.entries[e].repository == name && Reached(doc, cur, plan) ==>
      PlacedIn(cur, e, tag, digest)
  }

  /** The i-th repository needs no move or can be moved. */
  ghost predicate Movable(doc: Document, inventory: seq<Image>, tags: Tags, resolve: Resolver, names: seq<string>, i: nat)
    requires i < |names|
  {
    var name := names[i];
    name in tags ==>
      && PinOf(inventory, name).Ok? && resolve(name, tags[name]).Some?
      && (Changes(inventory, tags, resolve, name) ==>
            SetsRight(doc, PlanOf(inventory, tags, resolve, names[..i]), name, tags[name],
                      resolve(name, tags[name]).value))
  }

  /** Its edits go through and give another text: a copy of the digest was edited, not the digest. */
  ghost predicate Misses(doc: Document, inventory: seq<Image>, tags: Tags, resolve: Resolver, names: seq<string>, i: nat)
    requires i < |names|
  {
    var name := names[i];
    && Changes(inventory, tags, resolve, name) && resolve(name, tags[name]).Some?
    && exists e: nat, cur :: HasPin(doc, e) && doc.entries[e].repository == name
         && Reached(doc, cur, PlanOf(inventory, tags, resolve, names[..i])) && PinHeld(cur, e)
         && MissesIn(cur, e, tags[name], resolve(name, tags[name]).value)
  }

  predicate MissesIn(cur: Document, e: nat, tag: string, digest: string)
    requires PinHeld(cur, e)
  {
    EditPin(cur, e, tag, digest).Ok? && EditPin(cur, e, tag, digest) != Ok(Texts(WithEntry(cur, e, tag, digest).layout))
  }

  /** Why a repository could not be moved. */
  ghost predicate Explains(error: MoveError, inventory: seq<Image>, tags: Tags, resolve: Resolver, name: string) {
    && name in tags
    && match error
       case NoPin(e) => PinOf(inventory, name) == Err(e)
       case Unresolved(tag) => PinOf(inventory, name).Ok? && tag == tags[name] && resolve(name, tag).None?
       case NotSet(cause) => Changes(inventory, tags, resolve, name) && resolve(name, tags[name]).Some? && cause.Stopped?
  }

  // One turn.

  lemma PinOfEntry(doc: Document, reader: Reader, name: string)
    requires Laid(doc)
    ensures PinOf(Read(doc, reader), name).Ok? <==> exists e: nat :: HasPin(doc, e) && doc.entries[e].repository == name
  {
    forall e: nat | HasPin(doc, e) && doc.entries[e].repository == name
      ensures IndexOf(Names(doc), name) == Some(e)
    {
      IndexOfOwn(Names(doc), e);
    }
  }

  lemma PlanStep(inventory: seq<Image>, tags: Tags, resolve: Resolver, names: seq<string>, i: nat)
    requires i < |names| && Distinct(names)
    ensures var was, now := PlanOf(inventory, tags, resolve, names[..i]), PlanOf(inventory, tags, resolve, names[..i + 1]);
      && names[i] !in was
      && (now == if Changes(inventory, tags, resolve, names[i])
                 then was[names[i] := (tags[names[i]], DigestFor(resolve, names[i], tags[names[i]]))] else was)
      && |now.Keys| == |was.Keys| + if Changes(inventory, tags, resolve, names[i]) then 1 else 0
  {
    hide PinOf, Changes, Changing;
    ChangingStep(inventory, tags, resolve, names, i);
  }

  lemma ChangingStep(inventory: seq<Image>, tags: Tags, resolve: Resolver, names: seq<string>, i: nat)
    requires i < |names| && Distinct(names)
    ensures Changing(inventory, tags, resolve, names[..i + 1])
            == Changing(inventory, tags, resolve, names[..i])
               + if Changes(inventory, tags, resolve, names[i]) then {names[i]} else {}
    ensures names[i] !in Changing(inventory, tags, resolve, names[..i])
  {
    hide PinOf, Changes;
    assert names[..i + 1] == names[..i] + [names[i]];
  }

  /** One turn on a movable repository. */
  lemma TurnMoves(doc: Document, inventory: seq<Image>, reader: Reader, tags: Tags, resolve: Resolver, parse: Parser,
                  names: seq<string>, i: nat, cur: Document)
    returns (next: Document)
    requires Laid(doc) && inventory == Read(doc, reader) && Faithful(parse, doc) && LibraryAnswers(tags, resolve)
    requires Distinct(names) && i < |names| && Movable(doc, inventory, tags, resolve, names, i)
    requires Reached(doc, cur, PlanOf(inventory, tags, resolve, names[..i]))
    ensures Reached(doc, next, PlanOf(inventory, tags, resolve, names[..i + 1]))
    ensures Turn(inventory, tags, resolve, parse, names[i], Raw(cur))
            == Ok((Raw(next), Changes(inventory, tags, resolve, names[i])))
  {
    hide Reached, Laid, PinOf, PinSet, Raw, PlanOf, WithEntry, EditPin, PlacedIn, TagText, DigestText;
    var name, plan := names[i], PlanOf(inventory, tags, resolve, names[..i]);
    PlanStep(inventory, tags, resolve, names, i);
    if !Changes(inventory, tags, resolve, name) {
      next := cur;
    } else {
      var tag, digest := tags[name], resolve(name, tags[name]).value;
      PinOfEntry(doc, reader, name);
      var e: nat :| HasPin(doc, e) && doc.entries[e].repository == name;
      ReachedNext(doc, cur, plan, e, tag, digest);
      PlacedIsRight(doc, cur, plan, e, tag, digest);
      SetIsEdit(doc, cur, plan, parse, e, tag, digest);
      next := WithEntry(cur, e, tag, digest);
      JoinedTexts(next);
    }
  }

  lemma JoinedTexts(doc: Document)
    ensures Join(Texts(doc.layout)) == Raw(doc)
  {
  }

  /** One turn on a repository that cannot be moved: it stops the loop, or misses. */
  lemma TurnStops(doc: Document, inventory: seq<Image>, reader: Reader, tags: Tags, resolve: Resolver, parse: Parser,
                  names: seq<string>, i: nat, cur: Document)
    requires Laid(doc) && inventory == Read(doc, reader) && Faithful(parse, doc) && LibraryAnswers(tags, resolve)
    requires Distinct(names) && i < |names| && !Movable(doc, inventory, tags, resolve, names, i)
    requires Reached(doc, cur, PlanOf(inventory, tags, resolve, names[..i]))
    ensures var turn := Turn(inventory, tags, resolve, parse, names[i], Raw(cur));
      Misses(doc, inventory, tags, resolve, names, i) || (turn.Err? && Explains(turn.error, inventory, tags, resolve, names[i]))
  {
    hide Reached, Laid, PinOf, PinSet, Raw, PlanOf, WithEntry, EditPin, PlacedIn, TagText, DigestText;
    var name, plan := names[i], PlanOf(inventory, tags, resolve, names[..i]);
    if Changes(inventory, tags, resolve, name) && resolve(name, tags[name]).Some? {
      PlanStep(inventory, tags, resolve, names, i);
      var tag, digest := tags[name], resolve(name, tags[name]).value;
      var e := Unplaced(doc, cur, plan, name, tag, digest);
      PlacedIsRight(doc, cur, plan, e, tag, digest);
      SetIsEdit(doc, cur, plan, parse, e, tag, digest);
      if EditPin(cur, e, tag, digest).Ok? {
        assert MissesIn(cur, e, tag, digest);
      }
    }
  }

  /** What fails in one reached document fails in this one: the plan determines it. */
  lemma Unplaced(doc: Document, cur: Document, plan: Plan, name: string, tag: string, digest: string) returns (e: nat)
    requires Laid(doc) && Reached(doc, cur, plan) && !SetsRight(doc, plan, name, tag, digest)
    ensures HasPin(doc, e) && doc.entries[e].repository == name && !PlacedIn(cur, e, tag, digest)
  {
    hide PlacedIn, MovedBy, Sensible;
    var at: nat, other :| HasPin(doc, at) && doc.entries[at].repository == name && Reached(doc, other, plan)
                          && !PlacedIn(other, at, tag, digest);
    MovedByUnique(doc, cur, other, plan);
    e := at;
  }

  // All turns.

  /** As long as every repository is movable the loop carries the document's text. */
  lemma {:induction false} TurnsReach(
    doc: Document, inventory: seq<Image>, reader: Reader, tags: Tags, resolve: Resolver, parse: Parser,
    names: seq<string>, n: nat)
    returns (cur: Document)
    requires Laid(doc) && inventory == Read(doc, reader) && Faithful(parse, doc) && LibraryAnswers(tags, resolve)
    requires Distinct(names) && n <= |names| && forall k :: 0 <= k < n ==> Movable(doc, inventory, tags, resolve, names, k)
    ensures Reached(doc, cur, PlanOf(inventory, tags, resolve, names[..n]))
    ensures Turns(inventory, tags, resolve, parse, names, Moved(Raw(doc), 0))
            == Turns(inventory, tags, resolve, parse, names[n..],
                     Moved(Raw(cur), |Changing(inventory, tags, resolve, names[..n])|))
    decreases n
  {
    hide *;
    if n == 0 {
      cur := doc;
      NothingPlanned(doc, inventory, tags, resolve, names);
      assert names[0..] == names;
    } else {
      var before := TurnsReach(doc, inventory, reader, tags, resolve, parse, names, n - 1);
      FaithfulWithin(parse, doc);
      TurnsStep(inventory, tags, resolve, parse, names, n - 1,
                Moved(Raw(before), |Changing(inventory, tags, resolve, names[..n - 1])|));
      cur := TurnMoves(doc, inventory, reader, tags, resolve, parse, names, n - 1, before);
      PlanStep(inventory, tags, resolve, names, n - 1);
    }
  }

  lemma FaithfulWithin(parse: Parser, doc: Document)
    requires Faithful(parse, doc)
    ensures Within(parse)
  {
  }

  lemma NothingPlanned(doc: Document, inventory: seq<Image>, tags: Tags, resolve: Resolver, names: seq<string>)
    requires Laid(doc)
    ensures Reached(doc, doc, PlanOf(inventory, tags, resolve, names[..0]))
    ensures Changing(inventory, tags, resolve, names[..0]) == {}
  {
    MovedByNothing(doc);
    assert PlanOf(inventory, tags, resolve, names[..0]) == map[];
  }

  ghost predicate FirstUnmovable(
    doc: Document, inventory: seq<Image>, tags: Tags, resolve: Resolver, names: seq<string>, i: nat)
    requires i < |names|
  {
    && !Movable(doc, inventory, tags, resolve, names, i)
    && forall k :: 0 <= k < i ==> Movable(doc, inventory, tags, resolve, names, k)
  }

  lemma UnmovableBehind(
    doc: Document, inventory: seq<Image>, tags: Tags, resolve: Resolver, names: seq<string>, i: nat)
    requires i < |names| && FirstUnmovable(doc, inventory, tags, resolve, names, i)
    ensures !Movable(doc, inventory, tags, resolve, names, i)
    ensures forall k :: 0 <= k < i ==> Movable(doc, inventory, tags, resolve, names, k)
  {
    hide Movable;
  }

  /** The loop on a document's text. If every repository is movable it ends with the text of the
      document moved to its plan and counts the pins that changed. Otherwise the first that is not
      stops it with the reason, unless that one's edits go through and give another text. */
  lemma MovesExactly(doc: Document, inventory: seq<Image>, reader: Reader, tags: Tags, resolve: Resolver, parse: Parser,
                     names: seq<string>)
    returns (cur: Document)
    requires Laid(doc) && inventory == Read(doc, reader) && Faithful(parse, doc) && LibraryAnswers(tags, resolve)
    requires Distinct(names)
    ensures (forall k :: 0 <= k < |names| ==> Movable(doc, inventory, tags, resolve, names, k)) ==>
      && Reached(doc, cur, PlanOf(inventory, tags, resolve, names))
      && Turns(inventory, tags, resolve, parse, names, Moved(Raw(doc), 0))
         == Ok(Moved(Raw(cur), |Changing(inventory, tags, resolve, names)|))
    ensures forall i: nat :: i < |names| && FirstUnmovable(doc, inventory, tags, resolve, names, i) ==>
      var r := Turns(inventory, tags, resolve, parse, names, Moved(Raw(doc), 0));
      Misses(doc, inventory, tags, resolve, names, i)
      || (r.Err? && r.error.0 == names[i] && Explains(r.error.1, inventory, tags, resolve, names[i]))
  {
    hide *;
    FaithfulWithin(parse, doc);
    cur := doc;
    if forall k :: 0 <= k < |names| ==> Movable(doc, inventory, tags, resolve, names, k) {
      cur := TurnsReach(doc, inventory, reader, tags, resolve, parse, names, |names|);
      assert names[..|names|] == names;
      TurnsEnd(inventory, tags, resolve, parse, names,
               Moved(Raw(cur), |Changing(inventory, tags, resolve, names)|));
    }
    forall i: nat | i < |names| && FirstUnmovable(doc, inventory, tags, resolve, names, i)
      ensures var r := Turns(inventory, tags, resolve, parse, names, Moved(Raw(doc), 0));
        Misses(doc, inventory, tags, resolve, names, i)
        || (r.Err? && r.error.0 == names[i] && Explains(r.error.1, inventory, tags, resolve, names[i]))
    {
      UnmovableBehind(doc, inventory, tags, resolve, names, i);
      var before := TurnsReach(doc, inventory, reader, tags, resolve, parse, names, i);
      TurnsStep(inventory, tags, resolve, parse, names, i,
                Moved(Raw(before), |Changing(inventory, tags, resolve, names[..i])|));
      TurnStops(doc, inventory, reader, tags, resolve, parse, names, i, before);
    }
  }

  /** The loop's own order has each repository once. */
  lemma SortedDistinct(names: seq<string>)
    requires Distinct(names)
    ensures Distinct(Sort(names)) && forall n :: n in Sort(names) <==> n in names
  {
    var sorted := Sort(names);
    forall x
      ensures multiset(sorted)[x] <= 1
    {
      DistinctCount(names, x);
    }
    DistinctFromCount(sorted);
    SortKeepsElements(names);
  }
}
