/** Moving every pin to the tag its chart renders (`setPin` and `movePins`, tools/charts/repin.go).
    The loop carries nothing but the text, which it parses again for every pin. */
module PinMoves {
  import opened Wrappers
  import opened Ordering
  import opened Text
  import opened PinText
  import opened Inventory
  import opened PinRepair

  /** An entry as the parser finds it: either value may be missing. */
  datatype Located = Located(repository: string, tag: Option<Node>, digest: Option<Node>)

  type Parser = string -> Option<seq<Located>>

  datatype SetError = Unparsed | NoEntry | NotPinned | Stopped(error: EditError)

  predicate NodesIn(entry: Located, lines: nat) {
    && (entry.tag.Some? ==> entry.tag.value.line < lines)
    && (entry.digest.Some? ==> entry.digest.value.line < lines)
  }

  /** The parser finds nothing outside the text. */
  ghost predicate Within(parse: Parser) {
    forall raw, e :: parse(raw).Some? && 0 <= e < |parse(raw).value| ==> NodesIn(parse(raw).value[e], |Split(raw)|)
  }

  function RepositoriesOf(found: seq<Located>): (r: seq<string>)
    ensures |r| == |found|
    ensures forall e :: 0 <= e < |found| ==> r[e] == found[e].repository
  {
    seq(|found|, e requires 0 <= e < |found| => found[e].repository)
  }

  /** What `pinNodes` finds: the first entry with the repository decides. */
  function NodesOf(found: seq<Located>, repository: string): Result<(Node, Node), SetError> {
    match IndexOf(RepositoriesOf(found), repository)
    case None => Err(NoEntry)
    case Some(e) =>
      if found[e].tag.None? || found[e].digest.None? then Err(NotPinned)
      else Ok((found[e].tag.value, found[e].digest.value))
  }

  /** `setPin` as a function of the text. */
  function PinSet(raw: string, parse: Parser, repository: string, tag: string, digest: string): Result<string, SetError>
    requires Within(parse)
  {
    match parse(raw)
    case None => Err(Unparsed)
    case Some(found) =>
      match NodesOf(found, repository)
      case Err(error) => Err(error)
      case Ok(nodes) =>
        assert nodes.0.line < |Split(raw)| && nodes.1.line < |Split(raw)|;
        match EditBoth(Split(raw), nodes.0, nodes.1, tag, digest)
        case Err(error) => Err(Stopped(error))
        case Ok(lines) => Ok(Join(lines))
  }

  /** `setPin`, with the search of `pinNodes`. */
  method SetPinIn(raw: string, parse: Parser, repository: string, tag: string, digest: string)
    returns (r: Result<string, SetError>)
    requires Within(parse)
    ensures r == PinSet(raw, parse, repository, tag, digest)
  {
    var parsed := parse(raw);
    if parsed.None? {
      return Err(Unparsed);
    }
    var at := Find(RepositoriesOf(parsed.value), repository);
    if at.None? {
      return Err(NoEntry);
    }
    var entry := parsed.value[at.value];
    if entry.tag.None? || entry.digest.None? {
      return Err(NotPinned);
    }
    var edited := SetPin(raw, entry.tag.value, entry.digest.value, tag, digest);
    match edited {
      case Err(error) => r := Err(Stopped(error));
      case Ok(text) => r := Ok(text);
    }
  }

  // The loop.

  datatype MoveError = NoPin(error: PinError) | Unresolved(tag: string) | NotSet(cause: SetError)

  predicate Follows(pin: Pin, tag: string, digest: string) {
    pin.tag == tag && pin.digest == digest
  }

  /** One turn: the text after it, and whether it wrote. */
  function Turn(inventory: seq<Image>, tags: Tags, resolve: Resolver, parse: Parser, name: string, raw: string)
    : Result<(string, bool), MoveError>
    requires Within(parse)
  {
    if name !in tags then Ok((raw, false))
    else match PinOf(inventory, name)
      case Err(error) => Err(NoPin(error))
      case Ok(pin) =>
        match resolve(name, tags[name])
        case None => Err(Unresolved(tags[name]))
        case Some(digest) =>
          if Follows(pin, tags[name], digest) then Ok((raw, false))
          else match PinSet(raw, parse, name, tags[name], digest)
            case Err(error) => Err(NotSet(error))
            case Ok(text) => Ok((text, true))
  }

  datatype Moved = Moved(raw: string, count: nat)

  /** All turns, up to the first that fails. */
  function Turns(inventory: seq<Image>, tags: Tags, resolve: Resolver, parse: Parser, names: seq<string>, start: Moved)
    : Result<Moved, (string, MoveError)>
    requires Within(parse)
  {
    if names == [] then Ok(start)
    else match Turn(inventory, tags, resolve, parse, names[0], start.raw)
      case Err(error) => Err((names[0], error))
      case Ok((raw, wrote)) =>
        Turns(inventory, tags, resolve, parse, names[1..], Moved(raw, start.count + if wrote then 1 else 0))
  }

  /** The body of the loop of `movePins`. */
  method MoveOne(inventory: seq<Image>, tags: Tags, resolve: Resolver, parse: Parser, name: string, raw: string)
    returns (r: Result<(string, bool), MoveError>)
    requires Within(parse)
    ensures r == Turn(inventory, tags, resolve, parse, name, raw)
  {
    hide Within, PinOf, PinSet;
    if name !in tags {
      return Ok((raw, false));
    }
    var pin := Pinned(inventory, name);
    if pin.Err? {
      return Err(NoPin(pin.error));
    }
    var tag, digest := tags[name], resolve(name, tags[name]);
    if digest.None? {
      return Err(Unresolved(tag));
    }
    if tag == pin.value.tag && digest.value == pin.value.digest {
      return Ok((raw, false));
    }
    var edited := SetPinIn(raw, parse, name, tag, digest.value);
    match edited {
      case Err(error) => r := Err(NotSet(error));
      case Ok(text) => r := Ok((text, true));
    }
  }

  lemma TurnsStep(inventory: seq<Image>, tags: Tags, resolve: Resolver, parse: Parser, names: seq<string>, i: nat,
                  start: Moved)
    requires Within(parse) && i < |names|
    ensures Turns(inventory, tags, resolve, parse, names[i..], start)
            == match Turn(inventory, tags, resolve, parse, names[i], start.raw)
               case Err(error) => Err((names[i], error))
               case Ok((raw, wrote)) =>
                 Turns(inventory, tags, resolve, parse, names[i + 1..], Moved(raw, start.count + if wrote then 1 else 0))
  {
    hide Within, Turn;
    assert names[i..][0] == names[i] && names[i..][1..] == names[i + 1..];
  }

  lemma TurnsEnd(inventory: seq<Image>, tags: Tags, resolve: Resolver, parse: Parser, names: seq<string>, start: Moved)
    requires Within(parse)
    ensures Turns(inventory, tags, resolve, parse, names[|names|..], start) == Ok(start)
  {
  }

  /** `movePins`: over the sorted repositories, every pin that has a rendered tag. */
  method MovePins(inventory: seq<Image>, tags: Tags, resolve: Resolver, parse: Parser, raw: string)
    returns (r: Result<Moved, (string, MoveError)>)
    requires Within(parse)
    ensures r == Turns(inventory, tags, resolve, parse, Sort(Repositories(inventory)), Moved(raw, 0))
  {
    hide *;
    var names := SortedRepositories(inventory);
    var text, moved := raw, 0;
    var i := 0;
    assert names[0..] == names;
    while i < |names|
      invariant 0 <= i <= |names|
      invariant Turns(inventory, tags, resolve, parse, names[i..], Moved(text, moved))
             == Turns(inventory, tags, resolve, parse, names, Moved(raw, 0))
    {
      TurnsStep(inventory, tags, resolve, parse, names, i, Moved(text, moved));
      var next := MoveOne(inventory, tags, resolve, parse, names[i], text);
      if next.Err? {
        return Err((names[i], next.error));
      }
      text := next.value.0;
      if next.value.1 {
        moved := moved + 1;
      }
      i := i + 1;
    }
    TurnsEnd(inventory, tags, resolve, parse, names, Moved(text, moved));
    r := Ok(Moved(text, moved));
  }

  // What the parser and the libraries are taken to do.

  /** A document moved by a sensible plan. */
  ghost predicate Reached(doc: Document, cur: Document, plan: Plan) {
    WellPlaced(doc) && MovedBy(doc, cur, plan) && Sensible(plan)
  }

  /** The pin's scalars are where the document has them. */
  predicate PinHeld(doc: Document, e: nat) {
    HasPin(doc, e) && Holds(doc.layout, TagSpot(doc, e)) && Holds(doc.layout, DigestSpot(doc, e))
  }

  function LocatedIn(doc: Document, e: nat): Located
    requires e < |doc.entries|
  {
    if PinHeld(doc, e) then
      Located(doc.entries[e].repository, Some(NodeAt(doc.layout, TagSpot(doc, e))),
              Some(NodeAt(doc.layout, DigestSpot(doc, e))))
    else Located(doc.entries[e].repository, None, None)
  }

  /** The parser finds every entry of the text, and the pins not yet moved where they stand. */
  ghost predicate ParsesAs(parse: Parser, doc: Document, cur: Document, plan: Plan) {
    && parse(Raw(cur)).Some? && RepositoriesOf(parse(Raw(cur)).value) == Names(doc)
    && forall e: nat :: HasPin(doc, e) && e < |cur.entries| && doc.entries[e].repository !in plan ==>
         parse(Raw(cur)).value[e] == LocatedIn(cur, e)
  }

  ghost predicate Faithful(parse: Parser, doc: Document) {
    Within(parse) && forall cur, plan :: Reached(doc, cur, plan) ==> ParsesAs(parse, doc, cur, plan)
  }

  /** Tags of the reference grammar or none, and digests. */
  ghost predicate LibraryAnswers(tags: Tags, resolve: Resolver) {
    && (forall name :: name in tags ==> tags[name] == "" || TagText(tags[name]))
    && forall name, tag :: resolve(name, tag).Some? ==> DigestText(resolve(name, tag).value)
  }

  // One pin, in a document reached so far.

  predicate PlacedIn(cur: Document, e: nat, tag: string, digest: string) {
    PinHeld(cur, e) && Placed(cur.layout, TagSpot(cur, e), DigestSpot(cur, e), tag, digest)
  }

  /** The two edits on the document's lines. */
  function EditPin(cur: Document, e: nat, tag: string, digest: string): Result<seq<string>, EditError>
    requires PinHeld(cur, e)
  {
    EditBoth(Texts(cur.layout), NodeAt(cur.layout, TagSpot(cur, e)), NodeAt(cur.layout, DigestSpot(cur, e)), tag, digest)
  }

  lemma StillHeld(doc: Document, cur: Document, plan: Plan, e: nat)
    requires Laid(doc) && Reached(doc, cur, plan) && HasPin(doc, e) && doc.entries[e].repository !in plan
    ensures PinHeld(cur, e) && TagSpot(cur, e) == TagSpot(doc, e) && DigestSpot(cur, e) == DigestSpot(doc, e)
    ensures PinStands(cur.layout, TagSpot(cur, e), DigestSpot(cur, e))
  {
    Untouched(doc, cur, plan, e);
  }

  lemma PinFound(doc: Document, cur: Document, plan: Plan, parse: Parser, e: nat)
    requires Laid(doc) && Reached(doc, cur, plan) && ParsesAs(parse, doc, cur, plan)
    requires HasPin(doc, e) && doc.entries[e].repository !in plan
    ensures PinHeld(cur, e)
    ensures NodesOf(parse(Raw(cur)).value, doc.entries[e].repository)
            == Ok((NodeAt(cur.layout, TagSpot(cur, e)), NodeAt(cur.layout, DigestSpot(cur, e))))
  {
    StillHeld(doc, cur, plan, e);
    IndexOfOwn(Names(doc), e);
    hide MovedBy, WellPlaced, IndexOf, Raw, Sensible, Lines, NodeAt, PinStands;
  }

  lemma CurrentLines(doc: Document, cur: Document, plan: Plan)
    requires Laid(doc) && Reached(doc, cur, plan)
    ensures Split(Raw(cur)) == Texts(cur.layout)
  {
    MovedLines(doc, cur, plan);
    RawLines(cur);
  }

  /** Setting a pin not yet moved is editing the document's lines. */
  lemma SetIsEdit(doc: Document, cur: Document, plan: Plan, parse: Parser, e: nat, tag: string, digest: string)
    requires Laid(doc) && Faithful(parse, doc) && Reached(doc, cur, plan)
    requires HasPin(doc, e) && doc.entries[e].repository !in plan
    ensures PinHeld(cur, e)
    ensures PinSet(Raw(cur), parse, doc.entries[e].repository, tag, digest)
            == match EditPin(cur, e, tag, digest)
               case Err(error) => Err(Stopped(error))
               case Ok(lines) => Ok(Join(lines))
  {
    assert ParsesAs(parse, doc, cur, plan);
    assert parse(Raw(cur)).Some?;
    hide Reached, Laid, ParsesAs, NodesOf, EditBoth, Raw, Within, NodeAt, Texts, Join, Split;
    CurrentLines(doc, cur, plan);
    PinFound(doc, cur, plan, parse, e);
  }

  /** The edits give the document one pin further exactly when the pin is placed. */
  lemma PlacedIsRight(doc: Document, cur: Document, plan: Plan, e: nat, tag: string, digest: string)
    requires Laid(doc) && Reached(doc, cur, plan)
    requires HasPin(doc, e) && doc.entries[e].repository !in plan && DigestText(digest)
    ensures PinHeld(cur, e)
    ensures PlacedIn(cur, e, tag, digest) <==> EditPin(cur, e, tag, digest) == Ok(Texts(WithEntry(cur, e, tag, digest).layout))
  {
    StillHeld(doc, cur, plan, e);
    SetPinExactly(cur.layout, TagSpot(cur, e), DigestSpot(cur, e), tag, digest);
    hide Reached, Laid, EditBoth, DigestText, Placed, WithPin;
  }

  lemma SensibleStep(plan: Plan, name: string, tag: string, digest: string)
    requires Sensible(plan) && (tag == "" || TagText(tag)) && DigestText(digest)
    ensures Sensible(plan[name := (tag, digest)])
  {
    hide TagText, DigestText;
  }

  lemma ReachedParts(doc: Document, cur: Document, plan: Plan)
    requires Laid(doc)
    ensures WellPlaced(doc) && Distinct(Names(doc))
    ensures Reached(doc, cur, plan) <==> MovedBy(doc, cur, plan) && Sensible(plan)
    ensures MovedBy(doc, cur, plan) ==> cur.entries == doc.entries
  {
  }

  lemma ReachedNext(doc: Document, cur: Document, plan: Plan, e: nat, tag: string, digest: string)
    requires Laid(doc) && Reached(doc, cur, plan) && HasPin(doc, e) && doc.entries[e].repository !in plan
    requires (tag == "" || TagText(tag)) && DigestText(digest)
    ensures PinHeld(cur, e)
    ensures Reached(doc, WithEntry(cur, e, tag, digest), plan[doc.entries[e].repository := (tag, digest)])
  {
    hide *;
    ReachedParts(doc, cur, plan);
    StillHeld(doc, cur, plan, e);
    MoveStep(doc, cur, plan, e, tag, digest);
    HeldHas(cur, e);
    SensibleStep(plan, doc.entries[e].repository, tag, digest);
    ReachedParts(doc, WithEntry(cur, e, tag, digest), plan[doc.entries[e].repository := (tag, digest)]);
  }

  lemma HeldHas(doc: Document, e: nat)
    requires PinHeld(doc, e)
    ensures HasPin(doc, e) && Holds(doc.layout, TagSpot(doc, e)) && Holds(doc.layout, DigestSpot(doc, e))
  {
  }
}
