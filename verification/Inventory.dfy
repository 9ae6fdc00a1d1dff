/** The image inventory (internal/pkg/imagepolicy/imagepolicy.go) and the document it is read from. */
module Inventory {
  import opened Wrappers
  import opened Ordering
  import opened Text
  import opened PinText

  /** A signer, by whether its own fields are consistent. */
  datatype Signer = Signer(sound: bool)

  datatype Pin = Pin(reason: string, tag: string, digest: string)

  datatype Image = Image(repository: string, signed: Option<Signer>, unsigned: Option<Pin>)

  /** `Image.validate` with `Pin.validate`. */
  predicate ValidImage(image: Image) {
    match (image.signed, image.unsigned)
    case (None, Some(pin)) => pin.reason != "" && TagText(pin.tag) && DigestText(pin.digest)
    case (Some(signer), None) => signer.sound
    case _ => false
  }

  /** An entry is valid exactly when it has one of the two: a signer whose fields are consistent, or
      a pin with a reason, a tag and a digest. */
  lemma ValidExactly(image: Image)
    ensures ValidImage(image) <==>
      if image.unsigned == None then image.signed != None && image.signed.value.sound
      else image.signed == None && PinReads(image.unsigned.value)
  {
  }

  predicate PinReads(pin: Pin) {
    && pin.reason != ""
    && 1 <= |pin.tag| <= 128 && pin.tag[0] != '.' && pin.tag[0] != '-'
    && (forall i :: 0 <= i < |pin.tag| ==>
          || 'a' <= pin.tag[i] <= 'z' || 'A' <= pin.tag[i] <= 'Z' || '0' <= pin.tag[i] <= '9'
          || pin.tag[i] in {'_', '.', '-'})
    && |pin.digest| in {71, 103, 135}
    && pin.digest[..7] == (if |pin.digest| == 71 then "sha256:" else if |pin.digest| == 103 then "sha384:" else "sha512:")
    && forall i :: 7 <= i < |pin.digest| ==> '0' <= pin.digest[i] <= '9' || 'a' <= pin.digest[i] <= 'f'
  }

  /** A repository's fully qualified form, as the reference library gives it. */
  type Normaliser = string -> Option<string>

  datatype ParseFault = NotNormal | Repeated | Invalid

  function Repositories(images: seq<Image>): (r: seq<string>)
    ensures |r| == |images|
    ensures forall i :: 0 <= i < |images| ==> r[i] == images[i].repository
  {
    seq(|images|, i requires 0 <= i < |images| => images[i].repository)
  }

  /** What `Parse` demands of the list. */
  ghost predicate Parses(images: seq<Image>, normal: Normaliser) {
    && Distinct(Repositories(images))
    && forall i :: 0 <= i < |images| ==>
      normal(images[i].repository) == Some(images[i].repository) && ValidImage(images[i])
  }

  /** `Parse`'s loop, with its `seen` map. */
  method Parse(images: seq<Image>, normal: Normaliser) returns (fault: Option<(nat, ParseFault)>)
    ensures fault.None? <==> Parses(images, normal)
    ensures fault.Some? ==>
      var (i, what) := fault.value;
      && i < |images| && Parses(images[..i], normal) && !Parses(images[..i + 1], normal)
      && what == if normal(images[i].repository) != Some(images[i].repository) then NotNormal
                 else if images[i].repository in Repositories(images[..i]) then Repeated else Invalid
  {
    hide ValidImage, Distinct;
    var seen: set<string> := {};
    var i := 0;
    NoneParse(normal);
    while i < |images|
      invariant 0 <= i <= |images|
      invariant Parses(images[..i], normal)
      invariant forall name :: name in seen <==> name in Repositories(images[..i])
    {
      hide Parses;
      ghost var now := images[..i + 1];
      assert now[..i] == images[..i] && now[i] == images[i];
      ParsesStep(now, normal);
      var image := images[i];
      if normal(image.repository) != Some(image.repository) {
        Broken(images, i, normal);
        return Some((i, NotNormal));
      }
      if image.repository in seen {
        Broken(images, i, normal);
        return Some((i, Repeated));
      }
      seen := seen + {image.repository};
      if !ValidImage(image) {
        Broken(images, i, normal);
        return Some((i, Invalid));
      }
      assert Repositories(now) == Repositories(images[..i]) + [image.repository];
      i := i + 1;
    }
    assert images[..i] == images;
    fault := None;
  }

  lemma NoneParse(normal: Normaliser)
    ensures Parses([], normal)
  {
  }

  lemma ParsesStep(images: seq<Image>, normal: Normaliser)
    requires images != []
    ensures var i := |images| - 1;
      Parses(images, normal) <==>
        && Parses(images[..i], normal)
        && images[i].repository !in Repositories(images[..i])
        && normal(images[i].repository) == Some(images[i].repository) && ValidImage(images[i])
  {
    var i := |images| - 1;
    var before, names := images[..i], Repositories(images);
    assert names == Repositories(before) + [images[i].repository];
    assert forall k :: 0 <= k < i ==> before[k] == images[k];
    assert forall k :: 0 <= k < i ==> Repositories(before)[k] == names[k];
    if Distinct(Repositories(before)) && images[i].repository !in Repositories(before) {
      assert Distinct(names);
    }
  }

  lemma Broken(images: seq<Image>, i: nat, normal: Normaliser)
    requires i < |images| && !Parses(images[..i + 1], normal)
    ensures !Parses(images, normal)
  {
  }

  /** Where a name is first listed. */
  function IndexOf(names: seq<string>, name: string): (r: Option<nat>)
    ensures r.None? <==> name !in names
    ensures r.Some? ==> r.value < |names| && names[r.value] == name && name !in names[..r.value]
  {
    if names == [] then None
    else if names[0] == name then Some(0)
    else match IndexOf(names[1..], name)
      case None => None
      case Some(n) => assert names[..n + 1] == [names[0]] + names[1..][..n]; Some(n + 1)
  }

  lemma IndexOfOwn(names: seq<string>, i: nat)
    requires i < |names| && Distinct(names)
    ensures IndexOf(names, names[i]) == Some(i)
  {
  }

  /** The search loop the program repeats: the first entry with a name. */
  method Find(names: seq<string>, name: string) returns (r: Option<nat>)
    ensures r == IndexOf(names, name)
  {
    var i := 0;
    while i < |names|
      invariant 0 <= i <= |names| && name !in names[..i]
    {
      if names[i] == name {
        IndexOfFirst(names, name, i);
        return Some(i);
      }
      i := i + 1;
    }
    assert names[..i] == names;
    r := None;
  }

  lemma IndexOfFirst(names: seq<string>, name: string, i: nat)
    requires i < |names| && names[i] == name && name !in names[..i]
    ensures IndexOf(names, name) == Some(i)
  {
  }

  datatype PinError = Signed | Missing

  /** The one pin a repository has. */
  function PinOf(images: seq<Image>, repository: string): Result<Pin, PinError> {
    match IndexOf(Repositories(images), repository)
    case None => Err(Missing)
    case Some(i) => if images[i].unsigned.None? then Err(Signed) else Ok(images[i].unsigned.value)
  }

  /** `Pinned`. */
  method Pinned(images: seq<Image>, repository: string) returns (r: Result<Pin, PinError>)
    ensures r == PinOf(images, repository)
  {
    var found := Find(Repositories(images), repository);
    if found.None? {
      return Err(Missing);
    }
    var entry := images[found.value];
    r := if entry.unsigned.None? then Err(Signed) else Ok(entry.unsigned.value);
  }

  /** `Lookup`, given the repository the reference library reads in an image. */
  function Lookup(images: seq<Image>, repository: string): (r: Option<Image>)
    ensures r.Some? <==> repository in Repositories(images)
    ensures r.Some? ==> r.value in images && r.value.repository == repository
  {
    match IndexOf(Repositories(images), repository)
    case None => None
    case Some(i) => Some(images[i])
  }

  /** `Repositories`: collected, then sorted. */
  method SortedRepositories(images: seq<Image>) returns (out: seq<string>)
    ensures out == Sort(Repositories(images))
  {
    out := [];
    var i := 0;
    while i < |images|
      invariant 0 <= i <= |images|
      invariant out == Repositories(images)[..i]
    {
      out := out + [images[i].repository];
      i := i + 1;
    }
    assert out == Repositories(images);
    out := Sort(out);
  }

  // The document.

  datatype PinSpots = PinSpots(reason: string, tag: Spot, digest: Spot)

  /** An entry of the document: what the text says of it outside the two scalars, and where
      those stand. */
  datatype Entry = Entry(repository: string, signed: Option<Signer>, pin: Option<PinSpots>)

  datatype Document = Document(layout: Layout, entries: seq<Entry>)

  predicate HasPin(doc: Document, e: nat) {
    e < |doc.entries| && doc.entries[e].pin.Some?
  }

  function TagSpot(doc: Document, e: nat): Spot
    requires HasPin(doc, e)
  {
    doc.entries[e].pin.value.tag
  }

  function DigestSpot(doc: Document, e: nat): Spot
    requires HasPin(doc, e)
  {
    doc.entries[e].pin.value.digest
  }

  function Names(doc: Document): (r: seq<string>)
    ensures |r| == |doc.entries|
    ensures forall e :: 0 <= e < |doc.entries| ==> r[e] == doc.entries[e].repository
  {
    seq(|doc.entries|, e requires 0 <= e < |doc.entries| => doc.entries[e].repository)
  }

  /** Each pin has two scalars of its own. */
  ghost predicate WellPlaced(doc: Document) {
    && (forall e: nat :: HasPin(doc, e) ==> Holds(doc.layout, TagSpot(doc, e)) && Holds(doc.layout, DigestSpot(doc, e)))
    && (forall e: nat, f: nat :: HasPin(doc, e) && HasPin(doc, f) && e != f ==>
          TagSpot(doc, e) != TagSpot(doc, f) && DigestSpot(doc, e) != DigestSpot(doc, f))
    && forall e: nat, f: nat :: HasPin(doc, e) && HasPin(doc, f) ==> TagSpot(doc, e) != DigestSpot(doc, f)
  }

  /** What the inventory's own reader makes of a scalar behind its dressing. It is not the parser
      that says where scalars stand: a plain scalar that looks like a number comes back as that
      number is printed, `1.10` as `1.1`. */
  type Reader = (string, string) -> string

  function ReadAt(layout: Layout, s: Spot, reader: Reader): string
    requires Holds(layout, s)
  {
    reader(PieceAt(layout, s).lead, PieceAt(layout, s).value)
  }

  function ReadEntry(layout: Layout, entry: Entry, reader: Reader): Image
    requires entry.pin.Some? ==> Holds(layout, entry.pin.value.tag) && Holds(layout, entry.pin.value.digest)
  {
    Image(entry.repository, entry.signed,
          if entry.pin.None? then None
          else Some(Pin(entry.pin.value.reason, ReadAt(layout, entry.pin.value.tag, reader),
                        ReadAt(layout, entry.pin.value.digest, reader))))
  }

  /** The inventory the document says. */
  ghost function Read(doc: Document, reader: Reader): (r: seq<Image>)
    requires WellPlaced(doc)
    ensures |r| == |doc.entries| && Repositories(r) == Names(doc)
    ensures forall e: nat :: HasPin(doc, e) ==>
      r[e].unsigned == Some(Pin(doc.entries[e].pin.value.reason, ReadAt(doc.layout, TagSpot(doc, e), reader),
                                ReadAt(doc.layout, DigestSpot(doc, e), reader)))
    ensures forall e :: 0 <= e < |r| && !HasPin(doc, e) ==> r[e].unsigned == None
  {
    seq(|doc.entries|, e requires 0 <= e < |doc.entries| =>
      assert doc.entries[e].pin.Some? ==> HasPin(doc, e); ReadEntry(doc.layout, doc.entries[e], reader))
  }

  function Raw(doc: Document): string {
    Join(Texts(doc.layout))
  }

  /** No piece breaks its line. */
  ghost predicate Lines(layout: Layout) {
    layout != [] && forall l :: 0 <= l < |layout| ==> OneLine(Shown(layout[l]))
  }

  lemma RawLines(doc: Document)
    requires Lines(doc.layout)
    ensures Split(Raw(doc)) == Texts(doc.layout)
  {
    SplitOfJoin(Texts(doc.layout));
  }
}
