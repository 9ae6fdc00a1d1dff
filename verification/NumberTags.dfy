/** A tag that looks like a number, moved by `movePins` (tools/charts/repin.go) and read back by
    the inventory's reader (internal/pkg/imagepolicy/imagepolicy.go). */
module NumberTags {
  import opened Wrappers
  import opened Text
  import opened PinText
  import opened Inventory
  import opened PinRepair
  import opened PinCheck
  import opened PinMoves
  import opened Repin

  /** A reader that prints the number it took `1.10` for. */
  function NumberReader(lead: string, value: string): string {
    if lead == "" && value == "1.10" then "1.1" else value
  }

  lemma NumberReaderKeepsDigests()
    ensures DigestsKept(NumberReader)
  {
    assert !DigestText("1.10");
  }

  function OnePin(tag: string, digest: string): Document {
    Document([[Fixed("tag: "), Scalar("", tag)], [Fixed("digest: "), Scalar("", digest)]],
             [Entry("r", None, Some(PinSpots("unsigned", Spot(0, 1), Spot(1, 1))))])
  }

  lemma OnePinLines(tag: string, digest: string)
    requires OneLine(tag) && OneLine(digest)
    ensures Lines(OnePin(tag, digest).layout)
  {
    hide Lines;
    var layout := OnePin(tag, digest).layout;
    assert OneLine("tag: ") && OneLine("digest: ") && "" + tag == tag && "" + digest == digest;
    ShownOneLine(layout[0]);
    ShownOneLine(layout[1]);
    TwoLines(layout);
  }

  lemma TwoLines(layout: Layout)
    requires |layout| == 2 && OneLine(Shown(layout[0])) && OneLine(Shown(layout[1]))
    ensures Lines(layout)
  {
  }

  lemma OnePinLaid()
    ensures Laid(OnePin("v1", SomeDigest('a')))
  {
    SomeDigestIsOne('a');
    SensibleOneLine("", SomeDigest('a'));
    hide DigestText, SomeDigest, Lines;
    OnePinLines("v1", SomeDigest('a'));
  }

  const RENDERED := [Rendered.Image("r", "1.10")]

  function Resolves(name: string, tag: string): Option<string> {
    Some(SomeDigest('b'))
  }

  lemma OnePinTags(doc: Document)
    requires doc == OnePin("v1", SomeDigest('a'))
    ensures TagsOf(RENDERED, Read(doc, NumberReader)) == map["r" := "1.10"]
  {
    var images := Read(doc, NumberReader);
    hide SomeDigest;
    assert Repositories(images) == ["r"];
    IndexOfOwn(["r"], 0);
    assert RENDERED[..0] == [];
    assert TagsOf([], images) == map[];
  }

  lemma OnePinPlan()
    ensures Laid(OnePin("v1", SomeDigest('a')))
    ensures PlanFor(OnePin("v1", SomeDigest('a')), NumberReader, RENDERED, Resolves)
            == map["r" := ("1.10", SomeDigest('b'))]
  {
    OnePinLaid();
    var doc := OnePin("v1", SomeDigest('a'));
    OnePinTags(doc);
    hide SomeDigest, Laid, TagsOf;
    assert HasPin(doc, 0);
  }

  lemma OnePinMoved(doc: Document, tag: string, digest: string)
    requires doc == OnePin("v1", SomeDigest('a'))
    ensures HasPin(doc, 0) && PinHeld(doc, 0) && WellPlaced(doc)
    ensures WithEntry(doc, 0, tag, digest) == OnePin(tag, digest)
  {
    hide SomeDigest;
    var next := WithEntry(doc, 0, tag, digest).layout;
    assert next[0] == OnePin(tag, digest).layout[0] && next[1] == OnePin(tag, digest).layout[1];
  }

  lemma OnePinReached()
    ensures Laid(OnePin("v1", SomeDigest('a')))
    ensures var doc := OnePin("v1", SomeDigest('a'));
      var plan := PlanFor(doc, NumberReader, RENDERED, Resolves);
      Reached(doc, OnePin("1.10", SomeDigest('b')), plan) && PlainTags(doc, plan)
  {
    var doc, digest := OnePin("v1", SomeDigest('a')), SomeDigest('b');
    OnePinPlan();
    SomeDigestIsOne('b');
    TenIsTag();
    OnePinMoved(doc, "1.10", digest);
    MovedByNothing(doc);
    assert Reached(doc, doc, map[]);
    assert doc.entries[0].repository == "r";
    assert PlainTags(doc, map["r" := ("1.10", digest)]);
    hide *;
    ReachedNext(doc, doc, map[], 0, "1.10", digest);
    assert map["r" := ("1.10", digest)] == map[]["r" := ("1.10", digest)];
  }

  lemma TenIsTag()
    ensures TagText("1.10") && TagText("1.1")
  {
  }

  /** Rendered at `1.10` the pin moves, the result parses, and yet the check fails and the next run
      moves the pin again: the inventory says `1.1`. */
  lemma NumberTagNeverSettles()
    ensures var doc, cur := OnePin("v1", SomeDigest('a')), OnePin("1.10", SomeDigest('b'));
      && Laid(doc) && WellPlaced(cur) && Reached(doc, cur, PlanFor(doc, NumberReader, RENDERED, Resolves))
      && TagText(NumberReader("", "1.10"))
      && Failures([Some(RENDERED)], Read(cur, NumberReader)) != 0
      && PlanFor(cur, NumberReader, RENDERED, Resolves).Keys == {"r"}
  {
    var doc, cur := OnePin("v1", SomeDigest('a')), OnePin("1.10", SomeDigest('b'));
    OnePinReached();
    OnePinPlan();
    TenIsTag();
    NumberReaderKeepsDigests();
    AllOfOne();
    var plan := PlanFor(doc, NumberReader, RENDERED, Resolves);
    assert "r" in plan && NumberReader("", plan["r"].0) != plan["r"].0;
    assert !ReadsBack(plan, NumberReader);
    hide *;
    RepairEstablishesCheck(doc, cur, NumberReader, [Some(RENDERED)], Resolves);
    SecondRunMoves(doc, cur, NumberReader, RENDERED, Resolves);
  }

  lemma AllOfOne()
    ensures All([Some(RENDERED)]) == RENDERED && AllRendered([Some(RENDERED)])
  {
    assert [Some(RENDERED)][..0] == [];
  }
}
