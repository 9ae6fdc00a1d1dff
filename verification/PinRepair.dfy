/** What moving pins does to the inventory's document (tools/charts/repin.go). */
module PinRepair {
  import opened Wrappers
  import opened Ordering
  import opened Text
  import opened PinText
  import opened Inventory

  /** The digest a repository's tag points to now, if it can be resolved. */
  type Resolver = (string, string) -> Option<string>

  type Tags = map<string, string>

  /** Where each moved repository goes: its tag and its digest. */
  type Plan = map<string, (string, string)>

  /** A document `Parse` accepts, as the parser reads it. */
  ghost predicate Laid(doc: Document) {
    && WellPlaced(doc) && Lines(doc.layout) && Distinct(Names(doc))
    && forall e: nat :: HasPin(doc, e) ==> PinStands(doc.layout, TagSpot(doc, e), DigestSpot(doc, e))
  }

  // What moving does to a document.

  ghost predicate Chosen(doc: Document, e: nat, plan: Plan) {
    HasPin(doc, e) && doc.entries[e].repository in plan
  }

  ghost predicate Touched(doc: Document, s: Spot, plan: Plan) {
    exists e: nat :: Chosen(doc, e, plan) && (s == TagSpot(doc, e) || s == DigestSpot(doc, e))
  }

  ghost predicate SameShape(a: Layout, b: Layout) {
    |a| == |b| && forall l :: 0 <= l < |a| ==> |a[l]| == |b[l]|
  }

  /** Every planned repository reads back its new tag and digest, behind the same dressing;
      every other piece of the text is the one that was there. */
  ghost predicate MovedBy(doc: Document, cur: Document, plan: Plan)
    requires WellPlaced(doc)
  {
    && cur.entries == doc.entries && SameShape(doc.layout, cur.layout)
    && (forall e: nat :: Chosen(doc, e, plan) ==>
          && Same(doc, cur, TagSpot(doc, e), plan[doc.entries[e].repository].0)
          && Same(doc, cur, DigestSpot(doc, e), plan[doc.entries[e].repository].1))
    && forall l: nat, i: nat :: l < |doc.layout| && i < |doc.layout[l]| && !Touched(doc, Spot(l, i), plan) ==>
         cur.layout[l][i] == doc.layout[l][i]
  }

  predicate Same(doc: Document, cur: Document, s: Spot, value: string)
    requires Holds(doc.layout, s)
  {
    Holds(cur.layout, s) && PieceAt(cur.layout, s) == Scalar(PieceAt(doc.layout, s).lead, value)
  }

  lemma MovedByNothing(doc: Document)
    requires WellPlaced(doc)
    ensures MovedBy(doc, doc, map[])
  {
  }

  /** The plan determines the document. */
  lemma MovedByUnique(doc: Document, a: Document, b: Document, plan: Plan)
    requires WellPlaced(doc) && MovedBy(doc, a, plan) && MovedBy(doc, b, plan)
    ensures a == b
  {
    forall l: nat, i: nat | l < |doc.layout| && i < |doc.layout[l]|
      ensures a.layout[l][i] == b.layout[l][i]
    {
      if Touched(doc, Spot(l, i), plan) {
        var e: nat :| Chosen(doc, e, plan) && (Spot(l, i) == TagSpot(doc, e) || Spot(l, i) == DigestSpot(doc, e));
        assert a.layout[l][i] == PieceAt(a.layout, Spot(l, i)) && b.layout[l][i] == PieceAt(b.layout, Spot(l, i));
      }
    }
    forall l | 0 <= l < |doc.layout|
      ensures a.layout[l] == b.layout[l]
    {
    }
  }

  /** A pin outside the plan is as it was. */
  lemma Untouched(doc: Document, cur: Document, plan: Plan, e: nat)
    requires WellPlaced(doc) && Distinct(Names(doc)) && MovedBy(doc, cur, plan)
    requires HasPin(doc, e) && doc.entries[e].repository !in plan
    ensures cur.entries == doc.entries
    ensures Holds(cur.layout, TagSpot(doc, e)) && PieceAt(cur.layout, TagSpot(doc, e)) == PieceAt(doc.layout, TagSpot(doc, e))
    ensures Holds(cur.layout, DigestSpot(doc, e))
    ensures PieceAt(cur.layout, DigestSpot(doc, e)) == PieceAt(doc.layout, DigestSpot(doc, e))
  {
    var t, d := TagSpot(doc, e), DigestSpot(doc, e);
    assert !Touched(doc, t, plan) && !Touched(doc, d, plan);
    assert t == Spot(t.line, t.index) && d == Spot(d.line, d.index);
  }

  function WithEntry(doc: Document, e: nat, tag: string, digest: string): Document
    requires HasPin(doc, e) && Holds(doc.layout, TagSpot(doc, e)) && Holds(doc.layout, DigestSpot(doc, e))
  {
    doc.(layout := WithPin(doc.layout, TagSpot(doc, e), DigestSpot(doc, e), tag, digest))
  }

  /** Setting one more pin carries the plan one repository further. */
  lemma MoveStep(doc: Document, cur: Document, plan: Plan, e: nat, tag: string, digest: string)
    requires WellPlaced(doc) && Distinct(Names(doc)) && MovedBy(doc, cur, plan)
    requires HasPin(doc, e) && doc.entries[e].repository !in plan
    ensures Holds(cur.layout, TagSpot(doc, e)) && Holds(cur.layout, DigestSpot(doc, e))
    ensures MovedBy(doc, WithEntry(cur, e, tag, digest), plan[doc.entries[e].repository := (tag, digest)])
  {
    Untouched(doc, cur, plan, e);
    var next, more := WithEntry(cur, e, tag, digest), plan[doc.entries[e].repository := (tag, digest)];
    forall f: nat | Chosen(doc, f, more)
      ensures Same(doc, next, TagSpot(doc, f), more[doc.entries[f].repository].0)
      ensures Same(doc, next, DigestSpot(doc, f), more[doc.entries[f].repository].1)
    {
      if f != e {
        assert Names(doc)[f] != Names(doc)[e];
        assert Chosen(doc, f, plan);
        KeptElsewhere(cur, next, e, tag, digest, TagSpot(doc, f));
        KeptElsewhere(cur, next, e, tag, digest, DigestSpot(doc, f));
      }
    }
    forall l: nat, i: nat | l < |doc.layout| && i < |doc.layout[l]| && !Touched(doc, Spot(l, i), more)
      ensures next.layout[l][i] == doc.layout[l][i]
    {
      assert Chosen(doc, e, more);
      StillUntouched(doc, Spot(l, i), plan, more);
    }
  }

  lemma StillUntouched(doc: Document, s: Spot, plan: Plan, more: Plan)
    requires plan.Keys <= more.Keys && !Touched(doc, s, more)
    ensures !Touched(doc, s, plan)
  {
  }

  lemma KeptElsewhere(cur: Document, next: Document, e: nat, tag: string, digest: string, s: Spot)
    requires HasPin(cur, e) && Holds(cur.layout, TagSpot(cur, e)) && Holds(cur.layout, DigestSpot(cur, e))
    requires next == WithEntry(cur, e, tag, digest)
    requires Holds(cur.layout, s) && s != TagSpot(cur, e) && s != DigestSpot(cur, e)
    ensures Holds(next.layout, s) && PieceAt(next.layout, s) == PieceAt(cur.layout, s)
  {
  }

  // The lines of a moved document.

  lemma {:induction false} ShownOneLine(pieces: seq<Piece>)
    ensures OneLine(Shown(pieces)) <==> forall i :: 0 <= i < |pieces| ==> OneLine(pieces[i].Shown())
    decreases |pieces|
  {
    if pieces != [] {
      ShownOneLine(pieces[1..]);
      assert forall i :: 1 <= i < |pieces| ==> pieces[1..][i - 1] == pieces[i];
      BothOneLine(pieces[0].Shown(), Shown(pieces[1..]));
    }
  }

  lemma BothOneLine(a: string, b: string)
    ensures OneLine(a + b) <==> OneLine(a) && OneLine(b)
  {
  }

  /** New values that are tags or nothing, and digests. */
  ghost predicate Sensible(plan: Plan) {
    forall name :: name in plan ==> (plan[name].0 == "" || TagText(plan[name].0)) && DigestText(plan[name].1)
  }

  lemma SensibleOneLine(tag: string, digest: string)
    requires (tag == "" || TagText(tag)) && DigestText(digest)
    ensures OneLine(tag) && OneLine(digest)
  {
    assert forall i :: 0 <= i < 7 ==> digest[i] == digest[..7][i];
  }

  /** They leave every line one line. */
  lemma MovedLines(doc: Document, cur: Document, plan: Plan)
    requires WellPlaced(doc) && Lines(doc.layout) && MovedBy(doc, cur, plan) && Sensible(plan)
    ensures Lines(cur.layout)
  {
    forall l: nat | l < |cur.layout|
      ensures OneLine(Shown(cur.layout[l]))
    {
      ShownOneLine(doc.layout[l]);
      ShownOneLine(cur.layout[l]);
      forall i: nat | i < |cur.layout[l]|
        ensures OneLine(cur.layout[l][i].Shown())
      {
        MovedPiece(doc, cur, plan, l, i);
      }
    }
  }

  lemma MovedPiece(doc: Document, cur: Document, plan: Plan, l: nat, i: nat)
    requires WellPlaced(doc) && MovedBy(doc, cur, plan) && Sensible(plan)
    requires l < |doc.layout| && i < |doc.layout[l]| && OneLine(doc.layout[l][i].Shown())
    ensures OneLine(cur.layout[l][i].Shown())
  {
    hide TagText, DigestText;
    if Touched(doc, Spot(l, i), plan) {
      var e: nat :| Chosen(doc, e, plan) && (Spot(l, i) == TagSpot(doc, e) || Spot(l, i) == DigestSpot(doc, e));
      var (tag, digest) := plan[doc.entries[e].repository];
      SensibleOneLine(tag, digest);
      var was := doc.layout[l][i];
      BothOneLine(was.lead, was.value);
      BothOneLine(was.lead, if Spot(l, i) == TagSpot(doc, e) then tag else digest);
    }
  }
}
