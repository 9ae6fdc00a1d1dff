/** Editing one pin in the inventory's text (`setPin`, tools/charts/repin.go): the parser says
    where two scalars sit, and the bytes there are replaced in a buffer of lines. */
module PinText {
  import opened Wrappers
  import opened Text

  /** A scalar as the parser locates it. Lines and columns count from zero. */
  datatype Node = Node(line: nat, column: nat, value: string)

  datatype EditError = Misplaced | OutOfRange

  predicate StandsAt(text: string, column: nat, value: string) {
    column <= |text| && value <= text[column..]
  }

  function Splice(text: string, column: nat, before: string, after: string): string
    requires StandsAt(text, column, before)
  {
    text[..column] + after + text[column + |before|..]
  }

  /** One turn of the loop: a slice past the end of a line stops the program. */
  function Edit(lines: seq<string>, node: Node, value: string): (r: Result<seq<string>, EditError>)
    requires node.line < |lines|
    ensures r.Ok? ==> |r.value| == |lines|
  {
    var text := lines[node.line];
    if node.column > |text| then Err(OutOfRange)
    else if !StandsAt(text, node.column, node.value) then Err(Misplaced)
    else Ok(lines[node.line := Splice(text, node.column, node.value, value)])
  }

  /** Both edits: the second still uses the column found before the first. */
  function EditBoth(lines: seq<string>, tagNode: Node, digestNode: Node, tag: string, digest: string)
    : (r: Result<seq<string>, EditError>)
    requires tagNode.line < |lines| && digestNode.line < |lines|
  {
    match Edit(lines, tagNode, tag)
    case Err(e) => Err(e)
    case Ok(edited) => Edit(edited, digestNode, digest)
  }

  /** `setPin`, once the parser has found the two values. */
  method SetPin(raw: string, tagNode: Node, digestNode: Node, tag: string, digest: string)
    returns (r: Result<string, EditError>)
    requires tagNode.line < |Split(raw)| && digestNode.line < |Split(raw)|
    ensures r == match EditBoth(Split(raw), tagNode, digestNode, tag, digest)
                 case Err(e) => Err(e)
                 case Ok(edited) => Ok(Join(edited))
  {
    var split := Split(raw);
    var lines := new string[|split|](i requires 0 <= i < |split| => split[i]);
    var edits := [(tagNode, tag), (digestNode, digest)];
    var i := 0;
    assert lines[..] == split;
    while i < 2
      invariant 0 <= i <= 2
      invariant i == 0 ==> lines[..] == split
      invariant i == 1 ==> Edit(split, tagNode, tag) == Ok(lines[..])
      invariant i == 2 ==> EditBoth(split, tagNode, digestNode, tag, digest) == Ok(lines[..])
    {
      var (node, value) := edits[i];
      var line, start := lines[node.line], node.column;
      if start > |line| {
        return Err(OutOfRange);
      }
      if !(node.value <= line[start..]) {
        return Err(Misplaced);
      }
      ghost var before := lines[..];
      lines[node.line] := line[..start] + value + line[start + |node.value|..];
      assert lines[..] == before[node.line := Splice(line, start, node.value, value)];
      i := i + 1;
    }
    r := Ok(Join(lines[..]));
  }

  // The text as the parser sees it.

  /** A stretch of a line: text outside the pins, or a scalar after whatever dresses it
      (a quote, an anchor, a tag), which the parser counts as its start. */
  datatype Piece = Fixed(text: string) | Scalar(lead: string, value: string) {
    function Shown(): string {
      if Fixed? then text else lead + value
    }
  }

  type Layout = seq<seq<Piece>>

  datatype Spot = Spot(line: nat, index: nat)

  function Shown(pieces: seq<Piece>): string {
    if pieces == [] then "" else pieces[0].Shown() + Shown(pieces[1..])
  }

  function Texts(layout: Layout): (r: seq<string>)
    ensures |r| == |layout|
    ensures forall l :: 0 <= l < |layout| ==> r[l] == Shown(layout[l])
  {
    seq(|layout|, l requires 0 <= l < |layout| => Shown(layout[l]))
  }

  predicate Holds(layout: Layout, s: Spot) {
    s.line < |layout| && s.index < |layout[s.line]| && layout[s.line][s.index].Scalar?
  }

  function PieceAt(layout: Layout, s: Spot): (piece: Piece)
    requires Holds(layout, s)
    ensures piece.Scalar?
  {
    layout[s.line][s.index]
  }

  function Value(layout: Layout, s: Spot): string
    requires Holds(layout, s)
  {
    layout[s.line][s.index].value
  }

  /** Where the parser puts a scalar. */
  function NodeAt(layout: Layout, s: Spot): Node
    requires Holds(layout, s)
  {
    Node(s.line, |Shown(layout[s.line][..s.index])|, Value(layout, s))
  }

  /** The layout with one value changed and every other piece as it was. */
  function WithValue(layout: Layout, s: Spot, value: string): (r: Layout)
    requires Holds(layout, s)
    ensures |r| == |layout| && forall l :: 0 <= l < |layout| ==> |r[l]| == |layout[l]|
    ensures forall x: Spot :: Holds(layout, x) <==> Holds(r, x)
    ensures Value(r, s) == value
    ensures forall l: nat, i: nat :: l < |layout| && i < |layout[l]| && Spot(l, i) != s ==> r[l][i] == layout[l][i]
  {
    layout[s.line := layout[s.line][s.index := layout[s.line][s.index].(value := value)]]
  }

  function WithPin(layout: Layout, t: Spot, d: Spot, tag: string, digest: string): Layout
    requires Holds(layout, t) && Holds(layout, d)
  {
    WithValue(WithValue(layout, t, tag), d, digest)
  }

  // A line around one of its pieces.

  lemma {:induction false} ShownAppend(x: seq<Piece>, y: seq<Piece>)
    ensures Shown(x + y) == Shown(x) + Shown(y)
    decreases |x|
  {
    if x == [] {
      assert x + y == y;
    } else {
      ShownAppend(x[1..], y);
      assert (x + y)[1..] == x[1..] + y && (x + y)[0] == x[0];
      ThreeTexts(x[0].Shown(), Shown(x[1..]), Shown(y));
    }
  }

  lemma ThreeTexts(a: string, b: string, c: string)
    ensures a + (b + c) == a + b + c
  {
  }

  lemma ShownAround(pieces: seq<Piece>, i: nat)
    requires i < |pieces|
    ensures Shown(pieces) == Shown(pieces[..i]) + pieces[i].Shown() + Shown(pieces[i + 1..])
  {
    assert pieces == pieces[..i] + pieces[i..];
    ShownAppend(pieces[..i], pieces[i..]);
    assert pieces[i..][1..] == pieces[i + 1..];
  }

  /** The characters a column is off by once an earlier value on the line has changed. */
  function Shift(layout: Layout, t: Spot, d: Spot, tag: string): int
    requires Holds(layout, t)
  {
    if t.line == d.line && t.index < d.index then |tag| - |Value(layout, t)| else 0
  }

  /** Where a value starts in a line's text. */
  function ValueColumn(layout: Layout, s: Spot): nat
    requires Holds(layout, s)
  {
    NodeAt(layout, s).column + |PieceAt(layout, s).lead|
  }

  lemma SpliceMiddle(a: string, lead: string, v: string, b: string, w: string)
    ensures StandsAt(a + (lead + v) + b, |a| + |lead|, v)
    ensures Splice(a + (lead + v) + b, |a| + |lead|, v, w) == a + (lead + w) + b
  {
  }

  lemma PieceChanged(pieces: seq<Piece>, i: nat, value: string)
    requires i < |pieces| && pieces[i].Scalar?
    ensures Shown(pieces[i := pieces[i].(value := value)])
            == Shown(pieces[..i]) + (pieces[i].lead + value) + Shown(pieces[i + 1..])
  {
    var after := pieces[i := pieces[i].(value := value)];
    ShownAround(after, i);
    assert after[..i] == pieces[..i] && after[i + 1..] == pieces[i + 1..];
  }

  lemma ChangeInLine(pieces: seq<Piece>, i: nat, value: string)
    requires i < |pieces| && pieces[i].Scalar?
    ensures var column := |Shown(pieces[..i])| + |pieces[i].lead|;
      && StandsAt(Shown(pieces), column, pieces[i].value)
      && Shown(pieces[i := pieces[i].(value := value)]) == Splice(Shown(pieces), column, pieces[i].value, value)
  {
    hide StandsAt, Splice, Shown;
    ShownAround(pieces, i);
    PieceChanged(pieces, i, value);
    SpliceMiddle(Shown(pieces[..i]), pieces[i].lead, pieces[i].value, Shown(pieces[i + 1..]), value);
  }

  /** Changing a value is splicing the line's text where the value starts. */
  lemma ChangeIsSplice(layout: Layout, s: Spot, value: string)
    requires Holds(layout, s)
    ensures StandsAt(Shown(layout[s.line]), ValueColumn(layout, s), Value(layout, s))
    ensures Texts(WithValue(layout, s, value))
            == Texts(layout)[s.line := Splice(Shown(layout[s.line]), ValueColumn(layout, s), Value(layout, s), value)]
  {
    hide StandsAt, Splice, Shown;
    ChangeInLine(layout[s.line], s.index, value);
  }

  /** How far the first edit moves the second scalar. */
  lemma ColumnShifts(layout: Layout, t: Spot, d: Spot, tag: string)
    requires Holds(layout, t) && Holds(layout, d) && t != d
    ensures NodeAt(WithValue(layout, t, tag), d).column == NodeAt(layout, d).column + Shift(layout, t, d, tag)
  {
    hide Shown;
    var before, after := layout[d.line][..d.index], WithValue(layout, t, tag)[d.line][..d.index];
    if t.line == d.line && t.index < d.index {
      assert after == before[t.index := before[t.index].(value := tag)];
      ShownAround(before, t.index);
      PieceChanged(before, t.index, tag);
    } else {
      assert after == before;
    }
  }

  // What pins hold.

  predicate WordCharacter(c: char) {
    'a' <= c <= 'z' || 'A' <= c <= 'Z' || '0' <= c <= '9' || c == '_'
  }

  /** `reference.TagRegexp`: a word character, then at most 127 of those, dots and dashes. */
  predicate TagText(s: string) {
    1 <= |s| <= 128 && WordCharacter(s[0])
    && forall i :: 0 <= i < |s| ==> WordCharacter(s[i]) || s[i] == '.' || s[i] == '-'
  }

  predicate Hexadecimal(c: char) {
    '0' <= c <= '9' || 'a' <= c <= 'f'
  }

  /** The digests `digest.Parse` accepts. */
  predicate DigestText(s: string) {
    && ((|s| == 71 && s[..7] == "sha256:") || (|s| == 103 && s[..7] == "sha384:") || (|s| == 135 && s[..7] == "sha512:"))
    && forall i :: 7 <= i < |s| ==> Hexadecimal(s[i])
  }

  /** A dressed scalar does not start like its value. */
  predicate Dressed(piece: Piece) {
    piece.Scalar? && (piece.lead == "" || (piece.value != "" && piece.lead[0] != piece.value[0]))
  }

  predicate PinStands(layout: Layout, t: Spot, d: Spot) {
    && Holds(layout, t) && Holds(layout, d) && t != d
    && Dressed(PieceAt(layout, t)) && DigestText(Value(layout, d))
  }

  /** An `s` opens a digest and occurs nowhere else in it, so two copies never overlap. */
  lemma DigestOpens(v: string)
    requires DigestText(v)
    ensures v[0] == 's' && forall i :: 1 <= i < |v| ==> v[i] != 's'
  {
  }

  lemma CopiesApart(text: string, p: nat, q: nat, v: string)
    requires DigestText(v) && StandsAt(text, p, v) && StandsAt(text, q, v) && p < q
    ensures p + |v| <= q
  {
    DigestOpens(v);
    assert text[q..][0] == text[q];
    assert forall i :: 0 <= i < |v| ==> text[p + i] == text[p..][i];
    assert forall k :: p < k < p + |v| ==> text[k] == v[k - p];
  }

  lemma DigestsDiverge(v: string, w: string) returns (i: nat)
    requires DigestText(v) && DigestText(w) && v != w
    ensures i < |v| && i < |w| && v[i] != w[i]
  {
    if v[..7] != w[..7] {
      i :| 0 <= i < 7 && v[..7][i] != w[..7][i];
    } else {
      assert |v| == |w| by {
        assert v[3] == v[..7][3] && w[3] == w[..7][3];
      }
      i :| 0 <= i < |v| && v[i] != w[i];
    }
  }

  /** Replacing one copy of a digest is never replacing another. */
  lemma CopiesDiffer(text: string, p: nat, q: nat, v: string, w: string)
    requires DigestText(v) && DigestText(w) && v != w
    requires StandsAt(text, p, v) && StandsAt(text, q, v) && p < q
    ensures Splice(text, p, v, w) != Splice(text, q, v, w)
  {
    CopiesApart(text, p, q, v);
    var i := DigestsDiverge(v, w);
    assert Splice(text, p, v, w)[p + i] == w[i];
    assert Splice(text, q, v, w)[p + i] == text[p + i] == text[p..][i] == v[i];
  }

  lemma SpliceSame(text: string, p: nat, v: string)
    requires StandsAt(text, p, v)
    ensures Splice(text, p, v, v) == text
  {
  }

  // What setting a pin does to the text.

  /** The digest's edit finds the text it looks for: the branch the program guards. */
  predicate StaleStands(layout: Layout, t: Spot, d: Spot, tag: string)
    requires Holds(layout, t) && Holds(layout, d)
  {
    StandsAt(Shown(WithValue(layout, t, tag)[d.line]), NodeAt(layout, d).column, Value(layout, d))
  }

  /** When `setPin` writes the new pin: the tag is plain and the digest is still where it was
      found, or keeps its value and some copy of it stands there. */
  predicate Placed(layout: Layout, t: Spot, d: Spot, tag: string, digest: string)
    requires Holds(layout, t) && Holds(layout, d)
  {
    && PieceAt(layout, t).lead == ""
    && (|PieceAt(layout, d).lead| + Shift(layout, t, d, tag) == 0
        || (digest == Value(layout, d) && StaleStands(layout, t, d, tag)))
  }

  /** What is found where the parser puts a dressed scalar is not its value. */
  lemma DressedMisplaced(layout: Layout, s: Spot, value: string)
    requires Holds(layout, s) && Dressed(PieceAt(layout, s)) && PieceAt(layout, s).lead != ""
    ensures Edit(Texts(layout), NodeAt(layout, s), value) == Err(Misplaced)
  {
    ShownAround(layout[s.line], s.index);
    assert Shown(layout[s.line])[NodeAt(layout, s).column..][0] == PieceAt(layout, s).lead[0];
  }

  lemma EditStanding(lines: seq<string>, node: Node, value: string)
    requires node.line < |lines| && StandsAt(lines[node.line], node.column, node.value)
    ensures Edit(lines, node, value) == Ok(lines[node.line := Splice(lines[node.line], node.column, node.value, value)])
  {
  }

  lemma PlainColumn(layout: Layout, s: Spot)
    requires Holds(layout, s) && PieceAt(layout, s).lead == ""
    ensures NodeAt(layout, s) == Node(s.line, ValueColumn(layout, s), Value(layout, s))
    ensures s.line < |layout|
  {
  }

  lemma TagEdit(layout: Layout, t: Spot, tag: string)
    requires Holds(layout, t) && Dressed(PieceAt(layout, t))
    ensures Edit(Texts(layout), NodeAt(layout, t), tag)
            == if PieceAt(layout, t).lead == "" then Ok(Texts(WithValue(layout, t, tag))) else Err(Misplaced)
  {
    hide *;
    if PieceAt(layout, t).lead != "" {
      DressedMisplaced(layout, t, tag);
    } else {
      PlainColumn(layout, t);
      ChangeIsSplice(layout, t, tag);
      EditStanding(Texts(layout), NodeAt(layout, t), tag);
    }
  }

  lemma DigestEdit(layout: Layout, d: Spot, column: nat, digest: string)
    requires Holds(layout, d) && DigestText(Value(layout, d)) && DigestText(digest)
    ensures var edited := Edit(Texts(layout), Node(d.line, column, Value(layout, d)), digest);
            edited == Ok(Texts(WithValue(layout, d, digest)))
            <==> column == ValueColumn(layout, d)
                 || (digest == Value(layout, d) && StandsAt(Shown(layout[d.line]), column, digest))
  {
    var text, v, q := Shown(layout[d.line]), Value(layout, d), ValueColumn(layout, d);
    ChangeIsSplice(layout, d, digest);
    if StandsAt(text, column, v) {
      if digest == v {
        SpliceSame(text, column, v);
        SpliceSame(text, q, v);
      } else if column < q {
        CopiesDiffer(text, column, q, v, digest);
      } else if q < column {
        CopiesDiffer(text, q, column, v, digest);
      }
      assert Texts(layout)[d.line := Splice(text, column, v, digest)][d.line] == Splice(text, column, v, digest);
      assert Texts(layout)[d.line := Splice(text, q, v, digest)][d.line] == Splice(text, q, v, digest);
    }
  }

  /** `setPin` produces the text with the two values changed and everything else kept, exactly
      when `Placed`: never when a longer or shorter tag stands before a moved digest on its line. */
  lemma SetPinExactly(layout: Layout, t: Spot, d: Spot, tag: string, digest: string)
    requires PinStands(layout, t, d) && DigestText(digest)
    ensures EditBoth(Texts(layout), NodeAt(layout, t), NodeAt(layout, d), tag, digest)
            == Ok(Texts(WithPin(layout, t, d, tag, digest)))
            <==> Placed(layout, t, d, tag, digest)
  {
    TagEdit(layout, t, tag);
    if PieceAt(layout, t).lead == "" {
      var edited := WithValue(layout, t, tag);
      ColumnShifts(layout, t, d, tag);
      assert PieceAt(edited, d) == PieceAt(layout, d);
      DigestEdit(edited, d, NodeAt(layout, d).column, digest);
    }
  }

  /** On lines of their own: the pin is set, or a dressed scalar is refused and nothing is. */
  lemma SetPinApart(layout: Layout, t: Spot, d: Spot, tag: string, digest: string)
    requires PinStands(layout, t, d) && Dressed(PieceAt(layout, d)) && Shift(layout, t, d, tag) == 0
    ensures EditBoth(Texts(layout), NodeAt(layout, t), NodeAt(layout, d), tag, digest)
            == if PieceAt(layout, t).lead == "" && PieceAt(layout, d).lead == ""
               then Ok(Texts(WithPin(layout, t, d, tag, digest))) else Err(Misplaced)
  {
    hide Edit, DigestText, Shown;
    TagEdit(layout, t, tag);
    ColumnShifts(layout, t, d, tag);
    assert PieceAt(WithValue(layout, t, tag), d) == PieceAt(layout, d);
    TagEdit(WithValue(layout, t, tag), d, digest);
  }

  /** Said on the text: two spans change, and every other byte of every line is where it was. */
  lemma SetPinFrame(layout: Layout, t: Spot, d: Spot, tag: string, digest: string)
    requires Holds(layout, t) && Holds(layout, d) && t.line != d.line
    ensures var was, now := Texts(layout), Texts(WithPin(layout, t, d, tag, digest));
      && |now| == |was|
      && (forall l :: 0 <= l < |was| && l != t.line && l != d.line ==> now[l] == was[l])
      && StandsAt(was[t.line], ValueColumn(layout, t), Value(layout, t))
      && now[t.line] == Splice(was[t.line], ValueColumn(layout, t), Value(layout, t), tag)
      && StandsAt(was[d.line], ValueColumn(layout, d), Value(layout, d))
      && now[d.line] == Splice(was[d.line], ValueColumn(layout, d), Value(layout, d), digest)
  {
    var edited := WithValue(layout, t, tag);
    ChangeIsSplice(layout, t, tag);
    ChangeIsSplice(edited, d, digest);
    assert edited[d.line] == layout[d.line];
    ChangeIsSplice(layout, d, digest);
  }

  // Two flow-style lines, with the digest behind a tag of another length.

  function Repeated(c: char, n: nat): (s: string)
    ensures |s| == n && forall i :: 0 <= i < n ==> s[i] == c
  {
    seq(n, i => c)
  }

  function SomeDigest(c: char): string {
    "sha256:" + Repeated(c, 64)
  }

  lemma SomeDigestIsOne(c: char)
    requires Hexadecimal(c)
    ensures DigestText(SomeDigest(c)) && |SomeDigest(c)| == 71
  {
    assert SomeDigest(c)[..7] == "sha256:";
  }

  /** `{tag: v1,` and the digest behind what stands between. */
  function FlowLine(between: string): Layout {
    [[Fixed("{tag: "), Scalar("", "v1"), Fixed(between), Scalar("", SomeDigest('a')), Fixed("}")]]
  }

  const FLOW_TAG := Spot(0, 1)
  const FLOW_DIGEST := Spot(0, 3)

  lemma FiveShown(a: Piece, b: Piece, c: Piece, d: Piece, e: Piece)
    ensures Shown([a, b, c, d, e]) == a.Shown() + (b.Shown() + (c.Shown() + (d.Shown() + (e.Shown() + ""))))
  {
    var all := [a, b, c, d, e];
    assert all[1..] == [b, c, d, e] && all[1..][1..] == [c, d, e];
    assert [c, d, e][1..] == [d, e] && [d, e][1..] == [e] && [e][1..] == [];
    hide Piece.Shown;
    assert Shown([e]) == e.Shown() + "";
    assert Shown([d, e]) == d.Shown() + Shown([e]);
    assert Shown([c, d, e]) == c.Shown() + Shown([d, e]);
    assert Shown([b, c, d, e]) == b.Shown() + Shown([c, d, e]);
  }

  lemma FlowStands(between: string)
    ensures PinStands(FlowLine(between), FLOW_TAG, FLOW_DIGEST)
    ensures NodeAt(FlowLine(between), FLOW_DIGEST).column == 8 + |between|
  {
    SomeDigestIsOne('a');
    var pieces := FlowLine(between)[0];
    assert pieces[..3] == [pieces[0], pieces[1], pieces[2]];
    ThreeShown(pieces[0], pieces[1], pieces[2]);
  }

  lemma ThreeShown(a: Piece, b: Piece, c: Piece)
    ensures Shown([a, b, c]) == a.Shown() + (b.Shown() + (c.Shown() + ""))
  {
    assert [a, b, c][1..] == [b, c] && [b, c][1..] == [c] && [c][1..] == [];
    hide Piece.Shown;
    assert Shown([c]) == c.Shown() + "";
    assert Shown([b, c]) == b.Shown() + Shown([c]);
  }

  /** The line once the tag has been edited. */
  lemma FlowEdited(between: string, tag: string)
    ensures Edit(Texts(FlowLine(between)), NodeAt(FlowLine(between), FLOW_TAG), tag)
            == Ok(["{tag: " + (tag + (between + (SomeDigest('a') + ("}" + ""))))])
  {
    var layout := FlowLine(between);
    TagEdit(layout, FLOW_TAG, tag);
    var pieces := WithValue(layout, FLOW_TAG, tag)[0];
    assert pieces == [layout[0][0], Scalar("", tag), layout[0][2], layout[0][3], layout[0][4]];
    FiveShown(pieces[0], pieces[1], pieces[2], pieces[3], pieces[4]);
    assert "" + tag == tag && "" + SomeDigest('a') == SomeDigest('a');
    assert Texts(WithValue(layout, FLOW_TAG, tag)) == [Shown(pieces)];
  }

  /** A tag one character longer, and the digest is not found. */
  lemma LongerTagRefused()
    ensures EditBoth(Texts(FlowLine(", digest: ")), NodeAt(FlowLine(", digest: "), FLOW_TAG),
                     NodeAt(FlowLine(", digest: "), FLOW_DIGEST), "v10", SomeDigest('b')) == Err(Misplaced)
  {
    var layout, digest := FlowLine(", digest: "), SomeDigest('a');
    FlowStands(", digest: ");
    FlowEdited(", digest: ", "v10");
    SomeDigestIsOne('a');
    DigestOpens(digest);
    SpaceThere(digest);
    hide FlowLine, SomeDigest, DigestText, PinStands;
  }

  lemma SpaceThere(digest: string)
    requires digest != "" && digest[0] != ' '
    ensures !StandsAt("{tag: " + ("v10" + (", digest: " + (digest + ("}" + "")))), 18, digest)
    ensures |"{tag: " + ("v10" + (", digest: " + (digest + ("}" + ""))))| >= 18
  {
    var text := "{tag: " + ("v10" + (", digest: " + (digest + ("}" + ""))));
    assert text[18] == ' ' && text[18..][0] == text[18];
  }

  const COPY := ", was: " + SomeDigest('a') + ", digest: "

  /** A copy of the digest stands where the digest was looked for, and is edited in its place. */
  lemma CopyEdited()
    ensures var layout, tag, digest := FlowLine(COPY), Repeated('1', 83), SomeDigest('b');
            var edited := EditBoth(Texts(layout), NodeAt(layout, FLOW_TAG), NodeAt(layout, FLOW_DIGEST), tag, digest);
            TagText(tag) && edited.Ok? && edited != Ok(Texts(WithPin(layout, FLOW_TAG, FLOW_DIGEST, tag, digest)))
  {
    var layout, tag, digest := FlowLine(COPY), Repeated('1', 83), SomeDigest('a');
    FlowStands(COPY);
    FlowEdited(COPY, tag);
    SomeDigestIsOne('a');
    SomeDigestIsOne('b');
    assert digest[7] == 'a' && SomeDigest('b')[7] == 'b';
    SetPinExactly(layout, FLOW_TAG, FLOW_DIGEST, tag, SomeDigest('b'));
    CopyStands("{tag: ", tag, ", was: ", digest, ", digest: ", digest + ("}" + ""));
  }

  lemma CopyStands(a: string, tag: string, b: string, digest: string, c: string, rest: string)
    ensures StandsAt(a + (tag + ((b + digest + c) + rest)), |a| + |tag| + |b|, digest)
  {
    var text := a + (tag + ((b + digest + c) + rest));
    assert text == (a + tag + b) + digest + (c + rest);
    assert text[|a + tag + b|..] == digest + (c + rest);
  }
}
